/** The five guarantees the Raft module names, over every run of the cluster. */
module RaftSafety {
  import opened RaftNodes
  import opened RaftCluster
  import opened RaftInvariant
  import opened RaftLemmas
  import opened RaftElections
  import opened RaftReplication

  // ----- The invariant is inductive -----

  lemma InitInv(c: Cluster)
    requires Init(c)
    ensures Inv(c, EMPTY)
  {
    var h := EMPTY;
    assert Supports(h, 0, 0, [DUMMY]);
    assert LogOk(h, [DUMMY], 0) by { assert EntryOk(h, [DUMMY], 0, 0); }
    forall n | n in c.nodes
      ensures NodeOk(h, c.nodes[n])
    {
      assert StoreOk(h, c.nodes[n]);
    }
  }

  lemma NextInv(c: Cluster, h: History, s: Step)
    requires Inv(c, h) && Enabled(c, s)
    ensures Extends(h, Record(c, h, s)) && Inv(Next(c, s), Record(c, h, s))
  {
    hide Extends, LeadersOk, ElectionsOk, CandidaciesOk, VotesOk, AckedBounded, PointsOk, MessagesOk, NodesOk, PeersOf;
    ExtendsItself(h);
    match s
    case Timeout(n) =>
      var (m, args) := StartElection(c.nodes[n]);
      NodeAt(c, h, n);
      TimeoutKeeps(c, h, n, m, args, Record(c, h, s));
    case DeliverVote(msg) =>
      var (m, reply) := OnVote(c.nodes[msg.to], msg.vote);
      NodeAt(c, h, msg.to);
      MessageAt(c.net, h, msg);
      VoteKeeps(c, h, msg.to, msg.vote, m, reply, Record(c, h, s));
    case PromoteNode(n, voters) =>
      NodeAt(c, h, n);
      PromoteKeeps(c, h, n, voters, Record(c, h, s));
    case ProposeCommand(n, command) =>
      NodeAt(c, h, n);
      if c.nodes[n].role == Leader {
        ProposeKeeps(c, h, n, Propose(c.nodes[n], command).0, Entry(c.nodes[n].term, |c.nodes[n].log|, command),
          Record(c, h, s));
      } else {
        assert c.nodes[n := c.nodes[n]] == c.nodes;
      }
    case SendAppend(_, _, _, _, _) =>
      SendKeeps(c, h, s);
    case DeliverAppend(msg) =>
      var (m, reply) := OnAppend(c.nodes[msg.to], msg.append);
      NodeAt(c, h, msg.to);
      MessageAt(c.net, h, msg);
      AppendedFrame(c.nodes[msg.to], msg.append);
      AppendKeeps(c, h, msg.to, msg.append, m, reply, Record(c, h, s));
    case Credit(msg, credit) =>
      CreditKeeps(c, h, msg, credit);
    case Advance(n) =>
      NodeAt(c, h, n);
      AdvanceStep(c, h, n);
  }

  lemma ExtendsItself(h: History)
    ensures Extends(h, h)
  {
  }

  lemma ExtendsFurther(h0: History, h1: History, h2: History)
    requires Extends(h0, h1) && Extends(h1, h2)
    ensures Extends(h0, h2)
  {
  }

  lemma MessageAt(net: set<Message>, h: History, m: Message)
    requires MessagesOk(net, h) && m in net
    ensures MessageOk(h, m)
  {
  }

  lemma AdvanceStep(c: Cluster, h: History, i: NodeId)
    requires Inv(c, h) && i in c.nodes && c.nodes[i].id == i
    ensures Extends(h, Record(c, h, Advance(i))) && Inv(Next(c, Advance(i)), Record(c, h, Advance(i)))
  {
    hide Extends, LeadersOk, ElectionsOk, CandidaciesOk, VotesOk, AckedBounded, PointsOk, MessagesOk, NodesOk, PeersOf;
    var n := c.nodes[i];
    var (m, advanced) := AdvanceCommit(n);
    var h' := Record(c, h, Advance(i));
    if advanced {
      var k := HighestCommittable(n, |n.log| - 1);
      assert m.commit == k;
      assert Advanced(h, c.nodes.Keys, n, k, h');
      AdvanceKeeps(c, h, i, k, m, h');
    } else {
      ExtendsItself(h);
      assert c.nodes[i := n] == c.nodes;
    }
  }

  // ----- Histories of runs -----

  /** The history after each state of a run. */
  ghost predicate Recorded(r: Run, hs: seq<History>) {
    && IsRun(r) && |hs| == |r.states| && hs[0] == EMPTY
    && forall i :: 0 <= i < |r.steps| ==> hs[i + 1] == Record(r.states[i], hs[i], r.steps[i])
  }

  lemma {:induction false} HistoryOf(r: Run, n: nat) returns (hs: seq<History>)
    requires IsRun(r) && n < |r.states|
    ensures |hs| == n + 1 && hs[0] == EMPTY
    ensures forall i :: 0 <= i < n ==> hs[i + 1] == Record(r.states[i], hs[i], r.steps[i])
  {
    if n == 0 {
      hs := [EMPTY];
    } else {
      hs := HistoryOf(r, n - 1);
      hs := hs + [Record(r.states[n - 1], hs[n - 1], r.steps[n - 1])];
    }
  }

  /** Every run has a history; every state of the run satisfies the invariant with it. */
  lemma RunHistory(r: Run) returns (hs: seq<History>)
    requires IsRun(r)
    ensures Recorded(r, hs)
    ensures forall i :: 0 <= i < |hs| ==> Inv(r.states[i], hs[i])
  {
    hs := HistoryOf(r, |r.states| - 1);
    forall i | 0 <= i < |hs|
      ensures Inv(r.states[i], hs[i])
    {
      StateInv(r, hs, i);
    }
  }

  lemma {:induction false} StateInv(r: Run, hs: seq<History>, i: nat)
    requires Recorded(r, hs) && i < |hs|
    ensures Inv(r.states[i], hs[i])
  {
    hide Inv, Init, Record, Next, LooselyEnabled;
    if i == 0 {
      InitInv(r.states[0]);
    } else {
      StateInv(r, hs, i - 1);
      assert Enabled(r.states[i - 1], r.steps[i - 1]) && r.states[i] == Next(r.states[i - 1], r.steps[i - 1]);
      NextInv(r.states[i - 1], hs[i - 1], r.steps[i - 1]);
    }
  }

  // ----- Election Safety -----

  /** A run forgets nothing of its history. */
  lemma {:induction false} ExtendsTo(r: Run, hs: seq<History>, i: nat, j: nat)
    requires Recorded(r, hs) && i <= j < |hs|
    ensures Extends(hs[i], hs[j])
    decreases j - i
  {
    hide Inv, Init, Next, Record, LooselyEnabled, Extends;
    if i < j {
      ExtendsTo(r, hs, i, j - 1);
      StateInv(r, hs, j - 1);
      assert Enabled(r.states[j - 1], r.steps[j - 1]);
      NextInv(r.states[j - 1], hs[j - 1], r.steps[j - 1]);
      ExtendsFurther(hs[i], hs[j - 1], hs[j]);
    } else {
      ExtendsItself(hs[i]);
    }
  }

  /** Election Safety: in any run, at most one promotion happens in a term. */
  lemma ElectionSafety(r: Run, i: nat, j: nat)
    requires IsRun(r) && i < |r.steps| && j < |r.steps|
    requires r.steps[i].PromoteNode? && r.steps[j].PromoteNode?
    requires r.steps[i].node in r.states[i].nodes && r.steps[j].node in r.states[j].nodes
    requires r.states[i].nodes[r.steps[i].node].term == r.states[j].nodes[r.steps[j].node].term
    ensures i == j
  {
    hide Inv, Init, LooselyEnabled, Next, Record;
    var hs := RunHistory(r);
    var a, b := if i <= j then i else j, if i <= j then j else i;
    if a < b {
      PromotionRecorded(r, hs, a);
      ExtendsTo(r, hs, a + 1, b);
      PromotionRecorded(r, hs, b);
    }
  }

  lemma PromotionRecorded(r: Run, hs: seq<History>, i: nat)
    requires Recorded(r, hs) && i < |r.steps| && r.steps[i].PromoteNode? && Inv(r.states[i], hs[i])
    ensures var n := r.steps[i].node;
      n in r.states[i].nodes && var t := r.states[i].nodes[n].term; t !in hs[i].base && t in hs[i + 1].base
  {
    hide LeadersOk, ElectionsOk, CandidaciesOk, VotesOk, AckedBounded, PointsOk, MessagesOk, NodesOk, PeersOf;
    var c, s := r.states[i], r.steps[i];
    assert Enabled(c, s) && hs[i + 1] == Record(c, hs[i], s);
    PromoteKeeps(c, hs[i], s.node, s.voters, Record(c, hs[i], s));
  }

  /** At any moment of any run, two leaders of one term are the same node. */
  lemma OneLeaderPerTerm(r: Run, i: nat, a: NodeId, b: NodeId)
    requires IsRun(r) && i < |r.states| && a in r.states[i].nodes && b in r.states[i].nodes
    requires r.states[i].nodes[a].role == Leader && r.states[i].nodes[b].role == Leader
    requires r.states[i].nodes[a].term == r.states[i].nodes[b].term
    ensures a == b
  {
    hide Inv, IsRun, StoreOk;
    var hs := RunHistory(r);
    NodeFacts(r, hs, i, a);
    NodeFacts(r, hs, i, b);
  }

  lemma NodeFacts(r: Run, hs: seq<History>, i: nat, a: NodeId)
    requires Recorded(r, hs) && i < |hs| && Inv(r.states[i], hs[i]) && a in r.states[i].nodes
    ensures var n := r.states[i].nodes[a]; n.id == a && StoreOk(hs[i], n) && RoleOk(hs[i], n)
    ensures HistoryOk(hs[i], r.states[i].nodes.Keys)
  {
    hide StoreOk, RoleOk, BallotOk, AcksOk, HistoryOk, MessagesOk, PeersOf, IsRun;
  }

  // ----- Leader Append-Only -----

  /** From one moment at which a node leads a term to any later one, its log has only been extended. */
  lemma LeaderAppendOnly(r: Run, i: nat, j: nat, a: NodeId)
    requires IsRun(r) && i <= j < |r.states| && a in r.states[i].nodes && a in r.states[j].nodes
    requires r.states[i].nodes[a].role == Leader && r.states[j].nodes[a].role == Leader
    requires r.states[i].nodes[a].term == r.states[j].nodes[a].term
    ensures r.states[i].nodes[a].log <= r.states[j].nodes[a].log
  {
    hide Inv, IsRun, StoreOk, HistoryOk;
    var hs := RunHistory(r);
    NodeFacts(r, hs, i, a);
    NodeFacts(r, hs, j, a);
    ExtendsTo(r, hs, i, j);
  }

  // ----- Log Matching -----

  /** Log Matching: in any state of any run every entry sits at its own index, and two logs holding
      an entry of the same index and term are identical up to it. */
  lemma LogMatching(r: Run, i: nat, a: NodeId, b: NodeId, k: nat)
    requires IsRun(r) && i < |r.states| && a in r.states[i].nodes && b in r.states[i].nodes
    requires k < |r.states[i].nodes[a].log| && k < |r.states[i].nodes[b].log|
    ensures r.states[i].nodes[a].log[k].index == k
    ensures r.states[i].nodes[a].log[k].term == r.states[i].nodes[b].log[k].term
            ==> r.states[i].nodes[a].log[..k + 1] == r.states[i].nodes[b].log[..k + 1]
  {
    hide Inv, IsRun, HistoryOk, RoleOk, Committed;
    var hs := RunHistory(r);
    NodeFacts(r, hs, i, a);
    NodeFacts(r, hs, i, b);
    var n, m := r.states[i].nodes[a], r.states[i].nodes[b];
    assert EntryOk(hs[i], n.log, n.term, k);
    if n.log[k].term == m.log[k].term {
      LogsAgree(hs[i], n.log, m.log, n.term, m.term, k);
    }
  }

  /** Log Matching between a log and the entries of a message in flight. */
  lemma LogMatchingInFlight(r: Run, i: nat, a: NodeId, m: Message, k: nat)
    requires IsRun(r) && i < |r.states| && a in r.states[i].nodes
    requires m in r.states[i].net && m.AppendEntries? && k < |m.append.entries|
    ensures m.append.entries[k].index == m.append.prevIndex + 1 + k
    ensures var log, at := r.states[i].nodes[a].log, m.append.prevIndex + 1 + k;
      at < |log| && log[at].term == m.append.entries[k].term
      ==> log[m.append.prevIndex].term == m.append.prevTerm
          && log[m.append.prevIndex + 1..at + 1] == m.append.entries[..k + 1]
  {
    hide Inv, IsRun, HistoryOk, RoleOk, StoreOk, AppendOk, LogOk;
    var hs := RunHistory(r);
    NodeFacts(r, hs, i, a);
    MessageFacts(r, hs, i, m);
    InFlight(hs[i], r.states[i].nodes.Keys, r.states[i].nodes[a], m.to, m.append, k);
  }

  lemma MessageFacts(r: Run, hs: seq<History>, i: nat, m: Message)
    requires Recorded(r, hs) && i < |hs| && Inv(r.states[i], hs[i]) && m in r.states[i].net
    ensures MessageOk(hs[i], m)
  {
    hide HistoryOk, NodesOk, IsRun, MessageOk;
  }

  lemma InFlight(h: History, members: set<NodeId>, n: Node, to: NodeId, x: AppendArgs, k: nat)
    requires HistoryOk(h, members) && StoreOk(h, n) && AppendOk(h, to, x) && k < |x.entries|
    ensures x.entries[k].index == x.prevIndex + 1 + k
    ensures var at := x.prevIndex + 1 + k;
      at < |n.log| && n.log[at].term == x.entries[k].term
      ==> n.log[x.prevIndex].term == x.prevTerm && n.log[x.prevIndex + 1..at + 1] == x.entries[..k + 1]
  {
    hide ElectionsOk, CandidaciesOk, VotesOk, AckedBounded, PointsOk, Committed;
    LeaderLog(h, x.term);
    var leader, at := h.ldr[x.term], x.prevIndex + 1 + k;
    assert leader[at] == x.entries[k];
    assert EntryOk(h, leader, x.term, at);
    if at < |n.log| && n.log[at].term == x.entries[k].term {
      LogsAgree(h, n.log, leader, n.term, x.term, at);
      assert n.log[x.prevIndex] == n.log[..at + 1][x.prevIndex] == leader[..at + 1][x.prevIndex];
      assert n.log[x.prevIndex + 1..at + 1] == n.log[..at + 1][x.prevIndex + 1..]
        == leader[..at + 1][x.prevIndex + 1..];
      assert x.entries[..k + 1] == leader[..at + 1][x.prevIndex + 1..];
    }
  }

  // ----- Leader Completeness -----

  /** Leader Completeness: when the leader of term t commits up to index k, every leader of a term from t
      on, at that moment or later, has those same entries. */
  lemma LeaderCompleteness(r: Run, i: nat, a: NodeId, j: nat, b: NodeId)
    requires IsRun(r) && i < |r.steps| && i < j < |r.states|
    requires r.steps[i] == Advance(a) && a in r.states[i].nodes && AdvanceCommit(r.states[i].nodes[a]).1
    requires b in r.states[j].nodes && r.states[j].nodes[b].role == Leader
    requires r.states[i].nodes[a].term <= r.states[j].nodes[b].term
    ensures var n := AdvanceCommit(r.states[i].nodes[a]).0;
      n.commit < |n.log| && n.commit < |r.states[j].nodes[b].log|
      && n.log[..n.commit + 1] == r.states[j].nodes[b].log[..n.commit + 1]
  {
    hide Inv, IsRun, HistoryOk, StoreOk, AdvanceCommit;
    var hs := RunHistory(r);
    var n, m := r.states[i].nodes[a], r.states[j].nodes[b];
    var p := Point(n.term, AdvanceCommit(n).0.commit);
    AdvanceRecorded(r, hs, i, a);
    ExtendsTo(r, hs, i + 1, j);
    NodeFacts(r, hs, j, b);
    LeaderHolds(hs[j], r.states[j].nodes.Keys, p, m.term);
    assert n.log[..p.index + 1] == hs[j].ldr[n.term][..p.index + 1];
  }

  lemma AdvanceRecorded(r: Run, hs: seq<History>, i: nat, a: NodeId)
    requires Recorded(r, hs) && i < |r.steps| && Inv(r.states[i], hs[i])
    requires r.steps[i] == Advance(a) && a in r.states[i].nodes && AdvanceCommit(r.states[i].nodes[a]).1
    ensures var n := r.states[i].nodes[a];
      var k := AdvanceCommit(n).0.commit;
      Point(n.term, k) in hs[i + 1].points && k < |n.log| && n.term in hs[i + 1].ldr && n.log == hs[i + 1].ldr[n.term]
      && AdvanceCommit(n).0.log == n.log
  {
    hide Inv, HistoryOk, StoreOk, Next;
    var c := r.states[i];
    assert Enabled(c, r.steps[i]) && hs[i + 1] == Record(c, hs[i], r.steps[i]);
    NodeFacts(r, hs, i, a);
  }

  // ----- State Machine Safety -----

  predicate Prefixes(a: seq<Command>, b: seq<Command>) {
    a <= b || b <= a
  }

  /** Two committed prefixes in one state agree as far as both go. */
  lemma CommittedAgree(h: History, members: set<NodeId>, n: Node, m: Node)
    requires HistoryOk(h, members) && StoreOk(h, n) && StoreOk(h, m) && n.commit <= m.commit
    ensures n.log[..n.commit + 1] == m.log[..n.commit + 1]
  {
    hide LeadersOk, ElectionsOk, CandidaciesOk, VotesOk, AckedBounded, PointsOk, LogOk, Commands;
    if n.commit == 0 {
      StartsWithDummy(h, members, n.log, n.term);
      StartsWithDummy(h, members, m.log, m.term);
      OneEntry(n.log, m.log);
    } else {
      var p :| p in h.points && p.term <= m.term && m.commit <= p.index && Supports(h, p.term, m.commit, m.log);
      var q :| q in h.points && q.term <= n.term && n.commit <= q.index && Supports(h, q.term, n.commit, n.log);
      PointsAgree(h, members, p, q, n.commit);
      ShorterPrefix(m.log, h.ldr[p.term], m.commit + 1, n.commit + 1);
    }
  }

  lemma OneEntry(a: seq<Entry>, b: seq<Entry>)
    requires a != [] && b != [] && a[0] == b[0]
    ensures a[..1] == b[..1]
  {
  }

  lemma PointsAgree(h: History, members: set<NodeId>, p: Point, q: Point, k: nat)
    requires HistoryOk(h, members) && p in h.points && q in h.points && k <= p.index && k <= q.index
    ensures p.term in h.ldr && q.term in h.ldr && k < |h.ldr[p.term]| && k < |h.ldr[q.term]|
    ensures h.ldr[p.term][..k + 1] == h.ldr[q.term][..k + 1]
  {
    hide LeadersOk, ElectionsOk, CandidaciesOk, VotesOk, AckedBounded;
    assert PointOk(h, members, p) && PointOk(h, members, q);
    if p.term <= q.term {
      LeaderHolds(h, members, p, q.term);
      ShorterPrefix(h.ldr[q.term], h.ldr[p.term], p.index + 1, k + 1);
    } else {
      LeaderHolds(h, members, q, p.term);
      ShorterPrefix(h.ldr[p.term], h.ldr[q.term], q.index + 1, k + 1);
    }
  }

  lemma MachinesAgree(h: History, members: set<NodeId>, n: Node, m: Node)
    requires HistoryOk(h, members) && StoreOk(h, n) && StoreOk(h, m) && n.commit <= m.commit
    ensures n.machine <= m.machine
  {
    hide HistoryOk, LogOk, Committed;
    CommittedAgree(h, members, n, m);
    TailAfterFirst(n.log, m.log, n.commit);
    AppliedMore(m.log, n.commit, m.commit);
  }

  /** A node's machine only ever grows. */
  lemma MachineGrows(c: Cluster, s: Step, a: NodeId)
    requires Enabled(c, s) && a in c.nodes
    ensures a in Next(c, s).nodes && c.nodes[a].machine <= Next(c, s).nodes[a].machine
  {
  }

  lemma {:induction false} MachineGrowsTo(r: Run, i: nat, j: nat, a: NodeId)
    requires IsRun(r) && i <= j < |r.states| && a in r.states[i].nodes
    ensures a in r.states[j].nodes && r.states[i].nodes[a].machine <= r.states[j].nodes[a].machine
    decreases j - i
  {
    hide Init, Next, LooselyEnabled;
    if i < j {
      MachineGrowsTo(r, i, j - 1, a);
      assert Enabled(r.states[j - 1], r.steps[j - 1]) && r.states[j] == Next(r.states[j - 1], r.steps[j - 1]);
      MachineGrows(r.states[j - 1], r.steps[j - 1], a);
    }
  }

  /** State Machine Safety: in any run, of the command sequences two nodes have applied by any two
      moments, one is a prefix of the other. */
  lemma StateMachineSafety(r: Run, i: nat, a: NodeId, j: nat, b: NodeId)
    requires IsRun(r) && i <= j < |r.states| && a in r.states[i].nodes && b in r.states[j].nodes
    ensures Prefixes(r.states[i].nodes[a].machine, r.states[j].nodes[b].machine)
  {
    hide Inv, IsRun, HistoryOk, StoreOk, RoleOk;
    var hs := RunHistory(r);
    MachineGrowsTo(r, i, j, a);
    var n, m := r.states[j].nodes[a], r.states[j].nodes[b];
    NodeFacts(r, hs, j, a);
    NodeFacts(r, hs, j, b);
    if n.commit <= m.commit {
      MachinesAgree(hs[j], r.states[j].nodes.Keys, n, m);
    } else {
      MachinesAgree(hs[j], r.states[j].nodes.Keys, m, n);
    }
    PrefixesOfOne(r.states[i].nodes[a].machine, n.machine, m.machine);
  }

  lemma PrefixesOfOne(a: seq<Command>, n: seq<Command>, m: seq<Command>)
    requires a <= n && Prefixes(n, m)
    ensures Prefixes(a, m)
  {
  }

  /** No run ever empties a log: the handlers that look at the last entry can always be called. */
  lemma LogsNeverEmpty(r: Run, i: nat, a: NodeId)
    requires IsRun(r) && i < |r.states| && a in r.states[i].nodes
    ensures r.states[i].nodes[a].log != [] && r.states[i].nodes[a].log[0] == DUMMY
  {
    hide Inv, IsRun, HistoryOk, RoleOk;
    var hs := RunHistory(r);
    NodeFacts(r, hs, i, a);
    StartsWithDummy(hs[i], r.states[i].nodes.Keys, r.states[i].nodes[a].log, r.states[i].nodes[a].term);
  }
}
