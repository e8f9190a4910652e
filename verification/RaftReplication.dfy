/** Replication keeps the invariant: proposing, sending, appending, crediting and committing. */
module RaftReplication {
  import opened RaftNodes
  import opened RaftCluster
  import opened RaftInvariant
  import opened RaftLemmas
  import opened RaftElections

  // ----- Proposing: the leader of term t appends to its own log -----

  ghost predicate Proposed(h: History, n: Node, e: Entry, h': History) {
    && e.term == n.term && e.index == |n.log|
    && h' == h.(ldr := h.ldr[n.term := n.log + [e]], acked := h.acked[(n.id, n.term) := |n.log|])
  }

  lemma ProposedExtends(h: History, n: Node, e: Entry, h': History)
    requires AckedBounded(h) && RoleOk(h, n) && n.role == Leader && Proposed(h, n, e, h')
    ensures Extends(h, h')
  {
    if (n.id, n.term) in h.acked {
      assert AckedOk(h, (n.id, n.term));
    }
  }

  /** The leader's longer log is sound. */
  lemma ProposedLog(h: History, n: Node, e: Entry, h': History)
    requires StoreOk(h, n) && Proposed(h, n, e, h') && Extends(h, h')
    ensures LogOk(h', n.log + [e], n.term)
  {
    var log := n.log + [e];
    LogStable(h, h', n.log, n.term);
    forall i | 0 <= i < |log|
      ensures EntryOk(h', log, n.term, i)
    {
      if i < |n.log| {
        assert EntryOk(h', n.log, n.term, i);
        assert log[..i + 1] == n.log[..i + 1];
      } else {
        assert log[..i + 1] == log;
      }
    }
  }

  lemma ProposedHistory(h: History, members: set<NodeId>, n: Node, e: Entry, h': History)
    requires HistoryOk(h, members) && NodeOk(h, n) && n.role == Leader && Proposed(h, n, e, h') && Extends(h, h')
    ensures HistoryOk(h', members)
  {
    hide VotesOk, CandidaciesOk, PointsOk, BallotOk, AcksOk, Extends, LogOk;
    ProposedLeaders(h, n, e, h');
    ProposedElections(h, members, n, e, h');
    CandidaciesStable(h, h', members);
    ProposedVotes(h, members, n, e, h');
    ProposedAcked(h, n, e, h');
    PointsStable(h, h', members);
  }

  lemma ProposedLeaders(h: History, n: Node, e: Entry, h': History)
    requires LeadersOk(h) && NodeOk(h, n) && n.role == Leader && Proposed(h, n, e, h') && Extends(h, h')
    ensures LeadersOk(h')
  {
    ProposedLog(h, n, e, h');
    forall t | t in h'.ldr && t != n.term
      ensures LogOk(h', h'.ldr[t], t)
    {
      LogStable(h, h', h.ldr[t], t);
    }
  }

  /** n acknowledges nothing below its own term, so whatever was promised about earlier terms stands. */
  lemma ProposedElections(h: History, members: set<NodeId>, n: Node, e: Entry, h': History)
    requires AckedBounded(h) && ElectionsOk(h, members) && RoleOk(h, n) && BallotOk(h, n) && n.role == Leader
    requires Proposed(h, n, e, h') && Extends(h, h')
    ensures ElectionsOk(h', members)
  {
    forall t | t in h'.base
      ensures ElectionOk(h', members, t)
    {
      assert ElectionOk(h, members, t);
      VotedUpTo(h, members, n, t);
      ElectionStable(h, h', members, t);
    }
  }

  /** A quorum member's term is at least the term it elected. */
  lemma VotedUpTo(h: History, members: set<NodeId>, n: Node, t: nat)
    requires BallotOk(h, n) && t in h.base && ElectionOk(h, members, t)
    ensures n.id in h.base[t].quorum ==> t <= n.term
  {
    if n.id in h.base[t].quorum {
      assert Vote(n.id, h.base[t].leader, t).voter == n.id;
    }
  }

  lemma ProposedVotes(h: History, members: set<NodeId>, n: Node, e: Entry, h': History)
    requires AckedBounded(h) && VotesOk(h, members) && BallotOk(h, n) && Proposed(h, n, e, h') && Extends(h, h')
    ensures VotesOk(h', members)
  {
    forall y | y in h'.votes
      ensures VoteOk(h', members, y)
    {
      assert VoteOk(h, members, y);
      VoteStable(h, h', members, y);
    }
  }

  lemma ProposedAcked(h: History, n: Node, e: Entry, h': History)
    requires AckedBounded(h) && RoleOk(h, n) && n.role == Leader && Proposed(h, n, e, h')
    ensures AckedBounded(h')
  {
    forall k | k in h'.acked
      ensures AckedOk(h', k)
    {
      if k in h.acked { assert AckedOk(h, k); }
    }
  }

  lemma ProposedNode(h: History, n: Node, m: Node, e: Entry, h': History)
    requires AckedBounded(h) && NodeOk(h, n) && n.role == Leader && Proposed(h, n, e, h') && Extends(h, h')
    requires m == n.(log := n.log + [e])
    ensures NodeOk(h', m)
  {
    ProposedStore(h, n, m, e, h');
    ProposedAcks(h, n, m, e, h');
    assert BallotOk(h', m);
    ProposedRole(h, n, m, e, h');
  }

  lemma ProposedStore(h: History, n: Node, m: Node, e: Entry, h': History)
    requires StoreOk(h, n) && Proposed(h, n, e, h') && Extends(h, h') && m == n.(log := n.log + [e])
    ensures StoreOk(h', m)
  {
    ProposedLog(h, n, e, h');
    CommittedStable(h, h', n.term, n.commit, n.log);
    assert n.log[..n.commit + 1] == m.log[..n.commit + 1];
    CommittedPrefix(h', n.term, n.commit, n.log, m.log);
    assert m.log[1..m.applied + 1] == n.log[1..n.applied + 1];
  }

  lemma ProposedRole(h: History, n: Node, m: Node, e: Entry, h': History)
    requires RoleOk(h, n) && n.role == Leader && Proposed(h, n, e, h') && Extends(h, h') && m == n.(log := n.log + [e])
    ensures RoleOk(h', m)
  {
  }

  lemma ProposedAcks(h: History, n: Node, m: Node, e: Entry, h': History)
    requires AckedBounded(h) && NodeOk(h, n) && n.role == Leader && Proposed(h, n, e, h') && Extends(h, h')
    requires m == n.(log := n.log + [e])
    ensures AcksOk(h', m)
  {
    forall t: nat, i: nat | OwnAck(h', m.id, t, i) && t < m.term + 1
      ensures Supports(h', t, i, m.log) || Broken(h', t, i, m.term + 1)
    {
      if t != n.term {
        assert AckedOk(h, (m.id, t));
        assert OwnAck(h, n.id, t, i);
        SupportsStable(h, h', t, i, n.log);
        if Supports(h', t, i, n.log) {
          assert m.log[..i + 1] == n.log[..i + 1];
        } else {
          BrokenStable(h, h', t, i, n.term + 1, n.term + 1);
        }
      }
    }
  }

  lemma ProposeKeeps(c: Cluster, h: History, i: NodeId, m: Node, e: Entry, h': History)
    requires HistoryOk(h, c.nodes.Keys) && NodesOk(c, h) && MessagesOk(c.net, h)
    requires i in c.nodes && c.nodes[i].role == Leader && Proposed(h, c.nodes[i], e, h')
    requires m == c.nodes[i].(log := c.nodes[i].log + [e])
    ensures Extends(h, h') && Inv(Cluster(c.nodes[i := m], c.net), h')
  {
    hide LeadersOk, ElectionsOk, CandidaciesOk, VotesOk, AckedBounded, PointsOk, MessagesOk, NodesOk, Extends,
      PeersOf, Proposed, StoreOk, RoleOk, BallotOk, AcksOk;
    var n := c.nodes[i];
    NodeAt(c, h, i);
    ProposedExtends(h, n, e, h');
    ProposedHistory(h, c.nodes.Keys, n, e, h');
    ProposedNode(h, n, m, e, h');
    ProposedNodes(c, h, i, m, e, h');
    MessagesStable(h, h', c.net);
    assert c.net + {} == c.net;
    Assemble(c, h', i, m, {}) by { assert MessagesOk({}, h') by { NoMessages(h'); } }
  }

  lemma NoMessages(h: History)
    ensures MessagesOk({}, h)
  {
  }

  lemma ProposedNodes(c: Cluster, h: History, i: NodeId, m: Node, e: Entry, h': History)
    requires NodesOk(c, h) && AckedBounded(h) && i in c.nodes && Proposed(h, c.nodes[i], e, h') && Extends(h, h')
    requires m.id == i && m.peers == c.nodes[i].peers && NodeOk(h', m) && c.nodes[i].role == Leader
    ensures NodesOk(Cluster(c.nodes[i := m], c.net), h')
  {
    hide NodeOk, AckedBounded, Extends, PeersOf, Proposed;
    var c' := Cluster(c.nodes[i := m], c.net);
    assert c'.nodes.Keys == c.nodes.Keys;
    forall o | o in c'.nodes
      ensures c'.nodes[o].id == o && PeersOf(c'.nodes.Keys, o, c'.nodes[o].peers) && NodeOk(h', c'.nodes[o])
    {
      NodeAt(c, h, o);
      NodeAt(c, h, i);
      if o != i {
        ProposedOther(h, c.nodes[i], e, h', c.nodes[o]);
      }
    }
  }

  lemma ProposedOther(h: History, n: Node, e: Entry, h': History, o: Node)
    requires NodeOk(h, n) && NodeOk(h, o) && AckedBounded(h) && Proposed(h, n, e, h') && Extends(h, h')
    requires n.role == Leader && n.id != o.id
    ensures NodeOk(h', o)
  {
    assert RoleOk(h, o) && RoleOk(h, n);
    BystanderStable(h, h', o);
  }

  // ----- Sending -----

  lemma SendKeeps(c: Cluster, h: History, s: Step)
    requires Inv(c, h) && s.SendAppend? && Enabled(c, s)
    ensures Inv(Next(c, s), h)
  {
    hide LeadersOk, ElectionsOk, CandidaciesOk, VotesOk, AckedBounded, PointsOk, BallotOk, AcksOk, LogOk, Supports,
      PeersOf;
    var n := c.nodes[s.node];
    NodeAt(c, h, s.node);
    var args := AppendArgs(n.term, s.node, s.prev, n.log[s.prev].term, n.log[s.prev + 1..s.prev + 1 + s.count],
      s.leaderCommit);
    CommittedShorter(h, n.term, n.commit, n.log, s.leaderCommit);
    assert AppendOk(h, s.to, args);
  }

  lemma CommittedShorter(h: History, term: nat, k: nat, log: seq<Entry>, j: nat)
    requires Committed(h, term, k, log) && j <= k
    ensures Committed(h, term, j, log)
  {
    if j != 0 {
      var p :| p in h.points && p.term <= term && k <= p.index && Supports(h, p.term, k, log);
      ShorterPrefix(log, h.ldr[p.term], k + 1, j + 1);
      assert Supports(h, p.term, j, log);
    }
  }

  // ----- Appending: what becomes of a follower's log -----

  /** `r` is what `log` becomes under a message slicing `leader` up to `upto`: all of `log` that agreed
      with the leader survives, and what is new agrees with the leader. */
  ghost predicate Merged(log: seq<Entry>, leader: seq<Entry>, r: seq<Entry>) {
    && r != [] && (r <= log || r <= leader)
    && forall i: nat {:trigger Agree(log, leader, i)} :: Agree(log, leader, i) ==> i < |r| && log[..i + 1] == r[..i + 1]
  }

  predicate Agree(log: seq<Entry>, leader: seq<Entry>, i: nat) {
    i < |log| && i < |leader| && log[..i + 1] == leader[..i + 1]
  }

  lemma AgreeAt(log: seq<Entry>, leader: seq<Entry>, i: nat, j: nat)
    requires Agree(log, leader, i) && j <= i
    ensures log[j] == leader[j]
  {
    assert log[j] == log[..i + 1][j];
    assert leader[j] == leader[..i + 1][j];
  }

  /** Logs that agree wherever their terms do, with entries at their own indices. */
  ghost predicate Matching(log: seq<Entry>, leader: seq<Entry>) {
    && (forall i :: 0 <= i < |log| && i < |leader| && log[i].term == leader[i].term ==> log[..i + 1] == leader[..i + 1])
    && (forall i :: 0 <= i < |leader| ==> leader[i].index == i)
  }

  lemma MatchingLogs(h: History, log: seq<Entry>, t: nat, leader: seq<Entry>, u: nat)
    requires LogOk(h, log, t) && LogOk(h, leader, u)
    ensures Matching(log, leader)
  {
    forall i | 0 <= i < |leader|
      ensures leader[i].index == i
    {
      assert EntryOk(h, leader, u, i);
    }
    forall i | 0 <= i < |log| && i < |leader| && log[i].term == leader[i].term
      ensures log[..i + 1] == leader[..i + 1]
    {
      LogsAgree(h, log, leader, t, u, i);
    }
  }

  /** A failed consistency check cuts only what disagreed with the leader. */
  lemma CutMerged(log: seq<Entry>, leader: seq<Entry>, prev: nat)
    requires 0 < prev < |log| && prev < |leader| && log[prev].term != leader[prev].term
    ensures Merged(log, leader, log[..prev])
  {
    forall i: nat | Agree(log, leader, i)
      ensures i < prev && log[..i + 1] == log[..prev][..i + 1]
    {
      if prev <= i {
        AgreeAt(log, leader, i, prev);
      }
    }
  }

  /** Placing a slice of the leader's log after an agreeing entry. */
  lemma {:induction false} PlacedMerged(log: seq<Entry>, leader: seq<Entry>, entries: seq<Entry>, from: nat)
    requires Matching(log, leader) && 0 < from <= |log| && from + |entries| <= |leader|
    requires log[..from] == leader[..from] && entries == leader[from..from + |entries|]
    ensures var r := PlaceAll(log, entries);
      Merged(log, leader, r) && from + |entries| <= |r| && r[..from + |entries|] == leader[..from + |entries|]
    decreases |entries|
  {
    hide Merged, Matching;
    if entries == [] {
      MergedSelf(log, leader);
    } else {
      var e := entries[0];
      assert e == leader[from];
      assert entries[1..] == leader[from + 1..from + |entries|];
      MatchingAt(log, leader, from);
      if from < |log| && log[from].term == e.term {
        PlacedMerged(log, leader, entries[1..], from + 1);
      } else {
        assert Place(log, e) == log[..from] + [e] == leader[..from + 1];
        PlacedMerged(leader[..from + 1], leader, entries[1..], from + 1);
        OverwriteMerged(log, leader, from, PlaceAll(log, entries));
      }
    }
  }

  lemma MatchingAt(log: seq<Entry>, leader: seq<Entry>, i: nat)
    requires Matching(log, leader) && i < |leader|
    ensures leader[i].index == i && (i < |log| && log[i].term == leader[i].term ==> log[..i + 1] == leader[..i + 1])
    ensures Matching(leader[..i + 1], leader)
  {
    forall j | 0 <= j <= i && leader[..i + 1][j].term == leader[j].term
      ensures leader[..i + 1][..j + 1] == leader[..j + 1]
    {
    }
  }

  lemma OverwriteMerged(log: seq<Entry>, leader: seq<Entry>, from: nat, r: seq<Entry>)
    requires 0 < from <= |log| && from < |leader| && (from < |log| ==> log[from].term != leader[from].term)
    requires Merged(leader[..from + 1], leader, r)
    ensures Merged(log, leader, r)
  {
    assert r <= leader;
    forall i: nat | Agree(log, leader, i)
      ensures i < |r| && log[..i + 1] == r[..i + 1]
    {
      if from <= i {
        AgreeAt(log, leader, i, from);
      }
      assert leader[..from + 1][..i + 1] == leader[..i + 1];
      assert Agree(leader[..from + 1], leader, i);
    }
  }

  // ----- Appending: the follower -----

  lemma LogAfter(n: Node, a: AppendArgs)
    requires n.term <= a.term
    ensures var (m, reply), known := OnAppend(n, a), a.prevIndex < |n.log| && n.log[a.prevIndex].term == a.prevTerm;
      && (reply.success <==> known)
      && m.log == if known then PlaceAll(n.log, a.entries)
                  else if a.prevIndex < |n.log| then n.log[..a.prevIndex]
                  else n.log
  {
    hide PlaceAll, Commands;
  }

  /** What OnAppend does to the log of a follower that answers in the leader's term. */
  lemma AppendedLog(h: History, members: set<NodeId>, n: Node, to: NodeId, a: AppendArgs)
    requires HistoryOk(h, members) && StoreOk(h, n) && AppendOk(h, to, a) && n.term <= a.term
    ensures var (m, reply) := OnAppend(n, a);
      && Merged(n.log, h.ldr[a.term], m.log)
      && (reply.success ==>
            var upto := a.prevIndex + |a.entries| + 1;
            upto <= |m.log| && m.log[..upto] == h.ldr[a.term][..upto])
  {
    hide LeadersOk, ElectionsOk, CandidaciesOk, VotesOk, AckedBounded, PointsOk, Committed, Merged, Matching, LogOk,
      OnAppend, PlaceAll;
    var L := h.ldr[a.term];
    LogAfter(n, a);
    LeaderLog(h, a.term);
    LogLength(h, n.log, n.term);
    MatchingLogs(h, n.log, n.term, L, a.term);
    if a.prevIndex >= |n.log| {
      MergedSelf(n.log, L);
    } else if n.log[a.prevIndex].term != a.prevTerm {
      StartsWithDummy(h, members, n.log, n.term);
      FirstIsDummy(h, members, a.term);
      CutMerged(n.log, L, a.prevIndex);
    } else {
      LogsAgree(h, n.log, L, n.term, a.term, a.prevIndex);
      PlacedMerged(n.log, L, a.entries, a.prevIndex + 1);
    }
  }

  lemma LeaderLog(h: History, t: nat)
    requires LeadersOk(h) && t in h.ldr
    ensures LogOk(h, h.ldr[t], t)
  {
  }

  lemma LogLength(h: History, log: seq<Entry>, t: nat)
    requires LogOk(h, log, t)
    ensures log != []
  {
  }

  lemma MergedSelf(log: seq<Entry>, leader: seq<Entry>)
    requires log != []
    ensures Merged(log, leader, log)
  {
  }

  /** The follower's log stays sound. */
  lemma MergedLogOk(h: History, log: seq<Entry>, term: nat, t: nat, r: seq<Entry>)
    requires LogOk(h, log, term) && t in h.ldr && LogOk(h, h.ldr[t], t) && term <= t && Merged(log, h.ldr[t], r)
    ensures LogOk(h, r, t)
  {
    if r <= log {
      PrefixOk(h, log, term, |r|);
      assert r == log[..|r|];
      MaxTermGrows(h, r, term, t);
    } else {
      PrefixOk(h, h.ldr[t], t, |r|);
      assert r == h.ldr[t][..|r|];
    }
  }

  /** Everything the follower had acknowledged survives, unless an earlier leader already lacked it. */
  lemma MergedAcks(h: History, n: Node, m: Node, t: nat)
    requires AcksOk(h, n) && t in h.base && t in h.ldr && h.base[t].log <= h.ldr[t] && n.term <= t
    requires m.id == n.id && m.term == t && Merged(n.log, h.ldr[t], m.log)
    ensures AcksOk(h, m)
  {
    forall u: nat, i: nat | OwnAck(h, m.id, u, i) && u < t + 1
      ensures Supports(h, u, i, m.log) || Broken(h, u, i, t + 1)
    {
      MergedAck(h, n, m, t, u, i);
    }
  }

  lemma MergedAck(h: History, n: Node, m: Node, t: nat, u: nat, i: nat)
    requires AcksOk(h, n) && t in h.base && t in h.ldr && h.base[t].log <= h.ldr[t] && n.term <= t
    requires m.id == n.id && m.term == t && Merged(n.log, h.ldr[t], m.log)
    requires OwnAck(h, m.id, u, i)
    ensures Supports(h, u, i, m.log) || Broken(h, u, i, t + 1)
  {
    if Supports(h, u, i, n.log) {
      if u == t {
        assert Agree(n.log, h.ldr[t], i);
      } else if Supports(h, u, i, h.base[t].log) {
        assert h.ldr[t][..i + 1] == h.base[t].log[..i + 1];
        assert Agree(n.log, h.ldr[t], i);
      } else {
        assert u < t < t + 1;
      }
    } else {
      var w :| u < w < n.term + 1 && w in h.base && !Supports(h, u, i, h.base[w].log);
      assert u < w < t + 1;
    }
  }

  // ----- Appending: the machine -----

  lemma MergedStore(h: History, members: set<NodeId>, n: Node, to: NodeId, a: AppendArgs)
    requires HistoryOk(h, members) && StoreOk(h, n) && AppendOk(h, to, a) && n.term <= a.term
    ensures StoreOk(h, OnAppend(n, a).0)
  {
    hide LeadersOk, ElectionsOk, CandidaciesOk, VotesOk, AckedBounded, PointsOk, Committed, Merged, LogOk, Commands,
      PlaceAll;
    var (m, reply) := OnAppend(n, a);
    AppendedLog(h, members, n, to, a);
    LeaderLog(h, a.term);
    MergedLogOk(h, n.log, n.term, a.term, m.log);
    KeptStore(h, members, n, a.term, m.log);
    if reply.success && a.leaderCommit > n.commit {
      ShorterPrefix(m.log, h.ldr[a.term], a.prevIndex + |a.entries| + 1, a.leaderCommit + 1);
      CommittedPrefix(h, a.term, a.leaderCommit, h.ldr[a.term], m.log);
      AppliedMore(m.log, n.commit, a.leaderCommit);
    }
  }

  /** What was committed and applied before the merge still is. */
  lemma KeptStore(h: History, members: set<NodeId>, n: Node, t: nat, log: seq<Entry>)
    requires HistoryOk(h, members) && StoreOk(h, n) && t in h.ldr && n.term <= t && Merged(n.log, h.ldr[t], log)
    requires t in h.base
    ensures n.commit < |log| && Committed(h, t, n.commit, log) && n.machine == Commands(log[1..n.commit + 1])
  {
    hide LeadersOk, ElectionsOk, CandidaciesOk, VotesOk, AckedBounded, PointsOk, Committed, Merged, LogOk, Commands;
    CommittedInLeader(h, members, n.term, n.commit, n.log, t);
    MergedPrefix(n.log, h.ldr[t], log, n.commit);
    CommittedPrefix(h, n.term, n.commit, n.log, log);
    CommittedLater(h, n.term, t, n.commit, log);
    TailAfterFirst(log, n.log, n.commit);
  }

  lemma TailAfterFirst(a: seq<Entry>, b: seq<Entry>, k: nat)
    requires k < |a| && k < |b| && a[..k + 1] == b[..k + 1]
    ensures a[1..k + 1] == b[1..k + 1]
  {
    assert a[1..k + 1] == a[..k + 1][1..];
    assert b[1..k + 1] == b[..k + 1][1..];
  }

  /** Applying entries j + 1 to k after entries 1 to j gives the commands of entries 1 to k. */
  lemma AppliedMore(log: seq<Entry>, j: nat, k: nat)
    requires j <= k < |log|
    ensures Commands(log[1..j + 1]) + Commands(log[j + 1..k + 1]) == Commands(log[1..k + 1])
  {
    CommandsAppend(log[1..j + 1], log[j + 1..k + 1]);
    assert log[1..j + 1] + log[j + 1..k + 1] == log[1..k + 1];
  }

  lemma MergedPrefix(log: seq<Entry>, leader: seq<Entry>, r: seq<Entry>, k: nat)
    requires Merged(log, leader, r) && k < |log| && k < |leader| && log[..k + 1] == leader[..k + 1]
    ensures k < |r| && r[..k + 1] == log[..k + 1]
  {
    assert Agree(log, leader, k);
  }

  lemma CommittedLater(h: History, t: nat, u: nat, k: nat, log: seq<Entry>)
    requires Committed(h, t, k, log) && t <= u
    ensures Committed(h, u, k, log)
  {
    if k != 0 {
      var p :| p in h.points && p.term <= t && k <= p.index && Supports(h, p.term, k, log);
    }
  }

  // ----- Appending: the step -----

  /** A follower acknowledges term t up to index k. */
  ghost predicate Acknowledged(h: History, id: NodeId, t: nat, k: nat, h': History) {
    h' == h.(acked := h.acked[(id, t) := AckTo(h, id, t, k)])
  }

  lemma AcknowledgedHistory(h: History, members: set<NodeId>, n: Node, t: nat, k: nat, h': History)
    requires HistoryOk(h, members) && BallotOk(h, n) && n.term <= t && t in h.base && t in h.ldr && k < |h.ldr[t]|
    requires Acknowledged(h, n.id, t, k, h')
    ensures Extends(h, h') && RecordedBy(h, h', n.id) && HistoryOk(h', members)
  {
    hide LeadersOk, ElectionsOk, CandidaciesOk, VotesOk, PointsOk;
    assert Extends(h, h') && RecordedBy(h, h', n.id);
    LeadersStable(h, h');
    AcknowledgedElections(h, members, n, t, k, h');
    CandidaciesStable(h, h', members);
    AcknowledgedVotes(h, members, n, t, k, h');
    forall x | x in h'.acked
      ensures AckedOk(h', x)
    {
      if x in h.acked { assert AckedOk(h, x); }
    }
    PointsStable(h, h', members);
  }

  lemma AcknowledgedElections(h: History, members: set<NodeId>, n: Node, t: nat, k: nat, h': History)
    requires AckedBounded(h) && ElectionsOk(h, members) && BallotOk(h, n) && n.term <= t
    requires Acknowledged(h, n.id, t, k, h') && Extends(h, h')
    ensures ElectionsOk(h', members)
  {
    forall u | u in h'.base
      ensures ElectionOk(h', members, u)
    {
      assert ElectionOk(h, members, u);
      VotedUpTo(h, members, n, u);
      ElectionStable(h, h', members, u);
    }
  }

  lemma AcknowledgedVotes(h: History, members: set<NodeId>, n: Node, t: nat, k: nat, h': History)
    requires AckedBounded(h) && VotesOk(h, members) && BallotOk(h, n) && n.term <= t
    requires Acknowledged(h, n.id, t, k, h') && Extends(h, h')
    ensures VotesOk(h', members)
  {
    forall y | y in h'.votes
      ensures VoteOk(h', members, y)
    {
      assert VoteOk(h, members, y);
      VoteStable(h, h', members, y);
    }
  }

  /** The new acknowledgement is one the follower's log supports. */
  lemma AcknowledgedAcks(h: History, m: Node, k: nat, h': History)
    requires AckedBounded(h) && AcksOk(h, m) && Acknowledged(h, m.id, m.term, k, h') && Extends(h, h')
    requires m.term in h.ldr && k < |m.log| && k < |h.ldr[m.term]| && m.log[..k + 1] == h.ldr[m.term][..k + 1]
    ensures AcksOk(h', m)
  {
    forall t: nat, i: nat | OwnAck(h', m.id, t, i) && t < m.term + 1
      ensures Supports(h', t, i, m.log) || Broken(h', t, i, m.term + 1)
    {
      if t == m.term && i <= k {
        ShorterPrefix(m.log, h.ldr[m.term], k + 1, i + 1);
      } else {
        assert AckedOk(h, (m.id, t));
        assert OwnAck(h, m.id, t, i);
        SupportsStable(h, h', t, i, m.log);
        if Broken(h, t, i, m.term + 1) {
          BrokenStable(h, h', t, i, m.term + 1, m.term + 1);
        }
      }
    }
  }

  /** A follower of term t is not t's leader, and its vote in t is not disturbed. */
  lemma AppendedBallot(h: History, members: set<NodeId>, n: Node, to: NodeId, a: AppendArgs)
    requires ElectionsOk(h, members) && RoleOk(h, n) && BallotOk(h, n) && AppendOk(h, to, a) && n.id == to
    requires n.term <= a.term
    ensures BallotOk(h, OnAppend(n, a).0) && RoleOk(h, OnAppend(n, a).0)
  {
    hide LogOk, Committed, Supports, PlaceAll, Commands;
    var m := OnAppend(n, a).0;
    if n.term < a.term {
      NoVoteYet(h, members, n, a.term);
    }
    assert m.role == Follower && m.term == a.term;
  }

  lemma AppendedNode(h: History, members: set<NodeId>, n: Node, to: NodeId, a: AppendArgs, h': History)
    requires HistoryOk(h, members) && NodeOk(h, n) && AppendOk(h, to, a) && n.id == to && n.term <= a.term
    requires var (m, reply) := OnAppend(n, a);
      Extends(h, h') && (h' == h || (reply.success && Acknowledged(h, n.id, a.term, a.prevIndex + |a.entries|, h')))
    ensures NodeOk(h', OnAppend(n, a).0)
  {
    hide LeadersOk, ElectionsOk, CandidaciesOk, VotesOk, PointsOk, Committed, Merged, LogOk, Extends, StoreOk, AcksOk,
      Commands, BallotOk, RoleOk, AckedBounded, PlaceAll, Acknowledged;
    var (m, reply) := OnAppend(n, a);
    MergedStore(h, members, n, to, a);
    AppendedLog(h, members, n, to, a);
    ElectedPrefix(h, members, a.term);
    MergedAcks(h, n, m, a.term);
    AppendedBallot(h, members, n, to, a);
    if h' != h {
      StoreStable(h, h', m);
      AcknowledgedAcks(h, m, a.prevIndex + |a.entries|, h');
      AcknowledgedRole(h, n.id, m, a.term, a.prevIndex + |a.entries|, h');
    }
  }

  lemma ElectedPrefix(h: History, members: set<NodeId>, t: nat)
    requires ElectionsOk(h, members) && t in h.base
    ensures t in h.ldr && h.base[t].log <= h.ldr[t]
  {
    assert ElectionOk(h, members, t);
  }

  lemma AcknowledgedRole(h: History, id: NodeId, m: Node, t: nat, k: nat, h': History)
    requires RoleOk(h, m) && BallotOk(h, m) && m.role != Leader && Acknowledged(h, id, t, k, h')
    ensures RoleOk(h', m) && BallotOk(h', m)
  {
  }

  lemma AppendedFrame(n: Node, a: AppendArgs)
    ensures var (m, reply) := OnAppend(n, a);
      && m.id == n.id && m.peers == n.peers && (a.term < n.term ==> m == n && !reply.success)
      && (n.term <= a.term ==> m.term == a.term) && (reply.success ==> reply.term == m.term)
  {
  }

  lemma AppendKeeps(c: Cluster, h: History, to: NodeId, a: AppendArgs, m: Node, reply: AppendReply, h': History)
    requires HistoryOk(h, c.nodes.Keys) && NodesOk(c, h) && MessagesOk(c.net, h)
    requires to in c.nodes && AppendOk(h, to, a) && (m, reply) == OnAppend(c.nodes[to], a)
    requires if reply.success then Acknowledged(h, to, m.term, a.prevIndex + |a.entries|, h') else h' == h
    ensures Extends(h, h')
    ensures Inv(Cluster(c.nodes[to := m], c.net + {AppendAnswer(to, a.leader, reply, a.prevIndex + |a.entries|)}), h')
  {
    hide LeadersOk, ElectionsOk, CandidaciesOk, VotesOk, AckedBounded, PointsOk, MessagesOk, NodesOk, NodeOk, Extends,
      RecordedBy, PeersOf, LogOk, Committed, PlaceAll, ApplyCommitted, Acknowledged;
    var n, k := c.nodes[to], a.prevIndex + |a.entries|;
    var sent := {AppendAnswer(to, a.leader, reply, k)};
    NodeAt(c, h, to);
    SameHistory(h, to);
    AppendedFrame(n, a);
    if reply.success {
      NodeParts(h, n);
      AcknowledgedHistory(h, c.nodes.Keys, n, a.term, k, h');
    }
    if n.term <= a.term {
      AppendedNode(h, c.nodes.Keys, n, to, a, h');
    }
    NodesUpdated(c, h, h', to, m, c.net + sent);
    MessagesStable(h, h', c.net);
    AppendAnswerOk(h, to, m, a.leader, reply, k, h');
    Assemble(c, h', to, m, sent);
  }

  lemma SameHistory(h: History, i: NodeId)
    ensures Extends(h, h) && RecordedBy(h, h, i)
  {
  }

  lemma NodeParts(h: History, n: Node)
    requires NodeOk(h, n)
    ensures StoreOk(h, n) && RoleOk(h, n) && BallotOk(h, n) && AcksOk(h, n)
  {
  }

  lemma AppendAnswerOk(h: History, to: NodeId, m: Node, leader: NodeId, reply: AppendReply, k: nat, h': History)
    requires reply.success ==> reply.term == m.term && Acknowledged(h, to, m.term, k, h')
    ensures MessagesOk({AppendAnswer(to, leader, reply, k)}, h')
  {
  }

  // ----- Crediting -----

  lemma CreditKeeps(c: Cluster, h: History, msg: Message, credit: nat)
    requires Inv(c, h) && Enabled(c, Credit(msg, credit))
    ensures Inv(Next(c, Credit(msg, credit)), h)
  {
    hide LeadersOk, ElectionsOk, CandidaciesOk, VotesOk, AckedBounded, PointsOk, NodesOk, NodeOk, Extends, RecordedBy,
      PeersOf, LogOk;
    var n := c.nodes[msg.to];
    var m := n.(matchIndex := n.matchIndex[msg.follower := credit]);
    NodeAt(c, h, msg.to);
    SameHistory(h, msg.to);
    assert MessageOk(h, msg);
    CreditedNode(h, n, msg.follower, credit);
    NodesUpdated(c, h, h, msg.to, m, c.net);
    assert c.net + {} == c.net;
    Assemble(c, h, msg.to, m, {});
  }

  lemma CreditedNode(h: History, n: Node, p: NodeId, credit: nat)
    requires NodeOk(h, n) && (p, n.term) in h.acked && credit <= h.acked[(p, n.term)]
    ensures NodeOk(h, n.(matchIndex := n.matchIndex[p := credit]))
  {
    var m := n.(matchIndex := n.matchIndex[p := credit]);
    assert StoreOk(h, m) && BallotOk(h, m) && AcksOk(h, m) && RoleOk(h, m);
  }

  // ----- Committing -----

  /** The members credited with index k, and the leader itself. */
  function Holders(members: set<NodeId>, n: Node, k: nat): set<NodeId> {
    set p | p in members && (p == n.id || (p in n.peers && Credited(n.matchIndex, p, k)))
  }

  lemma {:induction false} CreditedSet(peers: seq<NodeId>, matchIndex: map<NodeId, nat>, k: nat, s: set<NodeId>)
    requires forall i, j :: 0 <= i < j < |peers| ==> peers[i] != peers[j]
    requires forall p :: p in s <==> p in peers && Credited(matchIndex, p, k)
    ensures |s| == CreditCount(peers, matchIndex, k)
    decreases |peers|
  {
    if peers == [] {
      assert s == {};
    } else {
      var last := |peers| - 1;
      assert peers == peers[..last] + [peers[last]];
      assert peers[last] !in peers[..last];
      CreditedSet(peers[..last], matchIndex, k, s - {peers[last]});
    }
  }

  lemma HoldersMajority(members: set<NodeId>, n: Node, k: nat)
    requires PeersOf(members, n.id, n.peers) && n.id in members && k < |n.log| && Committable(n, k)
    ensures IsMajority(members, Holders(members, n, k))
  {
    var s := set p | p in n.peers && Credited(n.matchIndex, p, k);
    CreditedSet(n.peers, n.matchIndex, k, s);
    assert Holders(members, n, k) == s + {n.id};
    PeerCount(members, n.id, n.peers);
  }

  ghost predicate Advanced(h: History, members: set<NodeId>, n: Node, k: nat, h': History) {
    && n.role == Leader && n.commit < k < |n.log| && Committable(n, k)
    && h' == h.(points := h.points[Point(n.term, k) := Holders(members, n, k)])
  }

  lemma AdvancedPoint(h: History, members: set<NodeId>, n: Node, k: nat, h': History)
    requires ElectionsOk(h, members) && AckedBounded(h) && RoleOk(h, n) && Advanced(h, members, n, k, h')
    requires PeersOf(members, n.id, n.peers) && n.id in members
    ensures PointOk(h', members, Point(n.term, k))
  {
    HoldersMajority(members, n, k);
    assert ElectionOk(h, members, n.term);
    var b := h.base[n.term].log;
    forall j | 0 <= j < |b|
      ensures h.ldr[n.term][j].term < n.term
    {
      assert EntryOk(h, b, n.term - 1, j);
    }
    forall v | v in Holders(members, n, k)
      ensures OwnAck(h', v, n.term, k)
    {
      if v != n.id {
        assert v in n.matchIndex && n.matchIndex[v] != 0;
      }
    }
  }

  lemma AdvancedHistory(h: History, members: set<NodeId>, n: Node, k: nat, h': History)
    requires HistoryOk(h, members) && RoleOk(h, n) && Advanced(h, members, n, k, h')
    requires PeersOf(members, n.id, n.peers) && n.id in members
    ensures Extends(h, h') && RecordedBy(h, h', n.id) && HistoryOk(h', members)
  {
    hide LeadersOk, ElectionsOk, CandidaciesOk, VotesOk, AckedBounded, LogOk;
    LeadersStable(h, h');
    ElectionsStable(h, h', members);
    CandidaciesStable(h, h', members);
    VotesStable(h, h', members);
    AckedStable(h, h');
    AdvancedPoint(h, members, n, k, h');
    forall p | p in h'.points
      ensures PointOk(h', members, p)
    {
      if p != Point(n.term, k) {
        assert PointOk(h, members, p);
        PointStable(h, h', members, p);
      }
    }
  }

  lemma AdvancedNode(h: History, members: set<NodeId>, n: Node, k: nat, h': History)
    requires NodeOk(h, n) && AckedBounded(h) && Advanced(h, members, n, k, h') && Extends(h, h')
    ensures NodeOk(h', ApplyCommitted(n.(commit := k)))
  {
    hide Committable, AckedBounded, LogOk, StoreOk, Commands;
    var m := ApplyCommitted(n.(commit := k));
    AdvancedStore(h, members, n, k, h');
    AcksWithTerm(h, h', n, m);
    assert RoleOk(h', m) && BallotOk(h', m);
  }

  lemma AdvancedStore(h: History, members: set<NodeId>, n: Node, k: nat, h': History)
    requires StoreOk(h, n) && Advanced(h, members, n, k, h') && Extends(h, h') && n.term in h.ldr
    requires h.ldr[n.term] == n.log
    ensures StoreOk(h', ApplyCommitted(n.(commit := k)))
  {
    hide Committable, LogOk, Extends, Commands;
    LogStable(h, h', n.log, n.term);
    assert Point(n.term, k) in h'.points && Supports(h', n.term, k, n.log);
    AppliedMore(n.log, n.commit, k);
  }

  lemma AdvanceKeeps(c: Cluster, h: History, i: NodeId, k: nat, m: Node, h': History)
    requires HistoryOk(h, c.nodes.Keys) && NodesOk(c, h) && MessagesOk(c.net, h)
    requires i in c.nodes && Advanced(h, c.nodes.Keys, c.nodes[i], k, h')
    requires k < |c.nodes[i].log| && m == ApplyCommitted(c.nodes[i].(commit := k))
    ensures Extends(h, h') && Inv(Cluster(c.nodes[i := m], c.net), h')
  {
    hide LeadersOk, ElectionsOk, CandidaciesOk, VotesOk, AckedBounded, PointsOk, MessagesOk, NodesOk, NodeOk, Extends,
      RecordedBy, PeersOf, LogOk, Advanced, RoleOk;
    NodeAt(c, h, i);
    NodeParts(h, c.nodes[i]);
    AdvancedHistory(h, c.nodes.Keys, c.nodes[i], k, h');
    AdvancedNode(h, c.nodes.Keys, c.nodes[i], k, h');
    NodesUpdated(c, h, h', i, m, c.net);
    MessagesStable(h, h', c.net);
    NoMessages(h');
    assert c.net + {} == c.net;
    Assemble(c, h', i, m, {});
  }
}
