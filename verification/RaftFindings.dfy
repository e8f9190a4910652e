/** Where a Raft node by itself falls short, and what the rules on senders are needed for: exact conditions and runs. */
module RaftFindings {
  import opened Common
  import opened RaftNodes
  import opened RaftCluster
  import opened RaftInvariant
  import opened RaftSafety

  // ----- Votes -----

  /** What a step may do to a node's vote while its term lasts. */
  lemma VoteLost(r: Run, i: nat, a: NodeId)
    requires IsRun(r) && i < |r.steps| && a in r.states[i].nodes && a in r.states[i + 1].nodes
    requires r.states[i + 1].nodes[a].term == r.states[i].nodes[a].term && r.states[i].nodes[a].votedFor.Some?
    ensures var n, m := r.states[i].nodes[a], r.states[i + 1].nodes[a];
      m.votedFor != n.votedFor <==>
        r.steps[i].DeliverAppend? && r.steps[i].msg.to == a && r.steps[i].msg.append.term == n.term
          && n.role == Candidate
  {
    hide Inv, HistoryOk, StoreOk, Next, Init, PeersOf, Granted;
    var c, s, n := r.states[i], r.steps[i], r.states[i].nodes[a];
    assert Enabled(c, s) && r.states[i + 1] == Next(c, s);
    var hs := RunHistory(r);
    NodeFacts(r, hs, i, a);
    if s.DeliverAppend? { MessageFacts(r, hs, i, s.msg); }
    VoteAfter(c, s, a);
  }

  /** In any cluster, a step within a term changes a vote only where a node that is no follower hears a leader. */
  lemma VoteAfter(c: Cluster, s: Step, a: NodeId)
    requires LooselyEnabled(c, s) && a in c.nodes && a in Next(c, s).nodes && c.nodes[a].votedFor.Some?
    requires Next(c, s).nodes[a].term == c.nodes[a].term
    ensures var n, m := c.nodes[a], Next(c, s).nodes[a];
      m.votedFor != n.votedFor <==>
        s.DeliverAppend? && s.msg.to == a && s.msg.append.term == n.term && n.role != Follower
  {
    hide Granted, PlaceAll, UpToDate, VoteRequests, Commands;
  }

  // ----- Commit -----

  /** No entry of the message meets an entry of another term in the log. */
  predicate NoConflict(log: seq<Entry>, a: AppendArgs) {
    FirstClash(log, a.entries, a.prevIndex + 1, |a.entries|)
  }

  lemma {:induction false} SomeClashIsFirst(log: seq<Entry>, entries: seq<Entry>, from: nat, n: nat) returns (k: nat)
    requires n <= |entries| && forall j :: 0 <= j < n ==> !Clashes(log, entries, from, j)
    ensures FirstClash(log, entries, from, k)
    decreases |entries| - n
  {
    k := n;
    if n < |entries| && !Clashes(log, entries, from, n) { k := SomeClashIsFirst(log, entries, from, n + 1); }
  }

  /** Where no entry clashes the log is as long as the longer of the two; else it ends with the entries. */
  lemma PlacedLength(log: seq<Entry>, entries: seq<Entry>, from: nat)
    requires 0 < from <= |log| && Consecutive(entries, from)
    ensures |PlaceAll(log, entries)|
      == if FirstClash(log, entries, from, |entries|) && |log| >= from + |entries| then |log| else from + |entries|
  {
    var k := SomeClashIsFirst(log, entries, from, 0);
    PlacedIs(log, entries, from, k);
  }

  /**
    A follower that accepts a message moves its commit index past the entries the message shows exactly when its own
    log reaches further than they do, none of them conflicts with it, and the message's commit index does too.
  */
  lemma CommitsBeyondMessage(n: Node, a: AppendArgs)
    requires n.commit < |n.log| && a.term >= n.term && a.prevIndex < |n.log| && n.log[a.prevIndex].term == a.prevTerm
    requires Consecutive(a.entries, a.prevIndex + 1)
    ensures OnAppend(n, a).1.success
    ensures var shown := a.prevIndex + |a.entries|;
      OnAppend(n, a).0.commit > shown && OnAppend(n, a).0.commit > n.commit <==>
        && a.leaderCommit > shown && a.leaderCommit > n.commit
        && |n.log| - 1 > shown && |n.log| - 1 > n.commit && NoConflict(n.log, a)
  {
    hide PlaceAll, ApplyCommitted, FirstClash, Consecutive;
    PlacedLength(n.log, a.entries, a.prevIndex + 1);
    CommitAfter(n, a);
  }

  /**
    The index its answer vouches for is beyond what the message showed exactly when its own log reached further and
    none of the entries conflicts with it.
  */
  lemma VouchesForMore(n: Node, a: AppendArgs)
    requires a.term >= n.term && a.prevIndex < |n.log| && n.log[a.prevIndex].term == a.prevTerm
    requires Consecutive(a.entries, a.prevIndex + 1)
    ensures OnAppend(n, a).1.success
    ensures var shown := a.prevIndex + |a.entries|;
      && OnAppend(n, a).1.matchIndex >= shown
      && (OnAppend(n, a).1.matchIndex > shown <==> |n.log| - 1 > shown && NoConflict(n.log, a))
  {
    hide PlaceAll, ApplyCommitted, FirstClash, Consecutive;
    PlacedLength(n.log, a.entries, a.prevIndex + 1);
    CommitAfter(n, a);
  }

  lemma CommitAfter(n: Node, a: AppendArgs)
    requires a.term >= n.term && a.prevIndex < |n.log| && n.log[a.prevIndex].term == a.prevTerm
    ensures var last := |PlaceAll(n.log, a.entries)| - 1;
      && OnAppend(n, a).1.success && OnAppend(n, a).1.matchIndex == last
      && OnAppend(n, a).0.commit
         == if a.leaderCommit <= n.commit then n.commit else if a.leaderCommit <= last then a.leaderCommit else last
  {
    hide PlaceAll;
  }

  // ----- Runs of three nodes -----

  function Last(r: Run): Cluster
    requires r.states != []
  {
    r.states[|r.states| - 1]
  }

  /** A rule on leaders that a run may be exempt from. */
  datatype Rule = NoRule | Telling | Crediting

  ghost predicate IsRunBut(r: Run, x: Rule) {
    && |r.states| == |r.steps| + 1
    && Init(r.states[0])
    && forall i :: 0 <= i < |r.steps| ==>
         && LooselyEnabled(r.states[i], r.steps[i]) && Keeps(r.steps[i], x)
         && r.states[i + 1] == Next(r.states[i], r.steps[i])
  }

  predicate Keeps(s: Step, x: Rule) {
    (x == Telling || TellsShown(s)) && (x == Crediting || CreditsSent(s))
  }

  lemma RunWithRules(r: Run)
    requires IsRunBut(r, NoRule)
    ensures IsRun(r)
  {
    forall i | 0 <= i < |r.steps|
      ensures Enabled(r.states[i], r.steps[i]) && r.states[i + 1] == Next(r.states[i], r.steps[i])
    {
      assert Keeps(r.steps[i], NoRule);
    }
  }

  lemma Start(x: Rule) returns (r: Run)
    ensures IsRunBut(r, x) && r.states != [] && Last(r).net == {} && Last(r).nodes.Keys == {0, 1, 2}
    ensures Last(r).nodes[0] == Fresh(0, [1, 2]) && Last(r).nodes[1] == Fresh(1, [0, 2])
    ensures Last(r).nodes[2] == Fresh(2, [0, 1])
  {
    var c := Cluster(map[0 := Fresh(0, [1, 2]), 1 := Fresh(1, [0, 2]), 2 := Fresh(2, [0, 1])], {});
    r := Run([c], []);
  }

  lemma Extend(r: Run, x: Rule, s: Step) returns (longer: Run)
    requires IsRunBut(r, x) && LooselyEnabled(Last(r), s) && Keeps(s, x)
    ensures IsRunBut(longer, x) && longer.states != [] && Last(longer) == Next(Last(r), s) && r.states <= longer.states
  {
    longer := Run(r.states + [Next(Last(r), s)], r.steps + [s]);
    forall i | 0 <= i < |longer.steps|
      ensures LooselyEnabled(longer.states[i], longer.steps[i]) && Keeps(longer.steps[i], x)
      ensures longer.states[i + 1] == Next(longer.states[i], longer.steps[i])
    {
      if i < |r.steps| {
        assert LooselyEnabled(r.states[i], r.steps[i]) && r.states[i + 1] == Next(r.states[i], r.steps[i]);
      }
    }
  }

  /** What a step of these runs leaves: one node is changed, and the network has lost nothing. */
  predicate Changed(r: Run, longer: Run, i: NodeId, n: Node) {
    && r.states != [] && longer.states != []
    && Last(longer).nodes == Last(r).nodes[i := n] && Last(r).net <= Last(longer).net && r.states <= longer.states
  }

  lemma TimesOut(r: Run, x: Rule, i: NodeId) returns (longer: Run)
    requires IsRunBut(r, x) && i in Last(r).nodes && Last(r).nodes[i].log != []
    ensures IsRunBut(longer, x) && Changed(r, longer, i, StartElection(Last(r).nodes[i]).0)
    ensures forall p :: p in Last(r).nodes[i].peers ==>
      RequestVote(p, StartElection(Last(r).nodes[i]).1) in Last(longer).net
  {
    longer := Extend(r, x, Timeout(i));
  }

  lemma Votes(r: Run, x: Rule, to: NodeId, a: VoteArgs) returns (longer: Run)
    requires IsRunBut(r, x) && RequestVote(to, a) in Last(r).net && to in Last(r).nodes && Last(r).nodes[to].log != []
    ensures IsRunBut(longer, x) && Changed(r, longer, to, OnVote(Last(r).nodes[to], a).0)
    ensures VoteAnswer(to, a.candidate, OnVote(Last(r).nodes[to], a).1) in Last(longer).net
  {
    longer := Extend(r, x, DeliverVote(RequestVote(to, a)));
  }

  /** Two of the three nodes elect i. */
  lemma IsPromoted(r: Run, x: Rule, i: NodeId, voter: NodeId) returns (longer: Run)
    requires IsRunBut(r, x) && i in Last(r).nodes && voter in Last(r).nodes && voter != i
    requires |Last(r).nodes[i].peers| == 2
    requires Last(r).nodes[i].role == Candidate
    requires VoteAnswer(voter, i, VoteReply(Last(r).nodes[i].term, true)) in Last(r).net
    ensures IsRunBut(longer, x) && Changed(r, longer, i, Promote(Last(r).nodes[i]))
  {
    longer := Extend(r, x, PromoteNode(i, {i, voter}));
  }

  /** Leader i sends j its log from `prev` on, with a commit index; j handles the message. */
  lemma Sends(r: Run, x: Rule, i: NodeId, j: NodeId, prev: nat, count: nat, commit: nat)
    returns (longer: Run, a: AppendArgs)
    requires IsRunBut(r, x) && i in Last(r).nodes && j in Last(r).nodes && i != j && Last(r).nodes[i].role == Leader
    requires prev + count < |Last(r).nodes[i].log| && commit <= Last(r).nodes[i].commit
    requires x == Telling || commit <= prev + count
    ensures var n := Last(r).nodes[i];
      a == AppendArgs(n.term, i, prev, n.log[prev].term, n.log[prev + 1..prev + 1 + count], commit)
    ensures IsRunBut(longer, x)
    ensures Changed(r, longer, j, OnAppend(Last(r).nodes[j], a).0)
    ensures AppendAnswer(j, i, OnAppend(Last(r).nodes[j], a).1, prev + |a.entries|) in Last(longer).net
  {
    var sent := Extend(r, x, SendAppend(i, j, prev, count, commit));
    var n := Last(r).nodes[i];
    a := AppendArgs(n.term, i, prev, n.log[prev].term, n.log[prev + 1..prev + 1 + count], commit);
    longer := Extend(sent, x, DeliverAppend(AppendEntries(j, a)));
  }

  lemma Proposes(r: Run, x: Rule, i: NodeId, command: Command) returns (longer: Run)
    requires IsRunBut(r, x) && i in Last(r).nodes
    ensures IsRunBut(longer, x) && Changed(r, longer, i, Propose(Last(r).nodes[i], Some(command)).0)
  {
    longer := Extend(r, x, ProposeCommand(i, Some(command)));
  }

  /** Leader i credits j with all that an answer of j vouches for, and advances its commit index. */
  lemma Commits(r: Run, x: Rule, i: NodeId, j: NodeId, index: nat, sent: nat) returns (longer: Run)
    requires IsRunBut(r, x) && i in Last(r).nodes && Last(r).nodes[i].role == Leader
    requires AppendAnswer(j, i, AppendReply(Last(r).nodes[i].term, true, index), sent) in Last(r).net
    requires x == Crediting || index <= sent
    ensures IsRunBut(longer, x)
    ensures var n := Last(r).nodes[i];
      Changed(r, longer, i, AdvanceCommit(n.(matchIndex := n.matchIndex[j := index])).0)
  {
    var answer := AppendAnswer(j, i, AppendReply(Last(r).nodes[i].term, true, index), sent);
    var credited := Extend(r, x, Credit(answer, index));
    longer := Extend(credited, x, Advance(i));
  }

  /** A vote request of a candidate with an empty log. */
  function Ask(term: nat, candidate: NodeId): VoteArgs {
    VoteArgs(term, candidate, 0, 0)
  }

  lemma TwoCandidates() returns (r: Run)
    ensures IsRunBut(r, NoRule) && r.states != [] && Last(r).nodes.Keys == {0, 1, 2}
    ensures Last(r).nodes[0] == StartElection(Fresh(0, [1, 2])).0
    ensures Last(r).nodes[1] == StartElection(Fresh(1, [0, 2])).0
    ensures Last(r).nodes[2] == Fresh(2, [0, 1])
    ensures RequestVote(0, Ask(1, 1)) in Last(r).net && RequestVote(2, Ask(1, 1)) in Last(r).net
  {
    hide IsRunBut;
    r := Start(NoRule);
    r := TimesOut(r, NoRule, 0);
    r := TimesOut(r, NoRule, 1);
  }

  lemma ClearsVote(n: Node)
    requires n.term == 1 && n.role == Candidate && n.log == [DUMMY]
    ensures OnAppend(n, AppendArgs(1, 1, 0, 0, [], 0)).0 == n.(role := Follower, votedFor := None)
  {
  }

  /**
    A node votes twice in one term: for itself as a candidate, and, after a message from the leader of that term has
    cleared its vote, for the leader, whose request arrives late.
  */
  lemma TwoVotesInOneTerm() returns (r: Run, i: nat)
    ensures IsRun(r) && i < |r.states| && 0 in r.states[i].nodes && 0 in Last(r).nodes
    ensures r.states[i].nodes[0].term == Last(r).nodes[0].term == 1
    ensures r.states[i].nodes[0].votedFor == Some(0) && Last(r).nodes[0].votedFor == Some(1)
    ensures VoteAnswer(0, 1, VoteReply(1, true)) in Last(r).net
  {
    hide IsRun, IsRunBut, OnAppend;
    r := TwoCandidates();
    i := |r.states| - 1;
    var early := r;
    r := Votes(r, NoRule, 2, Ask(1, 1));
    r := IsPromoted(r, NoRule, 1, 2);
    ClearsVote(Last(r).nodes[0]);
    var a;
    r, a := Sends(r, NoRule, 1, 0, 0, 0, 0);
    r := Votes(r, NoRule, 0, Ask(1, 1));
    assert r.states[i] == Last(early);
    RunWithRules(r);
  }

  /**
    Without the rule on commit indices two nodes apply different commands.  Node 0 leads term 1 and keeps an entry to
    itself; node 1 leads term 2 and commits another entry at that index with node 2; then it tells node 0 of the
    commit without sending the entry.
  */
  lemma CommitRuleIsNeeded() returns (r: Run)
    ensures IsRunBut(r, Telling) && r.states != [] && 0 in Last(r).nodes && 1 in Last(r).nodes
    ensures Last(r).nodes[0].machine == [7] && Last(r).nodes[1].machine == [8]
  {
    hide IsRun, IsRunBut;
    r := TwoLeaders(Telling);
    var e, a := Entry(2, 1, Some(8)), AppendArgs(0, 0, 0, 0, [], 0);
    FollowerTakes(Last(r).nodes[2], e);
    r, a := Sends(r, Telling, 1, 2, 0, 1, 0);
    LeaderCommits(Last(r).nodes[1], e, 2);
    r := Commits(r, Telling, 1, 2, 1, 1);
    StaleApplies(Last(r).nodes[0]);
    r, a := Sends(r, Telling, 1, 0, 0, 0, 1);
  }

  /**
    So they do without the rule on credits.  Node 1 sends node 0 nothing, credits it with the entry that node 0 kept
    from its own term, and commits its own entry at that index; then node 0 is elected by node 2, which has neither.
  */
  lemma CreditRuleIsNeeded() returns (r: Run)
    ensures IsRunBut(r, Crediting) && r.states != [] && 0 in Last(r).nodes && 1 in Last(r).nodes
    ensures Last(r).nodes[0].machine == [7, 9] && Last(r).nodes[1].machine == [8]
  {
    hide IsRun, IsRunBut;
    r := TwoLeaders(Crediting);
    r := CommitsUnsent(r);
    r := AsksAgain(r);
    r := ElectedAgain(r);
    var f, g, a := Entry(1, 1, Some(7)), Entry(3, 2, Some(9)), AppendArgs(0, 0, 0, 0, [], 0);
    TakesBoth(Last(r).nodes[2], f, g);
    r, a := Sends(r, Crediting, 0, 2, 0, 2, 0);
    CommitsBoth(Last(r).nodes[0], f, g);
    r := Commits(r, Crediting, 0, 2, 2, 2);
  }

  lemma CommitsUnsent(r: Run) returns (longer: Run)
    requires IsRunBut(r, Crediting) && r.states != [] && BothLead(Last(r))
    ensures IsRunBut(longer, Crediting) && longer.states != [] && Last(longer).nodes.Keys == {0, 1, 2}
    ensures var n, m := Last(r).nodes[0], Last(longer).nodes[0];
      m == n.(term := 2, role := Follower, votedFor := None)
    ensures Last(longer).nodes[1].machine == [8] && Last(longer).nodes[2] == Last(r).nodes[2]
  {
    hide IsRunBut;
    StaleVouches(Last(r).nodes[0]);
    var a;
    longer, a := Sends(r, Crediting, 1, 0, 0, 0, 0);
    LeaderCommits(Last(longer).nodes[1], Entry(2, 1, Some(8)), 0);
    longer := Commits(longer, Crediting, 1, 0, 1, 0);
  }

  lemma GrantsThird(n: Node)
    requires n.term == 2 && n.log == [DUMMY]
    ensures OnVote(n, VoteArgs(3, 0, 1, 1))
      == (n.(term := 3, role := Follower, votedFor := Some(0)), VoteReply(3, true))
  {
  }

  /** Node 0 with its old entry, in a later term. */
  predicate KeepsEntry(n: Node, term: nat) {
    && n.id == 0 && n.term == term && n.log == [DUMMY, Entry(1, 1, Some(7))] && n.peers == [1, 2]
    && n.commit == n.applied == 0 && n.machine == [] && n.matchIndex == map[1 := 0, 2 := 0]
  }

  predicate Bystands(n: Node, term: nat) {
    n.term == term && n.role == Follower && n.log == [DUMMY] && n.commit == 0
  }

  lemma AsksAgain(r: Run) returns (longer: Run)
    requires IsRunBut(r, Crediting) && r.states != [] && Last(r).nodes.Keys == {0, 1, 2}
    requires KeepsEntry(Last(r).nodes[0], 2) && Bystands(Last(r).nodes[2], 2)
    ensures IsRunBut(longer, Crediting) && longer.states != [] && Last(longer).nodes.Keys == {0, 1, 2}
    ensures KeepsEntry(Last(longer).nodes[0], 3) && Last(longer).nodes[0].role == Candidate
    ensures Last(longer).nodes[1] == Last(r).nodes[1] && Bystands(Last(longer).nodes[2], 3)
    ensures VoteAnswer(2, 0, VoteReply(3, true)) in Last(longer).net
  {
    hide IsRunBut, OnVote;
    longer := TimesOut(r, Crediting, 0);
    GrantsThird(Last(longer).nodes[2]);
    longer := Votes(longer, Crediting, 2, VoteArgs(3, 0, 1, 1));
  }

  lemma PromotesThird(n: Node)
    requires n.peers == [1, 2] && n.matchIndex == map[1 := 0, 2 := 0]
    ensures Promote(n) == n.(role := Leader, nextIndex := Promote(n).nextIndex)
  {
    assert Promote(n).matchIndex == n.matchIndex;
  }

  lemma ElectedAgain(r: Run) returns (longer: Run)
    requires IsRunBut(r, Crediting) && r.states != [] && Last(r).nodes.Keys == {0, 1, 2}
    requires KeepsEntry(Last(r).nodes[0], 3) && Last(r).nodes[0].role == Candidate && Bystands(Last(r).nodes[2], 3)
    requires VoteAnswer(2, 0, VoteReply(3, true)) in Last(r).net
    ensures IsRunBut(longer, Crediting) && longer.states != [] && Last(longer).nodes.Keys == {0, 1, 2}
    ensures Last(longer).nodes[1] == Last(r).nodes[1] && Last(longer).nodes[2] == Last(r).nodes[2]
    ensures var n := Last(longer).nodes[0];
      && n.term == 3 && n.role == Leader && n.log == [DUMMY, Entry(1, 1, Some(7)), Entry(3, 2, Some(9))]
      && n.log[1..3] == [Entry(1, 1, Some(7)), Entry(3, 2, Some(9))] && n.peers == [1, 2]
      && n.commit == n.applied == 0 && n.machine == [] && n.matchIndex == map[1 := 0, 2 := 0]
  {
    hide IsRunBut, Promote;
    PromotesThird(Last(r).nodes[0]);
    longer := IsPromoted(r, Crediting, 0, 2);
    longer := Proposes(longer, Crediting, 0, 9);
    assert Last(longer).nodes[0].log[1..3] == [Entry(1, 1, Some(7)), Entry(3, 2, Some(9))];
  }

  lemma FollowerTakes(n: Node, e: Entry)
    requires n.term == 2 && n.role == Follower && n.log == [DUMMY] && e.index == 1
    ensures OnAppend(n, AppendArgs(2, 1, 0, 0, [e], 0)).1 == AppendReply(2, true, 1)
  {
    assert Place([DUMMY], e) == [DUMMY, e] && [e][1..] == [];
    assert PlaceAll([DUMMY], [e]) == [DUMMY, e];
  }

  lemma LeaderCommits(n: Node, e: Entry, j: NodeId)
    requires n.term == 2 && n.role == Leader && n.log == [DUMMY, e] && n.peers == [0, 2] && e == Entry(2, 1, Some(8))
    requires n.commit == n.applied == 0 && n.machine == [] && n.matchIndex == map[0 := 0, 2 := 0] && (j == 0 || j == 2)
    ensures var m := AdvanceCommit(n.(matchIndex := n.matchIndex[j := 1])).0;
      m == n.(matchIndex := n.matchIndex[j := 1], commit := 1, applied := 1, machine := [8])
  {
    var m := n.(matchIndex := n.matchIndex[j := 1]);
    assert [0, 2][..1] == [0] && [0][..0] == [];
    assert CreditCount([], m.matchIndex, 1) == 0 && CreditCount([0], m.matchIndex, 1) == if j == 0 then 1 else 0;
    assert CreditCount(m.peers, m.matchIndex, 1) == 1;
    assert m.log[1..2] == [e] && [e][..0] == [];
    assert Commands([e]) == [8];
    assert HighestCommittable(m, 1) == 1;
  }

  lemma StaleApplies(n: Node)
    requires n.term == 1 && n.log == [DUMMY, Entry(1, 1, Some(7))] && n.commit == n.applied == 0 && n.machine == []
    ensures OnAppend(n, AppendArgs(2, 1, 0, 0, [], 1)).0.machine == [7]
  {
    var e := Entry(1, 1, Some(7));
    assert n.log[1..2] == [e] && [e][..0] == [];
    assert Commands([e]) == [7];
  }

  lemma StaleVouches(n: Node)
    requires n.term == 1 && n.log == [DUMMY, Entry(1, 1, Some(7))]
    ensures OnAppend(n, AppendArgs(2, 1, 0, 0, [], 0)).1 == AppendReply(2, true, 1)
    ensures OnAppend(n, AppendArgs(2, 1, 0, 0, [], 0)).0 == n.(term := 2, role := Follower, votedFor := None)
  {
  }

  lemma TakesBoth(n: Node, f: Entry, g: Entry)
    requires n.term == 3 && n.role == Follower && n.log == [DUMMY] && n.commit == 0 && f.index == 1 && g.index == 2
    ensures OnAppend(n, AppendArgs(3, 0, 0, 0, [f, g], 0)).1 == AppendReply(3, true, 2)
  {
    assert Place([DUMMY], f) == [DUMMY, f] && Place([DUMMY, f], g) == [DUMMY, f, g];
    assert [f, g][1..] == [g] && [g][1..] == [];
    assert PlaceAll([DUMMY], [f, g]) == PlaceAll([DUMMY, f], [g]) == PlaceAll([DUMMY, f, g], []) == [DUMMY, f, g];
  }

  lemma CommitsBoth(n: Node, f: Entry, g: Entry)
    requires n.term == 3 && n.role == Leader && n.log == [DUMMY, f, g] && n.peers == [1, 2]
    requires f.command == Some(7) && g == Entry(3, 2, Some(9))
    requires n.commit == n.applied == 0 && n.machine == [] && n.matchIndex == map[1 := 0, 2 := 0]
    ensures AdvanceCommit(n.(matchIndex := n.matchIndex[2 := 2])).0.machine == [7, 9]
  {
    var m := n.(matchIndex := n.matchIndex[2 := 2]);
    assert [1, 2][..1] == [1] && [1][..0] == [];
    assert CreditCount([1], m.matchIndex, 2) == 0 && CreditCount(m.peers, m.matchIndex, 2) == 1;
    assert m.log[1..3] == [f, g] && [f, g][..1] == [f] && [f][..0] == [];
    assert Commands([f]) == [7] && Commands([f, g]) == [7, 9];
    assert HighestCommittable(m, 2) == 2;
  }

  /** Node 0 has led term 1 and kept an entry to itself; node 1 leads term 2 and has kept one too. */
  predicate BothLead(c: Cluster) {
    && c.nodes.Keys == {0, 1, 2} && FirstLeads(c.nodes[0])
    && c.nodes[1].term == 2 && c.nodes[1].role == Leader && c.nodes[1].log == [DUMMY, Entry(2, 1, Some(8))]
    && c.nodes[1].log[1..2] == [Entry(2, 1, Some(8))] && c.nodes[1].peers == [0, 2]
    && c.nodes[1].commit == c.nodes[1].applied == 0 && c.nodes[1].machine == []
    && c.nodes[1].matchIndex == map[0 := 0, 2 := 0]
    && c.nodes[2].term == 2 && c.nodes[2].role == Follower && c.nodes[2].log == [DUMMY] && c.nodes[2].commit == 0
  }

  predicate FirstLeads(n: Node) {
    && n.id == 0 && n.term == 1 && n.log == [DUMMY, Entry(1, 1, Some(7))] && n.peers == [1, 2]
    && n.commit == n.applied == 0 && n.machine == [] && n.matchIndex == map[1 := 0, 2 := 0]
  }

  lemma OneLeader(x: Rule) returns (r: Run)
    ensures IsRunBut(r, x) && r.states != [] && Last(r).nodes.Keys == {0, 1, 2}
    ensures FirstLeads(Last(r).nodes[0]) && Last(r).nodes[1] == Fresh(1, [0, 2])
    ensures var n := Last(r).nodes[2]; n.term == 1 && n.role == Follower && n.log == [DUMMY] && n.commit == 0
  {
    hide IsRun, IsRunBut;
    r := Start(x);
    r := TimesOut(r, x, 0);
    r := Votes(r, x, 2, Ask(1, 0));
    r := IsPromoted(r, x, 0, 2);
    r := Proposes(r, x, 0, 7);
  }

  lemma TwoLeaders(x: Rule) returns (r: Run)
    ensures IsRunBut(r, x) && r.states != [] && BothLead(Last(r))
  {
    hide IsRun, IsRunBut, FirstLeads;
    r := OneLeader(x);
    r := TimesOut(r, x, 1);
    r := TimesOut(r, x, 1);
    r := Votes(r, x, 2, Ask(2, 1));
    r := IsPromoted(r, x, 1, 2);
    r := Proposes(r, x, 1, 8);
    assert Last(r).nodes[1].log[1..2] == [Entry(2, 1, Some(8))];
  }
}
