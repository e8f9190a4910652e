/**
  What safety leaves open.  Votes are given: in a reachable state exactly a node whose log goes as far as the voter's
  gets its vote, and of any two nodes one would vote for the other.  And nothing is ever stuck: from every reachable
  state there are enabled steps that elect a leader, replicate a command to all and commit it.
*/
module RaftProgress {
  import opened Common
  import opened RaftNodes
  import opened RaftCluster
  import opened RaftInvariant
  import opened RaftLemmas
  import opened RaftElections
  import opened RaftSafety
  import opened RaftFindings

  /** What a node asks of its peers in an election for `term`. */
  function Request(n: Node, term: nat): VoteArgs
    requires n.log != []
  {
    VoteArgs(term, n.id, |n.log| - 1, n.log[|n.log| - 1].term)
  }

  /** If node `to` of the cluster is asked for its vote, it gives it to the candidate and says so. */
  predicate WouldGrant(c: Cluster, to: NodeId, a: VoteArgs)
    requires to in c.nodes && c.nodes[to].log != []
  {
    var asked := c.(net := c.net + {RequestVote(to, a)});
    var answered := Next(asked, DeliverVote(RequestVote(to, a)));
    && to in answered.nodes && answered.nodes[to].votedFor == Some(a.candidate) && answered.nodes[to].term == a.term
    && VoteAnswer(to, a.candidate, VoteReply(a.term, true)) in answered.net
  }

  /** Every entry stands at its index, and terms do not decrease. */
  predicate Ordered(log: seq<Entry>) {
    && log != [] && (forall k :: 0 <= k < |log| ==> log[k].index == k)
    && forall j, k :: 0 <= j <= k < |log| ==> log[j].term <= log[k].term
  }

  lemma ReachableNode(r: Run, i: nat, a: NodeId)
    requires IsRun(r) && i < |r.states| && a in r.states[i].nodes
    ensures var n := r.states[i].nodes[a];
      && n.id == a && Ordered(n.log) && n.log[0] == DUMMY && n.applied == n.commit < |n.log|
      && PeersOf(r.states[i].nodes.Keys, a, n.peers)
  {
    LogsNeverEmpty(r, i, a);
    var hs := RunHistory(r);
    OrderedNode(r.states[i], hs[i], a);
  }

  lemma OrderedNode(c: Cluster, h: History, a: NodeId)
    requires Inv(c, h) && a in c.nodes
    ensures var n := c.nodes[a];
      n.id == a && Ordered(n.log) && n.applied == n.commit < |n.log| && PeersOf(c.nodes.Keys, a, n.peers)
  {
    hide HistoryOk, MessagesOk, RoleOk, BallotOk, AcksOk, Committed, PeersOf;
    var n := c.nodes[a];
    assert NodeOk(h, n);
    forall k | 0 <= k < |n.log|
      ensures n.log[k].index == k
    {
      assert EntryOk(h, n.log, n.term, k);
    }
    forall j, k | 0 <= j <= k < |n.log|
      ensures n.log[j].term <= n.log[k].term
    {
      TermsAscend(h, c.nodes.Keys, n.log, n.term, j, k);
    }
  }

  /** The candidate's log ends in a later term than the voter's, or in the same term and is no shorter. */
  predicate GoesAsFar(log: seq<Entry>, voter: seq<Entry>)
    requires log != [] && voter != []
  {
    var a, b := log[|log| - 1].term, voter[|voter| - 1].term;
    a > b || (a == b && |log| >= |voter|)
  }

  lemma FarLogGranted(c: Cluster, to: NodeId, n: Node, term: nat)
    requires to in c.nodes && Ordered(c.nodes[to].log) && n.log != [] && c.nodes[to].term < term
    ensures WouldGrant(c, to, Request(n, term)) <==> GoesAsFar(n.log, c.nodes[to].log)
  {
  }

  /** Exactly the nodes whose log goes as far as the voter's get its vote in a later term. */
  lemma GrantedExactly(r: Run, i: nat, to: NodeId, a: NodeId, term: nat)
    requires IsRun(r) && i < |r.states| && to in r.states[i].nodes && a in r.states[i].nodes
    requires r.states[i].nodes[to].term < term
    ensures var c := r.states[i];
      && c.nodes[a].log != [] && c.nodes[to].log != []
      && (WouldGrant(c, to, Request(c.nodes[a], term)) <==> GoesAsFar(c.nodes[a].log, c.nodes[to].log))
  {
    ReachableNode(r, i, to);
    ReachableNode(r, i, a);
    FarLogGranted(r.states[i], to, r.states[i].nodes[a], term);
  }

  /** A node whose log extends the voter's gets its vote in a later term. */
  lemma LongerLogGranted(r: Run, i: nat, to: NodeId, a: NodeId, term: nat)
    requires IsRun(r) && i < |r.states| && to in r.states[i].nodes && a in r.states[i].nodes
    requires r.states[i].nodes[to].term < term && r.states[i].nodes[to].log <= r.states[i].nodes[a].log
    ensures var c := r.states[i];
      c.nodes[a].log != [] && c.nodes[to].log != [] && WouldGrant(c, to, Request(c.nodes[a], term))
  {
    ReachableNode(r, i, to);
    ReachableNode(r, i, a);
    ExtensionGoesAsFar(r.states[i].nodes[a].log, r.states[i].nodes[to].log);
    FarLogGranted(r.states[i], to, r.states[i].nodes[a], term);
  }

  /** Of any two nodes at least one would vote for the other in a later term. */
  lemma OneWouldGrant(r: Run, i: nat, a: NodeId, b: NodeId, term: nat)
    requires IsRun(r) && i < |r.states| && a in r.states[i].nodes && b in r.states[i].nodes
    requires r.states[i].nodes[a].term < term && r.states[i].nodes[b].term < term
    ensures var c := r.states[i];
      && c.nodes[a].log != [] && c.nodes[b].log != []
      && (WouldGrant(c, a, Request(c.nodes[b], term)) || WouldGrant(c, b, Request(c.nodes[a], term)))
  {
    GrantedExactly(r, i, a, b, term);
    GrantedExactly(r, i, b, a, term);
  }

  // ----- Being elected -----

  lemma RunWithin(r: Run)
    requires IsRun(r)
    ensures IsRunBut(r, NoRule)
  {
    forall i | 0 <= i < |r.steps|
      ensures LooselyEnabled(r.states[i], r.steps[i]) && Keeps(r.steps[i], NoRule)
      ensures r.states[i + 1] == Next(r.states[i], r.steps[i])
    {
      assert Enabled(r.states[i], r.steps[i]);
    }
  }

  /** One step more. */
  lemma Goes(r: Run, s: Step) returns (longer: Run)
    requires IsRun(r) && Enabled(Last(r), s)
    ensures IsRun(longer) && r.states <= longer.states && Last(longer) == Next(Last(r), s)
  {
    RunWithin(r);
    longer := Extend(r, NoRule, s);
    RunWithRules(longer);
  }

  /** Node a has begun an election in a term later than `floor`, and nobody but a has changed. */
  predicate Asking(c: Cluster, c': Cluster, a: NodeId, floor: nat)
    requires a in c.nodes
  {
    && c'.nodes.Keys == c.nodes.Keys && (forall b :: b in c.nodes && b != a ==> c'.nodes[b] == c.nodes[b])
    && var n, m := c.nodes[a], c'.nodes[a];
    && m.id == n.id && m.log == n.log && m.peers == n.peers && m.role == Candidate && m.term > floor && m.log != []
    && forall p :: p in m.peers ==> RequestVote(p, Request(m, m.term)) in c'.net
  }

  lemma {:induction false} Stands(r: Run, a: NodeId, floor: nat) returns (longer: Run)
    requires IsRun(r) && a in Last(r).nodes
    ensures IsRun(longer) && r.states <= longer.states && Asking(Last(r), Last(longer), a, floor)
    decreases floor + 1 - Last(r).nodes[a].term
  {
    hide IsRun;
    NotEmpty(r);
    var n := Last(r).nodes[a];
    ReachableNode(r, |r.states| - 1, a);
    longer := Goes(r, Timeout(a));
    if n.term + 1 <= floor {
      var next := longer;
      longer := Stands(next, a, floor);
    }
  }

  lemma NotEmpty(r: Run)
    requires IsRun(r)
    ensures r.states != []
  {
  }

  /** The voters have all voted for a; the others can still vote for it. */
  predicate Gathers(c: Cluster, a: NodeId, voters: set<NodeId>) {
    && a in c.nodes && voters <= c.nodes.Keys
    && var n := c.nodes[a];
    && n.role == Candidate && Ordered(n.log) && n.id == a
    && (forall v :: v in voters ==> Granted(c, a, v) && c.nodes[v].term <= n.term)
    && forall b :: b in c.nodes && b !in voters ==>
         && b != a && c.nodes[b].term < n.term && Ordered(c.nodes[b].log) && GoesAsFar(n.log, c.nodes[b].log)
         && RequestVote(b, Request(n, n.term)) in c.net
  }

  lemma {:induction false} GathersAll(r: Run, a: NodeId, voters: set<NodeId>) returns (longer: Run)
    requires IsRun(r) && Gathers(Last(r), a, voters)
    ensures IsRun(longer) && r.states <= longer.states
    ensures Last(longer).nodes.Keys == Last(r).nodes.Keys && Gathers(Last(longer), a, Last(r).nodes.Keys)
    ensures Last(longer).nodes[a] == Last(r).nodes[a]
    decreases Last(r).nodes.Keys - voters
  {
    hide IsRun;
    NotEmpty(r);
    var c := Last(r);
    longer := r;
    if c.nodes.Keys <= voters {
      assert voters == c.nodes.Keys;
    } else {
      var b :| b in c.nodes.Keys && b !in voters;
      var msg := RequestVote(b, Request(c.nodes[a], c.nodes[a].term));
      var next := Goes(r, DeliverVote(msg));
      OneMore(c, a, voters, b);
      longer := GathersAll(next, a, voters + {b});
    }
  }

  lemma OneMore(c: Cluster, a: NodeId, voters: set<NodeId>, b: NodeId)
    requires Gathers(c, a, voters) && b in c.nodes && b !in voters
    ensures var msg := RequestVote(b, Request(c.nodes[a], c.nodes[a].term));
      && Enabled(c, DeliverVote(msg))
      && var c' := Next(c, DeliverVote(msg));
         c'.nodes.Keys == c.nodes.Keys && c'.nodes[a] == c.nodes[a] && Gathers(c', a, voters + {b})
  {
    var n, m := c.nodes[a], c.nodes[b];
    var msg := RequestVote(b, Request(n, n.term));
    var c' := Next(c, DeliverVote(msg));
    assert c'.nodes[b].votedFor == Some(a) && VoteAnswer(b, a, VoteReply(n.term, true)) in c'.net;
  }

  /** Its log goes as far as every other. */
  predicate IsFarthest(c: Cluster, a: NodeId) {
    a in c.nodes && c.nodes[a].log != []
    && forall b :: b in c.nodes ==> c.nodes[b].log != [] && GoesAsFar(c.nodes[a].log, c.nodes[b].log)
  }

  /** Node a leads, in a term that nobody is past. */
  predicate Leads(c: Cluster, a: NodeId) {
    a in c.nodes && c.nodes[a].role == Leader && forall b :: b in c.nodes ==> c.nodes[b].term <= c.nodes[a].term
  }

  /** A node whose log goes as far as every other can be made leader, with that log and in a later term than any. */
  lemma FarthestCanLead(r: Run, a: NodeId) returns (longer: Run)
    requires IsRun(r) && r.states != [] && IsFarthest(Last(r), a)
    ensures IsRun(longer) && r.states <= longer.states && Last(longer).nodes.Keys == Last(r).nodes.Keys
    ensures Leads(Last(longer), a) && Last(longer).nodes[a].log == Last(r).nodes[a].log
    ensures forall b :: b in Last(r).nodes ==> Last(longer).nodes[a].term > Last(r).nodes[b].term
  {
    hide IsRun, Gathers, Ordered, PeersOf, GoesAsFar;
    var c := Last(r);
    var floor := Ceiling(c, c.nodes.Keys);
    var asking := Stands(r, a, floor);
    NotEmpty(asking);
    forall b | b in c.nodes ensures Ordered(c.nodes[b].log) { ReachableNode(r, |r.states| - 1, b); }
    ReachableNode(r, |r.states| - 1, a);
    GathersFirst(c, Last(asking), a, floor);
    var voted := GathersAll(asking, a, {a});
    NotEmpty(voted);
    Elects(Last(voted), a);
    longer := Goes(voted, PromoteNode(a, Last(voted).nodes.Keys));
  }

  /** A node whose log extends every other log can be made leader. */
  lemma LongestCanLead(r: Run, a: NodeId) returns (longer: Run)
    requires IsRun(r) && r.states != [] && a in Last(r).nodes
    requires forall b :: b in Last(r).nodes ==> Last(r).nodes[b].log <= Last(r).nodes[a].log
    ensures IsRun(longer) && r.states <= longer.states && Leads(Last(longer), a)
    ensures Last(longer).nodes[a].log == Last(r).nodes[a].log
  {
    hide IsRun;
    ReachableNode(r, |r.states| - 1, a);
    forall b | b in Last(r).nodes
      ensures Last(r).nodes[b].log != [] && GoesAsFar(Last(r).nodes[a].log, Last(r).nodes[b].log)
    {
      ReachableNode(r, |r.states| - 1, b);
      ExtensionGoesAsFar(Last(r).nodes[a].log, Last(r).nodes[b].log);
    }
    longer := FarthestCanLead(r, a);
  }

  lemma ExtensionGoesAsFar(log: seq<Entry>, voter: seq<Entry>)
    requires Ordered(log) && voter != [] && voter <= log
    ensures GoesAsFar(log, voter)
  {
    assert log[|voter| - 1] == voter[|voter| - 1];
  }

  lemma {:induction false} Ceiling(c: Cluster, nodes: set<NodeId>) returns (floor: nat)
    requires nodes <= c.nodes.Keys
    ensures forall b :: b in nodes ==> c.nodes[b].term <= floor
    decreases nodes
  {
    if nodes == {} {
      floor := 0;
    } else {
      var b :| b in nodes;
      floor := Ceiling(c, nodes - {b});
      if c.nodes[b].term > floor { floor := c.nodes[b].term; }
    }
  }

  lemma GathersFirst(c: Cluster, c': Cluster, a: NodeId, floor: nat)
    requires IsFarthest(c, a) && Asking(c, c', a, floor) && c.nodes[a].id == a
    requires PeersOf(c.nodes.Keys, a, c.nodes[a].peers) && forall b :: b in c.nodes ==> Ordered(c.nodes[b].log)
    requires forall b :: b in c.nodes ==> c.nodes[b].term <= floor
    ensures Gathers(c', a, {a})
  {
  }

  lemma Elects(c: Cluster, a: NodeId)
    requires Gathers(c, a, c.nodes.Keys) && PeersOf(c.nodes.Keys, a, c.nodes[a].peers)
    ensures Enabled(c, PromoteNode(a, c.nodes.Keys)) && Leads(Next(c, PromoteNode(a, c.nodes.Keys)), a)
  {
    PeerCount(c.nodes.Keys, a, c.nodes[a].peers);
  }

  // ----- Committing -----

  /** Leader a has credited the nodes in `done` with all of its log. */
  predicate Replicated(c: Cluster, a: NodeId, done: set<NodeId>) {
    && Leads(c, a) && c.nodes[a].log != []
    && forall p :: p in done ==> p in c.nodes[a].matchIndex && c.nodes[a].matchIndex[p] == |c.nodes[a].log| - 1
  }

  /** The same node but for what it credits others with. */
  predicate SameButCredits(n: Node, m: Node) {
    m == n.(matchIndex := m.matchIndex)
  }

  lemma {:induction false} ReplicatesToAll(r: Run, a: NodeId, done: set<NodeId>) returns (longer: Run)
    requires IsRun(r) && r.states != [] && Replicated(Last(r), a, done)
    ensures IsRun(longer) && r.states <= longer.states && Last(longer).nodes.Keys == Last(r).nodes.Keys
    ensures Replicated(Last(longer), a, Last(r).nodes.Keys - {a})
    ensures SameButCredits(Last(r).nodes[a], Last(longer).nodes[a])
    decreases Last(r).nodes.Keys - done
  {
    hide IsRun, Replicated;
    longer := r;
    if Last(r).nodes.Keys - {a} <= done {
      ReplicatedLess(Last(r), a, done, Last(r).nodes.Keys - {a});
    } else {
      var b :| b in Last(r).nodes.Keys - {a} && b !in done;
      assert a in Last(r).nodes by { ReplicatedLess(Last(r), a, done, done); }
      var next := Replicates(r, a, b, done);
      longer := ReplicatesToAll(next, a, done + {b});
    }
  }

  lemma ReplicatedLess(c: Cluster, a: NodeId, done: set<NodeId>, fewer: set<NodeId>)
    requires Replicated(c, a, done) && fewer <= done
    ensures Replicated(c, a, fewer) && a in c.nodes
  {
  }

  /** The leader sends b all it has, and b's answer is credited. */
  lemma Replicates(r: Run, a: NodeId, b: NodeId, done: set<NodeId>) returns (longer: Run)
    requires IsRun(r) && r.states != [] && Replicated(Last(r), a, done) && b in Last(r).nodes && b != a
    ensures IsRun(longer) && r.states <= longer.states && longer.states != []
    ensures Last(longer).nodes.Keys == Last(r).nodes.Keys && Replicated(Last(longer), a, done + {b})
    ensures SameButCredits(Last(r).nodes[a], Last(longer).nodes[a])
  {
    hide IsRun, OnAppend;
    var c := Last(r);
    var n := c.nodes[a];
    var last := |n.log| - 1;
    ReachableNode(r, |r.states| - 1, a);
    ReachableNode(r, |r.states| - 1, b);
    var args := AppendArgs(n.term, a, 0, n.log[0].term, n.log[1..1 + last], 0);
    Accepts(n.log, c.nodes[b], args);
    var sent := Goes(r, SendAppend(a, b, 0, last, 0));
    var handled := Goes(sent, DeliverAppend(AppendEntries(b, args)));
    var (m, reply) := OnAppend(c.nodes[b], args);
    AppendGives(c.nodes[b], args);
    longer := Goes(handled, Credit(AppendAnswer(b, a, reply, last), last));
    NotEmpty(longer);
  }

  /** Sent a whole log by a leader of no earlier term, a node answers for all of it. */
  lemma Accepts(log: seq<Entry>, n: Node, a: AppendArgs)
    requires Ordered(log) && log[0] == DUMMY && n.log != [] && n.log[0] == DUMMY && n.term <= a.term
    requires a.prevIndex == 0 && a.prevTerm == 0 && a.entries == log[1..|log|]
    ensures var reply := OnAppend(n, a).1; reply.success && reply.term == a.term && reply.matchIndex >= |log| - 1
  {
    assert Consecutive(a.entries, 1);
    VouchesForMore(n, a);
    AppendGives(n, a);
  }

  lemma {:induction false} AllCredited(peers: seq<NodeId>, matchIndex: map<NodeId, nat>, index: nat)
    requires forall p :: p in peers ==> Credited(matchIndex, p, index)
    ensures CreditCount(peers, matchIndex, index) == |peers|
  {
    if peers != [] { AllCredited(peers[..|peers| - 1], matchIndex, index); }
  }

  lemma AdvancesToEnd(n: Node, command: Command)
    requires n.role == Leader && n.log != [] && n.applied == n.commit < |n.log| - 1
    requires n.log[|n.log| - 1].term == n.term && n.log[|n.log| - 1].command == Some(command)
    requires forall p :: p in n.peers ==> p in n.matchIndex && n.matchIndex[p] == |n.log| - 1
    ensures var m := AdvanceCommit(n).0;
      m.commit == |n.log| - 1 && m.log == n.log && m.machine != [] && m.machine[|m.machine| - 1] == command
  {
    var last := |n.log| - 1;
    AllCredited(n.peers, n.matchIndex, last);
    assert Committable(n, last) && HighestCommittable(n, last) == last;
    var news := n.log[n.applied + 1..last + 1];
    assert news[|news| - 1] == n.log[last];
  }

  /** A leader in the latest term can have any command committed, and applies it last. */
  lemma LeaderCanCommit(r: Run, a: NodeId, command: Command) returns (longer: Run)
    requires IsRun(r) && r.states != [] && Leads(Last(r), a)
    ensures IsRun(longer) && r.states <= longer.states && a in Last(longer).nodes
    ensures var n := Last(longer).nodes[a];
      n.commit == |n.log| - 1 && n.machine != [] && n.machine[|n.machine| - 1] == command
  {
    hide IsRun, AdvanceCommit, PeersOf;
    ReachableNode(r, |r.states| - 1, a);
    var proposed := Goes(r, ProposeCommand(a, Some(command)));
    NotEmpty(proposed);
    var replicated := ReplicatesToAll(proposed, a, {});
    NotEmpty(replicated);
    ReachableNode(replicated, |replicated.states| - 1, a);
    var n := Last(replicated).nodes[a];
    ArePeers(Last(replicated).nodes.Keys, a, n.peers);
    AdvancesToEnd(n, command);
    longer := Goes(replicated, Advance(a));
  }

  lemma ArePeers(members: set<NodeId>, a: NodeId, peers: seq<NodeId>)
    requires PeersOf(members, a, peers)
    ensures forall p :: p in peers ==> p in members - {a}
  {
  }

  lemma {:induction false} FarthestOf(c: Cluster, nodes: set<NodeId>) returns (a: NodeId)
    requires nodes != {} && nodes <= c.nodes.Keys && forall b :: b in c.nodes ==> c.nodes[b].log != []
    ensures a in nodes && forall b :: b in nodes ==> GoesAsFar(c.nodes[a].log, c.nodes[b].log)
    decreases nodes
  {
    a :| a in nodes;
    if nodes != {a} {
      var b := FarthestOf(c, nodes - {a});
      if GoesAsFar(c.nodes[b].log, c.nodes[a].log) { a := b; }
    }
  }

  /** From every reachable state of a cluster there are enabled steps after which a given command is committed. */
  lemma NeverStuck(r: Run, command: Command) returns (longer: Run, a: NodeId)
    requires IsRun(r) && r.states != [] && Last(r).nodes.Keys != {}
    ensures IsRun(longer) && r.states <= longer.states && a in Last(longer).nodes
    ensures var n := Last(longer).nodes[a];
      n.commit == |n.log| - 1 && n.machine != [] && n.machine[|n.machine| - 1] == command
  {
    hide IsRun;
    forall b | b in Last(r).nodes ensures Last(r).nodes[b].log != [] { ReachableNode(r, |r.states| - 1, b); }
    a := FarthestOf(Last(r), Last(r).nodes.Keys);
    longer := FarthestCanLead(r, a);
    NotEmpty(longer);
    longer := LeaderCanCommit(longer, a, command);
  }
}
