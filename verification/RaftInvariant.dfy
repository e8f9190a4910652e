/**
  What every reachable cluster state satisfies.  The invariant is stated with history: for each
  term the election that was won and the leader's log, for each candidacy the candidate's log, the
  votes granted, how far each node has acknowledged each term's leader, and the points committed.
  History never influences a step; `Record` says how each step extends it.
*/
module RaftInvariant {
  import opened Common
  import opened RaftNodes
  import opened RaftCluster

  datatype Election = Election(leader: NodeId, quorum: set<NodeId>, log: seq<Entry>)
  datatype Vote = Vote(voter: NodeId, candidate: NodeId, term: nat)
  datatype Point = Point(term: nat, index: nat)

  datatype History = History(
    base: map<nat, Election>,                  // term -> the election won in it
    ldr: map<nat, seq<Entry>>,                 // term -> its leader's log, as long as it ever got
    cand: map<(NodeId, nat), seq<Entry>>,      // (candidate, term) -> its log while asking for votes
    votes: set<Vote>,
    acked: map<(NodeId, nat), nat>,            // (node, term) -> last index acknowledged to that term's leader
    points: map<Point, set<NodeId>>)           // committed point -> the majority holding it

  // ----- Logs -----

  /** `log` agrees with term t's leader up to and including index i. */
  predicate Supports(h: History, t: nat, i: nat, log: seq<Entry>) {
    t in h.ldr && i < |h.ldr[t]| && i < |log| && log[..i + 1] == h.ldr[t][..i + 1]
  }

  predicate EntryOk(h: History, log: seq<Entry>, maxTerm: nat, i: nat)
    requires i < |log|
  {
    log[i].index == i && log[i].term <= maxTerm && Supports(h, log[i].term, i, log)
  }

  ghost predicate LogOk(h: History, log: seq<Entry>, maxTerm: nat) {
    log != [] && forall i :: 0 <= i < |log| ==> EntryOk(h, log, maxTerm, i)
  }

  // ----- What an elected leader must hold -----

  predicate OwnAck(h: History, v: NodeId, t: nat, i: nat) {
    && t in h.base && t in h.ldr && (v, t) in h.acked && i <= h.acked[(v, t)]
    && i < |h.ldr[t]| && h.ldr[t][i].term == t
  }

  /** Some leader elected strictly between t and `until` did not hold term t's log up to i. */
  ghost predicate Broken(h: History, t: nat, i: nat, until: nat) {
    exists u :: t < u < until && u in h.base && !Supports(h, t, i, h.base[u].log)
  }

  /** `log` holds all that v acknowledged before term `until`, or an earlier leader already lacked it. */
  ghost predicate Covers(h: History, v: NodeId, until: nat, log: seq<Entry>) {
    forall t: nat, i: nat :: OwnAck(h, v, t, i) && t < until ==> Supports(h, t, i, log) || Broken(h, t, i, until)
  }

  predicate IsMajority(members: set<NodeId>, s: set<NodeId>) {
    s <= members && 2 * |s| > |members|
  }

  // ----- Invariant of the history -----

  ghost predicate ElectionOk(h: History, members: set<NodeId>, t: nat)
    requires t in h.base
  {
    var e := h.base[t];
    && t > 0 && e.leader in members && IsMajority(members, e.quorum)
    && LogOk(h, e.log, t - 1)
    && t in h.ldr && e.log <= h.ldr[t]
    && (forall i :: |e.log| <= i < |h.ldr[t]| ==> h.ldr[t][i].term == t)
    && (forall v :: v in e.quorum ==>
          && Vote(v, e.leader, t) in h.votes
          && (forall c :: Vote(v, c, t) in h.votes ==> c == e.leader)
          && Covers(h, v, t, e.log))
  }

  ghost predicate CandidacyOk(h: History, members: set<NodeId>, k: (NodeId, nat))
    requires k in h.cand
  {
    k.0 in members && k.1 > 0 && LogOk(h, h.cand[k], k.1 - 1)
  }

  ghost predicate VoteOk(h: History, members: set<NodeId>, x: Vote) {
    && x.voter in members && (x.candidate, x.term) in h.cand
    && (x.term !in h.base ==>
          && (forall c :: Vote(x.voter, c, x.term) in h.votes ==> c == x.candidate)
          && Covers(h, x.voter, x.term, h.cand[(x.candidate, x.term)]))
  }

  ghost predicate PointOk(h: History, members: set<NodeId>, p: Point)
    requires p in h.points
  {
    && p.term in h.base && p.term in h.ldr && p.index < |h.ldr[p.term]|
    && h.ldr[p.term][p.index].term == p.term
    && IsMajority(members, h.points[p])
    && forall v :: v in h.points[p] ==> OwnAck(h, v, p.term, p.index)
  }

  predicate AckedOk(h: History, k: (NodeId, nat))
    requires k in h.acked
  {
    k.1 in h.base && k.1 in h.ldr && h.acked[k] < |h.ldr[k.1]|
  }

  ghost predicate LeadersOk(h: History) {
    && 0 !in h.base && h.ldr.Keys == h.base.Keys + {0} && h.ldr[0] == [DUMMY]
    && forall t :: t in h.ldr ==> LogOk(h, h.ldr[t], t)
  }

  ghost predicate ElectionsOk(h: History, members: set<NodeId>) {
    forall t :: t in h.base ==> ElectionOk(h, members, t)
  }

  ghost predicate CandidaciesOk(h: History, members: set<NodeId>) {
    forall k :: k in h.cand ==> CandidacyOk(h, members, k)
  }

  ghost predicate VotesOk(h: History, members: set<NodeId>) {
    forall x :: x in h.votes ==> VoteOk(h, members, x)
  }

  ghost predicate AckedBounded(h: History) {
    forall k :: k in h.acked ==> AckedOk(h, k)
  }

  ghost predicate PointsOk(h: History, members: set<NodeId>) {
    forall p :: p in h.points ==> PointOk(h, members, p)
  }

  ghost predicate HistoryOk(h: History, members: set<NodeId>) {
    && LeadersOk(h) && ElectionsOk(h, members) && CandidaciesOk(h, members)
    && VotesOk(h, members) && AckedBounded(h) && PointsOk(h, members)
  }

  // ----- Invariant of one node -----

  /** The committed prefix [0, k] of `log`, for a node whose term is `term`. */
  ghost predicate Committed(h: History, term: nat, k: nat, log: seq<Entry>) {
    k == 0 || exists p :: p in h.points && p.term <= term && k <= p.index && Supports(h, p.term, k, log)
  }

  ghost predicate StoreOk(h: History, n: Node) {
    && LogOk(h, n.log, n.term)
    && n.applied == n.commit < |n.log|
    && n.machine == Commands(n.log[1..n.applied + 1])
    && Committed(h, n.term, n.commit, n.log)
  }

  ghost predicate RoleOk(h: History, n: Node) {
    && (n.role == Leader ==>
          && n.term in h.base && h.base[n.term].leader == n.id && n.votedFor == Some(n.id)
          && n.term in h.ldr && h.ldr[n.term] == n.log
          && (|n.log| > |h.base[n.term].log| ==> (n.id, n.term) in h.acked && h.acked[(n.id, n.term)] == |n.log| - 1)
          && (forall p :: p in n.peers && p in n.matchIndex && n.matchIndex[p] != 0 ==>
                (p, n.term) in h.acked && n.matchIndex[p] <= h.acked[(p, n.term)]))
    && (n.role == Candidate ==>
          && n.votedFor == Some(n.id) && Vote(n.id, n.id, n.term) in h.votes
          && (n.id, n.term) in h.cand && h.cand[(n.id, n.term)] == n.log)
  }

  ghost predicate BallotOk(h: History, n: Node) {
    && (forall x :: x in h.votes && x.voter == n.id ==>
          && x.term <= n.term
          && (x.term == n.term && n.term !in h.base ==> n.votedFor == Some(x.candidate)))
    && (n.term in h.base && n.id in h.base[n.term].quorum ==> n.votedFor == Some(h.base[n.term].leader))
    && (forall t :: t in h.base && h.base[t].leader == n.id ==> t <= n.term && (t == n.term ==> n.role == Leader))
    && (forall k :: k in h.cand && k.0 == n.id ==> k.1 <= n.term)
  }

  ghost predicate AcksOk(h: History, n: Node) {
    && (forall t :: (n.id, t) in h.acked ==> t <= n.term)
    && Covers(h, n.id, n.term + 1, n.log)
  }

  ghost predicate NodeOk(h: History, n: Node) {
    StoreOk(h, n) && RoleOk(h, n) && BallotOk(h, n) && AcksOk(h, n)
  }

  // ----- Invariant of one message -----

  ghost predicate RequestOk(h: History, a: VoteArgs) {
    && (a.candidate, a.term) in h.cand
    && var log := h.cand[(a.candidate, a.term)];
       log != [] && a.lastLogIndex == |log| - 1 && a.lastLogTerm == log[|log| - 1].term
  }

  ghost predicate AppendOk(h: History, to: NodeId, a: AppendArgs) {
    && a.term in h.base && h.base[a.term].leader == a.leader && to != a.leader
    && a.term in h.ldr
    && a.prevIndex + |a.entries| < |h.ldr[a.term]|
    && a.prevTerm == h.ldr[a.term][a.prevIndex].term
    && a.entries == h.ldr[a.term][a.prevIndex + 1..a.prevIndex + 1 + |a.entries|]
    && a.leaderCommit <= a.prevIndex + |a.entries|
    && Committed(h, a.term, a.leaderCommit, h.ldr[a.term])
  }

  ghost predicate MessageOk(h: History, m: Message) {
    match m
    case RequestVote(to, a) => RequestOk(h, a)
    case VoteAnswer(v, to, r) => r.granted ==> Vote(v, to, r.term) in h.votes
    case AppendEntries(to, a) => AppendOk(h, to, a)
    case AppendAnswer(f, to, r, sent) =>
      r.success ==> (f, r.term) in h.acked && sent <= h.acked[(f, r.term)]
  }

  ghost predicate NodesOk(c: Cluster, h: History) {
    forall n :: n in c.nodes ==>
      c.nodes[n].id == n && PeersOf(c.nodes.Keys, n, c.nodes[n].peers) && NodeOk(h, c.nodes[n])
  }

  ghost predicate MessagesOk(net: set<Message>, h: History) {
    forall m :: m in net ==> MessageOk(h, m)
  }

  ghost predicate Inv(c: Cluster, h: History) {
    HistoryOk(h, c.nodes.Keys) && NodesOk(c, h) && MessagesOk(c.net, h)
  }

  // ----- How history is recorded -----

  const EMPTY := History(map[], map[0 := [DUMMY]], map[], {}, map[], map[])

  function Record(c: Cluster, h: History, s: Step): History
    requires Enabled(c, s)
  {
    match s
    case Timeout(n) =>
      var m := StartElection(c.nodes[n]).0;
      h.(cand := h.cand[(m.id, m.term) := m.log], votes := h.votes + {Vote(m.id, m.id, m.term)})
    case DeliverVote(msg) =>
      var (m, reply) := OnVote(c.nodes[msg.to], msg.vote);
      if reply.granted then h.(votes := h.votes + {Vote(m.id, msg.vote.candidate, m.term)}) else h
    case PromoteNode(n, voters) =>
      var m := c.nodes[n];
      h.(base := h.base[m.term := Election(m.id, voters, m.log)], ldr := h.ldr[m.term := m.log])
    case ProposeCommand(n, command) =>
      var m := c.nodes[n];
      if m.role != Leader then h
      else h.(ldr := h.ldr[m.term := m.log + [Entry(m.term, |m.log|, command)]],
              acked := h.acked[(m.id, m.term) := |m.log|])
    case SendAppend(_, _, _, _, _) => h
    case DeliverAppend(msg) =>
      var (m, reply) := OnAppend(c.nodes[msg.to], msg.append);
      if reply.success then
        h.(acked := h.acked[(m.id, m.term) := AckTo(h, m.id, m.term, msg.append.prevIndex + |msg.append.entries|)])
      else h
    case Credit(_, _) => h
    case Advance(n) =>
      var m := c.nodes[n];
      var (m', advanced) := AdvanceCommit(m);
      if advanced then
        var holders := set p | p in c.nodes.Keys && (p == n || (p in m.peers && Credited(m.matchIndex, p, m'.commit)));
        h.(points := h.points[Point(m.term, m'.commit) := holders])
      else h
  }

  function AckTo(h: History, n: NodeId, t: nat, i: nat): nat {
    if (n, t) in h.acked && h.acked[(n, t)] > i then h.acked[(n, t)] else i
  }
}
