/**
  A cluster of Raft nodes taking steps over an unreliable network.  The network is the set of
  all messages ever sent: a message may be delivered many times, in any order, or never.
  The handlers are those of RaftNodes; the sender and the vote counter, which the source leaves
  to its caller, are the rules `Enabled` states for Promote, SendAppend and Credit.
*/
module RaftCluster {
  import opened Common
  import opened RaftNodes

  datatype Message =
    | RequestVote(to: NodeId, vote: VoteArgs)
    | VoteAnswer(voter: NodeId, to: NodeId, voteReply: VoteReply)
    | AppendEntries(to: NodeId, append: AppendArgs)
      // `sent` is prevIndex + |entries| of the request this reply answers
    | AppendAnswer(follower: NodeId, to: NodeId, appendReply: AppendReply, sent: nat)

  datatype Cluster = Cluster(nodes: map<NodeId, Node>, net: set<Message>)

  datatype Step =
    | Timeout(node: NodeId)
    | DeliverVote(msg: Message)
    | PromoteNode(node: NodeId, voters: set<NodeId>)
    | ProposeCommand(node: NodeId, command: Option<Command>)
    | SendAppend(node: NodeId, to: NodeId, prev: nat, count: nat, leaderCommit: nat)
    | DeliverAppend(msg: Message)
    | Credit(msg: Message, credit: nat)
    | Advance(node: NodeId)

  /** Peers are the other members, each listed once. */
  ghost predicate PeersOf(members: set<NodeId>, id: NodeId, peers: seq<NodeId>) {
    && (forall i, j :: 0 <= i < j < |peers| ==> peers[i] != peers[j])
    && (forall p :: p in peers <==> p in members && p != id)
  }

  ghost predicate Init(c: Cluster) {
    && c.net == {}
    && forall n :: n in c.nodes ==>
         && PeersOf(c.nodes.Keys, n, c.nodes[n].peers)
         && c.nodes[n] == Fresh(n, c.nodes[n].peers)
  }

  /** `v` has granted its vote to `n` for n's current term: n itself at the start of its election, or by a reply. */
  predicate Granted(c: Cluster, n: NodeId, v: NodeId)
    requires n in c.nodes
  {
    v == n || VoteAnswer(v, n, VoteReply(c.nodes[n].term, true)) in c.net
  }

  /** When a step may be taken, but for the two rules on what leaders tell and credit beyond what they send. */
  predicate LooselyEnabled(c: Cluster, s: Step) {
    match s
    case Timeout(n) => n in c.nodes && c.nodes[n].log != []
    case DeliverVote(m) => m in c.net && m.RequestVote? && m.to in c.nodes && c.nodes[m.to].log != []
    case PromoteNode(n, voters) =>
      && n in c.nodes && c.nodes[n].role == Candidate
      && voters <= c.nodes.Keys && |voters| >= Majority(c.nodes[n].peers)
      && forall v :: v in voters ==> Granted(c, n, v)
    case ProposeCommand(n, _) => n in c.nodes
    case SendAppend(n, to, prev, count, leaderCommit) =>
      && n in c.nodes && to in c.nodes && to != n && c.nodes[n].role == Leader
      && prev + count < |c.nodes[n].log| && leaderCommit <= c.nodes[n].commit
    case DeliverAppend(m) => m in c.net && m.AppendEntries? && m.to in c.nodes
    case Credit(m, credit) =>
      && m in c.net && m.AppendAnswer? && m.to in c.nodes
      && c.nodes[m.to].role == Leader && m.appendReply.success
      && m.appendReply.term == c.nodes[m.to].term
      && credit <= m.appendReply.matchIndex
    case Advance(n) => n in c.nodes
  }

  /** A leader tells of commits only as far as the entries it sends. */
  predicate TellsShown(s: Step) {
    s.SendAppend? ==> s.leaderCommit <= s.prev + s.count
  }

  /** A leader credits a follower with no more than it was sent. */
  predicate CreditsSent(s: Step) {
    s.Credit? && s.msg.AppendAnswer? ==> s.credit <= s.msg.sent
  }

  /** When a step may be taken. */
  predicate Enabled(c: Cluster, s: Step) {
    LooselyEnabled(c, s) && TellsShown(s) && CreditsSent(s)
  }

  function VoteRequests(peers: seq<NodeId>, args: VoteArgs): set<Message> {
    set p | p in peers :: RequestVote(p, args)
  }

  /** The cluster after an enabled step. */
  function Next(c: Cluster, s: Step): Cluster
    requires LooselyEnabled(c, s)
  {
    match s
    case Timeout(n) =>
      var (m, args) := StartElection(c.nodes[n]);
      Cluster(c.nodes[n := m], c.net + VoteRequests(m.peers, args))
    case DeliverVote(msg) =>
      var (m, reply) := OnVote(c.nodes[msg.to], msg.vote);
      Cluster(c.nodes[msg.to := m], c.net + {VoteAnswer(msg.to, msg.vote.candidate, reply)})
    case PromoteNode(n, _) => c.(nodes := c.nodes[n := Promote(c.nodes[n])])
    case ProposeCommand(n, command) => c.(nodes := c.nodes[n := Propose(c.nodes[n], command).0])
    case SendAppend(n, to, prev, count, leaderCommit) =>
      var log := c.nodes[n].log;
      var args := AppendArgs(c.nodes[n].term, n, prev, log[prev].term, log[prev + 1..prev + 1 + count], leaderCommit);
      c.(net := c.net + {AppendEntries(to, args)})
    case DeliverAppend(msg) =>
      var (m, reply) := OnAppend(c.nodes[msg.to], msg.append);
      Cluster(c.nodes[msg.to := m],
              c.net + {AppendAnswer(msg.to, msg.append.leader, reply, msg.append.prevIndex + |msg.append.entries|)})
    case Credit(msg, credit) =>
      var n := c.nodes[msg.to];
      c.(nodes := c.nodes[msg.to := n.(matchIndex := n.matchIndex[msg.follower := credit])])
    case Advance(n) => c.(nodes := c.nodes[n := AdvanceCommit(c.nodes[n]).0])
  }

  /** A run: the states passed through and the step taken between each and the next. */
  datatype Run = Run(states: seq<Cluster>, steps: seq<Step>)

  ghost predicate IsRun(r: Run) {
    && |r.states| == |r.steps| + 1
    && Init(r.states[0])
    && forall i :: 0 <= i < |r.steps| ==>
         Enabled(r.states[i], r.steps[i]) && r.states[i + 1] == Next(r.states[i], r.steps[i])
  }
}
