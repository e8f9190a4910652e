/** Elections keep the invariant: timing out, voting, and being promoted. */
module RaftElections {
  import opened Common
  import opened RaftNodes
  import opened RaftCluster
  import opened RaftInvariant
  import opened RaftLemmas

  // ----- Timeout: `n` becomes candidate `m` in the next term and votes for itself -----

  ghost predicate Started(h: History, n: Node, m: Node, h': History) {
    && n.log != [] && m == StartElection(n).0
    && h' == h.(cand := h.cand[(n.id, m.term) := n.log], votes := h.votes + {Vote(n.id, n.id, m.term)})
  }

  lemma StartedExtends(h: History, n: Node, m: Node, h': History)
    requires Started(h, n, m, h') && BallotOk(h, n)
    ensures Extends(h, h') && RecordedBy(h, h', n.id)
  {
  }

  lemma StartedElections(h: History, members: set<NodeId>, n: Node, m: Node, h': History)
    requires AckedBounded(h) && ElectionsOk(h, members) && BallotOk(h, n) && Started(h, n, m, h') && Extends(h, h')
    ensures ElectionsOk(h', members)
  {
    NoVoteYet(h, members, n, m.term);
    ElectionsStable(h, h', members);
  }

  lemma StartedVotes(h: History, members: set<NodeId>, n: Node, m: Node, h': History)
    requires AckedBounded(h) && ElectionsOk(h, members) && VotesOk(h, members) && BallotOk(h, n) && AcksOk(h, n)
    requires n.id in members && Started(h, n, m, h') && Extends(h, h')
    ensures VotesOk(h', members)
  {
    NoVoteYet(h, members, n, m.term);
    VoteCast(h, h', members, Vote(n.id, n.id, m.term));
  }

  lemma StartedHistory(h: History, members: set<NodeId>, n: Node, m: Node, h': History)
    requires HistoryOk(h, members) && NodeOk(h, n) && n.id in members && Started(h, n, m, h')
    ensures HistoryOk(h', members)
  {
    hide LeadersOk, ElectionsOk, CandidaciesOk, VotesOk, AckedBounded, PointsOk, StoreOk, RoleOk, BallotOk, AcksOk,
      Extends;
    StartedExtends(h, n, m, h');
    LeadersStable(h, h');
    StartedElections(h, members, n, m, h');
    StartedCandidacy(h, members, n, m, h');
    StartedVotes(h, members, n, m, h');
    AckedStable(h, h');
    PointsStable(h, h', members);
  }

  /** A node has cast no vote in a term it has not reached. */
  lemma NoVoteYet(h: History, members: set<NodeId>, n: Node, t: nat)
    requires ElectionsOk(h, members) && BallotOk(h, n) && n.term < t
    ensures forall c :: Vote(n.id, c, t) !in h.votes
    ensures t in h.base ==> n.id !in h.base[t].quorum
  {
    if t in h.base && n.id in h.base[t].quorum {
      assert ElectionOk(h, members, t);
    }
  }

  lemma StartedCandidacy(h: History, members: set<NodeId>, n: Node, m: Node, h': History)
    requires CandidaciesOk(h, members) && StoreOk(h, n) && n.id in members && Started(h, n, m, h') && Extends(h, h')
    ensures CandidaciesOk(h', members)
  {
    forall k | k in h'.cand
      ensures CandidacyOk(h', members, k)
    {
      if k in h.cand {
        assert CandidacyOk(h, members, k);
        LogStable(h, h', h.cand[k], k.1 - 1);
      } else {
        LogStable(h, h', n.log, n.term);
      }
    }
  }

  lemma StartedRole(h: History, members: set<NodeId>, n: Node, m: Node, h': History)
    requires ElectionsOk(h, members) && BallotOk(h, n) && Started(h, n, m, h')
    ensures RoleOk(h', m) && BallotOk(h', m)
  {
    NoVoteYet(h, members, n, m.term);
  }

  lemma StartedNode(h: History, members: set<NodeId>, n: Node, m: Node, h': History)
    requires ElectionsOk(h, members) && AckedBounded(h) && NodeOk(h, n) && Started(h, n, m, h') && Extends(h, h')
    ensures NodeOk(h', m)
  {
    StoreStable(h, h', n);
    TermRaised(h', n, m);
    StartedRole(h, members, n, m, h');
    AcksWithTerm(h, h', n, m);
  }

  lemma StartedRequests(h: History, n: Node, m: Node, args: VoteArgs, h': History)
    requires StoreOk(h, n) && Started(h, n, m, h') && StartElection(n) == (m, args)
    ensures MessagesOk(VoteRequests(m.peers, args), h')
  {
    assert EntryOk(h, n.log, n.term, |n.log| - 1);
    assert RequestOk(h', args);
  }

  lemma TimeoutKeeps(c: Cluster, h: History, i: NodeId, m: Node, args: VoteArgs, h': History)
    requires HistoryOk(h, c.nodes.Keys) && NodesOk(c, h) && MessagesOk(c.net, h)
    requires i in c.nodes && Started(h, c.nodes[i], m, h') && StartElection(c.nodes[i]) == (m, args)
    ensures Extends(h, h') && Inv(Cluster(c.nodes[i := m], c.net + VoteRequests(m.peers, args)), h')
  {
    var n, sent := c.nodes[i], VoteRequests(m.peers, args);
    NodeAt(c, h, i);
    StartedExtends(h, n, m, h');
    StartedHistory(h, c.nodes.Keys, n, m, h');
    StartedNode(h, c.nodes.Keys, n, m, h');
    StartedRequests(h, n, m, args, h');
    NodesUpdated(c, h, h', i, m, c.net + sent);
    MessagesStable(h, h', c.net);
    Assemble(c, h', i, m, sent);
  }

  lemma NodeAt(c: Cluster, h: History, i: NodeId)
    requires NodesOk(c, h) && i in c.nodes
    ensures c.nodes[i].id == i && NodeOk(h, c.nodes[i]) && PeersOf(c.nodes.Keys, i, c.nodes[i].peers)
  {
  }

  lemma Assemble(c: Cluster, h: History, i: NodeId, m: Node, sent: set<Message>)
    requires i in c.nodes && HistoryOk(h, c.nodes.Keys)
    requires NodesOk(Cluster(c.nodes[i := m], c.net + sent), h)
    requires MessagesOk(c.net, h) && MessagesOk(sent, h)
    ensures Inv(Cluster(c.nodes[i := m], c.net + sent), h)
  {
    assert c.nodes[i := m].Keys == c.nodes.Keys;
  }

  /** What h' adds to h concerns node i alone, and elects nobody. */
  ghost predicate RecordedBy(h: History, h': History, i: NodeId) {
    && h'.ldr == h.ldr && h'.base == h.base
    && (forall x :: x in h'.votes && x !in h.votes ==> x.voter == i)
    && (forall k :: k in h'.cand && k !in h.cand ==> k.0 == i)
    && (forall k :: k in h'.acked && (k !in h.acked || h'.acked[k] != h.acked[k]) ==> k.0 == i)
  }

  /** After a step of node i, every other node is a bystander. */
  lemma NodesUpdated(c: Cluster, h: History, h': History, i: NodeId, m: Node, net: set<Message>)
    requires NodesOk(c, h) && AckedBounded(h) && Extends(h, h') && i in c.nodes
    requires m.id == i && m.peers == c.nodes[i].peers && NodeOk(h', m)
    requires RecordedBy(h, h', i)
    ensures NodesOk(Cluster(c.nodes[i := m], net), h')
  {
    hide NodeOk, AckedBounded, PeersOf;
    var c' := Cluster(c.nodes[i := m], net);
    assert c'.nodes.Keys == c.nodes.Keys;
    forall o | o in c'.nodes
      ensures c'.nodes[o].id == o && PeersOf(c'.nodes.Keys, o, c'.nodes[o].peers) && NodeOk(h', c'.nodes[o])
    {
      assert c.nodes[o].id == o;
      if o != i {
        BystanderStable(h, h', c.nodes[o]);
      }
    }
  }

  // ----- Voting: `n` becomes `m` and, if it grants, casts a vote -----

  ghost predicate Voted(h: History, n: Node, a: VoteArgs, m: Node, granted: bool, h': History) {
    && n.log != [] && m == OnVote(n, a).0 && granted == OnVote(n, a).1.granted
    && h' == if granted then h.(votes := h.votes + {Vote(n.id, a.candidate, a.term)}) else h
  }

  lemma VotedExtends(h: History, n: Node, a: VoteArgs, m: Node, granted: bool, h': History)
    requires Voted(h, n, a, m, granted, h')
    ensures Extends(h, h') && RecordedBy(h, h', n.id)
  {
  }

  lemma VotedBallot(h: History, members: set<NodeId>, n: Node, a: VoteArgs, m: Node, h': History)
    requires ElectionsOk(h, members) && NodeOk(h, n) && Voted(h, n, a, m, true, h')
    ensures a.term !in h.base ==> forall c :: Vote(n.id, c, a.term) in h.votes ==> c == a.candidate
    ensures a.term in h.base && n.id in h.base[a.term].quorum ==> a.candidate == h.base[a.term].leader
  {
    if n.term < a.term {
      NoVoteYet(h, members, n, a.term);
    } else {
      forall c | Vote(n.id, c, a.term) in h.votes && a.term !in h.base
        ensures c == a.candidate
      {
        var x := Vote(n.id, c, a.term);
        assert x.voter == n.id;
      }
    }
  }

  lemma VotedHistory(h: History, members: set<NodeId>, n: Node, a: VoteArgs, m: Node, h': History)
    requires HistoryOk(h, members) && NodeOk(h, n) && n.id in members && RequestOk(h, a)
    requires Voted(h, n, a, m, true, h')
    ensures HistoryOk(h', members)
  {
    VotedBallot(h, members, n, a, m, h');
    if a.term !in h.base {
      VoteCovers(h, members, n, a);
    }
    VotedParts(h, members, n, a, m, h');
  }

  lemma VotedParts(h: History, members: set<NodeId>, n: Node, a: VoteArgs, m: Node, h': History)
    requires HistoryOk(h, members) && n.id in members && RequestOk(h, a)
    requires Voted(h, n, a, m, true, h')
    requires a.term !in h.base ==> forall c :: Vote(n.id, c, a.term) in h.votes ==> c == a.candidate
    requires a.term in h.base && n.id in h.base[a.term].quorum ==> a.candidate == h.base[a.term].leader
    requires a.term !in h.base ==> Covers(h, n.id, a.term, h.cand[(a.candidate, a.term)])
    ensures HistoryOk(h', members)
  {
    hide LeadersOk, ElectionsOk, CandidaciesOk, VotesOk, AckedBounded, PointsOk, Covers, Extends;
    VotedExtends(h, n, a, m, true, h');
    LeadersStable(h, h');
    ElectionsStable(h, h', members);
    CandidaciesStable(h, h', members);
    VoteCast(h, h', members, Vote(n.id, a.candidate, a.term));
    AckedStable(h, h');
    PointsStable(h, h', members);
  }

  lemma VotedBallots(h: History, members: set<NodeId>, n: Node, a: VoteArgs, m: Node, granted: bool, h': History)
    requires ElectionsOk(h, members) && NodeOk(h, n) && Voted(h, n, a, m, granted, h')
    ensures BallotOk(h', m)
  {
    if n.term < a.term {
      NoVoteYet(h, members, n, a.term);
    } else if granted {
      VotedBallot(h, members, n, a, m, h');
    }
  }

  lemma VotedRole(h: History, n: Node, a: VoteArgs, m: Node, granted: bool, h': History)
    requires RoleOk(h, n) && Voted(h, n, a, m, granted, h')
    ensures RoleOk(h', m)
  {
  }

  lemma VotedNode(h: History, members: set<NodeId>, n: Node, a: VoteArgs, m: Node, granted: bool, h': History)
    requires ElectionsOk(h, members) && AckedBounded(h) && NodeOk(h, n) && Voted(h, n, a, m, granted, h')
    ensures NodeOk(h', m)
  {
    hide ElectionsOk, AckedBounded, StoreOk, RoleOk, BallotOk, AcksOk, Extends;
    VotedExtends(h, n, a, m, granted, h');
    StoreStable(h, h', n);
    TermRaised(h', n, m);
    AcksWithTerm(h, h', n, m);
    VotedRole(h, n, a, m, granted, h');
    VotedBallots(h, members, n, a, m, granted, h');
  }

  lemma VotedAnswer(h: History, n: Node, a: VoteArgs, m: Node, reply: VoteReply, h': History)
    requires Voted(h, n, a, m, reply.granted, h') && (m, reply) == OnVote(n, a)
    ensures MessagesOk({VoteAnswer(n.id, a.candidate, reply)}, h')
  {
  }

  lemma VoteKeeps(c: Cluster, h: History, to: NodeId, a: VoteArgs, m: Node, reply: VoteReply, h': History)
    requires HistoryOk(h, c.nodes.Keys) && NodesOk(c, h) && MessagesOk(c.net, h)
    requires to in c.nodes && RequestOk(h, a) && Voted(h, c.nodes[to], a, m, reply.granted, h')
    requires (m, reply) == OnVote(c.nodes[to], a)
    ensures Extends(h, h') && Inv(Cluster(c.nodes[to := m], c.net + {VoteAnswer(to, a.candidate, reply)}), h')
  {
    hide LeadersOk, ElectionsOk, CandidaciesOk, VotesOk, AckedBounded, PointsOk, MessagesOk, NodesOk, NodeOk, Extends,
      RecordedBy, PeersOf;
    var n, sent := c.nodes[to], {VoteAnswer(to, a.candidate, reply)};
    NodeAt(c, h, to);
    VotedExtends(h, n, a, m, reply.granted, h');
    if reply.granted {
      VotedHistory(h, c.nodes.Keys, n, a, m, h');
    }
    VotedNode(h, c.nodes.Keys, n, a, m, reply.granted, h');
    NodesUpdated(c, h, h', to, m, c.net + sent);
    MessagesStable(h, h', c.net);
    VotedAnswer(h, n, a, m, reply, h');
    Assemble(c, h', to, m, sent);
  }

  // ----- Promotion -----

  lemma {:induction false} PeerCount(members: set<NodeId>, id: NodeId, peers: seq<NodeId>)
    requires PeersOf(members, id, peers) && id in members
    ensures |members| == |peers| + 1
  {
    var s := set p | p in peers;
    assert members == s + {id};
    DistinctCount(peers, s);
  }

  lemma {:induction false} DistinctCount(s: seq<NodeId>, elements: set<NodeId>)
    requires forall i, j :: 0 <= i < j < |s| ==> s[i] != s[j]
    requires forall p :: p in elements <==> p in s
    ensures |elements| == |s|
  {
    if s == [] {
      assert elements == {};
    } else {
      var last := |s| - 1;
      assert s == s[..last] + [s[last]];
      DistinctCount(s[..last], elements - {s[last]});
    }
  }

  ghost predicate Won(h: History, members: set<NodeId>, n: Node, voters: set<NodeId>) {
    && n.role == Candidate && n.id in members && IsMajority(members, voters)
    && forall v :: v in voters ==> Vote(v, n.id, n.term) in h.votes
  }

  /** The voters of a promotion form a majority, and all of them voted for the promoted node. */
  lemma VotersVoted(c: Cluster, h: History, n: NodeId, voters: set<NodeId>)
    requires NodesOk(c, h) && MessagesOk(c.net, h) && Enabled(c, PromoteNode(n, voters))
    ensures Won(h, c.nodes.Keys, c.nodes[n], voters)
  {
    PeerCount(c.nodes.Keys, n, c.nodes[n].peers);
    forall v | v in voters
      ensures Vote(v, n, c.nodes[n].term) in h.votes
    {
      assert Granted(c, n, v);
      if v == n {
        assert RoleOk(h, c.nodes[n]);
      } else {
        assert MessageOk(h, VoteAnswer(v, n, VoteReply(c.nodes[n].term, true)));
      }
    }
  }

  /** A candidate with a majority of votes is the first its term elects. */
  lemma FirstElected(h: History, members: set<NodeId>, n: Node, voters: set<NodeId>)
    requires ElectionsOk(h, members) && BallotOk(h, n) && Won(h, members, n, voters)
    ensures n.term !in h.base
  {
    if n.term in h.base {
      assert ElectionOk(h, members, n.term);
      var v := MajoritiesMeet(members, voters, h.base[n.term].quorum);
    }
  }

  ghost predicate Promoted(h: History, n: Node, voters: set<NodeId>, h': History) {
    h' == h.(base := h.base[n.term := Election(n.id, voters, n.log)], ldr := h.ldr[n.term := n.log])
  }

  lemma PromotedExtends(h: History, n: Node, voters: set<NodeId>, h': History)
    requires LeadersOk(h) && Promoted(h, n, voters, h') && n.term !in h.base && n.term > 0
    ensures Extends(h, h')
  {
  }

  lemma PromotedLeaders(h: History, n: Node, voters: set<NodeId>, h': History)
    requires LeadersOk(h) && Promoted(h, n, voters, h') && n.term !in h.base && n.term > 0 && StoreOk(h, n)
    requires Extends(h, h')
    ensures LeadersOk(h')
  {
    forall t | t in h'.ldr
      ensures LogOk(h', h'.ldr[t], t)
    {
      if t == n.term {
        LogStable(h, h', n.log, t);
      } else {
        LogStable(h, h', h.ldr[t], t);
      }
    }
  }

  lemma PromotedElections(h: History, members: set<NodeId>, n: Node, voters: set<NodeId>, h': History)
    requires ElectionsOk(h, members) && VotesOk(h, members) && CandidaciesOk(h, members) && AckedBounded(h)
    requires Promoted(h, n, voters, h') && Extends(h, h') && n.term !in h.base
    requires RoleOk(h, n) && Won(h, members, n, voters)
    ensures ElectionsOk(h', members)
  {
    forall t | t in h'.base
      ensures ElectionOk(h', members, t)
    {
      if t == n.term {
        NewElection(h, members, n, voters, h');
      } else {
        assert ElectionOk(h, members, t);
        ElectionStable(h, h', members, t);
      }
    }
  }

  lemma NewElection(h: History, members: set<NodeId>, n: Node, voters: set<NodeId>, h': History)
    requires VotesOk(h, members) && CandidaciesOk(h, members) && AckedBounded(h)
    requires Promoted(h, n, voters, h') && Extends(h, h') && n.term !in h.base
    requires RoleOk(h, n) && Won(h, members, n, voters)
    ensures ElectionOk(h', members, n.term)
  {
    assert CandidacyOk(h, members, (n.id, n.term));
    LogStable(h, h', n.log, n.term - 1);
    forall v | v in voters
      ensures Covers(h', v, n.term, n.log)
      ensures forall k :: Vote(v, k, n.term) in h.votes ==> k == n.id
    {
      assert VoteOk(h, members, Vote(v, n.id, n.term));
      CoversStable(h, h', v, n.term, n.log);
    }
  }

  lemma PromotedHistory(h: History, members: set<NodeId>, n: Node, voters: set<NodeId>, h': History)
    requires HistoryOk(h, members) && Promoted(h, n, voters, h') && n.term !in h.base
    requires NodeOk(h, n) && Won(h, members, n, voters)
    ensures Extends(h, h') && HistoryOk(h', members)
  {
    assert CandidacyOk(h, members, (n.id, n.term));
    PromotedExtends(h, n, voters, h');
    PromotedLeaders(h, n, voters, h');
    PromotedElections(h, members, n, voters, h');
    CandidaciesStable(h, h', members);
    VotesStable(h, h', members);
    AckedStable(h, h');
    PointsStable(h, h', members);
  }

  lemma PromotedNode(h: History, n: Node, voters: set<NodeId>, h': History)
    requires Promoted(h, n, voters, h') && Extends(h, h') && n.term !in h.base && AckedBounded(h)
    requires NodeOk(h, n) && n.role == Candidate
    ensures NodeOk(h', Promote(n))
  {
    var m := Promote(n);
    StoreStable(h, h', n);
    assert StoreOk(h', m);
    AcksWithTerm(h, h', n, m);
    assert BallotOk(h', m);
    assert RoleOk(h', m);
  }

  lemma PromotedNodes(c: Cluster, h: History, i: NodeId, voters: set<NodeId>, h': History)
    requires NodesOk(c, h) && AckedBounded(h) && LeadersOk(h) && i in c.nodes && Promoted(h, c.nodes[i], voters, h')
    requires Extends(h, h') && c.nodes[i].term !in h.base
    requires Won(h, c.nodes.Keys, c.nodes[i], voters)
    ensures NodesOk(Cluster(c.nodes[i := Promote(c.nodes[i])], c.net), h')
  {
    hide LeadersOk, AckedBounded, NodeOk, Extends, PeersOf, Promoted;
    var c' := Cluster(c.nodes[i := Promote(c.nodes[i])], c.net);
    assert c'.nodes.Keys == c.nodes.Keys;
    forall o | o in c'.nodes
      ensures c'.nodes[o].id == o && PeersOf(c'.nodes.Keys, o, c'.nodes[o].peers) && NodeOk(h', c'.nodes[o])
    {
      NodeAt(c, h, o);
      if o == i {
        PromotedNode(h, c.nodes[i], voters, h');
      } else {
        PromotedOther(c, h, i, voters, h', o);
      }
    }
  }

  lemma PromotedOther(c: Cluster, h: History, i: NodeId, voters: set<NodeId>, h': History, o: NodeId)
    requires NodesOk(c, h) && AckedBounded(h) && LeadersOk(h) && i in c.nodes && Promoted(h, c.nodes[i], voters, h')
    requires Extends(h, h') && c.nodes[i].term !in h.base && o in c.nodes && o != i
    requires Won(h, c.nodes.Keys, c.nodes[i], voters)
    ensures NodeOk(h', c.nodes[o])
  {
    hide StoreOk, AcksOk, AckedBounded, PeersOf;
    var n := c.nodes[o];
    NodeAt(c, h, i);
    NodeAt(c, h, o);
    assert RoleOk(h, n) && BallotOk(h, n);
    if o in voters {
      assert Vote(o, i, c.nodes[i].term).voter == o;
    }
    BystanderStable(h, h', n);
  }

  lemma PromoteKeeps(c: Cluster, h: History, i: NodeId, voters: set<NodeId>, h': History)
    requires HistoryOk(h, c.nodes.Keys) && NodesOk(c, h) && MessagesOk(c.net, h)
    requires Enabled(c, PromoteNode(i, voters)) && Promoted(h, c.nodes[i], voters, h')
    ensures c.nodes[i].term !in h.base
    ensures Extends(h, h') && Inv(Cluster(c.nodes[i := Promote(c.nodes[i])], c.net), h')
  {
    hide LeadersOk, ElectionsOk, CandidaciesOk, VotesOk, AckedBounded, PointsOk, MessagesOk, NodesOk, RoleOk,
      BallotOk, Extends, PeersOf;
    var n := c.nodes[i];
    NodeAt(c, h, i);
    VotersVoted(c, h, i, voters);
    FirstElected(h, c.nodes.Keys, n, voters);
    PromotedHistory(h, c.nodes.Keys, n, voters, h');
    PromotedNodes(c, h, i, voters, h');
    MessagesStable(h, h', c.net);
    assert c.net + {} == c.net;
    Assemble(c, h', i, Promote(n), {});
  }
}
