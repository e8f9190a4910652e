/** Facts about histories that the step proofs share. */
module RaftLemmas {
  import opened Common
  import opened RaftNodes
  import opened RaftCluster
  import opened RaftInvariant

  // ----- Logs -----

  /** Terms never decrease along a log. */
  lemma TermsAscend(h: History, members: set<NodeId>, log: seq<Entry>, maxTerm: nat, j: nat, i: nat)
    requires HistoryOk(h, members) && LogOk(h, log, maxTerm)
    requires j <= i < |log|
    ensures log[j].term <= log[i].term
  {
    var t := log[i].term;
    assert EntryOk(h, log, maxTerm, i);
    assert log[..i + 1][j] == h.ldr[t][..i + 1][j];
    assert EntryOk(h, h.ldr[t], t, j);
  }

  /** Two logs with an entry of the same index and term agree up to it. */
  lemma LogsAgree(h: History, a: seq<Entry>, b: seq<Entry>, ta: nat, tb: nat, i: nat)
    requires LogOk(h, a, ta) && LogOk(h, b, tb)
    requires i < |a| && i < |b| && a[i].term == b[i].term
    ensures a[..i + 1] == b[..i + 1]
  {
    assert EntryOk(h, a, ta, i) && EntryOk(h, b, tb, i);
  }

  /** Every log starts with the dummy entry. */
  lemma {:induction false} FirstIsDummy(h: History, members: set<NodeId>, t: nat)
    requires HistoryOk(h, members) && t in h.ldr
    ensures h.ldr[t] != [] && h.ldr[t][0] == DUMMY
    decreases t
  {
    assert LogOk(h, h.ldr[t], t);
    if t > 0 {
      var s := h.ldr[t][0].term;
      assert EntryOk(h, h.ldr[t], t, 0);
      assert h.ldr[t][..1][0] == h.ldr[s][..1][0];
      assert ElectionOk(h, members, t);
      assert h.base[t].log[0] == h.ldr[t][0];
      assert EntryOk(h, h.base[t].log, t - 1, 0);
      FirstIsDummy(h, members, s);
    }
  }

  lemma StartsWithDummy(h: History, members: set<NodeId>, log: seq<Entry>, maxTerm: nat)
    requires HistoryOk(h, members) && LogOk(h, log, maxTerm)
    ensures log[0] == DUMMY
  {
    assert EntryOk(h, log, maxTerm, 0);
    FirstIsDummy(h, members, log[0].term);
    assert log[..1][0] == h.ldr[log[0].term][..1][0];
  }

  lemma PrefixOk(h: History, log: seq<Entry>, maxTerm: nat, k: nat)
    requires LogOk(h, log, maxTerm) && 0 < k <= |log|
    ensures LogOk(h, log[..k], maxTerm)
  {
    forall i | 0 <= i < k
      ensures EntryOk(h, log[..k], maxTerm, i)
    {
      assert EntryOk(h, log, maxTerm, i);
      assert log[..k][..i + 1] == log[..i + 1];
    }
  }

  lemma MaxTermGrows(h: History, log: seq<Entry>, t: nat, u: nat)
    requires LogOk(h, log, t) && t <= u
    ensures LogOk(h, log, u)
  {
    forall i | 0 <= i < |log|
      ensures EntryOk(h, log, u, i)
    {
      assert EntryOk(h, log, t, i);
    }
  }

  // ----- The up-to-date check -----

  /** Against a log holding an acknowledged entry, a log that passes the up-to-date check holds it too,
      or an earlier leader lacked it. */
  lemma UpToDateCarries(h: History, members: set<NodeId>, t: nat, i: nat, vlog: seq<Entry>, vt: nat, clog: seq<Entry>,
      until: nat)
    requires HistoryOk(h, members) && LogOk(h, vlog, vt) && until > 0 && LogOk(h, clog, until - 1)
    requires Supports(h, t, i, vlog) && h.ldr[t][i].term == t
    requires var c, v := clog[|clog| - 1].term, vlog[|vlog| - 1].term; c > v || (c == v && |clog| >= |vlog|)
    ensures Supports(h, t, i, clog) || Broken(h, t, i, until)
  {
    var w := clog[|clog| - 1].term;
    var z := vlog[|vlog| - 1].term;
    assert vlog[i] == vlog[..i + 1][i] == h.ldr[t][..i + 1][i];
    TermsAscend(h, members, vlog, vt, i, |vlog| - 1);
    assert EntryOk(h, clog, until - 1, |clog| - 1);
    assert clog[..|clog|] == clog && vlog[..|vlog|] == vlog;
    if w == z {
      assert EntryOk(h, vlog, vt, |vlog| - 1);
      assert vlog == h.ldr[w][..|vlog|] && clog == h.ldr[w][..|clog|];
      assert clog[..i + 1] == h.ldr[w][..i + 1] == vlog[..i + 1];
    } else if Supports(h, t, i, h.base[w].log) {
      CarriesFromElection(h, members, t, i, clog, w);
    } else {
      assert t < w < until;
    }
  }

  /** A log ending in an entry of term w holds all of what w's leader was elected with. */
  lemma CarriesFromElection(h: History, members: set<NodeId>, t: nat, i: nat, log: seq<Entry>, w: nat)
    requires HistoryOk(h, members) && w in h.base
    requires log != [] && log[|log| - 1].term == w && Supports(h, w, |log| - 1, log)
    requires Supports(h, t, i, h.base[w].log)
    ensures Supports(h, t, i, log)
  {
    var b := h.base[w].log;
    assert ElectionOk(h, members, w);
    assert log[..|log|] == log == h.ldr[w][..|log|];
    forall j | 0 <= j < |b|
      ensures b[j].term < w && b[j] == h.ldr[w][j]
    {
      assert EntryOk(h, b, w - 1, j);
    }
    assert h.ldr[w][|log| - 1].term == w;
    assert |b| < |log|;
    assert log[..i + 1] == b[..i + 1];
  }

  /** A granted vote is covered by the candidate's log. */
  lemma VoteCovers(h: History, members: set<NodeId>, n: Node, a: VoteArgs)
    requires HistoryOk(h, members) && NodeOk(h, n) && RequestOk(h, a) && UpToDate(n.log, a)
    requires a.term >= n.term && a.term !in h.base
    ensures Covers(h, n.id, a.term, h.cand[(a.candidate, a.term)])
  {
    hide LeadersOk, ElectionsOk, VotesOk, AckedBounded, PointsOk, OwnAck, Supports, Broken, AcksOk, RoleOk, BallotOk;
    assert CandidacyOk(h, members, (a.candidate, a.term));
    assert EntryOk(h, n.log, n.term, |n.log| - 1);
    forall t: nat, i: nat | OwnAck(h, n.id, t, i) && t < a.term
      ensures Supports(h, t, i, h.cand[(a.candidate, a.term)]) || Broken(h, t, i, a.term)
    {
      AckCarries(h, members, n, a.term, h.cand[(a.candidate, a.term)], t, i);
    }
  }

  lemma AckCarries(h: History, members: set<NodeId>, n: Node, until: nat, clog: seq<Entry>, t: nat, i: nat)
    requires HistoryOk(h, members) && StoreOk(h, n) && AcksOk(h, n) && OwnAck(h, n.id, t, i)
    requires n.term <= until && 0 < until && until !in h.base && LogOk(h, clog, until - 1)
    requires var c, v := clog[|clog| - 1].term, n.log[|n.log| - 1].term; c > v || (c == v && |clog| >= |n.log|)
    ensures Supports(h, t, i, clog) || Broken(h, t, i, until)
  {
    hide LeadersOk, ElectionsOk, CandidaciesOk, VotesOk, AckedBounded, PointsOk, Supports, Broken, LogOk;
    if Supports(h, t, i, n.log) {
      UpToDateCarries(h, members, t, i, n.log, n.term, clog, until);
    } else {
      BrokenBefore(h, t, i, n.term, until);
    }
  }

  lemma BrokenBefore(h: History, t: nat, i: nat, term: nat, until: nat)
    requires Broken(h, t, i, term + 1) && term <= until && until !in h.base
    ensures Broken(h, t, i, until)
  {
    var u :| t < u < term + 1 && u in h.base && !Supports(h, t, i, h.base[u].log);
    assert t < u < until;
  }

  // ----- Leader completeness -----

  /** Every leader elected after a committed point was elected holding it. */
  lemma {:induction false} ElectedWith(h: History, members: set<NodeId>, p: Point, t: nat)
    requires HistoryOk(h, members) && p in h.points && t in h.base && p.term < t
    ensures Supports(h, p.term, p.index, h.base[t].log)
    decreases t
  {
    assert PointOk(h, members, p) && ElectionOk(h, members, t);
    var v := MajoritiesMeet(members, h.points[p], h.base[t].quorum);
    assert OwnAck(h, v, p.term, p.index);
    if Broken(h, p.term, p.index, t) {
      var u :| p.term < u < t && u in h.base && !Supports(h, p.term, p.index, h.base[u].log);
      ElectedWith(h, members, p, u);
    }
  }

  /** A committed point is in the log of its own and of every later leader. */
  lemma LeaderHolds(h: History, members: set<NodeId>, p: Point, t: nat)
    requires HistoryOk(h, members) && p in h.points && t in h.base && p.term <= t
    ensures Supports(h, p.term, p.index, h.ldr[t])
  {
    assert PointOk(h, members, p) && ElectionOk(h, members, t);
    if p.term < t {
      ElectedWith(h, members, p, t);
      assert h.ldr[t][..p.index + 1] == h.base[t].log[..p.index + 1];
    }
  }

  /** A node's committed prefix is a prefix of the log of every leader from its term on. */
  lemma CommittedInLeader(h: History, members: set<NodeId>, term: nat, k: nat, log: seq<Entry>, t: nat)
    requires HistoryOk(h, members) && LogOk(h, log, term) && k < |log| && Committed(h, term, k, log)
    requires t in h.base && term <= t
    ensures k < |h.ldr[t]| && log[..k + 1] == h.ldr[t][..k + 1]
  {
    if k == 0 {
      StartsWithDummy(h, members, log, term);
      FirstIsDummy(h, members, t);
      assert log[..1] == [DUMMY] == h.ldr[t][..1];
    } else {
      var p :| p in h.points && p.term <= term && k <= p.index && Supports(h, p.term, k, log);
      LeaderHolds(h, members, p, t);
      SharedPrefix(h, p, k, log, h.ldr[t]);
    }
  }

  lemma SharedPrefix(h: History, p: Point, k: nat, log: seq<Entry>, leader: seq<Entry>)
    requires k <= p.index && Supports(h, p.term, k, log) && Supports(h, p.term, p.index, leader)
    ensures k < |leader| && log[..k + 1] == leader[..k + 1]
  {
    ShorterPrefix(leader, h.ldr[p.term], p.index + 1, k + 1);
  }

  lemma ShorterPrefix<T>(a: seq<T>, b: seq<T>, n: nat, k: nat)
    requires k <= n <= |a| && n <= |b| && a[..n] == b[..n]
    ensures a[..k] == b[..k]
  {
    assert a[..k] == a[..n][..k];
    assert b[..k] == b[..n][..k];
  }

  // ----- Extending a history -----

  /** h' knows all that h knows. */
  ghost predicate Extends(h: History, h': History) {
    && (forall t :: t in h.ldr ==> t in h'.ldr && h.ldr[t] <= h'.ldr[t])
    && (forall t :: t in h.base ==> t in h'.base && h'.base[t] == h.base[t])
    && (forall k :: k in h.cand ==> k in h'.cand && h'.cand[k] == h.cand[k])
    && h.votes <= h'.votes
    && (forall k :: k in h.acked ==> k in h'.acked && h.acked[k] <= h'.acked[k])
    && h.points.Keys <= h'.points.Keys
  }

  lemma SupportsStable(h: History, h': History, t: nat, i: nat, log: seq<Entry>)
    requires Extends(h, h') && t in h.ldr && i < |h.ldr[t]|
    ensures Supports(h', t, i, log) <==> Supports(h, t, i, log)
  {
    assert h'.ldr[t][..i + 1] == h.ldr[t][..i + 1];
  }

  lemma LogStable(h: History, h': History, log: seq<Entry>, maxTerm: nat)
    requires Extends(h, h') && LogOk(h, log, maxTerm)
    ensures LogOk(h', log, maxTerm)
  {
    forall i | 0 <= i < |log|
      ensures EntryOk(h', log, maxTerm, i)
    {
      assert EntryOk(h, log, maxTerm, i);
      SupportsStable(h, h', log[i].term, i, log);
    }
  }

  lemma BrokenStable(h: History, h': History, t: nat, i: nat, until: nat, until': nat)
    requires Extends(h, h') && t in h.ldr && i < |h.ldr[t]| && until <= until'
    requires Broken(h, t, i, until)
    ensures Broken(h', t, i, until')
  {
    var u :| t < u < until && u in h.base && !Supports(h, t, i, h.base[u].log);
    SupportsStable(h, h', t, i, h.base[u].log);
    assert t < u < until' && u in h'.base && !Supports(h', t, i, h'.base[u].log);
  }

  /** Coverage survives when v acknowledges nothing new below `until`. */
  lemma CoversStable(h: History, h': History, v: NodeId, until: nat, log: seq<Entry>)
    requires Extends(h, h') && Covers(h, v, until, log)
    requires AckedBounded(h)
    requires forall t :: t < until && (v, t) in h'.acked ==> (v, t) in h.acked && h'.acked[(v, t)] == h.acked[(v, t)]
    ensures Covers(h', v, until, log)
  {
    forall t: nat, i: nat | OwnAck(h', v, t, i) && t < until
      ensures Supports(h', t, i, log) || Broken(h', t, i, until)
    {
      assert AckedOk(h, (v, t));
      assert OwnAck(h, v, t, i);
      SupportsStable(h, h', t, i, log);
      if Broken(h, t, i, until) {
        BrokenStable(h, h', t, i, until, until);
      }
    }
  }

  lemma CommittedStable(h: History, h': History, term: nat, k: nat, log: seq<Entry>)
    requires Extends(h, h') && Committed(h, term, k, log)
    ensures Committed(h', term, k, log)
  {
    if k != 0 {
      var p :| p in h.points && p.term <= term && k <= p.index && Supports(h, p.term, k, log);
      SupportsStable(h, h', p.term, k, log);
      assert p in h'.points;
    }
  }

  lemma StoreStable(h: History, h': History, n: Node)
    requires Extends(h, h') && StoreOk(h, n)
    ensures StoreOk(h', n)
  {
    LogStable(h, h', n.log, n.term);
    CommittedStable(h, h', n.term, n.commit, n.log);
  }

  lemma MessageStable(h: History, h': History, m: Message)
    requires Extends(h, h') && MessageOk(h, m)
    ensures MessageOk(h', m)
  {
    match m
    case AppendEntries(to, a) =>
      var l, l' := h.ldr[a.term], h'.ldr[a.term];
      assert l'[a.prevIndex + 1..a.prevIndex + 1 + |a.entries|] == l[a.prevIndex + 1..a.prevIndex + 1 + |a.entries|];
      CommittedStable(h, h', a.term, a.leaderCommit, l);
      CommittedPrefix(h', a.term, a.leaderCommit, l, l');
    case _ =>
  }

  lemma CommittedPrefix(h: History, term: nat, k: nat, log: seq<Entry>, log': seq<Entry>)
    requires Committed(h, term, k, log)
    requires k < |log| && k < |log'| && log[..k + 1] == log'[..k + 1]
    ensures Committed(h, term, k, log')
  {
    if k != 0 {
      var p :| p in h.points && p.term <= term && k <= p.index && Supports(h, p.term, k, log);
      assert Supports(h, p.term, k, log');
    }
  }

  /** A node that took no part in the step keeps its invariant. */
  lemma BystanderStable(h: History, h': History, n: Node)
    requires Extends(h, h') && NodeOk(h, n) && AckedBounded(h)
    requires n.role == Leader ==> h'.ldr[n.term] == h.ldr[n.term]
    requires forall x :: x in h'.votes && x.voter == n.id ==> x in h.votes
    requires forall k :: k in h'.cand && k.0 == n.id ==> k in h.cand
    requires forall t :: (n.id, t) in h'.acked ==> (n.id, t) in h.acked && h'.acked[(n.id, t)] == h.acked[(n.id, t)]
    requires forall t :: t in h'.base && t !in h.base ==>
      h'.base[t].leader != n.id && (t == n.term && n.id in h'.base[t].quorum ==> n.votedFor == Some(h'.base[t].leader))
    ensures NodeOk(h', n)
  {
    StoreStable(h, h', n);
    CoversStable(h, h', n.id, n.term + 1, n.log);
    assert BallotOk(h', n);
    assert RoleOk(h', n);
  }

  lemma MessagesStable(h: History, h': History, net: set<Message>)
    requires Extends(h, h') && MessagesOk(net, h)
    ensures MessagesOk(net, h')
  {
    forall m | m in net ensures MessageOk(h', m) { MessageStable(h, h', m); }
  }

  // ----- The parts of the history invariant that a step leaves alone -----

  lemma LeadersStable(h: History, h': History)
    requires LeadersOk(h) && Extends(h, h') && h'.ldr == h.ldr && h'.base == h.base
    ensures LeadersOk(h')
  {
    forall t | t in h'.ldr ensures LogOk(h', h'.ldr[t], t) { LogStable(h, h', h.ldr[t], t); }
  }

  lemma CandidaciesStable(h: History, h': History, members: set<NodeId>)
    requires CandidaciesOk(h, members) && Extends(h, h') && h'.cand == h.cand
    ensures CandidaciesOk(h', members)
  {
    forall k | k in h'.cand
      ensures CandidacyOk(h', members, k)
    {
      assert CandidacyOk(h, members, k);
      LogStable(h, h', h.cand[k], k.1 - 1);
    }
  }

  /** An election stays sound when its quorum casts no vote against it and acknowledges nothing below its term. */
  lemma ElectionStable(h: History, h': History, members: set<NodeId>, t: nat)
    requires AckedBounded(h) && t in h.base && ElectionOk(h, members, t) && Extends(h, h')
    requires forall i :: |h.ldr[t]| <= i < |h'.ldr[t]| ==> h'.ldr[t][i].term == t
    requires forall v, c :: v in h.base[t].quorum && Vote(v, c, t) in h'.votes ==> c == h.base[t].leader
    requires forall v, u :: v in h.base[t].quorum && (v, u) in h'.acked && u < t ==>
      (v, u) in h.acked && h'.acked[(v, u)] == h.acked[(v, u)]
    ensures ElectionOk(h', members, t)
  {
    var e := h.base[t];
    LogStable(h, h', e.log, t - 1);
    forall v | v in e.quorum
      ensures Covers(h', v, t, e.log)
    {
      CoversStable(h, h', v, t, e.log);
    }
  }

  lemma ElectionsStable(h: History, h': History, members: set<NodeId>)
    requires AckedBounded(h) && ElectionsOk(h, members) && Extends(h, h')
    requires h'.ldr == h.ldr && h'.base == h.base && h'.acked == h.acked
    requires forall x :: x in h'.votes && x !in h.votes && x.term in h.base && x.voter in h.base[x.term].quorum ==>
      x.candidate == h.base[x.term].leader
    ensures ElectionsOk(h', members)
  {
    forall t | t in h'.base
      ensures ElectionOk(h', members, t)
    {
      assert ElectionOk(h, members, t);
      ElectionStable(h, h', members, t);
    }
  }

  lemma VoteStable(h: History, h': History, members: set<NodeId>, x: Vote)
    requires AckedBounded(h) && x in h.votes && VoteOk(h, members, x) && Extends(h, h')
    requires x.term !in h'.base ==> forall c :: Vote(x.voter, c, x.term) in h'.votes ==> c == x.candidate
    requires forall u :: u < x.term && (x.voter, u) in h'.acked ==>
      (x.voter, u) in h.acked && h'.acked[(x.voter, u)] == h.acked[(x.voter, u)]
    ensures VoteOk(h', members, x)
  {
    if x.term !in h'.base {
      CoversStable(h, h', x.voter, x.term, h.cand[(x.candidate, x.term)]);
    }
  }

  /** Casting one vote: sound if the voter has not voted otherwise in that term and the candidate covers it. */
  lemma VoteCast(h: History, h': History, members: set<NodeId>, x: Vote)
    requires AckedBounded(h) && VotesOk(h, members) && Extends(h, h')
    requires h'.votes == h.votes + {x} && h'.acked == h.acked && h'.base == h.base
    requires x.term !in h.base ==> forall c :: Vote(x.voter, c, x.term) in h.votes ==> c == x.candidate
    requires x.voter in members && (x.candidate, x.term) in h'.cand
    requires x.term !in h.base ==> Covers(h, x.voter, x.term, h'.cand[(x.candidate, x.term)])
    ensures VotesOk(h', members)
  {
    forall y | y in h'.votes
      ensures VoteOk(h', members, y)
    {
      if y in h.votes {
        assert VoteOk(h, members, y);
        VoteStable(h, h', members, y);
      } else if x.term !in h.base {
        CoversStable(h, h', x.voter, x.term, h'.cand[(x.candidate, x.term)]);
      }
    }
  }

  lemma VotesStable(h: History, h': History, members: set<NodeId>)
    requires AckedBounded(h) && VotesOk(h, members) && Extends(h, h') && h'.votes == h.votes && h'.acked == h.acked
    ensures VotesOk(h', members)
  {
    forall y | y in h'.votes
      ensures VoteOk(h', members, y)
    {
      assert VoteOk(h, members, y);
      VoteStable(h, h', members, y);
    }
  }

  lemma AckedStable(h: History, h': History)
    requires AckedBounded(h) && Extends(h, h') && h'.acked == h.acked
    ensures AckedBounded(h')
  {
    forall k | k in h'.acked ensures AckedOk(h', k) { assert AckedOk(h, k); }
  }

  lemma PointStable(h: History, h': History, members: set<NodeId>, p: Point)
    requires Extends(h, h') && p in h.points && PointOk(h, members, p)
    requires p in h'.points && h'.points[p] == h.points[p]
    ensures PointOk(h', members, p)
  {
    forall v | v in h'.points[p]
      ensures OwnAck(h', v, p.term, p.index)
    {
      assert OwnAck(h, v, p.term, p.index);
    }
  }

  lemma PointsStable(h: History, h': History, members: set<NodeId>)
    requires PointsOk(h, members) && Extends(h, h') && h'.points == h.points
    ensures PointsOk(h', members)
  {
    forall p | p in h'.points
      ensures PointOk(h', members, p)
    {
      assert PointOk(h, members, p);
      PointStable(h, h', members, p);
    }
  }

  // ----- A node whose term rose -----

  lemma TermRaised(h: History, n: Node, m: Node)
    requires StoreOk(h, n) && n.term <= m.term
    requires m.log == n.log && m.applied == n.applied && m.commit == n.commit && m.machine == n.machine
    ensures StoreOk(h, m)
  {
    MaxTermGrows(h, n.log, n.term, m.term);
    if n.commit != 0 {
      var p :| p in h.points && p.term <= n.term && n.commit <= p.index && Supports(h, p.term, n.commit, n.log);
    }
  }

  lemma AcksWithTerm(h: History, h': History, n: Node, m: Node)
    requires Extends(h, h') && AcksOk(h, n) && h'.acked == h.acked && AckedBounded(h)
    requires m.id == n.id && m.log == n.log && n.term <= m.term
    ensures AcksOk(h', m)
  {
    forall t: nat, i: nat | OwnAck(h', m.id, t, i) && t < m.term + 1
      ensures Supports(h', t, i, m.log) || Broken(h', t, i, m.term + 1)
    {
      assert AckedOk(h, (m.id, t));
      assert OwnAck(h, n.id, t, i);
      SupportsStable(h, h', t, i, m.log);
      if Broken(h, t, i, n.term + 1) {
        BrokenStable(h, h', t, i, n.term + 1, m.term + 1);
      }
    }
  }
}
