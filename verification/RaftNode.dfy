/**
  One Raft node (pysql/raft.py): its state, its two RPC handlers, and the steps a
  node takes on its own.  Each handler exists twice: as a function on node values,
  which the cluster model in RaftCluster steps through, and as a method of the class
  `RaftNode`, which updates fields in place and is proved to compute that function.
*/
module RaftNodes {
  import opened Common

  type NodeId = nat
  type Command = int

  datatype Role = Follower | Candidate | Leader

  datatype Entry = Entry(term: nat, index: nat, command: Option<Command>)

  datatype VoteArgs = VoteArgs(term: nat, candidate: NodeId, lastLogIndex: nat, lastLogTerm: nat)
  datatype VoteReply = VoteReply(term: nat, granted: bool)
  datatype AppendArgs = AppendArgs(term: nat, leader: NodeId, prevIndex: nat, prevTerm: nat,
                                   entries: seq<Entry>, leaderCommit: nat)
  datatype AppendReply = AppendReply(term: nat, success: bool, matchIndex: nat)

  const DUMMY := Entry(0, 0, None)

  /** The fields of a node.  `machine` is the list of commands handed to the apply callback, in order. */
  datatype Node = Node(id: NodeId, peers: seq<NodeId>, term: nat, votedFor: Option<NodeId>, role: Role,
                       log: seq<Entry>, commit: nat, applied: nat,
                       nextIndex: map<NodeId, nat>, matchIndex: map<NodeId, nat>, machine: seq<Command>)

  function Fresh(id: NodeId, peers: seq<NodeId>): Node {
    Node(id, peers, 0, None, Follower, [DUMMY], 0, 0, map[], map[], [])
  }

  // ----- RequestVote -----

  predicate UpToDate(log: seq<Entry>, a: VoteArgs)
    requires log != []
  {
    var last := log[|log| - 1];
    a.lastLogTerm > last.term || (a.lastLogTerm == last.term && a.lastLogIndex >= last.index)
  }

  function OnVote(n: Node, a: VoteArgs): (Node, VoteReply)
    requires n.log != []
  {
    if a.term < n.term then (n, VoteReply(n.term, false))
    else
      var m := if a.term > n.term then n.(term := a.term, role := Follower, votedFor := None) else n;
      if (m.votedFor.None? || m.votedFor == Some(a.candidate)) && UpToDate(m.log, a)
      then (m.(votedFor := Some(a.candidate)), VoteReply(m.term, true))
      else (m, VoteReply(m.term, false))
  }

  // ----- AppendEntries -----

  function Place(log: seq<Entry>, e: Entry): (r: seq<Entry>)
    ensures log != [] ==> r != []
  {
    if e.index < |log| then
      if log[e.index].term != e.term then log[..e.index] + [e] else log
    else log + [e]
  }

  /** The entries stand one after another from `from` on. */
  predicate Consecutive(entries: seq<Entry>, from: nat) {
    forall k :: 0 <= k < |entries| ==> entries[k].index == from + k
  }

  /** Entry k, to stand at from + k, meets an entry of another term there. */
  predicate Clashes(log: seq<Entry>, entries: seq<Entry>, from: nat, k: nat)
    requires k < |entries|
  {
    from + k < |log| && log[from + k].term != entries[k].term
  }

  /** Entry k is the first to clash; none does if k is their number. */
  predicate FirstClash(log: seq<Entry>, entries: seq<Entry>, from: nat, k: nat) {
    k <= |entries| && (k < |entries| ==> Clashes(log, entries, from, k))
    && forall j :: 0 <= j < k ==> !Clashes(log, entries, from, j)
  }

  /** From the first clash on the entries replace what stood there; with no clash they add what is not there yet. */
  function Overlaid(log: seq<Entry>, entries: seq<Entry>, from: nat, k: nat): seq<Entry>
    requires k <= |entries| && from <= |log| && (k < |entries| ==> from + k < |log|)
  {
    if k < |entries| then log[..from + k] + entries[k..]
    else if from + k <= |log| then log
    else log + entries[|log| - from..]
  }

  predicate Follows(log: seq<Entry>, entries: seq<Entry>, from: nat, k: nat) {
    Consecutive(entries, from) && FirstClash(log, entries, from, k)
  }

  lemma {:induction false} PlacedIs(log: seq<Entry>, entries: seq<Entry>, from: nat, k: nat)
    requires 0 < from <= |log| && Consecutive(entries, from) && FirstClash(log, entries, from, k)
    ensures PlaceAll(log, entries) == Overlaid(log, entries, from, k)
    decreases |entries|
  {
    if entries != [] {
      var rest := entries[1..];
      hide FirstClash;
      assert k <= |entries| && Consecutive(rest, from + 1) by { RestFollows(log, entries, from, k); }
      if from < |log| && log[from].term == entries[0].term {
        ClashesAfter(log, entries, from, k);
        PlacedIs(log, rest, from + 1, k - 1);
      } else {
        FirstPlaced(log, entries, from, k);
        PlacedIs(log[..from] + [entries[0]], rest, from + 1, |rest|);
      }
    }
  }

  lemma RestFollows(log: seq<Entry>, entries: seq<Entry>, from: nat, k: nat)
    requires entries != [] && Follows(log, entries, from, k)
    ensures k <= |entries| && Consecutive(entries[1..], from + 1)
  {
    var rest := entries[1..];
    forall j | 0 <= j < |rest| ensures rest[j].index == from + 1 + j { assert rest[j] == entries[j + 1]; }
  }

  /** An entry that clashes, or for which the log is too short, ends the log: what follows it is added. */
  lemma FirstPlaced(log: seq<Entry>, entries: seq<Entry>, from: nat, k: nat)
    requires entries != [] && from <= |log| && Follows(log, entries, from, k)
    requires from < |log| ==> log[from].term != entries[0].term
    ensures var cut, rest := log[..from] + [entries[0]], entries[1..];
      && Place(log, entries[0]) == cut && FirstClash(cut, rest, from + 1, |rest|)
      && Overlaid(cut, rest, from + 1, |rest|) == log[..from] + entries
      && k == (if from < |log| then 0 else |entries|) && Overlaid(log, entries, from, k) == log[..from] + entries
  {
    var cut, rest := log[..from] + [entries[0]], entries[1..];
    assert Clashes(log, entries, from, 0) <==> from < |log|;
    assert cut + rest == log[..from] + entries;
    assert rest[0..] == rest && cut + [] == cut;
  }

  lemma ClashesAfter(log: seq<Entry>, entries: seq<Entry>, from: nat, k: nat)
    requires entries != [] && from < |log| && log[from].term == entries[0].term && FirstClash(log, entries, from, k)
    ensures k > 0 && FirstClash(log, entries[1..], from + 1, k - 1)
  {
    assert !Clashes(log, entries, from, 0);
    var rest, next := entries[1..], from + 1;
    forall j: nat | j < k - 1
      ensures !Clashes(log, rest, next, j)
    {
      assert !Clashes(log, entries, from, j + 1);
    }
  }

  function PlaceAll(log: seq<Entry>, entries: seq<Entry>): (r: seq<Entry>)
    ensures log != [] ==> r != []
    decreases |entries|
  {
    if entries == [] then log else PlaceAll(Place(log, entries[0]), entries[1..])
  }

  function Commands(entries: seq<Entry>): seq<Command> {
    if entries == [] then []
    else Commands(entries[..|entries| - 1])
         + (var c := entries[|entries| - 1].command; if c.Some? then [c.value] else [])
  }

  function ApplyCommitted(n: Node): Node
    requires n.commit < |n.log|
  {
    if n.applied < n.commit
    then n.(machine := n.machine + Commands(n.log[n.applied + 1..n.commit + 1]), applied := n.commit)
    else n
  }

  function OnAppend(n: Node, a: AppendArgs): (Node, AppendReply) {
    if a.term < n.term then (n, AppendReply(n.term, false, 0))
    else
      var m := if a.term > n.term || n.role != Follower
               then n.(term := a.term, role := Follower, votedFor := None) else n;
      if a.prevIndex >= |m.log| then (m, AppendReply(m.term, false, 0))
      else if m.log[a.prevIndex].term != a.prevTerm
      then (m.(log := m.log[..a.prevIndex]), AppendReply(m.term, false, 0))
      else
        var p := m.(log := PlaceAll(m.log, a.entries));
        var last := |p.log| - 1;
        var q := if a.leaderCommit > p.commit
                 then ApplyCommitted(p.(commit := if a.leaderCommit <= last then a.leaderCommit else last))
                 else p;
        (q, AppendReply(q.term, true, last))
  }

  /** What a node does with an append message, case by case, but for its log and the commands it applies. */
  lemma AppendGives(n: Node, a: AppendArgs)
    ensures var (m, reply) := OnAppend(n, a);
      var known := a.term >= n.term && a.prevIndex < |n.log| && n.log[a.prevIndex].term == a.prevTerm;
      && m.id == n.id && m.peers == n.peers && m.nextIndex == n.nextIndex && m.matchIndex == n.matchIndex
      && (a.term < n.term ==> m == n && reply == AppendReply(n.term, false, 0))
      && (a.term >= n.term ==>
            && m.term == reply.term == a.term && m.role == Follower
            && m.votedFor == if a.term == n.term && n.role == Follower then n.votedFor else None)
      && (reply.success <==> known)
      && (known ==>
            && m.log != [] && reply.matchIndex == |m.log| - 1
            && m.commit == if a.leaderCommit <= n.commit then n.commit
                           else if a.leaderCommit < |m.log| then a.leaderCommit else |m.log| - 1)
      && (!known ==> reply.matchIndex == 0 && m.commit == n.commit)
      && (if known && a.leaderCommit > n.commit && n.applied < m.commit then
            m.applied == m.commit && m.machine == n.machine + Commands(m.log[n.applied + 1..m.commit + 1])
          else m.machine == n.machine && m.applied == n.applied)
  {
    hide PlaceAll, Commands;
  }

  /** And what becomes of its log: kept, cut off before the entry that does not match, or overlaid with the entries. */
  lemma AppendGivesLog(n: Node, a: AppendArgs, k: nat)
    requires a.term >= n.term
    ensures a.prevIndex >= |n.log| ==> OnAppend(n, a).0.log == n.log
    ensures a.prevIndex < |n.log| && n.log[a.prevIndex].term != a.prevTerm ==>
      OnAppend(n, a).0.log == n.log[..a.prevIndex]
    ensures var from := a.prevIndex + 1;
      from <= |n.log| && n.log[from - 1].term == a.prevTerm && Follows(n.log, a.entries, from, k) ==>
        OnAppend(n, a).0.log == Overlaid(n.log, a.entries, from, k)
  {
    hide PlaceAll, Commands;
    if a.prevIndex < |n.log| && Follows(n.log, a.entries, a.prevIndex + 1, k) {
      PlacedIs(n.log, a.entries, a.prevIndex + 1, k);
    }
  }

  // ----- Elections and leadership -----

  function StartElection(n: Node): (Node, VoteArgs)
    requires n.log != []
  {
    var m := n.(role := Candidate, term := n.term + 1, votedFor := Some(n.id));
    var last := m.log[|m.log| - 1];
    (m, VoteArgs(m.term, m.id, last.index, last.term))
  }

  /** `m` with every listed peer set to `v`. */
  function SetAll(m: map<NodeId, nat>, peers: seq<NodeId>, v: nat): (r: map<NodeId, nat>)
    ensures forall p :: p in r <==> p in m || p in peers
    ensures forall p :: p in r ==> r[p] == if p in peers then v else m[p]
  {
    if peers == [] then m else SetAll(m, peers[..|peers| - 1], v)[peers[|peers| - 1] := v]
  }

  function Promote(n: Node): Node {
    n.(role := Leader,
       nextIndex := SetAll(n.nextIndex, n.peers, |n.log|),
       matchIndex := SetAll(n.matchIndex, n.peers, 0))
  }

  function Propose(n: Node, c: Option<Command>): (Node, Option<nat>) {
    if n.role != Leader then (n, None)
    else (n.(log := n.log + [Entry(n.term, |n.log|, c)]), Some(|n.log|))
  }

  // ----- Leader commit -----

  predicate Credited(matchIndex: map<NodeId, nat>, p: NodeId, index: nat) {
    (if p in matchIndex then matchIndex[p] else 0) >= index
  }

  /** How many of the listed peers are credited with `index`. */
  function CreditCount(peers: seq<NodeId>, matchIndex: map<NodeId, nat>, index: nat): (r: nat)
    ensures r <= |peers|
  {
    if peers == [] then 0
    else CreditCount(peers[..|peers| - 1], matchIndex, index)
         + (if Credited(matchIndex, peers[|peers| - 1], index) then 1 else 0)
  }

  function Majority(peers: seq<NodeId>): nat {
    (|peers| + 1) / 2 + 1
  }

  /** The commit rule: an entry of the node's current term on a majority (the leader counts itself). */
  predicate Committable(n: Node, index: nat)
    requires index < |n.log|
  {
    n.log[index].term == n.term && 1 + CreditCount(n.peers, n.matchIndex, index) >= Majority(n.peers)
  }

  /** The positions in the list of peers of those credited with `index`. */
  function Crediting(peers: seq<NodeId>, matchIndex: map<NodeId, nat>, index: nat): set<nat> {
    set i: nat | i < |peers| && Credited(matchIndex, peers[i], index)
  }

  /** An entry of the current term that most of the cluster, the leader included, is known to hold. */
  predicate HeldByMost(n: Node, index: nat)
    requires index < |n.log|
  {
    n.log[index].term == n.term && 2 * (1 + |Crediting(n.peers, n.matchIndex, index)|) > 1 + |n.peers|
  }

  lemma {:induction false} CreditsCounted(peers: seq<NodeId>, matchIndex: map<NodeId, nat>, index: nat)
    ensures CreditCount(peers, matchIndex, index) == |Crediting(peers, matchIndex, index)|
  {
    if peers != [] {
      var m := |peers| - 1;
      CreditsCounted(peers[..m], matchIndex, index);
      var before, all := Crediting(peers[..m], matchIndex, index), Crediting(peers, matchIndex, index);
      assert all == if Credited(matchIndex, peers[m], index) then before + {m} else before;
    }
  }

  /** The commit rule asks for the current term and more than half of the cluster. */
  lemma CommittableIs(n: Node, index: nat)
    requires index < |n.log|
    ensures Committable(n, index) <==> HeldByMost(n, index)
  {
    CreditsCounted(n.peers, n.matchIndex, index);
  }

  lemma HighestHeld(n: Node)
    requires n.log != []
    ensures var m := HighestCommittable(n, |n.log| - 1);
      && (m > n.commit ==> m < |n.log| && HeldByMost(n, m))
      && forall k: nat :: n.commit < k < |n.log| && HeldByMost(n, k) ==> k <= m && n.commit < m
  {
    hide HeldByMost, Committable;
    forall k: nat | k < |n.log| ensures Committable(n, k) <==> HeldByMost(n, k) { CommittableIs(n, k); }
  }

  /** The greatest committable index in (n.commit, index], or n.commit when there is none. */
  function HighestCommittable(n: Node, index: nat): (r: nat)
    requires index < |n.log|
    ensures r == n.commit || (n.commit < r <= index && Committable(n, r))
    ensures forall k :: n.commit < k <= index && Committable(n, k) ==> n.commit < r && k <= r
  {
    if index <= n.commit then n.commit
    else if Committable(n, index) then index
    else HighestCommittable(n, index - 1)
  }

  function AdvanceCommit(n: Node): (Node, bool) {
    if n.role != Leader || n.log == [] then (n, false)
    else
      var k := HighestCommittable(n, |n.log| - 1);
      if k == n.commit then (n, false) else (ApplyCommitted(n.(commit := k)), true)
  }

  /** What is applied are the entries' commands, in order, entries without one being passed over. */
  lemma CommandsAre(e: Entry)
    ensures Commands([]) == [] && Commands([e]) == if e.command.Some? then [e.command.value] else []
  {
    assert [e][..0] == [];
  }

  lemma {:induction false} CommandsAppend(a: seq<Entry>, b: seq<Entry>)
    ensures Commands(a + b) == Commands(a) + Commands(b)
    decreases |b|
  {
    if b == [] {
      assert a + b == a;
    } else {
      var last := |b| - 1;
      assert (a + b)[..|a + b| - 1] == a + b[..last];
      CommandsAppend(a, b[..last]);
    }
  }

  // ----- The mutable node -----

  class RaftNode {
    const id: NodeId
    const peers: seq<NodeId>
    var currentTerm: nat
    var votedFor: Option<NodeId>
    var log: seq<Entry>
    var commitIndex: nat
    var lastApplied: nat
    var state: Role
    var nextIndex: map<NodeId, nat>
    var matchIndex: map<NodeId, nat>
    var machine: seq<Command>

    function View(): Node
      reads this
    {
      Node(id, peers, currentTerm, votedFor, state, log, commitIndex, lastApplied, nextIndex, matchIndex, machine)
    }

    constructor (id: NodeId, peers: seq<NodeId>)
      ensures View() == Fresh(id, peers)
    {
      this.id := id;
      this.peers := peers;
      currentTerm, votedFor, log := 0, None, [DUMMY];
      commitIndex, lastApplied, state := 0, 0, Follower;
      nextIndex, matchIndex, machine := map[], map[], [];
    }

    method HandleRequestVote(a: VoteArgs) returns (reply: VoteReply)
      requires log != []
      modifies this
      ensures (View(), reply) == OnVote(old(View()), a)
      ensures log == old(log) && currentTerm == reply.term
      ensures currentTerm == if a.term > old(currentTerm) then a.term else old(currentTerm)
      ensures reply.granted <==>
        && a.term >= old(currentTerm)
        && (a.term > old(currentTerm) || old(votedFor).None? || old(votedFor) == Some(a.candidate))
        && (a.lastLogTerm > log[|log| - 1].term
            || (a.lastLogTerm == log[|log| - 1].term && a.lastLogIndex >= log[|log| - 1].index))
      ensures votedFor ==
        if reply.granted then Some(a.candidate) else if a.term > old(currentTerm) then None else old(votedFor)
      ensures state == if a.term > old(currentTerm) then Follower else old(state)
    {
      if a.term < currentTerm {
        return VoteReply(currentTerm, false);
      }
      if a.term > currentTerm {
        currentTerm, state, votedFor := a.term, Follower, None;
      }
      var last := log[|log| - 1];
      var upToDate := false;
      if a.lastLogTerm > last.term {
        upToDate := true;
      } else if a.lastLogTerm == last.term && a.lastLogIndex >= last.index {
        upToDate := true;
      }
      var canVote := votedFor.None? || votedFor == Some(a.candidate);
      if canVote && upToDate {
        votedFor := Some(a.candidate);
        return VoteReply(currentTerm, true);
      }
      return VoteReply(currentTerm, false);
    }

    method HandleAppendEntries(a: AppendArgs) returns (reply: AppendReply)
      modifies this
      ensures (View(), reply) == OnAppend(old(View()), a)
    {
      if a.term < currentTerm {
        return AppendReply(currentTerm, false, 0);
      }
      if a.term > currentTerm || state != Follower {
        currentTerm, state, votedFor := a.term, Follower, None;
      }
      if a.prevIndex >= |log| {
        return AppendReply(currentTerm, false, 0);
      }
      if log[a.prevIndex].term != a.prevTerm {
        log := log[..a.prevIndex];
        return AppendReply(currentTerm, false, 0);
      }
      PlaceEntries(a.entries);
      if a.leaderCommit > commitIndex {
        commitIndex := if a.leaderCommit <= |log| - 1 then a.leaderCommit else |log| - 1;
        ApplyEntries();
      }
      return AppendReply(currentTerm, true, |log| - 1);
    }

    /** The entries go into the log one by one; at a conflict the log is cut off first. */
    method PlaceEntries(entries: seq<Entry>)
      requires log != []
      modifies this`log
      ensures log == PlaceAll(old(log), entries) && log != []
    {
      for i := 0 to |entries|
        invariant log != []
        invariant PlaceAll(old(log), entries) == PlaceAll(log, entries[i..])
      {
        var entry := entries[i];
        assert entries[i..][1..] == entries[i + 1..];
        if entry.index < |log| {
          if log[entry.index].term != entry.term {
            log := log[..entry.index];
            log := log + [entry];
          }
        } else {
          log := log + [entry];
        }
      }
    }

    /** Every peer with the arguments it is to be sent. */
    method BeginElection() returns (requests: seq<(NodeId, VoteArgs)>)
      requires log != []
      modifies this
      ensures View() == StartElection(old(View())).0
      ensures |requests| == |peers|
      ensures forall i :: 0 <= i < |peers| ==> requests[i] == (peers[i], StartElection(old(View())).1)
      ensures state == Candidate && currentTerm == old(currentTerm) + 1 && votedFor == Some(id) && log == old(log)
      ensures forall i :: 0 <= i < |peers| ==>
        requests[i] == (peers[i], VoteArgs(currentTerm, id, log[|log| - 1].index, log[|log| - 1].term))
    {
      state := Candidate;
      currentTerm := currentTerm + 1;
      votedFor := Some(id);
      var args := VoteArgs(currentTerm, id, log[|log| - 1].index, log[|log| - 1].term);
      requests := seq(|peers|, i requires 0 <= i < |peers| => (peers[i], args));
    }

    method PromoteToLeader()
      modifies this
      ensures View() == Promote(old(View()))
      ensures state == Leader && currentTerm == old(currentTerm) && log == old(log)
      ensures forall p :: p in peers ==>
        p in nextIndex && nextIndex[p] == |log| && p in matchIndex && matchIndex[p] == 0
    {
      state := Leader;
      ghost var next0, match0 := nextIndex, matchIndex;
      for i := 0 to |peers|
        invariant View() == old(View()).(role := Leader, nextIndex := nextIndex, matchIndex := matchIndex)
        invariant nextIndex == SetAll(next0, peers[..i], |log|)
        invariant matchIndex == SetAll(match0, peers[..i], 0)
      {
        nextIndex := nextIndex[peers[i] := |log|];
        matchIndex := matchIndex[peers[i] := 0];
        assert peers[..i + 1][..i] == peers[..i];
      }
      assert peers[..|peers|] == peers;
    }

    method ProposeCommand(c: Option<Command>) returns (index: Option<nat>)
      modifies this
      ensures (View(), index) == Propose(old(View()), c)
      ensures index == if old(state) == Leader then Some(|old(log)|) else None
      ensures log == if index.Some? then old(log) + [Entry(currentTerm, |old(log)|, c)] else old(log)
    {
      if state != Leader {
        return None;
      }
      index := Some(|log|);
      log := log + [Entry(currentTerm, |log|, c)];
    }

    method UpdateLeaderCommit() returns (advanced: bool)
      modifies this
      ensures (View(), advanced) == AdvanceCommit(old(View()))
      ensures advanced ==> old(commitIndex) < commitIndex < |log| && HeldByMost(old(View()), commitIndex)
      ensures old(state) == Leader ==>
        forall k: nat :: old(commitIndex) < k < |log| && HeldByMost(old(View()), k) ==> advanced && k <= commitIndex
      ensures !advanced ==> View() == old(View())
    {
      hide HeldByMost, ApplyCommitted, Commands;
      if log != [] { HighestHeld(View()); }
      advanced := false;
      if state != Leader {
        return;
      }
      var majority := (|peers| + 1) / 2 + 1;
      var n := |log| - 1;
      while n > commitIndex
        invariant -1 <= n < |log| && (n == -1 ==> log == [])
        invariant View() == old(View())
        invariant log != [] ==> HighestCommittable(View(), |log| - 1) == HighestCommittable(View(), n)
      {
        if log[n].term == currentTerm {
          var count := 1;
          for i := 0 to |peers|
            invariant count == 1 + CreditCount(peers[..i], matchIndex, n)
          {
            assert peers[..i + 1][..i] == peers[..i];
            if (if peers[i] in matchIndex then matchIndex[peers[i]] else 0) >= n {
              count := count + 1;
            }
          }
          assert peers[..|peers|] == peers;
          if count >= majority {
            commitIndex := n;
            ApplyEntries();
            advanced := true;
            return;
          }
        }
        n := n - 1;
      }
    }

    method ApplyEntries()
      requires commitIndex < |log|
      modifies this`lastApplied, this`machine
      ensures View() == ApplyCommitted(old(View()))
      ensures if old(lastApplied) < commitIndex
        then lastApplied == commitIndex
          && machine == old(machine) + Commands(log[old(lastApplied) + 1..commitIndex + 1])
        else lastApplied == old(lastApplied) && machine == old(machine)
    {
      ghost var start := lastApplied;
      while lastApplied < commitIndex
        invariant start <= lastApplied && (start < commitIndex ==> lastApplied <= commitIndex)
        invariant start >= commitIndex ==> lastApplied == start && machine == old(machine)
        invariant start < commitIndex ==> machine == old(machine) + Commands(log[start + 1..lastApplied + 1])
      {
        lastApplied := lastApplied + 1;
        var entry := log[lastApplied];
        assert log[start + 1..lastApplied + 1][..lastApplied - start - 1] == log[start + 1..lastApplied];
        if entry.command.Some? {
          machine := machine + [entry.command.value];
        }
      }
    }
  }
}
