/** Multi-version concurrency control (pysql/mvcc.py): what is stored and what each operation does, as functions. */
module MvccStore {
  import opened Common

  type TxnId = nat            // 0 stands for no transaction
  type Row = seq<int>

  datatype Item = Item(table: string, key: int)

  /** One version of a row; a chain lists the versions of an item, newest first. */
  datatype Version = Version(data: Row, xmin: TxnId, xmax: TxnId)

  datatype Status = Active | Committed | Aborted

  datatype Snapshot = Snapshot(active: set<TxnId>, minActive: TxnId, next: TxnId, committed: set<TxnId>)

  datatype Transaction = Transaction(status: Status, snapshot: Snapshot, written: set<Item>, seen: set<Item>)

  datatype Store = Store(
    next: TxnId, txns: map<TxnId, Transaction>, active: set<TxnId>, committed: set<TxnId>, aborted: set<TxnId>,
    versions: map<Item, seq<Version>>)

  // ----- Visibility -----

  predicate IsVisibleTo(v: Version, t: TxnId, s: Snapshot) {
    if v.xmin == t then
      if v.xmax == t then false else if v.xmax == 0 then true else v.xmax !in s.committed
    else if v.xmin !in s.committed then false
    else if v.xmin in s.active then false
    else if v.xmax == 0 then true
    else if v.xmax == t then false
    else if v.xmax !in s.committed then true
    else v.xmax in s.active
  }

  /** The data of the first visible version. */
  function Walk(c: seq<Version>, t: TxnId, s: Snapshot): Option<Row> {
    if c == [] then None
    else if IsVisibleTo(c[0], t, s) then Some(c[0].data)
    else Walk(c[1..], t, s)
  }

  /** Made by one of `view`, and ended by none of them. */
  predicate InView(v: Version, view: set<TxnId>) {
    v.xmin in view && v.xmax !in view
  }

  /** Position k holds the newest version in view. */
  predicate NewestInView(c: seq<Version>, view: set<TxnId>, k: nat) {
    k < |c| && InView(c[k], view) && forall i :: 0 <= i < k ==> !InView(c[i], view)
  }

  /** What is in the snapshot's view, whoever is active: as the manager takes snapshots nobody is both. */
  predicate IsSane(t: TxnId, s: Snapshot) {
    t != 0 && 0 !in s.committed && s.active !! s.committed
  }

  /** A transaction sees what it and those it knows to have committed have made and not ended. */
  lemma {:induction false} WalkIs(c: seq<Version>, t: TxnId, s: Snapshot)
    requires IsSane(t, s)
    ensures forall k: nat :: NewestInView(c, s.committed + {t}, k) ==> Walk(c, t, s) == Some(c[k].data)
    ensures (forall k :: 0 <= k < |c| ==> !InView(c[k], s.committed + {t})) ==> Walk(c, t, s) == None
  {
    var view := s.committed + {t};
    if c != [] {
      assert IsVisibleTo(c[0], t, s) <==> InView(c[0], view);
      if !IsVisibleTo(c[0], t, s) {
        WalkIs(c[1..], t, s);
        forall k: nat | NewestInView(c, view, k)
          ensures Walk(c, t, s) == Some(c[k].data)
        {
          forall i | 0 <= i < k - 1 ensures !InView(c[1..][i], view) { assert c[1..][i] == c[i + 1]; }
          assert NewestInView(c[1..], view, k - 1);
        }
      }
    }
  }

  function Chain(s: Store, item: Item): seq<Version> {
    if item in s.versions then s.versions[item] else []
  }

  // ----- Transactions -----

  const EMPTY_STORE := Store(1, map[], {}, {}, {}, map[])

  predicate IsLeast(xs: set<nat>, m: nat) {
    m in xs && forall x :: x in xs ==> m <= x
  }

  lemma {:induction false} LeastExists(xs: set<nat>)
    requires xs != {}
    ensures exists m: nat :: IsLeast(xs, m)
  {
    var x :| x in xs;
    if xs == {x} {
      assert IsLeast(xs, x);
    } else {
      LeastExists(xs - {x});
      var m: nat :| IsLeast(xs - {x}, m);
      assert forall y :: y in xs ==> y == x || y in xs - {x};
      assert IsLeast(xs, if x < m then x else m);
    }
  }

  ghost function Least(xs: set<nat>, otherwise: nat): (m: nat)
    ensures xs != {} ==> IsLeast(xs, m)
    ensures xs == {} ==> m == otherwise
  {
    if xs == {} then otherwise
    else
      LeastExists(xs);
      var m: nat :| IsLeast(xs, m);
      m
  }

  ghost function Begin(s: Store): Store {
    var snapshot := Snapshot(s.active, Least(s.active, s.next), s.next, s.committed);
    s.(next := s.next + 1, active := s.active + {s.next},
       txns := s.txns[s.next := Transaction(Active, snapshot, {}, {})])
  }

  /** Some other transaction that counts as committed, though it is still listed as active, wrote what t wrote. */
  predicate Conflict(s: Store, t: TxnId)
    requires t in s.txns
  {
    exists u :: u in s.active && u in s.txns && u != t && s.txns[u].status.Committed?
      && s.txns[t].written * s.txns[u].written != {}
  }

  function Commit(s: Store, t: TxnId): (r: (Store, bool))
    requires t in s.txns
  {
    if !s.txns[t].status.Active? then (s, false)
    else if Conflict(s, t) then (Abort(s, t), false)
    else
      var txns := s.txns[t := s.txns[t].(status := Committed)];
      (s.(txns := txns, committed := s.committed + {t}, active := s.active - {t}), true)
  }

  /** What is left of a chain when t is rolled back. */
  function Undo(c: seq<Version>, t: TxnId): seq<Version> {
    if c == [] then []
    else if c[0].xmin == t then
      if |c| > 1 && c[1].xmax == t then [c[1].(xmax := 0)] + c[2..] else c[1..]
    else if c[0].xmax == t then [c[0].(xmax := 0)] + c[1..]
    else c
  }

  function Abort(s: Store, t: TxnId): Store
    requires t in s.txns
  {
    s.(txns := s.txns[t := s.txns[t].(status := Aborted)], aborted := s.aborted + {t}, active := s.active - {t},
       versions := map item | item in s.versions && Undo(s.versions[item], t) != [] :: Undo(s.versions[item], t))
  }

  // ----- Reading and writing -----

  /** The check that turns a write away: another active transaction has superseded or deleted the newest version. */
  predicate Refused(s: Store, t: TxnId, item: Item) {
    var c := Chain(s, item);
    c != [] && c[0].xmax != 0 && c[0].xmax != t && c[0].xmax in s.active
  }

  /** The newest version marked as ended by t. */
  function Superseded(c: seq<Version>, t: TxnId): seq<Version> {
    if c == [] then [] else [c[0].(xmax := t)] + c[1..]
  }

  function Wrote(s: Store, t: TxnId, item: Item, c: seq<Version>): Store
    requires t in s.txns
  {
    s.(versions := s.versions[item := c], txns := s.txns[t := s.txns[t].(written := s.txns[t].written + {item})])
  }

  function Write(s: Store, t: TxnId, item: Item, data: Row): (r: (Store, bool))
    requires t in s.txns
  {
    if Refused(s, t, item) then (s, false)
    else (Wrote(s, t, item, [Version(data, t, 0)] + Superseded(Chain(s, item), t)), true)
  }

  function Delete(s: Store, t: TxnId, item: Item): (r: (Store, bool))
    requires t in s.txns
  {
    if Chain(s, item) == [] || Refused(s, t, item) then (s, false)
    else (Wrote(s, t, item, Superseded(Chain(s, item), t)), true)
  }

  function Read(s: Store, t: TxnId, item: Item): Option<Row>
    requires t in s.txns
  {
    Walk(Chain(s, item), t, s.txns[t].snapshot)
  }

  /** Reading also records what was read. */
  function Noted(s: Store, t: TxnId, item: Item): Store
    requires t in s.txns
  {
    if Read(s, t, item).None? then s
    else s.(txns := s.txns[t := s.txns[t].(seen := s.txns[t].seen + {item})])
  }

  // ----- Garbage collection -----

  predicate Dead(v: Version, min: TxnId, committed: set<TxnId>) {
    v.xmax != 0 && v.xmax < min && v.xmax in committed
  }

  /** The first dead version at position i or later that has something below it; the length of the chain if none. */
  function FirstDead(c: seq<Version>, i: nat, min: TxnId, committed: set<TxnId>): (j: nat)
    ensures j == |c| || (i <= j && j + 1 < |c| && Dead(c[j], min, committed))
    ensures forall k :: i <= k < j && k + 1 < |c| ==> !Dead(c[k], min, committed)
    decreases |c| - i
  {
    if i + 1 >= |c| then |c|
    else if Dead(c[i], min, committed) then i
    else FirstDead(c, i + 1, min, committed)
  }

  /** The chain cut below its first dead version at position i or later. */
  function Trim(c: seq<Version>, i: nat, min: TxnId, committed: set<TxnId>): (r: seq<Version>)
    ensures var j := FirstDead(c, i, min, committed);
      r == if j == |c| then c else c[..j + 1]
    decreases |c| - i
  {
    if i + 1 >= |c| then c
    else if Dead(c[i], min, committed) then c[..i + 1]
    else Trim(c, i + 1, min, committed)
  }

  ghost function Collect(s: Store): Store {
    s.(versions := map item | item in s.versions :: Trim(s.versions[item], 1, Least(s.active, s.next), s.committed))
  }
}
