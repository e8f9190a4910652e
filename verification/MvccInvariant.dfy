/** What holds of the versions and transactions in every reachable store. */
module MvccInvariant {
  import opened Common
  import opened MvccStore

  /** The transactions that t's snapshot counts as committed. */
  function Known(s: Store, t: TxnId): set<TxnId>
    requires t in s.txns
  {
    s.txns[t].snapshot.committed
  }

  ghost predicate TxnsOk(s: Store) {
    && s.next >= 1
    && s.txns.Keys == s.active + s.committed + s.aborted
    && s.active !! s.committed && s.active !! s.aborted && s.committed !! s.aborted
    && (forall t :: t in s.txns ==> 1 <= t < s.next && StatusOk(s, t) && KnownOk(s, t))
    && (forall t, u :: t in s.txns && u in s.txns && t <= u ==> Known(s, t) <= Known(s, u))
  }

  predicate StatusOk(s: Store, t: TxnId)
    requires t in s.txns
  {
    && (s.txns[t].status.Active? <==> t in s.active)
    && (s.txns[t].status.Committed? <==> t in s.committed)
    && (s.txns[t].status.Aborted? <==> t in s.aborted)
  }

  predicate KnownOk(s: Store, t: TxnId)
    requires t in s.txns
  {
    && Known(s, t) <= s.committed && s.txns[t].snapshot.active !! Known(s, t)
    && forall x :: x in Known(s, t) ==> x < t
  }

  /** Version v was ended by, or its creator precedes, transaction t. */
  predicate Follows(s: Store, v: Version, t: TxnId) {
    t in s.txns && (v.xmin == t || v.xmin in Known(s, t))
  }

  /** Every version was superseded by the creator of the one above it, which followed its own creator. */
  predicate LinkOk(s: Store, c: seq<Version>, i: nat)
    requires i < |c|
  {
    && c[i].xmin in s.txns
    && (if i == 0 then c[0].xmax == 0 || (c[0].xmax !in s.aborted && Follows(s, c[0], c[0].xmax))
        else c[i].xmax == c[i - 1].xmin && Follows(s, c[i], c[i].xmax))
  }

  predicate ChainOk(s: Store, c: seq<Version>) {
    forall i :: 0 <= i < |c| ==> LinkOk(s, c, i)
  }

  /** Transaction t created or ended the newest version. */
  predicate Holder(c: seq<Version>, t: TxnId) {
    c != [] && (c[0].xmin == t || c[0].xmax == t)
  }

  /** The position of the newest version whose creator has committed. */
  function Top(s: Store, c: seq<Version>): (k: nat)
    ensures k <= |c|
    ensures forall i :: 0 <= i < k ==> c[i].xmin !in s.committed
    ensures k < |c| ==> c[k].xmin in s.committed
  {
    if c == [] || c[0].xmin in s.committed then 0 else 1 + Top(s, c[1..])
  }

  /** The newest committed version bears witness to committed writer t: t made it, ended it, or precedes its maker. */
  predicate Recorded(s: Store, c: seq<Version>, t: TxnId) {
    var k := Top(s, c);
    k < |c| && c[k].xmin in s.txns && (t == c[k].xmin || t == c[k].xmax || t in Known(s, c[k].xmin))
  }

  /** Whoever made or ended version v has the item in its write set. */
  predicate MarkOk(s: Store, item: Item, v: Version) {
    && (v.xmin in s.txns ==> item in s.txns[v.xmin].written)
    && (v.xmax in s.txns ==> item in s.txns[v.xmax].written)
  }

  ghost predicate ItemOk(s: Store, item: Item) {
    var c := Chain(s, item);
    && (item in s.versions ==> c != [])
    && ChainOk(s, c)
    && (forall i :: 0 <= i < |c| ==> MarkOk(s, item, c[i]))
    && (forall t :: t in s.active && t in s.txns ==> (item in s.txns[t].written <==> Holder(c, t)))
    && (forall t :: t in s.committed && t in s.txns && item in s.txns[t].written ==> Recorded(s, c, t))
  }

  ghost predicate Inv(s: Store) {
    TxnsOk(s) && forall item :: ItemOk(s, item)
  }

  // ----- The discipline on writers -----

  /**
    Transaction t may write the item: nothing is there, or the newest version is t's own or was ended by t,
    or it is live and its creator had committed before t began.
  */
  predicate Clear(s: Store, t: TxnId, item: Item)
    requires t in s.txns
  {
    var c := Chain(s, item);
    c == [] || Holder(c, t) || (c[0].xmax == 0 && c[0].xmin in Known(s, t))
  }

  // ----- Reading, simplified -----

  /** The data of the first version made by a transaction in `view`, unless it was ended by one. */
  function See(c: seq<Version>, view: set<TxnId>): Option<Row> {
    if c == [] then None
    else if c[0].xmin !in view then See(c[1..], view)
    else if c[0].xmax in view then None
    else Some(c[0].data)
  }

  /** What t sees: what its snapshot knows to be committed, and itself. */
  function View(s: Store, t: TxnId): set<TxnId>
    requires t in s.txns
  {
    Known(s, t) + {t}
  }

  /** What a transaction that began now would read. */
  function Latest(s: Store, item: Item): Option<Row> {
    See(Chain(s, item), s.committed)
  }
}
