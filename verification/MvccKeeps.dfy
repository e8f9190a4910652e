/** Every operation keeps the invariant. */
module MvccKeeps {
  import opened MvccStore
  import opened MvccInvariant
  import opened MvccReads

  lemma {:induction false} TopIs(s: Store, c: seq<Version>, k: nat)
    requires k <= |c| && forall i :: 0 <= i < k ==> c[i].xmin !in s.committed
    requires k < |c| ==> c[k].xmin in s.committed
    ensures Top(s, c) == k
  {
    if k > 0 { TopIs(s, c[1..], k - 1); }
  }

  lemma ItemHere(s: Store, item: Item)
    requires Inv(s)
    ensures ItemOk(s, item)
  {
  }

  /** Snapshots are never changed, and no end of a chain's newest version is newly aborted. */
  lemma LinksSame(s: Store, s': Store, c: seq<Version>)
    requires ChainOk(s, c) && s.txns.Keys <= s'.txns.Keys
    requires forall t :: t in s.txns ==> s'.txns[t].snapshot == s.txns[t].snapshot
    requires c != [] && c[0].xmax != 0 ==> c[0].xmax !in s'.aborted
    ensures ChainOk(s', c)
  {
    forall i | 0 <= i < |c|
      ensures LinkOk(s', c, i)
    {
      assert LinkOk(s, c, i);
    }
  }

  lemma HeadNotAborted(s: Store, c: seq<Version>)
    requires ChainOk(s, c) && c != []
    ensures c[0].xmax != 0 ==> c[0].xmax !in s.aborted && Follows(s, c[0], c[0].xmax)
    ensures c[0].xmin in s.txns
  {
    assert LinkOk(s, c, 0);
  }

  // ----- Begin -----

  lemma BeginKeeps(s: Store)
    requires Inv(s)
    ensures Inv(Begin(s))
  {
    var s' := Begin(s);
    assert TxnsOk(s') by {
      forall t | t in s'.txns
        ensures 1 <= t < s'.next && StatusOk(s', t) && KnownOk(s', t)
      {
        if t in s.txns { assert StatusOk(s, t) && KnownOk(s, t); }
      }
      forall t, u | t in s'.txns && u in s'.txns && t <= u
        ensures Known(s', t) <= Known(s', u)
      {
        if u == s.next && t != u { assert KnownOk(s, t); }
      }
    }
    forall item
      ensures ItemOk(s', item)
    {
      BeginItem(s, item);
    }
  }

  lemma BeginItem(s: Store, item: Item)
    requires Inv(s)
    ensures ItemOk(Begin(s), item)
  {
    var s', c := Begin(s), Chain(s, item);
    ItemHere(s, item);
    assert Chain(s', item) == c;
    if c != [] { HeadNotAborted(s, c); }
    LinksSame(s, s', c);
    forall i | 0 <= i < |c|
      ensures MarkOk(s', item, c[i])
    {
      assert MarkOk(s, item, c[i]) && LinkOk(s, c, i);
    }
    forall t | t in s'.committed && t in s'.txns && item in s'.txns[t].written
      ensures Recorded(s', c, t)
    {
      assert Recorded(s, c, t);
      TopIs(s', c, Top(s, c));
    }
  }

  // ----- Write and delete -----

  /** What a writer that may proceed finds on top. */
  lemma ClearTop(s: Store, t: TxnId, item: Item)
    requires Inv(s) && t in s.active && t in s.txns && Clear(s, t, item)
    ensures var c := Chain(s, item);
      c != [] ==>
        && (c[0].xmax == 0 || c[0].xmax == t) && Follows(s, c[0], t)
        && forall u :: u in s.active && u != t ==> !Holder(c, u)
  {
    var c := Chain(s, item);
    ItemHere(s, item);
    assert KnownOk(s, t);
    if c != [] {
      HeadNotAborted(s, c);
      forall u | u in s.txns
        ensures t !in Known(s, u)
      {
        NotKnown(s, t, u);
      }
    }
  }

  /** An active transaction is in nobody's snapshot. */
  lemma NotKnown(s: Store, t: TxnId, u: TxnId)
    requires TxnsOk(s) && t in s.active && u in s.txns
    ensures t !in Known(s, u)
  {
    assert KnownOk(s, u);
  }

  lemma WroteTxns(s: Store, t: TxnId, item: Item, c: seq<Version>)
    requires TxnsOk(s) && t in s.active && t in s.txns
    ensures TxnsOk(Wrote(s, t, item, c))
  {
    var s' := Wrote(s, t, item, c);
    forall u | u in s'.txns
      ensures 1 <= u < s'.next && StatusOk(s', u) && KnownOk(s', u)
    {
      assert StatusOk(s, u) && KnownOk(s, u);
    }
  }

  /** Putting a chain with t on top where t may write. */
  lemma WroteKeeps(s: Store, t: TxnId, item: Item, c': seq<Version>)
    requires Inv(s) && t in s.active && t in s.txns && Clear(s, t, item) && OnTop(s, t, c')
    requires ChainOk(Wrote(s, t, item, c'), c')
    requires forall i :: 0 <= i < |c'| ==> MarkOk(Wrote(s, t, item, c'), item, c'[i])
    requires forall u :: u in s.committed && u in s.txns && Recorded(s, Chain(s, item), u) ==>
      Recorded(Wrote(s, t, item, c'), c', u)
    ensures Inv(Wrote(s, t, item, c'))
  {
    var s' := Wrote(s, t, item, c');
    WroteTxns(s, t, item, c');
    ClearTop(s, t, item);
    forall it
      ensures ItemOk(s', it)
    {
      if it == item {
        ItemHere(s, it);
        assert KnownOk(s, t);
        assert Chain(s', it) == c';
      } else {
        OtherItem(s, t, item, c', it);
      }
    }
  }

  /** t is on top of the chain, alone. */
  predicate OnTop(s: Store, t: TxnId, c: seq<Version>)
    requires t in s.txns
  {
    Holder(c, t) && (c[0].xmin == t || c[0].xmin in Known(s, t)) && (c[0].xmax == 0 || c[0].xmax == t)
  }

  lemma OtherItem(s: Store, t: TxnId, item: Item, c': seq<Version>, it: Item)
    requires Inv(s) && t in s.active && t in s.txns && it != item
    ensures ItemOk(Wrote(s, t, item, c'), it)
  {
    var s', c := Wrote(s, t, item, c'), Chain(s, it);
    ItemHere(s, it);
    assert Chain(s', it) == c;
    MarksSame(s, s', it, c);
    if c != [] { HeadNotAborted(s, c); }
    LinksSame(s, s', c);
    forall u | u in s'.committed && u in s'.txns && it in s'.txns[u].written
      ensures Recorded(s', c, u)
    {
      assert Recorded(s, c, u);
      TopIs(s', c, Top(s, c));
    }
  }

  /** Write sets only grow, and nobody new has a mark on the chain. */
  lemma MarksSame(s: Store, s': Store, item: Item, c: seq<Version>)
    requires forall i :: 0 <= i < |c| ==> MarkOk(s, item, c[i])
    requires forall t :: t in s.txns ==> t in s'.txns && s.txns[t].written <= s'.txns[t].written
    requires s'.txns.Keys == s.txns.Keys
    ensures forall i :: 0 <= i < |c| ==> MarkOk(s', item, c[i])
  {
    forall i | 0 <= i < |c|
      ensures MarkOk(s', item, c[i])
    {
      assert MarkOk(s, item, c[i]);
    }
  }

  /** The newest version marked as ended by t: the links hold and the record of committed writers is kept. */
  lemma SupersededOk(s: Store, t: TxnId, item: Item, s': Store)
    requires Inv(s) && t in s.active && t in s.txns && Clear(s, t, item) && Chain(s, item) != []
    requires s'.txns.Keys == s.txns.Keys && s'.aborted == s.aborted && s'.committed == s.committed
    requires forall u :: u in s.txns ==> s'.txns[u].snapshot == s.txns[u].snapshot
    requires t in s'.txns && item in s'.txns[t].written
    requires forall u :: u in s.txns ==> s.txns[u].written <= s'.txns[u].written
    ensures ChainOk(s', Superseded(Chain(s, item), t))
    ensures forall i :: 0 <= i < |Chain(s, item)| ==> MarkOk(s', item, Superseded(Chain(s, item), t)[i])
    ensures forall u :: u in s.committed && Recorded(s, Chain(s, item), u) ==>
      Recorded(s', Superseded(Chain(s, item), t), u)
  {
    var c := Chain(s, item);
    var c' := Superseded(c, t);
    ItemHere(s, item);
    ClearTop(s, t, item);
    forall i | 0 <= i < |c'|
      ensures LinkOk(s', c', i)
    {
      assert LinkOk(s, c, i);
    }
    forall i | 0 <= i < |c'|
      ensures MarkOk(s', item, c'[i])
    {
      assert MarkOk(s, item, c[i]);
    }
    TopIs(s', c', Top(s, c));
  }

  lemma WriteKeeps(s: Store, t: TxnId, item: Item, data: Row)
    requires Inv(s) && t in s.active && t in s.txns && (Refused(s, t, item) || Clear(s, t, item))
    ensures Inv(Write(s, t, item, data).0)
  {
    if !Refused(s, t, item) {
      var c := Chain(s, item);
      var c' := [Version(data, t, 0)] + Superseded(c, t);
      var s' := Wrote(s, t, item, c');
      if c != [] { SupersededOk(s, t, item, s'); ClearTop(s, t, item); }
      forall i | 0 <= i < |c'|
        ensures LinkOk(s', c', i)
      {
        if i > 0 { assert LinkOk(s', Superseded(c, t), i - 1); }
      }
      forall i | 0 <= i < |c'|
        ensures MarkOk(s', item, c'[i])
      {
        if i == 0 { assert 0 !in s.txns; } else { assert MarkOk(s', item, Superseded(c, t)[i - 1]); }
      }
      forall u | u in s.committed && u in s.txns && Recorded(s, c, u)
        ensures Recorded(s', c', u)
      {
        assert Recorded(s', Superseded(c, t), u);
        TopIs(s', c', 1 + Top(s', Superseded(c, t)));
      }
      WroteKeeps(s, t, item, c');
    }
  }

  lemma DeleteKeeps(s: Store, t: TxnId, item: Item)
    requires Inv(s) && t in s.active && t in s.txns && (Refused(s, t, item) || Clear(s, t, item))
    ensures Inv(Delete(s, t, item).0)
  {
    var c := Chain(s, item);
    if c != [] && !Refused(s, t, item) {
      SupersededOk(s, t, item, Wrote(s, t, item, Superseded(c, t)));
      ClearTop(s, t, item);
      WroteKeeps(s, t, item, Superseded(c, t));
    }
  }

  lemma NotedKeeps(s: Store, t: TxnId, item: Item)
    requires Inv(s) && t in s.active && t in s.txns
    ensures Inv(Noted(s, t, item))
  {
    hide Read, Top, LinkOk;
    var s' := Noted(s, t, item);
    forall u | u in s'.txns
      ensures 1 <= u < s'.next && StatusOk(s', u) && KnownOk(s', u)
    {
      assert StatusOk(s, u) && KnownOk(s, u);
    }
    forall it
      ensures ItemOk(s', it)
    {
      ItemHere(s, it);
      var c := Chain(s, it);
      assert Chain(s', it) == c;
      if c != [] { HeadNotAborted(s, c); }
      LinksSame(s, s', c);
      forall u | u in s'.committed && u in s'.txns && it in s'.txns[u].written
        ensures Recorded(s', c, u)
      {
        assert Recorded(s, c, u);
        TopIs(s', c, Top(s, c));
      }
    }
  }

  // ----- Commit -----

  /** The check made at commit never fires: what is listed as active has not committed. */
  lemma NoConflict(s: Store, t: TxnId)
    requires TxnsOk(s) && t in s.txns
    ensures !Conflict(s, t)
  {
    forall u | u in s.active && u in s.txns
      ensures !s.txns[u].status.Committed?
    {
      assert StatusOk(s, u);
    }
  }

  /** Committers of an item that t has written are all known to t. */
  lemma WritersKnown(s: Store, t: TxnId, item: Item, u: TxnId)
    requires Inv(s) && t in s.active && t in s.txns && item in s.txns[t].written
    requires u in s.committed && u in s.txns && item in s.txns[u].written
    ensures u in Known(s, t)
  {
    var c := Chain(s, item);
    ItemHere(s, item);
    assert Holder(c, t) && Recorded(s, c, u);
    HeadNotAborted(s, c);
    ViewClosed(s, t);
    assert KnownOk(s, t);
    Below(s, c, View(s, t), 0);
    var k := Top(s, c);
    if k > 0 { assert LinkOk(s, c, k); }
    assert c[k].xmin in Known(s, t);
    assert KnownOk(s, c[k].xmin);
  }

  lemma CommitKeeps(s: Store, t: TxnId)
    requires Inv(s) && t in s.active && t in s.txns
    ensures Inv(Commit(s, t).0)
  {
    NoConflict(s, t);
    assert StatusOk(s, t);
    var s' := Commit(s, t).0;
    forall u | u in s'.txns
      ensures 1 <= u < s'.next && StatusOk(s', u) && KnownOk(s', u)
    {
      assert StatusOk(s, u) && KnownOk(s, u);
    }
    assert TxnsOk(s');
    forall item
      ensures ItemOk(s', item)
    {
      CommitItem(s, t, item);
    }
  }

  lemma CommitItem(s: Store, t: TxnId, item: Item)
    requires Inv(s) && t in s.active && t in s.txns
    requires !Conflict(s, t) && s.txns[t].status.Active?
    ensures ItemOk(Commit(s, t).0, item)
  {
    var s', c := Commit(s, t).0, Chain(s, item);
    ItemHere(s, item);
    assert Chain(s', item) == c;
    if c != [] { HeadNotAborted(s, c); }
    LinksSame(s, s', c);
    if Holder(c, t) {
      assert KnownOk(s, t);
      TopIs(s', c, 0);
      forall u | u in s'.committed && u in s'.txns && item in s'.txns[u].written
        ensures Recorded(s', c, u)
      {
        if u != t { WritersKnown(s, t, item, u); assert Recorded(s, c, u); TopIs(s, c, Top(s, c)); }
      }
    } else {
      OnlyOnTop(s, c, t);
      TopIs(s', c, Top(s, c));
    }
  }

  // ----- Abort -----

  lemma AbortKeeps(s: Store, t: TxnId)
    requires Inv(s) && t in s.active && t in s.txns
    ensures Inv(Abort(s, t))
  {
    var s' := Abort(s, t);
    forall u | u in s'.txns
      ensures 1 <= u < s'.next && StatusOk(s', u) && KnownOk(s', u)
    {
      assert StatusOk(s, u) && KnownOk(s, u);
    }
    assert TxnsOk(s');
    forall item
      ensures ItemOk(s', item)
    {
      AbortItem(s, t, item);
    }
  }

  lemma AbortItem(s: Store, t: TxnId, item: Item)
    requires Inv(s) && t in s.active && t in s.txns
    ensures ItemOk(Abort(s, t), item)
  {
    var s', c := Abort(s, t), Chain(s, item);
    ItemHere(s, item);
    assert Chain(s', item) == Undo(c, t);
    if c != [] {
      UndoLinks(s, t, c);
      forall u | u in s'.committed && u in s'.txns && item in s'.txns[u].written
        ensures Recorded(s', Undo(c, t), u)
      {
        UndoRecorded(s, t, item, u);
      }
      forall u | u in s'.active && u in s'.txns
        ensures item in s'.txns[u].written <==> Holder(Undo(c, t), u)
      {
        UndoHolder(s, t, item, u);
      }
    }
  }

  lemma UndoRecorded(s: Store, t: TxnId, item: Item, u: TxnId)
    requires Inv(s) && t in s.active && t in s.txns && Chain(s, item) != []
    requires u in s.committed && Recorded(s, Chain(s, item), u)
    ensures Recorded(Abort(s, t), Undo(Chain(s, item), t), u)
  {
    var s', c := Abort(s, t), Chain(s, item);
    var c' := Undo(c, t);
    ItemHere(s, item);
    if |c| > 1 { assert LinkOk(s, c, 1); }
    assert KnownOk(s, t);
    var drop := if c[0].xmin == t then 1 else 0;
    assert |c'| == |c| - drop && forall i :: 0 <= i < |c'| ==> c'[i].xmin == c[i + drop].xmin;
    TopIs(s', c', Top(s, c) - drop);
  }

  /** At most one active transaction holds an item; rolling it back leaves none. */
  lemma UndoHolder(s: Store, t: TxnId, item: Item, u: TxnId)
    requires Inv(s) && t in s.active && t in s.txns && u in s.active && u in s.txns && u != t
    ensures Holder(Undo(Chain(s, item), t), u) <==> Holder(Chain(s, item), u)
    ensures !(Holder(Chain(s, item), t) && Holder(Chain(s, item), u))
  {
    var c := Chain(s, item);
    ItemHere(s, item);
    NotKnown(s, u, t);
    NotKnown(s, t, u);
    if c != [] {
      HeadNotAborted(s, c);
      if |c| > 1 { assert LinkOk(s, c, 1); }
    }
  }

  lemma UndoLinks(s: Store, t: TxnId, c: seq<Version>)
    requires Inv(s) && t in s.active && t in s.txns && ChainOk(s, c) && c != []
    ensures ChainOk(Abort(s, t), Undo(c, t))
  {
    var s', c' := Abort(s, t), Undo(c, t);
    var drop := if c[0].xmin == t then 1 else 0;
    forall i | 0 <= i < |c'|
      ensures LinkOk(s', c', i)
    {
      assert LinkOk(s, c, i + drop);
      if i + drop > 0 { assert LinkOk(s, c, i + drop - 1); }
    }
  }

  // ----- Collect -----

  lemma CollectKeeps(s: Store)
    requires Inv(s)
    ensures Inv(Collect(s))
  {
    var s' := Collect(s);
    forall u | u in s'.txns
      ensures 1 <= u < s'.next && StatusOk(s', u) && KnownOk(s', u)
    {
      assert StatusOk(s, u) && KnownOk(s, u);
    }
    forall item
      ensures ItemOk(s', item)
    {
      CollectItem(s, item);
    }
  }

  lemma CollectItem(s: Store, item: Item)
    requires Inv(s)
    ensures Chain(Collect(s), item) == Trimmed(s, item)
    ensures ItemOk(Collect(s), item)
  {
    var s', c, c' := Collect(s), Chain(s, item), Trimmed(s, item);
    ItemHere(s, item);
    assert Chain(s', item) == c';
    if c != [] { HeadNotAborted(s, c); }
    LinksSame(s, s', c);
    var j := FirstDead(c, 1, Least(s.active, s.next), s.committed);
    if j < |c| {
      assert LinkOk(s, c, j);
      CutOk(s, s', c, j);
    } else {
      TopIs(s', c, Top(s, c));
    }
  }

  /** A chain cut below a version superseded by a committed transaction. */
  lemma CutOk(s: Store, s': Store, c: seq<Version>, j: nat)
    requires 1 <= j < |c| && c[j].xmax == c[j - 1].xmin && c[j].xmax in s.committed && ChainOk(s', c)
    requires s'.committed == s.committed && s'.txns == s.txns
    ensures ChainOk(s', c[..j + 1])
    ensures forall t :: Recorded(s, c, t) ==> Recorded(s', c[..j + 1], t)
  {
    var r := c[..j + 1];
    forall i | 0 <= i < |r|
      ensures LinkOk(s', r, i)
    {
      assert LinkOk(s', c, i);
    }
    assert Top(s, c) < j;
    TopIs(s', r, Top(s, c));
  }
}
