/** How each operation changes what is read. */
module MvccReads {
  import opened Common
  import opened MvccStore
  import opened MvccInvariant

  /** A view that contains the creator of a version contains the creators of all older ones. */
  predicate Closed(s: Store, view: set<TxnId>) {
    0 !in view && forall t :: t in view && t in s.txns ==> Known(s, t) <= view
  }

  lemma ViewClosed(s: Store, t: TxnId)
    requires TxnsOk(s) && t in s.txns
    ensures Closed(s, View(s, t)) && Closed(s, s.committed)
  {
    forall u | u in View(s, t) && u in s.txns
      ensures Known(s, u) <= View(s, t)
    {
      assert KnownOk(s, t);
    }
    CommittedClosed(s);
  }

  lemma CommittedClosed(s: Store)
    requires TxnsOk(s)
    ensures Closed(s, s.committed)
  {
    forall u | u in s.committed && u in s.txns
      ensures Known(s, u) <= s.committed
    {
      assert KnownOk(s, u);
    }
  }

  /** Below a version whose creator is in view, every version's creator and ender are. */
  lemma {:induction false} Below(s: Store, c: seq<Version>, view: set<TxnId>, i: nat)
    requires ChainOk(s, c) && Closed(s, view) && i < |c| && c[i].xmin in view
    ensures forall j :: i <= j < |c| ==> c[j].xmin in view && (j > i ==> c[j].xmax in view)
    decreases |c| - i
  {
    if i + 1 < |c| {
      assert LinkOk(s, c, i) && LinkOk(s, c, i + 1);
      Below(s, c, view, i + 1);
    }
  }

  /** Reading from position i on, by the source's rule. */
  lemma {:induction false} NothingBelow(c: seq<Version>, i: nat, t: TxnId, n: Snapshot)
    requires i <= |c| && t != 0 && 0 !in n.committed && n.active !! n.committed
    requires forall j :: i <= j < |c| ==> c[j].xmin in n.committed + {t} && c[j].xmax in n.committed + {t}
    ensures Walk(c[i..], t, n) == None
    decreases |c| - i
  {
    if i < |c| {
      assert c[i..][0] == c[i] && c[i..][1..] == c[i + 1..];
      NothingBelow(c, i + 1, t, n);
    }
  }

  lemma {:induction false} WalkFrom(s: Store, c: seq<Version>, i: nat, t: TxnId)
    requires TxnsOk(s) && ChainOk(s, c) && t in s.active && i <= |c|
    requires i > 0 ==> c[i - 1].xmin !in View(s, t)
    ensures Walk(c[i..], t, s.txns[t].snapshot) == See(c[i..], View(s, t))
    decreases |c| - i
  {
    if i < |c| {
      var view, n := View(s, t), s.txns[t].snapshot;
      ViewClosed(s, t);
      assert LinkOk(s, c, i) && StatusOk(s, t) && KnownOk(s, t);
      assert c[i..][0] == c[i] && c[i..][1..] == c[i + 1..];
      if c[i].xmin !in view {
        WalkFrom(s, c, i + 1, t);
      } else if c[i].xmax in view {
        Below(s, c, view, i);
        NothingBelow(c, i, t, n);
      }
    }
  }

  /** The source's rule, walked down a chain, finds the newest version in view, unless that was ended in view. */
  lemma ReadIsSee(s: Store, t: TxnId, item: Item)
    requires Inv(s) && t in s.active && t in s.txns
    ensures Read(s, t, item) == See(Chain(s, item), View(s, t))
  {
    var c := Chain(s, item);
    assert ItemOk(s, item);
    WalkFrom(s, c, 0, t);
    assert c[0..] == c;
  }

  // ----- Writing -----

  /** A version ended, or an end taken back, by a transaction out of view changes nothing in view. */
  lemma SeeOutOfView(c: seq<Version>, x: TxnId, view: set<TxnId>)
    requires c != [] && x !in view && c[0].xmax !in view
    ensures See([c[0].(xmax := x)] + c[1..], view) == See(c, view)
  {
    assert ([c[0].(xmax := x)] + c[1..])[1..] == c[1..];
  }

  lemma SeeTop(v: Version, c: seq<Version>, view: set<TxnId>)
    ensures See([v] + c, view) == if v.xmin !in view then See(c, view) else if v.xmax in view then None
      else Some(v.data)
  {
    assert ([v] + c)[1..] == c;
  }

  /** The exact condition under which t's write leaves every other view alone. */
  lemma WriteSeen(s: Store, c: seq<Version>, t: TxnId, data: Row, view: set<TxnId>)
    requires TxnsOk(s) && ChainOk(s, c) && t in s.active && 0 !in view
    requires c != [] ==> c[0].xmax == 0 || c[0].xmax == t
    ensures t !in view ==>
      See([Version(data, t, 0)] + Superseded(c, t), view) == See(Superseded(c, t), view) == See(c, view)
    ensures t in view ==> See([Version(data, t, 0)] + Superseded(c, t), view) == Some(data)
    ensures t in view && c != [] && c[0].xmin in view ==> See(Superseded(c, t), view) == None
  {
    SeeTop(Version(data, t, 0), Superseded(c, t), view);
    if c != [] && t !in view { SeeOutOfView(c, t, view); }
  }

  // ----- Rolling back -----

  lemma UndoSeen(s: Store, c: seq<Version>, t: TxnId, view: set<TxnId>)
    requires TxnsOk(s) && ChainOk(s, c) && t in s.active && t !in view && 0 !in view
    ensures See(Undo(c, t), view) == See(c, view)
  {
    if c != [] {
      SeeTop(c[0], c[1..], view);
      assert [c[0]] + c[1..] == c;
      if c[0].xmin == t {
        if |c| > 1 && c[1].xmax == t {
          SeeOutOfView(c[1..], 0, view);
          assert c[1..][1..] == c[2..];
        }
      } else if c[0].xmax == t {
        SeeOutOfView(c, 0, view);
      }
    }
  }

  // ----- Committing -----

  /** Nothing below the newest version bears the mark of a transaction that is still active. */
  lemma OnlyOnTop(s: Store, c: seq<Version>, t: TxnId)
    requires TxnsOk(s) && ChainOk(s, c) && t in s.active && !Holder(c, t)
    ensures forall i :: 0 <= i < |c| ==> c[i].xmin != t && c[i].xmax != t
  {
    if c != [] {
      NotBelow(s, c, t, 0);
    }
  }

  lemma {:induction false} NotBelow(s: Store, c: seq<Version>, t: TxnId, i: nat)
    requires TxnsOk(s) && ChainOk(s, c) && t in s.active && i < |c| && c[i].xmin != t
    ensures forall j :: i <= j < |c| ==> c[j].xmin != t && (j > i ==> c[j].xmax != t)
    decreases |c| - i
  {
    if i + 1 < |c| {
      assert LinkOk(s, c, i) && LinkOk(s, c, i + 1) && KnownOk(s, c[i].xmin);
      NotBelow(s, c, t, i + 1);
    }
  }

  lemma {:induction false} SeeWithout(c: seq<Version>, t: TxnId, view: set<TxnId>)
    requires forall i :: 0 <= i < |c| ==> c[i].xmin != t && c[i].xmax != t
    ensures See(c, view + {t}) == See(c, view)
  {
    if c != [] { SeeWithout(c[1..], t, view); }
  }

  /** Once t has committed, all who begin later read what t read of the items it wrote, and nothing else changes. */
  lemma CommitSeen(s: Store, c: seq<Version>, t: TxnId)
    requires TxnsOk(s) && ChainOk(s, c) && t in s.active && t in s.txns
    ensures !Holder(c, t) ==> See(c, s.committed + {t}) == See(c, s.committed)
    ensures Holder(c, t) ==> See(c, s.committed + {t}) == See(c, View(s, t))
  {
    if !Holder(c, t) {
      OnlyOnTop(s, c, t);
      SeeWithout(c, t, s.committed);
    } else {
      assert LinkOk(s, c, 0) && KnownOk(s, t);
    }
  }

  // ----- Garbage collection -----

  lemma {:induction false} SeePrefix(c: seq<Version>, i: nat, j: nat, view: set<TxnId>)
    requires i <= j < |c| && c[i].xmin in view
    ensures See(c[..j + 1], view) == See(c, view)
  {
    if c[0].xmin !in view {
      assert c[..j + 1][1..] == c[1..][..j];
      SeePrefix(c[1..], i - 1, j - 1, view);
    }
  }

  lemma {:induction false} SeeSkip(c: seq<Version>, j: nat, view: set<TxnId>)
    requires j <= |c| && forall i :: 0 <= i < j ==> c[i].xmin !in view
    ensures See(c, view) == See(c[j..], view) && See(c[..j], view) == None
  {
    if j > 0 {
      SeeSkip(c[1..], j - 1, view);
      assert c[1..][j - 1..] == c[j..] && c[..j][1..] == c[1..][..j - 1];
    }
  }

  /** From a version made by d on, where d is out of view but all that d knew is in view. */
  lemma {:induction false} SeeBelow(s: Store, c: seq<Version>, i: nat, d: TxnId, view: set<TxnId>)
    requires TxnsOk(s) && ChainOk(s, c) && Closed(s, view) && i < |c| && d in s.txns
    requires c[i].xmin == d && d !in view && Known(s, d) <= view
    ensures See(c[i..], view) == None <==> c[|c| - 1].xmin == d
    decreases |c| - i
  {
    assert c[i..][0] == c[i] && c[i..][1..] == c[i + 1..];
    if i + 1 < |c| {
      assert LinkOk(s, c, i + 1);
      if c[i + 1].xmin == d {
        SeeBelow(s, c, i + 1, d, view);
      } else {
        assert c[i + 1..][0] == c[i + 1];
        Below(s, c, view, i + 1);
      }
    }
  }

  /** The cut at j takes away what t reads: t does not know the transaction that made and ended the last one kept. */
  predicate CutHurts(s: Store, c: seq<Version>, j: nat, t: TxnId)
    requires j < |c| && t in s.txns
  {
    c[j].xmin == c[j].xmax && c[j].xmax !in Known(s, t) && c[|c| - 1].xmin != c[j].xmax
  }

  lemma CutSeen(s: Store, c: seq<Version>, j: nat, t: TxnId)
    requires TxnsOk(s) && ChainOk(s, c) && t in s.active && t in s.txns && 1 <= j < |c|
    requires Dead(c[j], Least(s.active, s.next), s.committed)
    ensures See(c[..j + 1], View(s, t)) == See(c, View(s, t)) <==> !CutHurts(s, c, j, t)
    ensures See(c[..j + 1], s.committed) == See(c, s.committed)
  {
    var d, view := c[j].xmax, View(s, t);
    ViewClosed(s, t);
    assert LinkOk(s, c, j) && LinkOk(s, c, j - 1) && d == c[j - 1].xmin && d <= t && KnownOk(s, d);
    SeePrefix(c, j - 1, j, s.committed);
    if i :| 0 <= i <= j && c[i].xmin in view {
      SeePrefix(c, i, j, view);
      Below(s, c, view, i);
    } else {
      SeeSkip(c, j + 1, view);
      SeeSkip(c, j, view);
      SeeBelow(s, c, j, d, view);
    }
  }

  /** The chain of an item as garbage collection leaves it. */
  ghost function Trimmed(s: Store, item: Item): seq<Version> {
    Trim(Chain(s, item), 1, Least(s.active, s.next), s.committed)
  }

  /**
    Collection takes nothing away from t that t could read of the item: there is no dead version to cut below, or
    the first one was not made and ended by one transaction that t does not know.
  */
  ghost predicate Harmless(s: Store, t: TxnId, item: Item)
    requires t in s.txns
  {
    var c := Chain(s, item);
    var j := FirstDead(c, 1, Least(s.active, s.next), s.committed);
    j < |c| ==> !CutHurts(s, c, j, t)
  }

  /** Exactly when a collection goes unnoticed; those who begin later never notice. */
  lemma CollectSeen(s: Store, t: TxnId, item: Item)
    requires Inv(s) && t in s.active && t in s.txns
    ensures See(Trimmed(s, item), View(s, t)) == See(Chain(s, item), View(s, t)) <==> Harmless(s, t, item)
    ensures See(Trimmed(s, item), s.committed) == See(Chain(s, item), s.committed)
  {
    var c := Chain(s, item);
    var j := FirstDead(c, 1, Least(s.active, s.next), s.committed);
    assert ItemOk(s, item);
    if j < |c| { CutSeen(s, c, j, t); }
  }

  lemma CollectSeenLater(s: Store, item: Item)
    requires Inv(s)
    ensures See(Trimmed(s, item), s.committed) == See(Chain(s, item), s.committed)
  {
    var c := Chain(s, item);
    var j := FirstDead(c, 1, Least(s.active, s.next), s.committed);
    assert ItemOk(s, item);
    if j < |c| {
      assert LinkOk(s, c, j);
      SeePrefix(c, j - 1, j, s.committed);
    }
  }
}
