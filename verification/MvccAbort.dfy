/** What rolling a transaction back restores, over whole runs. */
module MvccAbort {
  import opened Common
  import opened MvccStore
  import opened MvccInvariant
  import opened MvccReads
  import opened MvccKeeps
  import opened MvccIsolation

  function Newest(c: seq<Version>): Option<Version> {
    if c == [] then None else Some(c[0])
  }

  /** How many versions t has put on top. */
  function OwnCount(c: seq<Version>, t: TxnId): (n: nat)
    ensures n <= |c| && (forall i :: 0 <= i < n ==> c[i].xmin == t) && (n < |c| ==> c[n].xmin != t)
  {
    if c == [] || c[0].xmin != t then 0 else 1 + OwnCount(c[1..], t)
  }

  lemma OwnIs(c: seq<Version>, t: TxnId, n: nat)
    requires n <= |c| && (forall i :: 0 <= i < n ==> c[i].xmin == t) && (n < |c| ==> c[n].xmin != t)
    ensures OwnCount(c, t) == n
  {
  }

  type Finds = map<(TxnId, Item), Option<Version>>

  /** Records the newest version that t finds when it first writes an item. */
  function Note(found: Finds, s: Store, t: TxnId, item: Item, letThrough: bool): Finds
    requires t in s.txns
  {
    if letThrough && item !in s.txns[t].written then found[(t, item) := Newest(Chain(s, item))] else found
  }

  function NextFound(found: Finds, s: Store, step: Step): Finds {
    match step
    case WriteStep(t, item, _) => if t in s.txns then Note(found, s, t, item, LetThrough(s, step)) else found
    case DeleteStep(t, item) => if t in s.txns then Note(found, s, t, item, LetThrough(s, step)) else found
    case _ => found
  }

  /** What each transaction has found on each item when it first wrote it, after the first i steps of a run. */
  function FoundAt(r: Run, i: nat): Finds
    requires |r.stores| == |r.steps| + 1 && i <= |r.steps|
  {
    if i == 0 then map[] else NextFound(FoundAt(r, i - 1), r.stores[i - 1], r.steps[i - 1])
  }

  /** What t found still lies below its own versions, marked as ended by t. */
  ghost predicate FoundOk(s: Store, found: Finds, t: TxnId, item: Item)
    requires t in s.txns
  {
    var c := Chain(s, item);
    var n := OwnCount(c, t);
    && (t, item) in found
    && match found[(t, item)]
       case None => n == |c|
       case Some(v) => n < |c| && c[n] == v.(xmax := t) && v.xmax == 0 && v.xmin in Known(s, t)
  }

  ghost predicate AllFound(s: Store, found: Finds) {
    forall t, item :: t in s.active && t in s.txns && item in s.txns[t].written ==> FoundOk(s, found, t, item)
  }

  lemma FoundSame(s: Store, found: Finds, s': Store, found': Finds, t: TxnId, item: Item)
    requires t in s.txns && t in s'.txns && FoundOk(s, found, t, item) && Known(s', t) == Known(s, t)
    requires Chain(s', item) == Chain(s, item) && (t, item) in found' && found'[(t, item)] == found[(t, item)]
    ensures FoundOk(s', found', t, item)
  {
  }

  /** The author's own step. */
  lemma OwnStepFound(s: Store, found: Finds, t: TxnId, item: Item, s': Store, c': seq<Version>)
    requires Inv(s) && t in s.active && t in s.txns && Clear(s, t, item)
    requires item in s.txns[t].written ==> FoundOk(s, found, t, item)
    requires s' == Wrote(s, t, item, c')
    requires (c' == Superseded(Chain(s, item), t) && Chain(s, item) != [])
             || exists data :: c' == [Version(data, t, 0)] + Superseded(Chain(s, item), t)
    ensures FoundOk(s', Note(found, s, t, item, true), t, item)
  {
    var c := Chain(s, item);
    ItemHere(s, item);
    ClearTop(s, t, item);
    assert KnownOk(s, t);
    var n := OwnCount(c, t);
    if c' == Superseded(c, t) && c != [] {
      OwnIs(c', t, n);
    } else {
      OwnIs(c', t, n + 1);
    }
  }

  lemma WriterFound(s: Store, found: Finds, step: Step, t: TxnId, item: Item)
    requires Inv(s) && AllFound(s, found) && Enabled(s, step)
    requires (step.WriteStep? || step.DeleteStep?) && step.t == t && step.item == item && LetThrough(s, step)
    ensures t in Next(s, step).txns && FoundOk(Next(s, step), NextFound(found, s, step), t, item)
  {
    var c := Chain(s, item);
    if step.WriteStep? {
      OwnStepFound(s, found, t, item, Next(s, step), [Version(step.data, t, 0)] + Superseded(c, t));
    } else {
      OwnStepFound(s, found, t, item, Next(s, step), Superseded(c, t));
    }
  }

  /** Someone else's write cannot be on an item that t holds. */
  lemma OtherWriterFound(s: Store, found: Finds, step: Step, t: TxnId, item: Item)
    requires Inv(s) && Enabled(s, step) && t in s.active && t in s.txns && item in s.txns[t].written
    requires FoundOk(s, found, t, item)
    requires (step.WriteStep? || step.DeleteStep?) && (step.t != t || step.item != item || !LetThrough(s, step))
    ensures t in Next(s, step).txns && FoundOk(Next(s, step), NextFound(found, s, step), t, item)
  {
    if LetThrough(s, step) && step.item == item {
      ItemHere(s, item);
      ClearTop(s, step.t, item);
    }
    FoundSame(s, found, Next(s, step), NextFound(found, s, step), t, item);
  }

  lemma CollectFound(s: Store, found: Finds, t: TxnId, item: Item)
    requires Inv(s) && t in s.active && t in s.txns && item in s.txns[t].written && FoundOk(s, found, t, item)
    ensures FoundOk(Collect(s), found, t, item)
  {
    var c, r := Chain(s, item), Trimmed(s, item);
    ItemHere(s, item);
    CollectItem(s, item);
    var j := FirstDead(c, 1, Least(s.active, s.next), s.committed);
    if j < |c| {
      var n := OwnCount(c, t);
      assert LinkOk(s, c, j);
      assert j > n;
      OwnIs(r, t, n);
    }
  }

  lemma AbortFound(s: Store, found: Finds, u: TxnId, t: TxnId, item: Item)
    requires Inv(s) && u in s.active && u in s.txns && t in s.active && t in s.txns && t != u
    requires item in s.txns[t].written && FoundOk(s, found, t, item)
    ensures FoundOk(Abort(s, u), found, t, item)
  {
    ItemHere(s, item);
    UndoHolder(s, u, item, t);
    assert Chain(Abort(s, u), item) == Undo(Chain(s, item), u);
    FoundSame(s, found, Abort(s, u), found, t, item);
  }

  lemma NextAllFound(s: Store, found: Finds, step: Step)
    requires Inv(s) && AllFound(s, found) && Enabled(s, step)
    ensures AllFound(Next(s, step), NextFound(found, s, step))
  {
    var s', found' := Next(s, step), NextFound(found, s, step);
    if step.CommitStep? { NoConflict(s, step.t); assert StatusOk(s, step.t); }
    forall t, item | t in s'.active && t in s'.txns && item in s'.txns[t].written
      ensures FoundOk(s', found', t, item)
    {
      if (step.WriteStep? || step.DeleteStep?) && step.t == t && step.item == item && LetThrough(s, step) {
        WriterFound(s, found, step, t, item);
      } else {
        NotOwnStep(s, found, step, t, item);
      }
    }
  }

  lemma NotOwnStep(s: Store, found: Finds, step: Step, t: TxnId, item: Item)
    requires Inv(s) && AllFound(s, found) && Enabled(s, step) && t in Next(s, step).active && t in Next(s, step).txns
    requires item in Next(s, step).txns[t].written
    requires !((step.WriteStep? || step.DeleteStep?) && step.t == t && step.item == item && LetThrough(s, step))
    ensures FoundOk(Next(s, step), NextFound(found, s, step), t, item)
  {
    if step.CommitStep? { NoConflict(s, step.t); assert StatusOk(s, step.t); }
    assert t in s.active && t in s.txns && item in s.txns[t].written;
    assert FoundOk(s, found, t, item);
    match step
    case BeginStep => FoundSame(s, found, Begin(s), found, t, item);
    case WriteStep(_, _, _) => OtherWriterFound(s, found, step, t, item);
    case DeleteStep(_, _) => OtherWriterFound(s, found, step, t, item);
    case ReadStep(u, it) => FoundSame(s, found, Noted(s, u, it), found, t, item);
    case CommitStep(u) => FoundSame(s, found, Commit(s, u).0, found, t, item);
    case AbortStep(u) => AbortFound(s, found, u, t, item);
    case CollectStep => CollectFound(s, found, t, item);
  }

  lemma {:induction false} RunFound(r: Run, i: nat)
    requires IsRun(r) && i < |r.stores|
    ensures AllFound(r.stores[i], FoundAt(r, i))
  {
    if i > 0 {
      RunFound(r, i - 1);
      RunAgrees(r, i - 1);
      assert Enabled(r.stores[i - 1], r.steps[i - 1]) && r.stores[i - 1 + 1] == Next(r.stores[i - 1], r.steps[i - 1]);
      NextAllFound(r.stores[i - 1], FoundAt(r, i - 1), r.steps[i - 1]);
    }
  }

  /**
    Rolling t back puts the version that t found, or its absence, back on top of an item t wrote, exactly when
    t put at most one version of its own there.
  */
  lemma AbortRestores(r: Run, i: nat, t: TxnId, item: Item)
    requires IsRun(r) && i < |r.stores| && t in r.stores[i].active && t in r.stores[i].txns
    requires item in r.stores[i].txns[t].written
    ensures (t, item) in FoundAt(r, i)
    ensures Newest(Chain(Abort(r.stores[i], t), item)) == FoundAt(r, i)[(t, item)]
            <==> OwnCount(Chain(r.stores[i], item), t) <= 1
  {
    RunFound(r, i);
    RunAgrees(r, i);
    UndoneTop(r.stores[i], FoundAt(r, i), t, item);
  }

  lemma UndoneTop(s: Store, found: Finds, t: TxnId, item: Item)
    requires Inv(s) && t in s.active && t in s.txns && item in s.txns[t].written && FoundOk(s, found, t, item)
    ensures Newest(Chain(Abort(s, t), item)) == found[(t, item)] <==> OwnCount(Chain(s, item), t) <= 1
  {
    var c := Chain(s, item);
    ItemHere(s, item);
    assert KnownOk(s, t);
    assert Chain(Abort(s, t), item) == Undo(c, t);
    var n := OwnCount(c, t);
    if n >= 1 && |c| > 1 { assert LinkOk(s, c, 1); }
    if n >= 2 { assert Undo(c, t)[0].xmin == t; }
  }

  /** Rolling t back leaves alone the chains t did not write, and what everyone else reads of every item. */
  lemma AbortErases(r: Run, i: nat, t: TxnId, u: TxnId, item: Item)
    requires IsRun(r) && i < |r.stores| && t in r.stores[i].active && u in r.stores[i].active && u != t
    ensures t in r.stores[i].txns && u in r.stores[i].txns && u in Abort(r.stores[i], t).txns
    ensures Read(Abort(r.stores[i], t), u, item) == Read(r.stores[i], u, item)
    ensures Latest(Abort(r.stores[i], t), item) == Latest(r.stores[i], item)
    ensures item !in r.stores[i].txns[t].written ==> Chain(Abort(r.stores[i], t), item) == Chain(r.stores[i], item)
  {
    var s := r.stores[i];
    RunAgrees(r, i);
    AbortKeeps(s, t);
    ItemHere(s, item);
    var c := Chain(s, item);
    assert Chain(Abort(s, t), item) == Undo(c, t);
    ReadIsSee(s, u, item);
    ReadIsSee(Abort(s, t), u, item);
    ViewClosed(s, u);
    NotKnown(s, t, u);
    UndoSeen(s, c, t, View(s, u));
    UndoSeen(s, c, t, s.committed);
  }
}
