/**
  Snapshot isolation with collections at any time.  Writers keep the discipline and do not put a second version of
  an item on top of their own; that is a discipline on the steps alone, and it makes every collection harmless.
*/
module MvccStrict {
  import opened MvccStore
  import opened MvccInvariant
  import opened MvccReads
  import opened MvccKeeps
  import opened MvccIsolation

  /** Transaction t created the newest version. */
  predicate OwnOnTop(c: seq<Version>, t: TxnId) {
    c != [] && c[0].xmin == t
  }

  /** When a step may be taken: collections always, a write where the newest version is not the writer's own. */
  ghost predicate Strict(s: Store, step: Step) {
    match step
    case WriteStep(t, item, _) =>
      t in s.active && t in s.txns && (Refused(s, t, item) || (Clear(s, t, item) && !OwnOnTop(Chain(s, item), t)))
    case CollectStep => true
    case _ => Enabled(s, step)
  }

  ghost predicate IsStrictRun(r: Run) {
    && |r.stores| == |r.steps| + 1
    && r.stores[0] == EMPTY_STORE
    && forall i :: 0 <= i < |r.steps| ==>
         Strict(r.stores[i], r.steps[i]) && r.stores[i + 1] == Next(r.stores[i], r.steps[i])
  }

  /** No two neighbouring versions have the same creator. */
  predicate Alternates(c: seq<Version>) {
    forall i :: 0 < i < |c| ==> c[i].xmin != c[i - 1].xmin
  }

  ghost predicate AllAlternate(s: Store) {
    forall item :: Alternates(Chain(s, item))
  }

  lemma AlternatesHere(s: Store, item: Item)
    requires AllAlternate(s)
    ensures Alternates(Chain(s, item))
  {
  }

  /** On such a chain no version is made and ended by one transaction but the newest. */
  lemma AlternatingHarmless(s: Store, t: TxnId, item: Item)
    requires Inv(s) && t in s.active && t in s.txns && Alternates(Chain(s, item))
    ensures Harmless(s, t, item)
  {
    var c := Chain(s, item);
    var j := FirstDead(c, 1, Least(s.active, s.next), s.committed);
    ItemHere(s, item);
    if j < |c| { assert LinkOk(s, c, j); }
  }

  lemma StrictIsEnabled(s: Store, step: Step)
    requires Inv(s) && AllAlternate(s) && Strict(s, step)
    ensures Enabled(s, step)
  {
    if step.CollectStep? {
      forall t, item | t in s.active && t in s.txns
        ensures Harmless(s, t, item)
      {
        AlternatesHere(s, item);
        AlternatingHarmless(s, t, item);
      }
    }
  }

  /** The same creators, or fewer of the newest or of the oldest. */
  lemma AlternatesPart(c: seq<Version>, c': seq<Version>, drop: nat)
    requires Alternates(c) && drop + |c'| <= |c| && forall i :: 0 <= i < |c'| ==> c'[i].xmin == c[drop + i].xmin
    ensures Alternates(c')
  {
    forall i | 0 < i < |c'|
      ensures c'[i].xmin != c'[i - 1].xmin
    {
      assert c'[i].xmin == c[drop + i].xmin && c'[i - 1].xmin == c[drop + i - 1].xmin;
    }
  }

  lemma AlternatesBelow(v: Version, c: seq<Version>)
    requires Alternates(c) && !OwnOnTop(c, v.xmin)
    ensures Alternates([v] + c)
  {
    forall i | 0 < i < |[v] + c|
      ensures ([v] + c)[i].xmin != ([v] + c)[i - 1].xmin
    {
      assert i > 1 ==> ([v] + c)[i] == c[i - 1] && ([v] + c)[i - 1] == c[i - 2];
    }
  }

  lemma StrictAlternates(s: Store, step: Step)
    requires Inv(s) && AllAlternate(s) && Strict(s, step) && Enabled(s, step)
    ensures AllAlternate(Next(s, step))
  {
    if step.CommitStep? { NoConflict(s, step.t); }
    forall item
      ensures Alternates(Chain(Next(s, step), item))
    {
      AlternatesHere(s, item);
      StrictChain(s, step, item);
    }
  }

  /** What one strict step does to one chain. */
  lemma StrictChain(s: Store, step: Step, item: Item)
    requires Inv(s) && Alternates(Chain(s, item)) && Strict(s, step) && Enabled(s, step)
    requires step.CommitStep? ==> !Conflict(s, step.t)
    ensures Alternates(Chain(Next(s, step), item))
  {
    hide Inv, Clear, Harmless, Trim, Alternates, Least;
    var c, c' := Chain(s, item), Chain(Next(s, step), item);
    match step
    case WriteStep(t, it, data) =>
      if it == item && !Refused(s, t, it) {
        assert c' == [Version(data, t, 0)] + Superseded(c, t);
        AlternatesPart(c, Superseded(c, t), 0);
        AlternatesBelow(Version(data, t, 0), Superseded(c, t));
      }
    case DeleteStep(t, it) => AlternatesPart(c, c', 0);
    case AbortStep(t) =>
      assert c' == Undo(c, t);
      AlternatesPart(c, c', if OwnOnTop(c, t) then 1 else 0);
    case CollectStep =>
      CollectItem(s, item);
      AlternatesPart(c, c', 0);
    case _ => assert c' == c;
  }

  lemma EmptyAlternates()
    ensures Inv(EMPTY_STORE) && AllAlternate(EMPTY_STORE)
  {
    RunAgrees(Run([EMPTY_STORE], []), 0);
  }

  lemma {:induction false} StrictStores(r: Run, i: nat)
    requires IsStrictRun(r) && i < |r.stores|
    ensures Inv(r.stores[i]) && AllAlternate(r.stores[i])
    ensures forall j :: 0 <= j < i ==> Enabled(r.stores[j], r.steps[j])
  {
    hide Inv, AllAlternate;
    if i == 0 {
      EmptyAlternates();
    } else {
      var s, step := r.stores[i - 1], r.steps[i - 1];
      StrictStores(r, i - 1);
      assert Strict(s, step) && r.stores[i - 1 + 1] == Next(s, step);
      StrictIsEnabled(s, step);
      StrictAlternates(s, step);
      NextInv(s, step);
    }
  }

  /** Every strict run is a run: each collection in it is harmless. */
  lemma StrictRunIsRun(r: Run)
    requires IsStrictRun(r)
    ensures IsRun(r)
  {
    StrictStores(r, |r.steps|);
  }

  /** With collections at any time, every read returns what the abstract store returns. */
  lemma StrictSnapshotIsolation(r: Run, i: nat, t: TxnId, item: Item)
    requires IsStrictRun(r) && i < |r.stores| && t in r.stores[i].active
    ensures t in r.stores[i].txns && t in AbstractAt(r, i).sessions
    ensures Read(r.stores[i], t, item) == SessionRead(AbstractAt(r, i), t, item)
  {
    StrictRunIsRun(r);
    SnapshotIsolation(r, i, t, item);
  }

  /** At no moment of a strict run would a collection change what any transaction reads, running or yet to begin. */
  lemma CollectionUnseen(r: Run, i: nat, t: TxnId, item: Item)
    requires IsStrictRun(r) && i < |r.stores| && t in r.stores[i].active
    ensures t in r.stores[i].txns && t in Collect(r.stores[i]).txns
    ensures Read(Collect(r.stores[i]), t, item) == Read(r.stores[i], t, item)
    ensures Latest(Collect(r.stores[i]), item) == Latest(r.stores[i], item)
  {
    var s := r.stores[i];
    StrictStores(r, i);
    AlternatesHere(s, item);
    AlternatingHarmless(s, t, item);
    CollectKeeps(s);
    CollectItem(s, item);
    ReadIsSee(s, t, item);
    ReadIsSee(Collect(s), t, item);
    CollectSeen(s, t, item);
  }
}
