/**
  Where the code falls short of what is promised, in stores reached by writers that keep the discipline: exact
  conditions and concrete runs.
*/
module MvccFindings {
  import opened Common
  import opened MvccStore
  import opened MvccInvariant
  import opened MvccReads
  import opened MvccKeeps
  import opened MvccIsolation

  /** A collection changes what t reads of an item exactly when it is not harmless; later transactions never notice. */
  lemma CollectInvisible(r: Run, i: nat, t: TxnId, item: Item)
    requires IsRun(r) && i < |r.stores| && t in r.stores[i].active
    ensures t in r.stores[i].txns && t in Collect(r.stores[i]).txns
    ensures Read(Collect(r.stores[i]), t, item) == Read(r.stores[i], t, item) <==> Harmless(r.stores[i], t, item)
    ensures Latest(Collect(r.stores[i]), item) == Latest(r.stores[i], item)
  {
    var s := r.stores[i];
    RunAgrees(r, i);
    CollectKeeps(s);
    CollectItem(s, item);
    ReadIsSee(s, t, item);
    ReadIsSee(Collect(s), t, item);
    CollectSeen(s, t, item);
  }

  // ----- First updater wins -----

  /** Every other writer of the item that is running or has committed had committed before t began. */
  ghost predicate OthersKnown(s: Store, t: TxnId, item: Item)
    requires t in s.txns
  {
    forall u :: u in s.txns && u != t && (u in s.active || u in s.committed) && item in s.txns[u].written ==>
      u in Known(s, t)
  }

  /**
    What t could look at before it writes: nobody else that is still running made or ended the newest version, and
    the newest version with a committed creator was neither made nor ended by a commit that t does not know.
  */
  predicate UpToDate(s: Store, t: TxnId, item: Item)
    requires t in s.txns
  {
    var c := Chain(s, item);
    var k := Top(s, c);
    && (c != [] ==> (c[0].xmin in s.active ==> c[0].xmin == t) && (c[0].xmax in s.active ==> c[0].xmax == t))
    && (k < |c| ==> c[k].xmin in Known(s, t) && (c[k].xmax in s.committed ==> c[k].xmax in Known(s, t)))
  }

  lemma KnownWhenUpToDate(s: Store, t: TxnId, item: Item)
    requires Inv(s) && t in s.active && t in s.txns && UpToDate(s, t, item)
    ensures OthersKnown(s, t, item)
  {
    var c := Chain(s, item);
    ItemHere(s, item);
    forall u | u in s.active && u in s.txns && u != t
      ensures item !in s.txns[u].written
    {
    }
    forall u | u in s.txns && u != t && (u in s.active || u in s.committed) && item in s.txns[u].written
      ensures u in Known(s, t)
    {
      assert StatusOk(s, u);
      if u in s.committed {
        assert Recorded(s, c, u);
        var w := c[Top(s, c)].xmin;
        assert KnownOk(s, t) && Known(s, w) <= Known(s, t);
      }
    }
  }

  lemma UpToDateWhenKnown(s: Store, t: TxnId, item: Item)
    requires Inv(s) && t in s.active && t in s.txns && OthersKnown(s, t, item)
    ensures UpToDate(s, t, item)
  {
    var c := Chain(s, item);
    var k := Top(s, c);
    ItemHere(s, item);
    forall u | u in s.active && u in s.txns && u != t
      ensures !Holder(c, u)
    {
      NotKnown(s, u, t);
    }
    if k < |c| {
      assert LinkOk(s, c, k) && MarkOk(s, item, c[k]);
      assert c[k].xmin in s.committed && c[k].xmin != t;
    }
  }

  /**
    First updater wins.  A write that the check lets through leaves its author knowing every other writer of the item
    exactly when the author was up to date; the discipline on the present write is enough for that.
  */
  lemma FirstUpdaterWins(r: Run, i: nat, t: TxnId, item: Item, data: Row)
    requires IsRun(r) && i < |r.stores| && t in r.stores[i].active && t in r.stores[i].txns
    requires !Refused(r.stores[i], t, item)
    ensures var after := Write(r.stores[i], t, item, data).0;
      t in after.txns && (OthersKnown(after, t, item) <==> UpToDate(r.stores[i], t, item))
    ensures Clear(r.stores[i], t, item) ==> UpToDate(r.stores[i], t, item)
  {
    var s := r.stores[i];
    RunAgrees(r, i);
    if UpToDate(s, t, item) { KnownWhenUpToDate(s, t, item); }
    if OthersKnown(s, t, item) { UpToDateWhenKnown(s, t, item); }
    if Clear(s, t, item) { ClearIsUpToDate(s, t, item); }
    SameOthers(s, t, item, [Version(data, t, 0)] + Superseded(Chain(s, item), t));
  }

  lemma SameOthers(s: Store, t: TxnId, item: Item, c: seq<Version>)
    requires t in s.txns
    ensures OthersKnown(Wrote(s, t, item, c), t, item) <==> OthersKnown(s, t, item)
  {
    var s' := Wrote(s, t, item, c);
    forall u | u in s.txns && u != t
      ensures s'.txns[u] == s.txns[u]
    {
    }
  }

  lemma ClearIsUpToDate(s: Store, t: TxnId, item: Item)
    requires Inv(s) && t in s.active && t in s.txns && Clear(s, t, item)
    ensures UpToDate(s, t, item)
  {
    var c := Chain(s, item);
    ItemHere(s, item);
    ClearTop(s, t, item);
    ViewClosed(s, t);
    assert KnownOk(s, t);
    if c != [] {
      var k := Top(s, c);
      Below(s, c, View(s, t), 0);
      if 0 < k < |c| { assert LinkOk(s, c, k); }
    }
  }

  // ----- What a delete does -----

  /**
    Once t has deleted and committed, the row is gone for everyone who begins later exactly when the newest version
    was made by t or by a committed transaction, or nothing committed lies below it.
  */
  lemma DeleteTakesEffect(r: Run, i: nat, t: TxnId, item: Item)
    requires IsRun(r) && i < |r.stores| && t in r.stores[i].active && t in r.stores[i].txns
    requires !Refused(r.stores[i], t, item) && Chain(r.stores[i], item) != []
    ensures var s, c := r.stores[i], Chain(r.stores[i], item);
      var (d, ok) := Delete(s, t, item);
      && ok && t in d.txns && Commit(d, t).1
      && (Latest(Commit(d, t).0, item) == None <==> c[0].xmin == t || c[0].xmin in s.committed || Top(s, c) == |c|)
  {
    var s := r.stores[i];
    RunAgrees(r, i);
    DeletedSees(s, t, item);
  }

  lemma DeletedSees(s: Store, t: TxnId, item: Item)
    requires Inv(s) && t in s.active && t in s.txns && !Refused(s, t, item) && Chain(s, item) != []
    ensures var c := Chain(s, item);
      var (d, ok) := Delete(s, t, item);
      && ok && t in d.txns && Commit(d, t).1
      && (Latest(Commit(d, t).0, item) == None <==> c[0].xmin == t || c[0].xmin in s.committed || Top(s, c) == |c|)
  {
    var c := Chain(s, item);
    var d := Delete(s, t, item).0;
    ItemHere(s, item);
    WroteTxns(s, t, item, Superseded(c, t));
    NoConflict(d, t);
    assert StatusOk(d, t);
    var view := s.committed + {t};
    assert Chain(Commit(d, t).0, item) == Superseded(c, t);
    SeeTop(c[0].(xmax := t), c[1..], view);
    if c[0].xmin !in view { SeeUncommitted(s, c, t); }
  }

  /** Below a newest version that neither t nor anyone committed has made, the newest committed one is seen. */
  lemma SeeUncommitted(s: Store, c: seq<Version>, t: TxnId)
    requires TxnsOk(s) && ChainOk(s, c) && t in s.active && t in s.txns && c != []
    requires c[0].xmin !in s.committed && c[0].xmin != t
    ensures See(c[1..], s.committed + {t}) == None <==> Top(s, c) == |c|
  {
    var k, view := Top(s, c), s.committed + {t};
    NotBelow(s, c, t, 0);
    SeeSkip(c, k, view);
    assert c == [c[0]] + c[1..];
    SeeTop(c[0], c[1..], view);
    if k < |c| {
      assert LinkOk(s, c, k);
      assert c[k..] == [c[k]] + c[k + 1..];
      SeeTop(c[k], c[k + 1..], view);
    }
  }

  // ----- Abort, whatever the state -----

  /** What those who begin later read once t, which may have committed, is rolled back. */
  function LatestWithout(s: Store, t: TxnId, item: Item): Option<Row> {
    var c := Chain(s, item);
    if t !in s.committed || !Holder(c, t) then Latest(s, item)
    else if c[0].xmin != t then Some(c[0].data)
    else if |c| > 1 then Some(c[1].data)
    else None
  }

  /**
    Rolling back has no check on the state.  It changes a chain exactly when t made or ended the newest version, and
    takes away what t has committed there: the deletion, or the newest version.
  */
  lemma AbortAnyTime(r: Run, i: nat, t: TxnId, item: Item)
    requires IsRun(r) && i < |r.stores| && t in r.stores[i].txns
    ensures var s := r.stores[i];
      && (Chain(Abort(s, t), item) == Chain(s, item) <==> !Holder(Chain(s, item), t))
      && Latest(Abort(s, t), item) == LatestWithout(s, t, item)
  {
    var s := r.stores[i];
    RunAgrees(r, i);
    UndoneAnyTime(s, t, item);
  }

  lemma UndoneAnyTime(s: Store, t: TxnId, item: Item)
    requires Inv(s) && t in s.txns
    ensures Chain(Abort(s, t), item) == Chain(s, item) <==> !Holder(Chain(s, item), t)
    ensures Latest(Abort(s, t), item) == LatestWithout(s, t, item)
  {
    var c := Chain(s, item);
    ItemHere(s, item);
    assert Chain(Abort(s, t), item) == Undo(c, t);
    CommittedClosed(s);
    if Holder(c, t) {
      HeadNotAborted(s, c);
      if |c| > 1 { assert LinkOk(s, c, 1) && KnownOk(s, t); }
      assert c == [c[0]] + c[1..];
      SeeTop(c[0], c[1..], s.committed);
      if t in s.committed {
        if c[0].xmin != t {
          assert KnownOk(s, t);
          SeeTop(c[0].(xmax := 0), c[1..], s.committed);
        } else if |c| > 1 {
          SeeTop(c[1].(xmax := 0), c[2..], s.committed);
        }
      } else {
        UndoOutOfView(c, t, s.committed);
      }
    }
  }

  lemma UndoOutOfView(c: seq<Version>, t: TxnId, view: set<TxnId>)
    requires t !in view && 0 !in view
    ensures See(Undo(c, t), view) == See(c, view)
  {
    if c != [] {
      assert c == [c[0]] + c[1..];
      SeeTop(c[0], c[1..], view);
      if c[0].xmin == t {
        if |c| > 1 && c[1].xmax == t {
          SeeOutOfView(c[1..], 0, view);
          assert c[1..][1..] == c[2..];
        }
      } else if c[0].xmax == t {
        SeeOutOfView(c, 0, view);
      }
    }
  }

  // ----- Concrete runs -----

  const ROW := Item("t", 1)

  /** The store at the end of a run. */
  function After(r: Run): Store
    requires |r.stores| == |r.steps| + 1
  {
    r.stores[|r.steps|]
  }

  lemma Extend(r: Run, step: Step) returns (longer: Run)
    requires IsRun(r) && Enabled(After(r), step)
    ensures IsRun(longer) && After(longer) == Next(After(r), step)
  {
    longer := Run(r.stores + [Next(After(r), step)], r.steps + [step]);
    forall i | 0 <= i < |longer.steps|
      ensures Enabled(longer.stores[i], longer.steps[i])
      ensures longer.stores[i + 1] == Next(longer.stores[i], longer.steps[i])
    {
      if i < |r.steps| { assert Enabled(r.stores[i], r.steps[i]); }
    }
  }

  lemma LeastOfOne(t: TxnId)
    ensures Least({t}, 0) == t && forall other: nat :: Least({t}, other) == t
  {
    assert forall other: nat :: IsLeast({t}, Least({t}, other));
  }

  /** A row, committed by transaction 1. */
  lemma OneRow() returns (run: Run)
    ensures IsRun(run)
    ensures var s := After(run);
      && s.next == 2 && s.active == {} && s.committed == {1} && s.txns.Keys == {1}
      && Chain(s, ROW) == [Version([7], 1, 0)] && s.versions.Keys == {ROW} && s.txns[1].written == {ROW}
  {
    run := Run([EMPTY_STORE], []);
    run := Extend(run, BeginStep);
    run := Extend(run, WriteStep(1, ROW, [7]));
    var s := After(run);
    assert Chain(s, ROW) == [Version([7], 1, 0)];
    run := Extend(run, CommitStep(1));
  }

  /** Transactions 2 and 3 begin. */
  lemma TwoBegun() returns (run: Run)
    ensures IsRun(run)
    ensures var s := After(run);
      && s.next == 4 && s.active == {2, 3} && s.committed == {1} && s.txns.Keys == {1, 2, 3} && s.versions.Keys == {ROW}
      && Chain(s, ROW) == [Version([7], 1, 0)] && Known(s, 2) == {1} == Known(s, 3)
      && s.txns[2].status.Active? && s.txns[3].status.Active? && s.txns[3].snapshot.active == {2}
  {
    run := OneRow();
    run := Extend(run, BeginStep);
    run := Extend(run, BeginStep);
  }

  /** Transaction 2 writes the row twice. */
  lemma DoubleWritten() returns (run: Run)
    ensures IsRun(run)
    ensures var s := After(run);
      && s.active == {2, 3} && s.committed == {1} && s.txns.Keys == {1, 2, 3} && s.versions.Keys == {ROW}
      && Chain(s, ROW) == [Version([9], 2, 0), Version([8], 2, 2), Version([7], 1, 2)] && Known(s, 3) == {1}
      && s.txns[2].status.Active? && s.txns[3].status.Active? && s.txns[3].snapshot.active == {2}
  {
    run := TwoBegun();
    var s := After(run);
    run := Extend(run, WriteStep(2, ROW, [8]));
    var s' := After(run);
    assert Chain(s', ROW) == [Version([8], 2, 0), Version([7], 1, 2)];
    run := Extend(run, WriteStep(2, ROW, [9]));
    assert Chain(After(run), ROW) == [Version([9], 2, 0), Version([8], 2, 2), Version([7], 1, 2)];
  }

  lemma NotConflicting(s: Store, t: TxnId)
    requires t in s.txns && forall u :: u in s.active && u in s.txns ==> s.txns[u].status.Active?
    ensures !Conflict(s, t)
  {
  }

  /**
    A transaction that writes an item twice and commits; then a collection, while another transaction that
    began before the commit is still running.  That transaction could read the row; now it finds nothing.
  */
  lemma CollectTakesRow() returns (run: Run)
    ensures IsRun(run) && 3 in After(run).active && 3 in After(run).txns && 3 in Collect(After(run)).txns
    ensures Read(After(run), 3, ROW) == Some([7])
    ensures Read(Collect(After(run)), 3, ROW) == None
  {
    run := DoubleWritten();
    NotConflicting(After(run), 2);
    run := Extend(run, CommitStep(2));
    var s := After(run);
    Overlooked(s, Version([9], 2, 0), Version([8], 2, 2), Version([7], 1, 2));
  }

  lemma Overlooked(s: Store, a: Version, b: Version, c: Version)
    requires Chain(s, ROW) == [a, b, c] && s.active == {3} && s.committed == {1, 2} && 3 in s.txns
    requires a == Version([9], 2, 0) && b == Version([8], 2, 2) && c == Version([7], 1, 2)
    requires s.txns[3].snapshot.committed == {1} && s.txns[3].snapshot.active == {2}
    ensures Read(s, 3, ROW) == Some([7]) && Read(Collect(s), 3, ROW) == None
  {
    LeastOfOne(3);
    assert Least(s.active, s.next) == 3 && Dead(b, 3, s.committed);
    assert Chain(Collect(s), ROW) == [a, b, c][..2] == [a, b];
    assert [a, b, c][1..] == [b, c] && [b, c][1..] == [c] && [a, b][1..] == [b] && [b][1..] == [];
    assert Walk([c], 3, s.txns[3].snapshot) == Some([7]);
    assert Walk([b, c], 3, s.txns[3].snapshot) == Some([7]);
    assert Walk([b], 3, s.txns[3].snapshot) == None;
  }

  /** After a double write is rolled back, a later transaction's delete is accepted and commits, yet the row stays. */
  lemma DeleteWithoutEffect() returns (run: Run, r: Store, s: Store)
    ensures IsRun(run) && 3 in After(run).active && 3 in After(run).txns
    ensures Delete(After(run), 3, ROW) == (r, true)
    ensures 3 in r.txns && Commit(r, 3) == (s, true)
    ensures 3 in s.committed && Latest(s, ROW) == Some([7])
  {
    run := DoubleWritten();
    run := Extend(run, AbortStep(2));
    assert Chain(After(run), ROW) == [Version([8], 2, 0), Version([7], 1, 2)];
    r := Delete(After(run), 3, ROW).0;
    var c := [Version([8], 2, 3), Version([7], 1, 2)];
    assert Chain(r, ROW) == c;
    s := Commit(r, 3).0;
    NotConflicting(r, 3);
    assert Chain(s, ROW) == c && c[1..] == [c[1]] && s.committed == {1, 3};
    SeeTop(c[0], [c[1]], s.committed);
    SeeTop(c[1], [], s.committed);
    assert [c[0]] + [c[1]] == c && [c[1]] + [] == [c[1]];
  }

  /** Rolling back has no check on the state: called on a committed transaction, it takes away what was committed. */
  lemma AbortAfterCommit() returns (run: Run)
    ensures IsRun(run) && 1 in After(run).committed && 1 in After(run).txns
    ensures Latest(After(run), ROW) == Some([7]) && Latest(Abort(After(run), 1), ROW) == None
  {
    run := OneRow();
    var s := After(run);
    assert Undo(Chain(s, ROW), 1) == [];
    assert Chain(Abort(s, 1), ROW) == [];
  }
}
