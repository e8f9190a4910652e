/**
  What is true of the code as it stands: over runs of any operations at all, with no discipline on writers, by
  transactions in any state, and with collections at any time.
*/
module MvccUnchecked {
  import opened Common
  import opened MvccStore
  import opened MvccInvariant
  import opened MvccReads
  import opened MvccIsolation
  import opened MvccFindings
  import opened MvccManagers

  /** A run of any operations on transactions that have begun. */
  ghost predicate IsAnyRun(r: Run) {
    && |r.stores| == |r.steps| + 1
    && r.stores[0] == EMPTY_STORE
    && forall i :: 0 <= i < |r.steps| ==>
         Possible(r.stores[i], r.steps[i]) && r.stores[i + 1] == Next(r.stores[i], r.steps[i])
  }

  lemma RunIsAnyRun(r: Run)
    requires IsRun(r)
    ensures IsAnyRun(r)
  {
    forall i | 0 <= i < |r.steps|
      ensures Possible(r.stores[i], r.steps[i]) && r.stores[i + 1] == Next(r.stores[i], r.steps[i])
    {
      assert Enabled(r.stores[i], r.steps[i]);
    }
  }

  // ----- What every operation keeps -----

  predicate TxnKept(s: Store, t: TxnId)
    requires t in s.txns
  {
    && 1 <= t < s.next && (s.txns[t].status.Active? <==> t in s.active)
    && Known(s, t) <= s.committed && s.txns[t].snapshot.active !! Known(s, t)
    && forall x :: x in Known(s, t) ==> x < t
  }

  ghost predicate VersionKept(s: Store, item: Item, v: Version) {
    v.xmin in s.txns && (v.xmax == 0 || v.xmax in s.txns) && MarkOk(s, item, v)
  }

  ghost predicate ItemKept(s: Store, item: Item) {
    && (item in s.versions ==> s.versions[item] != [])
    && forall v :: v in Chain(s, item) ==> VersionKept(s, item, v)
  }

  ghost predicate Kept(s: Store) {
    && s.next >= 1 && s.active + s.committed + s.aborted <= s.txns.Keys
    && s.active !! s.committed && s.active !! s.aborted
    && (forall t :: t in s.txns ==> TxnKept(s, t))
    && forall item :: ItemKept(s, item)
  }

  lemma KeptHere(s: Store, item: Item)
    requires Kept(s)
    ensures ItemKept(s, item)
  {
  }

  /** Version v is one of the chain, but for an end taken back. */
  predicate Stems(v: Version, c: seq<Version>) {
    exists w :: w in c && v.xmin == w.xmin && (v.xmax == 0 || v.xmax == w.xmax)
  }

  /** A chain made of versions that were there before, write sets being no smaller. */
  lemma StillKept(s: Store, s': Store, item: Item)
    requires ItemKept(s, item) && s.txns.Keys <= s'.txns.Keys && 0 !in s'.txns
    requires forall t :: t in s.txns ==> s.txns[t].written <= s'.txns[t].written
    requires item in s'.versions ==> s'.versions[item] != []
    requires forall v :: v in Chain(s', item) ==> Stems(v, Chain(s, item))
    ensures ItemKept(s', item)
  {
    forall v | v in Chain(s', item)
      ensures VersionKept(s', item, v)
    {
      var w :| w in Chain(s, item) && v.xmin == w.xmin && (v.xmax == 0 || v.xmax == w.xmax);
      assert VersionKept(s, item, w);
    }
  }

  lemma WroteKept(s: Store, t: TxnId, item: Item, top: seq<Version>)
    requires Kept(s) && t in s.txns && |top| <= 1 && (top != [] ==> top[0].xmin == t && top[0].xmax == 0)
    requires top + Superseded(Chain(s, item), t) != []
    ensures Kept(Wrote(s, t, item, top + Superseded(Chain(s, item), t)))
  {
    var c := Chain(s, item);
    var s' := Wrote(s, t, item, top + Superseded(c, t));
    forall u | u in s'.txns
      ensures TxnKept(s', u)
    {
      assert TxnKept(s, u);
    }
    forall it
      ensures ItemKept(s', it)
    {
      KeptHere(s, it);
      if it == item {
        forall v | v in Chain(s', item)
          ensures VersionKept(s', item, v)
        {
          if c != [] && v == c[0].(xmax := t) {
            assert VersionKept(s, item, c[0]);
          } else if v in c {
            assert VersionKept(s, item, v);
          }
        }
      } else {
        StillKept(s, s', it);
      }
    }
  }

  lemma AbortKept(s: Store, t: TxnId)
    requires Kept(s) && t in s.txns
    ensures Kept(Abort(s, t))
  {
    var s' := Abort(s, t);
    forall u | u in s'.txns
      ensures TxnKept(s', u)
    {
      assert TxnKept(s, u);
    }
    forall item
      ensures ItemKept(s', item)
    {
      KeptHere(s, item);
      var c := Chain(s, item);
      assert Chain(s', item) == Undo(c, t);
      forall v | v in Undo(c, t)
        ensures Stems(v, c)
      {
        if v !in c {
          var w := if c[0].xmin == t then c[1] else c[0];
          assert w in c && v == w.(xmax := 0);
        }
      }
      StillKept(s, s', item);
    }
  }

  lemma CollectKept(s: Store)
    requires Kept(s)
    ensures Kept(Collect(s))
  {
    var s' := Collect(s);
    forall u | u in s'.txns
      ensures TxnKept(s', u)
    {
      assert TxnKept(s, u);
    }
    forall item
      ensures ItemKept(s', item)
    {
      KeptHere(s, item);
      forall v | v in Chain(s', item)
        ensures Stems(v, Chain(s, item))
      {
        assert v in Chain(s, item);
      }
      StillKept(s, s', item);
    }
  }

  /** Versions are as they were, and of the transactions only states and snapshots are new. */
  lemma SameVersionsKept(s: Store, s': Store)
    requires Kept(s) && s'.versions == s.versions && s.txns.Keys <= s'.txns.Keys && 0 !in s'.txns
    requires forall t :: t in s.txns ==> s.txns[t].written <= s'.txns[t].written
    ensures forall item :: ItemKept(s', item)
  {
    forall item
      ensures ItemKept(s', item)
    {
      KeptHere(s, item);
      forall v | v in Chain(s', item)
        ensures Stems(v, Chain(s, item))
      {
        assert v in Chain(s, item);
      }
      StillKept(s, s', item);
    }
  }

  lemma MissesConflict(s: Store, t: TxnId)
    requires Kept(s) && t in s.txns
    ensures !Conflict(s, t)
  {
    forall u | u in s.active && u in s.txns
      ensures !s.txns[u].status.Committed?
    {
      assert TxnKept(s, u);
    }
  }

  lemma CommitKept(s: Store, t: TxnId)
    requires Kept(s) && t in s.txns
    ensures Kept(Commit(s, t).0)
  {
    var s' := Commit(s, t).0;
    MissesConflict(s, t);
    SameVersionsKept(s, s');
    forall u | u in s'.txns ensures TxnKept(s', u) { assert TxnKept(s, u); }
  }

  lemma NextKept(s: Store, step: Step)
    requires Kept(s) && Possible(s, step)
    ensures Kept(Next(s, step))
  {
    var s' := Next(s, step);
    match step
    case WriteStep(t, item, data) =>
      if !Refused(s, t, item) { WroteKept(s, t, item, [Version(data, t, 0)]); }
    case DeleteStep(t, item) =>
      if !Refused(s, t, item) && Chain(s, item) != [] {
        WroteKept(s, t, item, []);
        assert [] + Superseded(Chain(s, item), t) == Superseded(Chain(s, item), t);
      }
    case AbortStep(t) => AbortKept(s, t);
    case CollectStep => CollectKept(s);
    case CommitStep(t) => CommitKept(s, t);
    case BeginStep =>
      SameVersionsKept(s, s');
      forall u | u in s'.txns ensures TxnKept(s', u) { assert u in s.txns ==> TxnKept(s, u); }
    case ReadStep(t, item) =>
      SameVersionsKept(s, s');
      forall u | u in s'.txns ensures TxnKept(s', u) { assert TxnKept(s, u); }
  }

  lemma {:induction false} AlwaysKept(r: Run, i: nat)
    requires IsAnyRun(r) && i < |r.stores|
    ensures Kept(r.stores[i])
  {
    if i > 0 {
      AlwaysKept(r, i - 1);
      assert Possible(r.stores[i - 1], r.steps[i - 1]) && r.stores[i - 1 + 1] == Next(r.stores[i - 1], r.steps[i - 1]);
      NextKept(r.stores[i - 1], r.steps[i - 1]);
    }
  }

  /** At every moment of any run the manager's methods can be called. */
  lemma AlwaysWellFormed(r: Run, i: nat)
    requires IsAnyRun(r) && i < |r.stores|
    ensures WellFormed(r.stores[i])
  {
    AlwaysKept(r, i);
    forall item | item in r.stores[i].versions
      ensures r.stores[i].versions[item] != []
    {
      KeptHere(r.stores[i], item);
    }
  }

  // ----- Reads and writes -----

  /**
    Whatever was done before, a read returns the data of the newest version that the transaction or one it knows to
    have committed has made and none of them has ended, and nothing where there is none.
  */
  lemma ReadsNewest(r: Run, i: nat, t: TxnId, item: Item)
    requires IsAnyRun(r) && i < |r.stores| && t in r.stores[i].txns
    ensures var s, c := r.stores[i], Chain(r.stores[i], item);
      && (forall k: nat :: NewestInView(c, Known(s, t) + {t}, k) ==> Read(s, t, item) == Some(c[k].data))
      && ((forall k :: 0 <= k < |c| ==> !InView(c[k], Known(s, t) + {t})) ==> Read(s, t, item) == None)
  {
    var s := r.stores[i];
    AlwaysKept(r, i);
    assert TxnKept(s, t);
    WalkIs(Chain(s, item), t, s.txns[t].snapshot);
  }

  /** No write is turned away over an end that has committed, and it undoes that end for all who begin later. */
  lemma Resurrects(r: Run, i: nat, t: TxnId, item: Item, data: Row)
    requires IsAnyRun(r) && i < |r.stores| && t in r.stores[i].active
    requires Chain(r.stores[i], item) != [] && Chain(r.stores[i], item)[0].xmax in r.stores[i].committed
    ensures t in r.stores[i].txns && Write(r.stores[i], t, item, data).1
    ensures var s, v := r.stores[i], Chain(r.stores[i], item)[0];
      v.xmin in s.committed ==>
        Latest(s, item) == None && Latest(Write(s, t, item, data).0, item) == Some(v.data)
  {
    var s := r.stores[i];
    var c := Chain(s, item);
    AlwaysKept(r, i);
    SeeTop(Version(data, t, 0), Superseded(c, t), s.committed);
    assert Chain(Write(s, t, item, data).0, item) == [Version(data, t, 0)] + Superseded(c, t);
  }

  // ----- Commit -----

  /**
    Commit reports success exactly when the transaction is still active.  The check for conflicts never turns it
    away, whoever else has written what it wrote.
  */
  lemma CommitSucceeds(r: Run, i: nat, t: TxnId)
    requires IsAnyRun(r) && i < |r.stores| && t in r.stores[i].txns
    ensures Commit(r.stores[i], t).1 <==> t in r.stores[i].active
    ensures t !in r.stores[i].active ==> Commit(r.stores[i], t).0 == r.stores[i]
  {
    AlwaysKept(r, i);
    MissesConflict(r.stores[i], t);
    assert TxnKept(r.stores[i], t);
  }

  /** Of two committed writers of one item one had committed before the other began. */
  ghost predicate CommittedOrdered(s: Store) {
    forall t, u, item ::
      (t in s.committed && u in s.committed && t in s.txns && u in s.txns && t != u
       && item in s.txns[t].written && item in s.txns[u].written) ==>
        t in Known(s, u) || u in Known(s, t)
  }

  /** What the check at commit would have to find in order to keep committed writers in order. */
  ghost predicate Overtaken(s: Store, t: TxnId)
    requires t in s.txns
  {
    exists u, item ::
      u in s.committed && u in s.txns && u !in Known(s, t) && item in s.txns[t].written && item in s.txns[u].written
  }

  lemma CommitLoses(s: Store, t: TxnId)
    requires Kept(s) && t in s.active && CommittedOrdered(s)
    ensures t in s.txns && (CommittedOrdered(Commit(s, t).0) <==> !Overtaken(s, t))
  {
    MissesConflict(s, t);
    assert TxnKept(s, t);
    var s' := Commit(s, t).0;
    if Overtaken(s, t) {
      var u, item :| u in s.committed && u in s.txns && u !in Known(s, t)
        && item in s.txns[t].written && item in s.txns[u].written;
      assert TxnKept(s, u) && u != t && item in s'.txns[t].written && item in s'.txns[u].written;
      assert t !in Known(s', u) && u !in Known(s', t);
    } else {
      forall a, b, item | a in s'.committed && b in s'.committed && a in s'.txns && b in s'.txns && a != b
                          && item in s'.txns[a].written && item in s'.txns[b].written
        ensures a in Known(s', b) || b in Known(s', a)
      {
        assert Known(s', a) == Known(s, a) && Known(s', b) == Known(s, b);
      }
    }
  }

  /** The step is a commit of an overtaken transaction; it succeeds all the same. */
  ghost predicate CommitsOvertaken(s: Store, step: Step) {
    step.CommitStep? && step.t in s.active && step.t in s.txns && Overtaken(s, step.t)
  }

  /** Writes and deletes come from transactions that are still running. */
  predicate OnlyActiveWrite(r: Run)
    requires |r.stores| == |r.steps| + 1
  {
    forall i :: 0 <= i < |r.steps| ==>
      (r.steps[i].WriteStep? || r.steps[i].DeleteStep?) ==> r.steps[i].t in r.stores[i].active
  }

  /** Of what has committed nothing is forgotten, and but for a commit nothing is new. */
  lemma CommittedStays(s: Store, step: Step, t: TxnId)
    requires Kept(s) && Possible(s, step) && (step.WriteStep? || step.DeleteStep? ==> step.t in s.active)
    ensures s.committed <= Next(s, step).committed
    ensures !(step.CommitStep? && step.t in s.active) ==> Next(s, step).committed == s.committed
    ensures t in s.committed ==> t in s.txns && t in Next(s, step).txns
    ensures t in s.committed ==>
      Known(Next(s, step), t) == Known(s, t) && Next(s, step).txns[t].written == s.txns[t].written
  {
    if step.CommitStep? { MissesConflict(s, step.t); assert TxnKept(s, step.t); }
    if step.BeginStep? && t in s.committed { assert TxnKept(s, t); }
  }

  lemma StepOrders(s: Store, step: Step)
    requires Kept(s) && Possible(s, step) && (step.WriteStep? || step.DeleteStep? ==> step.t in s.active)
    ensures CommittedOrdered(Next(s, step)) <==> CommittedOrdered(s) && !CommitsOvertaken(s, step)
  {
    hide Kept, Next, Overtaken;
    var s' := Next(s, step);
    if !CommittedOrdered(s) {
      var t, u, item :| t in s.committed && u in s.committed && t in s.txns && u in s.txns && t != u
        && item in s.txns[t].written && item in s.txns[u].written && t !in Known(s, u) && u !in Known(s, t);
      CommittedStays(s, step, t);
      CommittedStays(s, step, u);
      assert item in s'.txns[t].written && item in s'.txns[u].written && t !in Known(s', u) && u !in Known(s', t);
    } else if step.CommitStep? && step.t in s.active {
      CommitLoses(s, step.t);
      assert s' == Commit(s, step.t).0 by { NextCommits(s, step.t); }
    } else {
      forall t, u, item | t in s'.committed && u in s'.committed && t in s'.txns && u in s'.txns && t != u
                          && item in s'.txns[t].written && item in s'.txns[u].written
        ensures t in Known(s', u) || u in Known(s', t)
      {
        CommittedStays(s, step, t);
        CommittedStays(s, step, u);
      }
    }
  }

  lemma NextCommits(s: Store, t: TxnId)
    requires t in s.txns
    ensures Next(s, CommitStep(t)) == Commit(s, t).0
  {
  }

  /**
    A run in which only running transactions write loses no update exactly when none of its commits is of a
    transaction that was overtaken: the check that commit would need, and does not make.
  */
  lemma {:induction false} LosesUpdates(r: Run, i: nat)
    requires IsAnyRun(r) && OnlyActiveWrite(r) && i < |r.stores|
    ensures CommittedOrdered(r.stores[i]) <==> forall k :: 0 <= k < i ==> !CommitsOvertaken(r.stores[k], r.steps[k])
  {
    if i > 0 {
      LosesUpdates(r, i - 1);
      AlwaysKept(r, i - 1);
      assert Possible(r.stores[i - 1], r.steps[i - 1]) && r.stores[i - 1 + 1] == Next(r.stores[i - 1], r.steps[i - 1]);
      StepOrders(r.stores[i - 1], r.steps[i - 1]);
    }
  }

  // ----- First updater wins -----

  lemma OnlyUpToDate(s: Store, t: TxnId, item: Item)
    requires Kept(s) && t in s.active && t in s.txns && OthersKnown(s, t, item)
    ensures UpToDate(s, t, item) && !Refused(s, t, item)
  {
    var c := Chain(s, item);
    var k := Top(s, c);
    KeptHere(s, item);
    assert TxnKept(s, t);
    if c != [] { assert c[0] in c && VersionKept(s, item, c[0]); }
    if k < |c| { assert c[k] in c && VersionKept(s, item, c[k]); }
  }

  /**
    Whatever was done before, only a writer that is up to date can know all others; one that the check on writes
    turns away does not.
  */
  lemma KnowsOnlyIfUpToDate(r: Run, i: nat, t: TxnId, item: Item, data: Row)
    requires IsAnyRun(r) && i < |r.stores| && t in r.stores[i].active && t in r.stores[i].txns
    ensures Refused(r.stores[i], t, item) ==> !OthersKnown(r.stores[i], t, item)
    ensures var after := Write(r.stores[i], t, item, data).0;
      t in after.txns && (OthersKnown(after, t, item) ==> UpToDate(r.stores[i], t, item))
  {
    var s := r.stores[i];
    AlwaysKept(r, i);
    SameOthers(s, t, item, [Version(data, t, 0)] + Superseded(Chain(s, item), t));
    if OthersKnown(s, t, item) { OnlyUpToDate(s, t, item); }
  }

  // ----- Collection -----

  predicate SomeVisible(c: seq<Version>, from: nat, to: nat, t: TxnId, n: Snapshot)
    requires from <= to <= |c|
  {
    exists k :: from <= k < to && IsVisibleTo(c[k], t, n)
  }

  lemma {:induction false} WalkFinds(c: seq<Version>, t: TxnId, n: Snapshot)
    ensures Walk(c, t, n).Some? <==> SomeVisible(c, 0, |c|, t, n)
    decreases |c|
  {
    if c != [] && !IsVisibleTo(c[0], t, n) {
      WalkFinds(c[1..], t, n);
      if SomeVisible(c, 0, |c|, t, n) {
        var k :| 0 <= k < |c| && IsVisibleTo(c[k], t, n);
        assert IsVisibleTo(c[1..][k - 1], t, n);
      }
      if SomeVisible(c[1..], 0, |c| - 1, t, n) {
        var k :| 0 <= k < |c| - 1 && IsVisibleTo(c[1..][k], t, n);
        assert IsVisibleTo(c[k + 1], t, n);
      }
    }
  }

  lemma {:induction false} WalkJoins(a: seq<Version>, b: seq<Version>, t: TxnId, n: Snapshot)
    ensures Walk(a + b, t, n) == if Walk(a, t, n).Some? then Walk(a, t, n) else Walk(b, t, n)
    decreases |a|
  {
    if a == [] {
      assert a + b == b;
    } else {
      assert (a + b)[1..] == a[1..] + b;
      WalkJoins(a[1..], b, t, n);
    }
  }

  /** A chain cut below position j reads as before exactly when something is visible above the cut or nothing below. */
  lemma CutUnseen(c: seq<Version>, j: nat, t: TxnId, n: Snapshot)
    requires j < |c|
    ensures Walk(c[..j + 1], t, n) == Walk(c, t, n) <==>
      SomeVisible(c, 0, j + 1, t, n) || !SomeVisible(c, j + 1, |c|, t, n)
  {
    var a, b := c[..j + 1], c[j + 1..];
    assert a + b == c;
    WalkJoins(a, b, t, n);
    WalkFinds(a, t, n);
    WalkFinds(b, t, n);
    VisiblePart(c, 0, j + 1, t, n);
    VisiblePart(c, j + 1, |c|, t, n);
  }

  lemma VisiblePart(c: seq<Version>, from: nat, to: nat, t: TxnId, n: Snapshot)
    requires from <= to <= |c|
    ensures SomeVisible(c[from..to], 0, to - from, t, n) <==> SomeVisible(c, from, to, t, n)
  {
    if SomeVisible(c, from, to, t, n) {
      var k :| from <= k < to && IsVisibleTo(c[k], t, n);
      assert IsVisibleTo(c[from..to][k - from], t, n);
    }
    if SomeVisible(c[from..to], 0, to - from, t, n) {
      var k :| 0 <= k < to - from && IsVisibleTo(c[from..to][k], t, n);
      assert IsVisibleTo(c[from + k], t, n);
    }
  }

  /**
    In any store whatever a collection leaves a read as it was exactly when the chain has no dead version to cut
    below, or a version down to the first dead one is visible, or none below it is.
  */
  lemma CollectUnseen(s: Store, t: TxnId, item: Item)
    requires t in s.txns
    ensures var c, n := Chain(s, item), s.txns[t].snapshot;
      var j := FirstDead(c, 1, Least(s.active, s.next), s.committed);
      Read(Collect(s), t, item) == Read(s, t, item) <==>
        j == |c| || SomeVisible(c, 0, j + 1, t, n) || !SomeVisible(c, j + 1, |c|, t, n)
  {
    var c := Chain(s, item);
    var j := FirstDead(c, 1, Least(s.active, s.next), s.committed);
    assert Chain(Collect(s), item) == Trim(c, 1, Least(s.active, s.next), s.committed);
    if j < |c| { CutUnseen(c, j, t, s.txns[t].snapshot); }
  }

  // ----- Runs outside the discipline -----

  lemma ExtendAny(r: Run, step: Step) returns (longer: Run)
    requires IsAnyRun(r) && Possible(After(r), step)
    ensures IsAnyRun(longer) && After(longer) == Next(After(r), step)
    ensures longer.stores == r.stores + [After(longer)] && longer.steps == r.steps + [step]
  {
    longer := Run(r.stores + [Next(After(r), step)], r.steps + [step]);
    forall i | 0 <= i < |longer.steps|
      ensures Possible(longer.stores[i], longer.steps[i])
      ensures longer.stores[i + 1] == Next(longer.stores[i], longer.steps[i])
    {
      if i < |r.steps| { assert Possible(r.stores[i], r.steps[i]); }
    }
  }

  /** What 3 lays over what 2 lays over the row committed by 1. */
  function Stacked(): seq<Version> {
    [Version([9], 3, 0), Version([8], 2, 3), Version([7], 1, 2)]
  }

  /** Transactions 2 and 3, running at once, write the row one after the other, and both are let through. */
  lemma BothWrite(r: Run) returns (longer: Run)
    requires IsAnyRun(r) && Chain(After(r), ROW) == [Version([7], 1, 0)] && 2 in After(r).txns && 3 in After(r).txns
    ensures IsAnyRun(longer)
    ensures var s, s' := After(r), After(longer);
      && s'.next == s.next && s'.active == s.active && s'.committed == s.committed && s'.aborted == s.aborted
      && s'.txns == s.txns[2 := s.txns[2].(written := s.txns[2].written + {ROW})]
                          [3 := s.txns[3].(written := s.txns[3].written + {ROW})]
      && Chain(s', ROW) == Stacked()
  {
    longer := ExtendAny(r, WriteStep(2, ROW, [8]));
    assert Chain(After(longer), ROW) == [Version([8], 2, 0), Version([7], 1, 2)];
    longer := ExtendAny(longer, WriteStep(3, ROW, [9]));
    assert Chain(After(longer), ROW) == Stacked();
  }

  /** The check on writes lets two concurrent transactions write the same item; both commit, though overtaken. */
  lemma UpdateLost() returns (run: Run)
    ensures IsAnyRun(run) && |run.steps| >= 2
    ensures var r, s := run.stores[|run.steps| - 1], After(run);
      && 3 in r.active && 3 in r.txns && Overtaken(r, 3) && Commit(r, 3) == (s, true)
      && 2 in s.committed && 3 in s.committed && 2 in s.txns && 3 in s.txns && 2 !in Known(s, 3) && 3 !in Known(s, 2)
      && ROW in s.txns[2].written && ROW in s.txns[3].written && Latest(s, ROW) == Some([9])
  {
    run := TwoBegun();
    RunIsAnyRun(run);
    run := BothWrite(run);
    NotConflicting(After(run), 2);
    run := ExtendAny(run, CommitStep(2));
    NotConflicting(After(run), 3);
    assert ROW in After(run).txns[3].written && ROW in After(run).txns[2].written && 2 !in Known(After(run), 3);
    run := ExtendAny(run, CommitStep(3));
    assert Chain(After(run), ROW) == Stacked();
  }

  /** Without the discipline a writer may be up to date and not refused, and yet not know another writer. */
  lemma UpToDateNotEnough() returns (run: Run)
    ensures IsAnyRun(run) && 4 in After(run).active && 4 in After(run).txns
    ensures UpToDate(After(run), 4, ROW) && !Refused(After(run), 4, ROW) && !OthersKnown(After(run), 4, ROW)
  {
    run := TwoBegun();
    RunIsAnyRun(run);
    run := BothWrite(run);
    NotConflicting(After(run), 3);
    run := ExtendAny(run, CommitStep(3));
    run := ExtendAny(run, BeginStep);
    NotConflicting(After(run), 2);
    run := ExtendAny(run, CommitStep(2));
    var s := After(run);
    assert Chain(s, ROW) == Stacked() && Known(s, 4) == {1, 3};
    assert ROW in s.txns[2].written && 2 in s.committed && 2 !in Known(s, 4);
  }

  /** Nor is `Harmless` enough: no two versions have one creator, and yet a collection takes the row from 4. */
  lemma HarmlessNotEnough() returns (run: Run)
    ensures IsAnyRun(run) && 4 in After(run).active && 4 in After(run).txns && 4 in Collect(After(run)).txns
    ensures Harmless(After(run), 4, ROW) && Chain(After(run), ROW) == Stacked()
    ensures Read(After(run), 4, ROW) == Some([7]) && Read(Collect(After(run)), 4, ROW) == None
  {
    run := TwoBegun();
    RunIsAnyRun(run);
    run := ExtendAny(run, BeginStep);
    run := BothWrite(run);
    NotConflicting(After(run), 2);
    run := ExtendAny(run, CommitStep(2));
    NotConflicting(After(run), 3);
    run := ExtendAny(run, CommitStep(3));
    BothUnknown(After(run));
  }

  lemma BothUnknown(s: Store)
    requires Chain(s, ROW) == Stacked() && s.active == {4} && s.committed == {1, 2, 3} && 4 in s.txns
    requires s.txns[4].snapshot.committed == {1} && s.txns[4].snapshot.active == {2, 3}
    ensures Harmless(s, 4, ROW) && Read(s, 4, ROW) == Some([7]) && Read(Collect(s), 4, ROW) == None
  {
    var c, n := Stacked(), s.txns[4].snapshot;
    LeastOfOne(4);
    assert Least(s.active, s.next) == 4 && Dead(c[1], 4, s.committed);
    assert FirstDead(c, 1, 4, s.committed) == 1 && Chain(Collect(s), ROW) == c[..2] == [c[0], c[1]];
    assert c[1..] == [c[1], c[2]] && [c[1], c[2]][1..] == [c[2]] && [c[0], c[1]][1..] == [c[1]] && [c[1]][1..] == [];
    assert Walk([c[2]], 4, n) == Some([7]) && Walk([c[1], c[2]], 4, n) == Some([7]) && Walk([c[1]], 4, n) == None;
  }
}
