/**
  Snapshot isolation: over every run that keeps the writers' discipline, the version chains answer every read
  as an abstract store does, which copies the committed rows when a transaction begins, lays the transaction's
  own writes over the copy, and publishes them when it commits.
*/
module MvccIsolation {
  import opened Common
  import opened MvccStore
  import opened MvccInvariant
  import opened MvccReads
  import opened MvccKeeps

  // ----- The abstract store -----

  /** `own` maps an item to what the transaction made of it, None being a deletion. */
  datatype Session = Session(copy: map<Item, Row>, own: map<Item, Option<Row>>)

  datatype Abstract = Abstract(rows: map<Item, Row>, sessions: map<TxnId, Session>, next: TxnId)

  function Lookup(rows: map<Item, Row>, item: Item): Option<Row> {
    if item in rows then Some(rows[item]) else None
  }

  function Overlay(rows: map<Item, Row>, own: map<Item, Option<Row>>): (r: map<Item, Row>)
    ensures forall item :: Lookup(r, item) == if item in own then own[item] else Lookup(rows, item)
  {
    map item | item in rows.Keys + own.Keys && (item in own ==> own[item].Some?) ::
      if item in own then own[item].value else rows[item]
  }

  function SessionRead(a: Abstract, t: TxnId, item: Item): Option<Row>
    requires t in a.sessions
  {
    if item in a.sessions[t].own then a.sessions[t].own[item] else Lookup(a.sessions[t].copy, item)
  }

  // ----- Steps -----

  datatype Step =
    | BeginStep
    | WriteStep(t: TxnId, item: Item, data: Row)
    | DeleteStep(t: TxnId, item: Item)
    | ReadStep(t: TxnId, item: Item)
    | CommitStep(t: TxnId)
    | AbortStep(t: TxnId)
    | CollectStep

  /** The step names a transaction that has begun. */
  predicate Possible(s: Store, step: Step) {
    match step
    case WriteStep(t, _, _) => t in s.txns
    case DeleteStep(t, _) => t in s.txns
    case ReadStep(t, _) => t in s.txns
    case CommitStep(t) => t in s.txns
    case AbortStep(t) => t in s.txns
    case _ => true
  }

  /** Writers keep the discipline; a collection comes only when it is harmless to every running transaction. */
  ghost predicate Enabled(s: Store, step: Step) {
    match step
    case BeginStep => true
    case WriteStep(t, item, _) => t in s.active && t in s.txns && (Refused(s, t, item) || Clear(s, t, item))
    case DeleteStep(t, item) => t in s.active && t in s.txns && (Refused(s, t, item) || Clear(s, t, item))
    case ReadStep(t, item) => t in s.active && t in s.txns
    case CommitStep(t) => t in s.txns
    case AbortStep(t) => t in s.active && t in s.txns
    case CollectStep => forall t, item :: t in s.active && t in s.txns ==> Harmless(s, t, item)
  }

  ghost function Next(s: Store, step: Step): Store
    requires Possible(s, step)
  {
    match step
    case BeginStep => Begin(s)
    case WriteStep(t, item, data) => Write(s, t, item, data).0
    case DeleteStep(t, item) => Delete(s, t, item).0
    case ReadStep(t, item) => Noted(s, t, item)
    case CommitStep(t) => Commit(s, t).0
    case AbortStep(t) => Abort(s, t)
    case CollectStep => Collect(s)
  }

  /** Whether a write or a delete was let through. */
  predicate LetThrough(s: Store, step: Step) {
    match step
    case WriteStep(t, item, _) => !Refused(s, t, item)
    case DeleteStep(t, item) => !Refused(s, t, item) && Chain(s, item) != []
    case _ => true
  }

  function SetOwn(a: Abstract, t: TxnId, item: Item, r: Option<Row>): Abstract
    requires t in a.sessions
  {
    a.(sessions := a.sessions[t := a.sessions[t].(own := a.sessions[t].own[item := r])])
  }

  /** The same step in the abstract store; of the concrete one it is told only whether the write was let through. */
  function AbstractNext(a: Abstract, step: Step, letThrough: bool): Abstract {
    match step
    case BeginStep => a.(sessions := a.sessions[a.next := Session(a.rows, map[])], next := a.next + 1)
    case WriteStep(t, item, data) => if letThrough && t in a.sessions then SetOwn(a, t, item, Some(data)) else a
    case DeleteStep(t, item) => if letThrough && t in a.sessions then SetOwn(a, t, item, None) else a
    case ReadStep(_, _) => a
    case CommitStep(t) =>
      if t in a.sessions then a.(rows := Overlay(a.rows, a.sessions[t].own), sessions := a.sessions - {t}) else a
    case AbortStep(t) => a.(sessions := a.sessions - {t})
    case CollectStep => a
  }

  // ----- Runs -----

  /** A run: the stores passed through and the step taken between each and the next. */
  datatype Run = Run(stores: seq<Store>, steps: seq<Step>)

  ghost predicate IsRun(r: Run) {
    && |r.stores| == |r.steps| + 1
    && r.stores[0] == EMPTY_STORE
    && forall i :: 0 <= i < |r.steps| ==>
         Enabled(r.stores[i], r.steps[i]) && r.stores[i + 1] == Next(r.stores[i], r.steps[i])
  }

  /** The abstract store after the first i steps of a run. */
  function AbstractAt(r: Run, i: nat): Abstract
    requires |r.stores| == |r.steps| + 1 && i <= |r.steps|
  {
    if i == 0 then Abstract(map[], map[], 1)
    else AbstractNext(AbstractAt(r, i - 1), r.steps[i - 1], LetThrough(r.stores[i - 1], r.steps[i - 1]))
  }

  // ----- Refinement -----

  ghost predicate AgreesOn(s: Store, a: Abstract, item: Item)
    requires a.sessions.Keys == s.active <= s.txns.Keys
  {
    && See(Chain(s, item), s.committed) == Lookup(a.rows, item)
    && forall t :: t in s.active ==>
         See(Chain(s, item), View(s, t)) == SessionRead(a, t, item)
           && (item in a.sessions[t].own <==> item in s.txns[t].written)
  }

  ghost predicate Agrees(s: Store, a: Abstract) {
    && Inv(s) && a.next == s.next && a.sessions.Keys == s.active <= s.txns.Keys
    && forall item :: AgreesOn(s, a, item)
  }

  lemma AgreesHere(s: Store, a: Abstract, item: Item)
    requires Agrees(s, a)
    ensures AgreesOn(s, a, item) && ItemOk(s, item)
  {
  }

  /** An item whose chain, views and abstract entry are all as they were. */
  lemma AgreesStill(s: Store, a: Abstract, s': Store, a': Abstract, item: Item)
    requires a.sessions.Keys == s.active <= s.txns.Keys && a'.sessions.Keys == s'.active <= s'.txns.Keys
    requires AgreesOn(s, a, item)
    requires Chain(s', item) == Chain(s, item) && s'.committed == s.committed && s'.active <= s.active
    requires Lookup(a'.rows, item) == Lookup(a.rows, item)
    requires forall u :: u in s'.active ==>
      View(s', u) == View(s, u) && SessionRead(a', u, item) == SessionRead(a, u, item)
      && (item in a'.sessions[u].own <==> item in a.sessions[u].own)
      && (item in s'.txns[u].written <==> item in s.txns[u].written)
    ensures AgreesOn(s', a', item)
  {
  }

  lemma BeginAgrees(s: Store, a: Abstract)
    requires Agrees(s, a)
    ensures Agrees(Begin(s), AbstractNext(a, BeginStep, true))
  {
    BeginKeeps(s);
    hide Inv;
    var s', a' := Begin(s), AbstractNext(a, BeginStep, true);
    forall item
      ensures AgreesOn(s', a', item)
    {
      BeginItemAgrees(s, a, item);
    }
  }

  lemma BeginItemAgrees(s: Store, a: Abstract, item: Item)
    requires Agrees(s, a)
    ensures AgreesOn(Begin(s), AbstractNext(a, BeginStep, true), item)
  {
    AgreesHere(s, a, item);
    var s', c := Begin(s), Chain(s, item);
    Unknown(s, c);
    SeeWithout(c, s.next, s.committed);
    forall t | t in s.active ensures View(s', t) == View(s, t) { }
  }

  /** An identifier not yet handed out is on no version. */
  lemma Unknown(s: Store, c: seq<Version>)
    requires TxnsOk(s) && ChainOk(s, c)
    ensures forall i :: 0 <= i < |c| ==> c[i].xmin != s.next && c[i].xmax != s.next
  {
    forall i | 0 <= i < |c|
      ensures c[i].xmin != s.next && c[i].xmax != s.next
    {
      assert LinkOk(s, c, i);
    }
  }

  /** A write or delete changes one item, and that for its author only. */
  lemma WroteAgrees(s: Store, a: Abstract, t: TxnId, item: Item, c': seq<Version>, r: Option<Row>)
    requires Agrees(s, a) && t in s.active && Inv(Wrote(s, t, item, c'))
    requires See(c', View(s, t)) == r
    requires forall view :: 0 !in view && t !in view ==> See(c', view) == See(Chain(s, item), view)
    ensures Agrees(Wrote(s, t, item, c'), SetOwn(a, t, item, r))
  {
    hide Inv;
    var s', a' := Wrote(s, t, item, c'), SetOwn(a, t, item, r);
    forall it
      ensures AgreesOn(s', a', it)
    {
      AgreesHere(s, a, it);
      if it == item {
        WroteItem(s, a, t, item, c', r);
      } else {
        AgreesStill(s, a, s', a', it);
      }
    }
  }

  lemma WroteItem(s: Store, a: Abstract, t: TxnId, item: Item, c': seq<Version>, r: Option<Row>)
    requires Agrees(s, a) && t in s.active && AgreesOn(s, a, item)
    requires See(c', View(s, t)) == r
    requires forall view :: 0 !in view && t !in view ==> See(c', view) == See(Chain(s, item), view)
    ensures AgreesOn(Wrote(s, t, item, c'), SetOwn(a, t, item, r), item)
  {
    hide ItemOk, AgreesOn;
    CommittedClosed(s);
    var s', a' := Wrote(s, t, item, c'), SetOwn(a, t, item, r);
    forall u | u in s.active
      ensures View(s', u) == View(s, u) && 0 !in View(s, u) && (u != t ==> t !in View(s, u))
    {
      ViewClosed(s, u);
      NotKnown(s, t, u);
    }
    WroteItemViews(s, a, t, item, c', r);
  }

  lemma WroteItemViews(s: Store, a: Abstract, t: TxnId, item: Item, c': seq<Version>, r: Option<Row>)
    requires a.sessions.Keys == s.active <= s.txns.Keys && t in s.active && AgreesOn(s, a, item)
    requires See(c', View(s, t)) == r
    requires forall view :: 0 !in view && t !in view ==> See(c', view) == See(Chain(s, item), view)
    requires 0 !in s.committed && t !in s.committed
    requires forall u :: u in s.active ==> 0 !in View(s, u) && (u != t ==> t !in View(s, u))
    ensures AgreesOn(Wrote(s, t, item, c'), SetOwn(a, t, item, r), item)
  {
    forall u | u in s.active
      ensures View(Wrote(s, t, item, c'), u) == View(s, u)
    {
    }
  }

  lemma WriteAgrees(s: Store, a: Abstract, t: TxnId, item: Item, data: Row)
    requires Agrees(s, a) && Enabled(s, WriteStep(t, item, data))
    ensures Agrees(Write(s, t, item, data).0, AbstractNext(a, WriteStep(t, item, data), !Refused(s, t, item)))
  {
    if !Refused(s, t, item) {
      WriteKeeps(s, t, item, data);
      AgreesHere(s, a, item);
      ClearTop(s, t, item);
      ViewClosed(s, t);
      var c := Chain(s, item);
      var c' := [Version(data, t, 0)] + Superseded(c, t);
      WriteSeen(s, c, t, data, View(s, t));
      forall view | 0 !in view && t !in view
        ensures See(c', view) == See(c, view)
      {
        WriteSeen(s, c, t, data, view);
      }
      WroteAgrees(s, a, t, item, c', Some(data));
    }
  }

  lemma DeleteAgrees(s: Store, a: Abstract, t: TxnId, item: Item)
    requires Agrees(s, a) && Enabled(s, DeleteStep(t, item))
    ensures Agrees(Delete(s, t, item).0, AbstractNext(a, DeleteStep(t, item), LetThrough(s, DeleteStep(t, item))))
  {
    var c := Chain(s, item);
    if c != [] && !Refused(s, t, item) {
      DeleteKeeps(s, t, item);
      AgreesHere(s, a, item);
      ClearTop(s, t, item);
      ViewClosed(s, t);
      WriteSeen(s, c, t, [], View(s, t));
      forall view | 0 !in view && t !in view
        ensures See(Superseded(c, t), view) == See(c, view)
      {
        WriteSeen(s, c, t, [], view);
      }
      WroteAgrees(s, a, t, item, Superseded(c, t), None);
    }
  }

  lemma CommitAgrees(s: Store, a: Abstract, t: TxnId)
    requires Agrees(s, a) && t in s.txns
    ensures Agrees(Commit(s, t).0, AbstractNext(a, CommitStep(t), true))
  {
    assert StatusOk(s, t);
    if t in s.active {
      CommitKeeps(s, t);
      NoConflict(s, t);
      var s', a' := Commit(s, t).0, AbstractNext(a, CommitStep(t), true);
      forall item
        ensures AgreesOn(s', a', item)
      {
        AgreesHere(s, a, item);
        CommitSeen(s, Chain(s, item), t);
        assert Chain(s', item) == Chain(s, item);
        var own := a.sessions[t].own;
        assert Lookup(a'.rows, item) == if item in own then own[item] else Lookup(a.rows, item);
        forall u | u in s'.active ensures View(s', u) == View(s, u) { }
      }
    }
  }

  lemma AbortAgrees(s: Store, a: Abstract, t: TxnId)
    requires Agrees(s, a) && t in s.active
    ensures Agrees(Abort(s, t), AbstractNext(a, AbortStep(t), true))
  {
    hide Inv, AgreesOn;
    AbortKeeps(s, t);
    forall item
      ensures AgreesOn(Abort(s, t), AbstractNext(a, AbortStep(t), true), item)
    {
      AbortItemAgrees(s, a, t, item);
    }
  }

  lemma AbortItemAgrees(s: Store, a: Abstract, t: TxnId, item: Item)
    requires Agrees(s, a) && t in s.active
    ensures AgreesOn(Abort(s, t), AbstractNext(a, AbortStep(t), true), item)
  {
    AgreesHere(s, a, item);
    CommittedClosed(s);
    var s', c := Abort(s, t), Chain(s, item);
    assert Chain(s', item) == Undo(c, t);
    UndoSeen(s, c, t, s.committed);
    forall u | u in s'.active
      ensures View(s', u) == View(s, u) && See(Undo(c, t), View(s, u)) == See(c, View(s, u))
    {
      ViewClosed(s, u);
      NotKnown(s, t, u);
      UndoSeen(s, c, t, View(s, u));
    }
  }

  lemma CollectAgrees(s: Store, a: Abstract)
    requires Agrees(s, a) && Enabled(s, CollectStep)
    ensures Agrees(Collect(s), a)
  {
    CollectKeeps(s);
    var s' := Collect(s);
    forall item
      ensures AgreesOn(s', a, item)
    {
      AgreesHere(s, a, item);
      CollectItem(s, item);
      CollectSeenLater(s, item);
      forall t | t in s.active
        ensures View(s', t) == View(s, t) && See(Trimmed(s, item), View(s, t)) == See(Chain(s, item), View(s, t))
      {
        CollectSeen(s, t, item);
      }
    }
  }

  lemma NotedAgrees(s: Store, a: Abstract, t: TxnId, item: Item)
    requires Agrees(s, a) && t in s.active
    ensures Agrees(Noted(s, t, item), a)
  {
    NotedKeeps(s, t, item);
    hide Inv, AgreesOn, Read;
    forall it
      ensures AgreesOn(Noted(s, t, item), a, it)
    {
      NotedItem(s, a, t, item, it);
    }
  }

  lemma NotedItem(s: Store, a: Abstract, t: TxnId, item: Item, it: Item)
    requires a.sessions.Keys == s.active <= s.txns.Keys && t in s.active && AgreesOn(s, a, it)
    ensures AgreesOn(Noted(s, t, item), a, it)
  {
    AgreesStill(s, a, Noted(s, t, item), a, it);
  }

  lemma NextAgrees(s: Store, a: Abstract, step: Step)
    requires Agrees(s, a) && Enabled(s, step)
    ensures Agrees(Next(s, step), AbstractNext(a, step, LetThrough(s, step)))
  {
    hide Agrees;
    match step
    case BeginStep => BeginAgrees(s, a);
    case WriteStep(t, item, data) => WriteAgrees(s, a, t, item, data);
    case DeleteStep(t, item) => DeleteAgrees(s, a, t, item);
    case ReadStep(t, item) => NotedAgrees(s, a, t, item);
    case CommitStep(t) => CommitAgrees(s, a, t);
    case AbortStep(t) => AbortAgrees(s, a, t);
    case CollectStep => CollectAgrees(s, a);
  }

  /** Every step keeps the invariant. */
  lemma NextInv(s: Store, step: Step)
    requires Inv(s) && Enabled(s, step)
    ensures Inv(Next(s, step))
  {
    hide Inv;
    match step
    case BeginStep => BeginKeeps(s);
    case WriteStep(t, item, data) => WriteKeeps(s, t, item, data);
    case DeleteStep(t, item) => DeleteKeeps(s, t, item);
    case ReadStep(t, item) => NotedKeeps(s, t, item);
    case CommitStep(t) => CommitsOrNot(s, t);
    case AbortStep(t) => AbortKeeps(s, t);
    case CollectStep => CollectKeeps(s);
  }

  lemma CommitsOrNot(s: Store, t: TxnId)
    requires Inv(s) && t in s.txns
    ensures Inv(Commit(s, t).0)
  {
    assert StatusOk(s, t);
    if t in s.active { CommitKeeps(s, t); }
  }

  lemma {:induction false} RunAgrees(r: Run, i: nat)
    requires IsRun(r) && i < |r.stores|
    ensures Agrees(r.stores[i], AbstractAt(r, i))
  {
    if i > 0 {
      RunAgrees(r, i - 1);
      assert Enabled(r.stores[i - 1], r.steps[i - 1]) && r.stores[i - 1 + 1] == Next(r.stores[i - 1], r.steps[i - 1]);
      NextAgrees(r.stores[i - 1], AbstractAt(r, i - 1), r.steps[i - 1]);
    }
  }

  /** Every read, at every point of every run, returns what the abstract store returns. */
  lemma SnapshotIsolation(r: Run, i: nat, t: TxnId, item: Item)
    requires IsRun(r) && i < |r.stores| && t in r.stores[i].active
    ensures t in r.stores[i].txns && t in AbstractAt(r, i).sessions
    ensures Read(r.stores[i], t, item) == SessionRead(AbstractAt(r, i), t, item)
  {
    RunAgrees(r, i);
    AgreesHere(r.stores[i], AbstractAt(r, i), item);
    ReadIsSee(r.stores[i], t, item);
  }

  // ----- Conflicts between writers -----

  /** Two transactions that wrote the same item never ran at the same time: one knew the other's writes. */
  ghost predicate WritersOrdered(s: Store) {
    forall t, u, item ::
      (t in s.txns && u in s.txns && t != u && item in s.txns[t].written && item in s.txns[u].written
       && t !in s.aborted && u !in s.aborted) ==>
        t in Known(s, u) || u in Known(s, t)
  }

  lemma ActiveWritersApart(s: Store, t: TxnId, u: TxnId, item: Item)
    requires Inv(s) && t in s.active && u in s.active && t in s.txns && u in s.txns && t != u
    ensures !(item in s.txns[t].written && item in s.txns[u].written)
  {
    ItemHere(s, item);
    UndoHolder(s, t, item, u);
  }

  lemma InvOrders(s: Store)
    requires Inv(s)
    requires forall t, u, item ::
      (t in s.committed && u in s.committed && t in s.txns && u in s.txns && t != u
       && item in s.txns[t].written && item in s.txns[u].written) ==>
        t in Known(s, u) || u in Known(s, t)
    ensures WritersOrdered(s)
  {
    forall t, u, item | t in s.txns && u in s.txns && t != u && item in s.txns[t].written && item in s.txns[u].written
                        && t !in s.aborted && u !in s.aborted
      ensures t in Known(s, u) || u in Known(s, t)
    {
      if t in s.active && u in s.active {
        ActiveWritersApart(s, t, u, item);
      } else if t in s.active {
        WritersKnown(s, t, item, u);
      } else if u in s.active {
        WritersKnown(s, u, item, t);
      }
    }
  }

  lemma NextOrders(s: Store, step: Step)
    requires Inv(s) && WritersOrdered(s) && Enabled(s, step) && Inv(Next(s, step))
    ensures WritersOrdered(Next(s, step))
  {
    var s' := Next(s, step);
    if step.CommitStep? { NoConflict(s, step.t); assert StatusOk(s, step.t); }
    forall t, u, item | t in s'.committed && u in s'.committed && t in s'.txns && u in s'.txns && t != u
                        && item in s'.txns[t].written && item in s'.txns[u].written
      ensures t in Known(s', u) || u in Known(s', t)
    {
      CommittedBefore(s, step, t);
      CommittedBefore(s, step, u);
    }
    InvOrders(s');
  }

  /** What is committed after a step was there before, was not aborted, and wrote the same items. */
  lemma CommittedBefore(s: Store, step: Step, t: TxnId)
    requires Inv(s) && Enabled(s, step) && t in Next(s, step).committed && t in Next(s, step).txns
    ensures t in s.txns && t !in s.aborted
    ensures Next(s, step).txns[t].written == s.txns[t].written && Known(Next(s, step), t) == Known(s, t)
  {
    if step.CommitStep? { NoConflict(s, step.t); assert StatusOk(s, step.t); }
    if step.BeginStep? { assert s.next !in s.txns; }
  }

  lemma {:induction false} RunOrders(r: Run, i: nat)
    requires IsRun(r) && i < |r.stores|
    ensures WritersOrdered(r.stores[i])
  {
    if i > 0 {
      RunOrders(r, i - 1);
      RunAgrees(r, i - 1);
      RunAgrees(r, i);
      assert Enabled(r.stores[i - 1], r.steps[i - 1]) && r.stores[i - 1 + 1] == Next(r.stores[i - 1], r.steps[i - 1]);
      NextOrders(r.stores[i - 1], r.steps[i - 1]);
    }
  }

  /** No lost updates: of two committed writers of one item, one had committed before the other began. */
  lemma NoLostUpdates(r: Run, i: nat, t: TxnId, u: TxnId, item: Item)
    requires IsRun(r) && i < |r.stores| && t in r.stores[i].committed && u in r.stores[i].committed && t != u
    ensures t in r.stores[i].txns && u in r.stores[i].txns
    ensures item in r.stores[i].txns[t].written && item in r.stores[i].txns[u].written ==>
      t in Known(r.stores[i], u) || u in Known(r.stores[i], t)
  {
    RunOrders(r, i);
    RunAgrees(r, i);
  }
}
