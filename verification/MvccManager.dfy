/**
  The manager object of pysql/mvcc.py; each method is proved to do what the function of the same purpose in MvccStore
  says.
*/
module MvccManagers {
  import opened Common
  import opened MvccStore
  import opened MvccInvariant

  lemma Relabelled(c: seq<Version>)
    requires c != []
    ensures forall v :: c[0 := v] == [v] + c[1..]
    ensures |c| > 1 ==> c[1..][1..] == c[2..]
  {
  }

  /** The version has not been ended by another transaction that is still running. */
  predicate Free(v: Version, t: TxnId, active: set<TxnId>) {
    v.xmax == 0 || v.xmax == t || v.xmax !in active
  }

  /** Ended by a committed transaction older than any that is running. */
  predicate IsPast(v: Version, active: set<TxnId>, next: TxnId, committed: set<TxnId>) {
    v.xmax != 0 && v.xmax in committed && (forall a :: a in active ==> v.xmax < a) && (active == {} ==> v.xmax < next)
  }

  lemma PastIsDead(v: Version, active: set<TxnId>, next: TxnId, committed: set<TxnId>)
    ensures Dead(v, Least(active, next), committed) <==> IsPast(v, active, next, committed)
  {
  }

  /** A chain is cut below its first version but the newest that ended in the past, if there is something below. */
  ghost predicate IsCut(c: seq<Version>, r: seq<Version>, active: set<TxnId>, next: TxnId, committed: set<TxnId>) {
    && r <= c && (r == c || (2 <= |r| && IsPast(c[|r| - 1], active, next, committed)))
    && forall k :: 1 <= k < |r| && k + 1 < |c| && (k + 1 < |r| || r == c) ==> !IsPast(c[k], active, next, committed)
  }

  lemma TrimCuts(c: seq<Version>, active: set<TxnId>, next: TxnId, committed: set<TxnId>)
    ensures IsCut(c, Trim(c, 1, Least(active, next), committed), active, next, committed)
  {
    forall v: Version
      ensures Dead(v, Least(active, next), committed) <==> IsPast(v, active, next, committed)
    {
      PastIsDead(v, active, next, committed);
    }
  }

  /** The head is dropped if t made it; if t had ended the version that is then newest, it no longer has. */
  predicate Undone(c: seq<Version>, r: seq<Version>, t: TxnId)
    requires c != []
  {
    var dropped := if c[0].xmin == t then 1 else 0;
    && |r| == |c| - dropped
    && forall k :: 0 <= k < |r| ==>
         var v := c[k + dropped];
         r[k] == if k == 0 && v.xmax == t then v.(xmax := 0) else v
  }

  lemma UndoIs(c: seq<Version>, t: TxnId)
    requires c != []
    ensures Undone(c, Undo(c, t), t)
  {
  }

  /** What the methods rely on. */
  predicate WellFormed(s: Store) {
    s.active <= s.txns.Keys && forall item :: item in s.versions ==> s.versions[item] != []
  }

  lemma CollectIs(s: Store, versions: map<Item, seq<Version>>, cut: set<Item>)
    requires versions.Keys == s.versions.Keys
    requires forall item :: item in versions ==>
      versions[item] == Trim(s.versions[item], 1, Least(s.active, s.next), s.committed)
    requires cut <= s.versions.Keys
    requires forall item :: item in s.versions ==> (item in cut <==> versions[item] != s.versions[item])
    ensures s.(versions := versions) == Collect(s)
    ensures cut == set item | item in s.versions && Collect(s).versions[item] != s.versions[item]
  {
    assert versions == Collect(s).versions;
  }

  /** Transactions are named by their identifiers; txns holds every transaction ever begun. */
  class MvccManager {
    var nextTxnId: TxnId
    var txns: map<TxnId, Transaction>
    var activeTxns: set<TxnId>
    var committedTxns: set<TxnId>
    var abortedTxns: set<TxnId>
    var versions: map<Item, seq<Version>>

    ghost function State(): Store
      reads this
    {
      Store(nextTxnId, txns, activeTxns, committedTxns, abortedTxns, versions)
    }

    ghost predicate Listed()
      reads this
    {
      WellFormed(State())
    }

    constructor ()
      ensures State() == EMPTY_STORE
    {
      nextTxnId, txns, activeTxns, committedTxns, abortedTxns, versions := 1, map[], {}, {}, {}, map[];
    }

    /** The smallest active identifier. */
    method MinActive(otherwise: TxnId) returns (m: TxnId)
      ensures m == Least(activeTxns, otherwise)
    {
      m := otherwise;
      var rest, first := activeTxns, true;
      while rest != {}
        invariant rest <= activeTxns
        invariant first <==> rest == activeTxns
        invariant first ==> m == otherwise
        invariant !first ==> m in activeTxns
        invariant forall t :: t in activeTxns && t !in rest ==> m <= t
        decreases rest
      {
        var t :| t in rest;
        if first || t < m { m := t; }
        rest, first := rest - {t}, false;
      }
      assert activeTxns != {} ==> IsLeast(activeTxns, m);
    }

    method BeginTransaction() returns (t: TxnId)
      modifies this
      ensures t == old(nextTxnId) && State() == Begin(old(State()))
      ensures nextTxnId == t + 1 && activeTxns == old(activeTxns) + {t} && versions == old(versions)
      ensures t in txns && txns[t].status == Active && txns[t].written == {} == txns[t].seen
      ensures txns[t].snapshot.active == old(activeTxns) && txns[t].snapshot.committed == committedTxns
      ensures committedTxns == old(committedTxns) && abortedTxns == old(abortedTxns) && txns[t].snapshot.next == t
      ensures if old(activeTxns) == {} then txns[t].snapshot.minActive == t
        else IsLeast(old(activeTxns), txns[t].snapshot.minActive)
      ensures txns.Keys == old(txns.Keys) + {t}
      ensures forall u :: u in old(txns) && u != t ==> u in txns && txns[u] == old(txns)[u]
    {
      t := nextTxnId;
      var min := MinActive(t);
      nextTxnId := nextTxnId + 1;
      var snapshot := Snapshot(activeTxns, min, t, committedTxns);
      txns := txns[t := Transaction(Active, snapshot, {}, {})];
      activeTxns := activeTxns + {t};
    }

    method CommitTransaction(t: TxnId) returns (ok: bool)
      requires Listed() && t in txns
      modifies this
      ensures (State(), ok) == Commit(old(State()), t)
      ensures ok <==> old(txns)[t].status.Active? && forall u :: u in old(activeTxns) && u in old(txns) && u != t ==>
        !(old(txns)[u].status.Committed? && old(txns)[t].written * old(txns)[u].written != {})
      ensures ok ==>
        && activeTxns == old(activeTxns) - {t} && committedTxns == old(committedTxns) + {t}
        && txns == old(txns)[t := old(txns)[t].(status := Committed)]
        && versions == old(versions) && abortedTxns == old(abortedTxns) && nextTxnId == old(nextTxnId)
      ensures !ok ==> if old(txns)[t].status.Active? then RolledBack(t) else State() == old(State())
    {
      if txns[t].status != Active { return false; }
      var others := activeTxns;
      while others != {}
        invariant others <= activeTxns && State() == old(State())
        invariant forall u :: u in activeTxns - others && u in txns && u != t ==>
          !(txns[u].status.Committed? && txns[t].written * txns[u].written != {})
        decreases others
      {
        var u :| u in others;
        others := others - {u};
        if u != t && txns[u].status == Committed && txns[t].written * txns[u].written != {} {
          DoAbort(t);
          return false;
        }
      }
      txns := txns[t := txns[t].(status := Committed)];
      committedTxns := committedTxns + {t};
      activeTxns := activeTxns - {t};
      return true;
    }

    method AbortTransaction(t: TxnId)
      requires Listed() && t in txns
      modifies this
      ensures State() == Abort(old(State()), t) && RolledBack(t)
    {
      DoAbort(t);
    }

    /** The transaction counts as aborted, and its versions and marks at the heads of chains are gone. */
    twostate predicate RolledBack(t: TxnId)
      requires t in old(txns)
      reads this
    {
      && txns == old(txns)[t := old(txns)[t].(status := Aborted)] && abortedTxns == old(abortedTxns) + {t}
      && activeTxns == old(activeTxns) - {t} && committedTxns == old(committedTxns) && nextTxnId == old(nextTxnId)
      && versions.Keys <= old(versions).Keys
      && (forall item :: item in versions ==> versions[item] != [])
      && forall item :: item in old(versions) && old(versions)[item] != [] ==>
           Undone(old(versions)[item], if item in versions then versions[item] else [], t)
    }

    method DoAbort(t: TxnId)
      requires Listed() && t in txns
      modifies this
      ensures State() == Abort(old(State()), t) && RolledBack(t)
    {
      txns := txns[t := txns[t].(status := Aborted)];
      abortedTxns := abortedTxns + {t};
      activeTxns := activeTxns - {t};
      ghost var before, marked := versions, State();
      var keysToCheck := versions.Keys;
      while keysToCheck != {}
        invariant State() == marked.(versions := versions) && keysToCheck <= versions.Keys <= before.Keys
        invariant forall key :: key in keysToCheck ==> versions[key] == before[key]
        invariant forall key :: key in before.Keys - keysToCheck ==>
          (key in versions <==> Undo(before[key], t) != [])
            && (key in versions ==> versions[key] == Undo(before[key], t))
        decreases keysToCheck
      {
        var key :| key in keysToCheck;
        keysToCheck := keysToCheck - {key};
        var chain := UndoChain(versions[key], t);
        versions := if chain == [] then versions - {key} else versions[key := chain];
      }
      assert forall key :: key in before ==> key in before.Keys - keysToCheck;
      assert versions.Keys == Abort(old(State()), t).versions.Keys;
      assert versions == Abort(old(State()), t).versions;
      forall item | item in before
        ensures Undone(before[item], if item in versions then versions[item] else [], t)
      {
        UndoIs(before[item], t);
      }
    }

    /** One chain with t's newest version dropped, or t's mark on the newest version cleared. */
    static method UndoChain(chain: seq<Version>, t: TxnId) returns (r: seq<Version>)
      requires chain != []
      ensures r == Undo(chain, t)
    {
      r := chain;
      Relabelled(chain);
      if chain[0].xmin == t {
        r := chain[1..];
        if r != [] {
          Relabelled(r);
          if r[0].xmax == t { r := r[0 := r[0].(xmax := 0)]; }
        }
      } else if chain[0].xmax == t {
        r := chain[0 := chain[0].(xmax := 0)];
      }
    }

    /** Adds to what t has written. */
    method AddWrite(t: TxnId, item: Item)
      requires t in txns
      modifies this`txns
      ensures txns == old(txns)[t := old(txns)[t].(written := old(txns)[t].written + {item})]
    {
      txns := txns[t := txns[t].(written := txns[t].written + {item})];
    }

    method WriteVersion(t: TxnId, item: Item, data: Row) returns (ok: bool)
      requires Listed() && t in txns
      modifies this
      ensures (State(), ok) == Write(old(State()), t, item, data)
      ensures ok <==> item !in old(versions) || Free(old(versions)[item][0], t, old(activeTxns))
      ensures ok ==>
        && versions == old(versions)[item := [Version(data, t, 0)] +
             if item in old(versions) then [old(versions)[item][0].(xmax := t)] + old(versions)[item][1..] else []]
        && txns == old(txns)[t := old(txns)[t].(written := old(txns)[t].written + {item})]
      ensures !ok ==> versions == old(versions) && txns == old(txns)
      ensures activeTxns == old(activeTxns) && committedTxns == old(committedTxns) && abortedTxns == old(abortedTxns)
    {
      var chain := [];
      if item in versions {
        chain := versions[item];
        if chain[0].xmax != 0 && chain[0].xmax != t && chain[0].xmax in activeTxns { return false; }
        Relabelled(chain);
        chain := chain[0 := chain[0].(xmax := t)];
      }
      versions := versions[item := [Version(data, t, 0)] + chain];
      AddWrite(t, item);
      return true;
    }

    /** The data of the version visible to t; what was found is recorded as read. */
    method ReadVersion(t: TxnId, item: Item) returns (r: Option<Row>)
      requires t in txns
      modifies this
      ensures r == Read(old(State()), t, item) && State() == Noted(old(State()), t, item)
      ensures IsSane(t, old(txns)[t].snapshot) ==>
        var c, view := (if item in versions then versions[item] else []), old(txns)[t].snapshot.committed + {t};
        && (forall k: nat :: NewestInView(c, view, k) ==> r == Some(c[k].data))
        && ((forall k :: 0 <= k < |c| ==> !InView(c[k], view)) ==> r == None)
      ensures txns == if r.None? then old(txns) else old(txns)[t := old(txns)[t].(seen := old(txns)[t].seen + {item})]
      ensures versions == old(versions) && activeTxns == old(activeTxns) && committedTxns == old(committedTxns)
    {
      if IsSane(t, txns[t].snapshot) { WalkIs(if item in versions then versions[item] else [], t, txns[t].snapshot); }
      if item !in versions { return None; }
      var chain, i := versions[item], 0;
      while i < |chain|
        invariant i <= |chain| && Walk(chain[i..], t, txns[t].snapshot) == Walk(chain, t, txns[t].snapshot)
        invariant State() == old(State())
      {
        assert chain[i..][0] == chain[i] && chain[i..][1..] == chain[i + 1..];
        if IsVisibleTo(chain[i], t, txns[t].snapshot) {
          txns := txns[t := txns[t].(seen := txns[t].seen + {item})];
          return Some(chain[i].data);
        }
        i := i + 1;
      }
      return None;
    }

    method DeleteVersion(t: TxnId, item: Item) returns (ok: bool)
      requires Listed() && t in txns
      modifies this
      ensures (State(), ok) == Delete(old(State()), t, item)
      ensures ok <==> item in old(versions) && Free(old(versions)[item][0], t, old(activeTxns))
      ensures ok ==>
        && versions == old(versions)[item := [old(versions)[item][0].(xmax := t)] + old(versions)[item][1..]]
        && txns == old(txns)[t := old(txns)[t].(written := old(txns)[t].written + {item})]
      ensures !ok ==> versions == old(versions) && txns == old(txns)
      ensures activeTxns == old(activeTxns) && committedTxns == old(committedTxns) && abortedTxns == old(abortedTxns)
    {
      if item !in versions { return false; }
      var chain := versions[item];
      if chain[0].xmax != 0 && chain[0].xmax != t && chain[0].xmax in activeTxns { return false; }
      Relabelled(chain);
      versions := versions[item := chain[0 := chain[0].(xmax := t)]];
      AddWrite(t, item);
      return true;
    }

    /** Cuts every chain below the first version that is dead to all; returns how many chains were cut. */
    method GarbageCollect() returns (collected: nat)
      modifies this
      ensures State() == Collect(old(State()))
      ensures var after := Collect(old(State())).versions;
        collected == |set item | item in old(versions) && after[item] != old(versions)[item]|
      ensures versions.Keys == old(versions).Keys && forall item :: item in versions ==>
        IsCut(old(versions)[item], versions[item], activeTxns, nextTxnId, committedTxns)
    {
      var minActive := MinActive(nextTxnId);
      collected := 0;
      ghost var before, cutItems: set<Item> := versions, {};
      var items := versions.Keys;
      while items != {}
        invariant State() == old(State()).(versions := versions) && items <= versions.Keys == before.Keys
        invariant forall item :: item in items ==> versions[item] == before[item]
        invariant forall item :: item in before && item !in items ==>
          versions[item] == Trim(before[item], 1, minActive, committedTxns)
        invariant cutItems <= before.Keys - items
        invariant forall item :: item in before && item !in items ==>
          (item in cutItems <==> versions[item] != before[item])
        invariant collected == |cutItems|
        decreases items
      {
        var item :| item in items;
        items := items - {item};
        var chain, cut := TrimChain(versions[item], minActive);
        if cut {
          versions := versions[item := chain];
          collected := collected + 1;
          cutItems := cutItems + {item};
        }
      }
      CollectIs(old(State()), versions, cutItems);
      forall item | item in versions
        ensures IsCut(old(versions)[item], versions[item], activeTxns, nextTxnId, committedTxns)
      {
        TrimCuts(before[item], activeTxns, nextTxnId, committedTxns);
      }
    }

    /** The chain cut below its first dead version but the newest, if there is one with something below it. */
    method TrimChain(chain: seq<Version>, minActive: TxnId) returns (r: seq<Version>, cut: bool)
      ensures r == Trim(chain, 1, minActive, committedTxns)
      ensures cut <==> r != chain
    {
      var i := 1;
      while i + 1 < |chain|
        invariant 1 <= i && Trim(chain, i, minActive, committedTxns) == Trim(chain, 1, minActive, committedTxns)
        decreases |chain| - i
      {
        if chain[i].xmax != 0 && chain[i].xmax < minActive && chain[i].xmax in committedTxns {
          return chain[..i + 1], true;
        }
        i := i + 1;
      }
      return chain, false;
    }
  }
}
