/** The changes a deletion makes, as functions on trees, and the proofs that each keeps the invariant. */
module BTreeDelete {
  import opened Common
  import opened BTreeShape
  import opened BTreeInsert

  // ----- A binding removed from a leaf -----

  function RemoveBinding(t: Tree, x: Id, i: nat): Tree
    requires x in t.nodes && i < |t.nodes[x].keys| == |t.nodes[x].vals|
  {
    var n := t.nodes[x];
    t.(nodes := t.nodes[x := n.(keys := RemoveAt(n.keys, i), vals := RemoveAt(n.vals, i))])
  }

  lemma RemoveKeeps(t: Tree, sh: Shape, contents: map<int, Value>, x: Id, i: nat)
    requires Inv(t, sh, Tight, contents) && x in t.nodes && t.nodes[x].leaf
    requires i < |t.nodes[x].keys| == |t.nodes[x].vals|
    ensures Inv(RemoveBinding(t, x, i), sh, Odd(x), contents - {t.nodes[x].keys[i]})
  {
    hide Holds, NodesOk, NodeOk, HoldsSpan;
    var t', k := RemoveBinding(t, x, i), t.nodes[x].keys[i];
    At(t, sh, Tight, contents, x);
    forall y | y in t'.nodes
      ensures NodeOk(t', sh, Odd(x), y) && ParentOk(t', Odd(x), y) && SizeOk(t', Odd(x), y)
    {
      At(t, sh, Tight, contents, y);
      if y == x {
        RemoveFromLeaf(t, sh, x, i);
      } else {
        RemoveElsewhere(t, sh, x, i, y);
      }
    }
    NodesAll(t', sh, Odd(x));
    forall y | y in t'.nodes && t'.nodes[y].leaf
      ensures HoldsSpan(t', sh, contents - {k}, y)
    {
      At(t, sh, Tight, contents, y);
      LeafKeys(t, sh, Tight, contents, x);
      LeafKeys(t, sh, Tight, contents, y);
      if y == x {
        RemoveHeld(t, sh, contents, x, i);
      } else {
        LeafLevels(t, sh, Tight, contents, x, y);
        if In(k, sh.span[y]) {
          SpansDisjoint(t, sh, Tight, contents, x, y, k);
        }
        RemoveNotHeld(t, sh, contents, x, i, y);
      }
    }
    HoldsAll(t', sh, contents - {k});
  }

  lemma RemoveFromLeaf(t: Tree, sh: Shape, x: Id, i: nat)
    requires Framed(t, sh, Tight) && x in t.nodes && t.nodes[x].leaf && NodeOk(t, sh, Tight, x)
    requires i < |t.nodes[x].keys| == |t.nodes[x].vals|
    ensures NodeOk(RemoveBinding(t, x, i), sh, Odd(x), x)
  {
    var t' := RemoveBinding(t, x, i);
    assert ChainOk(t, sh, x);
    assert ChainOk(t', sh, x);
  }

  lemma RemoveElsewhere(t: Tree, sh: Shape, x: Id, i: nat, y: Id)
    requires Framed(t, sh, Tight) && x in t.nodes && y in t.nodes && y != x && NodeOk(t, sh, Tight, y)
    requires i < |t.nodes[x].keys| == |t.nodes[x].vals|
    ensures NodeOk(RemoveBinding(t, x, i), sh, Odd(x), y)
  {
    var n := t.nodes[y];
    var t' := RemoveBinding(t, x, i);
    forall j | 0 <= j < |n.kids|
      ensures KidUntouched(t, sh, Tight, t', sh, Odd(x), n.kids[j])
    {
      assert KidOk(t, sh, Tight, y, j);
    }
    if n.leaf { assert ChainOk(t, sh, y); }
    FrameNode(t, sh, Tight, t', sh, Odd(x), y);
  }

  lemma RemoveHeld(t: Tree, sh: Shape, contents: map<int, Value>, x: Id, i: nat)
    requires x in t.nodes && x in sh.span && HoldsSpan(t, sh, contents, x) && Sorted(t.nodes[x].keys)
    requires i < |t.nodes[x].keys| == |t.nodes[x].vals|
    ensures HoldsSpan(RemoveBinding(t, x, i), sh, contents - {t.nodes[x].keys[i]}, x)
  {
    var n, n' := t.nodes[x], RemoveBinding(t, x, i).nodes[x];
    forall q | q in contents - {n.keys[i]} && In(q, sh.span[x])
      ensures q in n'.keys
    {
      var j :| 0 <= j < |n.keys| && n.keys[j] == q;
      assert n'.keys[if j < i then j else j - 1] == q;
    }
  }

  lemma RemoveNotHeld(t: Tree, sh: Shape, contents: map<int, Value>, x: Id, i: nat, y: Id)
    requires x in t.nodes && y in t.nodes && y in sh.span && y != x && HoldsSpan(t, sh, contents, y)
    requires i < |t.nodes[x].keys| == |t.nodes[x].vals| && !In(t.nodes[x].keys[i], sh.span[y])
    requires AllIn(t.nodes[y].keys, sh.span[y])
    ensures HoldsSpan(RemoveBinding(t, x, i), sh, contents - {t.nodes[x].keys[i]}, y)
  {
  }

  // ----- Two neighbouring leaves share out their bindings anew -----

  /** Leaves l and r, children j and j + 1 of p: l keeps the first `at` of their bindings, r gets the rest. */
  function Resplit(t: Tree, p: Id, j: nat, at: nat): Tree
    requires p in t.nodes && j + 1 < |t.nodes[p].kids| && j < |t.nodes[p].keys|
    requires var l, r := t.nodes[p].kids[j], t.nodes[p].kids[j + 1];
      && l in t.nodes && r in t.nodes && |t.nodes[l].keys| == |t.nodes[l].vals|
      && |t.nodes[r].keys| == |t.nodes[r].vals|
      && at < |t.nodes[l].keys| + |t.nodes[r].keys|
  {
    var l, r := t.nodes[p].kids[j], t.nodes[p].kids[j + 1];
    var keys, vals := t.nodes[l].keys + t.nodes[r].keys, t.nodes[l].vals + t.nodes[r].vals;
    t.(nodes := t.nodes[l := t.nodes[l].(keys := keys[..at], vals := vals[..at])]
                       [r := t.nodes[r].(keys := keys[at..], vals := vals[at..])]
                       [p := t.nodes[p].(keys := t.nodes[p].keys[j := keys[at]])])
  }

  /** The bound between l and r moved to `key`. */
  function MoveBound(sh: Shape, l: Id, key: int, r: Id): Shape
    requires l in sh.span && r in sh.span
  {
    sh.(span := sh.span[l := Span(sh.span[l].lo, Some(key))][r := Span(Some(key), sh.span[r].hi)])
  }

  /** Siblings l and r, children j and j + 1 of p, at the same level. */
  ghost predicate Siblings(t: Tree, sh: Shape, sl: Slack, contents: map<int, Value>, p: Id, j: nat, l: Id, r: Id) {
    && Inv(t, sh, sl, contents) && !sl.Pending?
    && p in t.nodes && !t.nodes[p].leaf && j + 1 < |t.nodes[p].kids| == |t.nodes[p].keys| + 1
    && t.nodes[p].kids[j] == l && t.nodes[p].kids[j + 1] == r
    && l in t.nodes && r in t.nodes && l != r && l != p && r != p
    && l != t.root && r != t.root
    && sh.span[l].hi == Some(t.nodes[p].keys[j]) == sh.span[r].lo
    && sh.level[l] == sh.level[r] && sh.level[l] + 1 == sh.level[p]
    && t.nodes[l].leaf == t.nodes[r].leaf
  }

  lemma AreSiblings(t: Tree, sh: Shape, sl: Slack, contents: map<int, Value>, p: Id, j: nat)
    requires Inv(t, sh, sl, contents) && !sl.Pending? && p in t.nodes && !t.nodes[p].leaf && j + 1 < |t.nodes[p].kids|
    ensures Siblings(t, sh, sl, contents, p, j, t.nodes[p].kids[j], t.nodes[p].kids[j + 1])
  {
    hide NodesOk, Holds;
    var l, r := t.nodes[p].kids[j], t.nodes[p].kids[j + 1];
    At(t, sh, sl, contents, p);
    assert KidOk(t, sh, sl, p, j) && KidOk(t, sh, sl, p, j + 1);
    KidsDistinct(t, sh, sl, contents, p, j, j + 1);
    At(t, sh, sl, contents, l);
    At(t, sh, sl, contents, r);
  }

  /** Keys of two neighbouring leaves, joined. */
  lemma JoinKeys(a: seq<int>, b: seq<int>, lo: Option<int>, key: int, hi: Option<int>)
    requires Sorted(a) && Sorted(b) && AllIn(a, Span(lo, Some(key))) && AllIn(b, Span(Some(key), hi))
    ensures Sorted(a + b)
    ensures Inside(key, Span(None, hi)) && (lo.Some? ==> lo.value <= key) ==> AllIn(a + b, Span(lo, hi))
  {
    forall i, j | 0 <= i < j < |a + b|
      ensures (a + b)[i] < (a + b)[j]
    {
      if i < |a| { assert In(a[i], Span(lo, Some(key))); }
      if j >= |a| { assert In(b[j - |a|], Span(Some(key), hi)); }
    }
    forall i | 0 <= i < |a + b| && Inside(key, Span(None, hi)) && (lo.Some? ==> lo.value <= key)
      ensures In((a + b)[i], Span(lo, hi))
    {
      if i < |a| { assert In(a[i], Span(lo, Some(key))); } else { assert In(b[i - |a|], Span(Some(key), hi)); }
    }
  }

  ghost predicate CanResplit(t: Tree, sh: Shape, sl: Slack, contents: map<int, Value>, p: Id, j: nat, l: Id, r: Id,
      at: nat) {
    && Siblings(t, sh, sl, contents, p, j, l, r) && t.nodes[l].leaf
    && |t.nodes[l].keys| == |t.nodes[l].vals| && |t.nodes[r].keys| == |t.nodes[r].vals|
    && 0 < at < |t.nodes[l].keys| + |t.nodes[r].keys|
    && MinKeys(t) <= at < t.order && MinKeys(t) <= |t.nodes[l].keys| + |t.nodes[r].keys| - at < t.order
    && (sl == Tight || sl == Odd(l) || sl == Odd(r))
  }

  /** What Resplit does, node by node, and what is known of the joined keys. */
  lemma ResplitAt(t: Tree, sh: Shape, sl: Slack, contents: map<int, Value>, p: Id, j: nat, l: Id, r: Id, at: nat)
    requires CanResplit(t, sh, sl, contents, p, j, l, r, at)
    ensures var t' := Resplit(t, p, j, at);
      var keys, vals := t.nodes[l].keys + t.nodes[r].keys, t.nodes[l].vals + t.nodes[r].vals;
      && t' == t.(nodes := t'.nodes) && t'.nodes.Keys == t.nodes.Keys
      && t'.nodes[l] == t.nodes[l].(keys := keys[..at], vals := vals[..at])
      && t'.nodes[r] == t.nodes[r].(keys := keys[at..], vals := vals[at..])
      && t'.nodes[p] == t.nodes[p].(keys := t.nodes[p].keys[j := keys[at]])
      && (forall y :: y in t.nodes && y != l && y != r && y != p ==> t'.nodes[y] == t.nodes[y])
      && Sorted(keys) && AllIn(keys, Span(sh.span[l].lo, sh.span[r].hi))
  {
    hide Holds, NodesOk;
    LeafKeys(t, sh, sl, contents, l);
    LeafKeys(t, sh, sl, contents, r);
    SiblingSpan(t, sh, sl, contents, p, j, l, r);
    JoinKeys(t.nodes[l].keys, t.nodes[r].keys, sh.span[l].lo, t.nodes[p].keys[j], sh.span[r].hi);
  }

  /** The separator lies strictly between the outer bounds of the two siblings. */
  lemma SiblingSpan(t: Tree, sh: Shape, sl: Slack, contents: map<int, Value>, p: Id, j: nat, l: Id, r: Id)
    requires Siblings(t, sh, sl, contents, p, j, l, r)
    ensures Inside(t.nodes[p].keys[j], Span(sh.span[l].lo, sh.span[r].hi))
    ensures sh.span[l] == ChildSpan(t.nodes[p].keys, sh.span[p], j)
    ensures sh.span[r] == ChildSpan(t.nodes[p].keys, sh.span[p], j + 1)
    ensures Sorted(t.nodes[p].keys) && AllInside(t.nodes[p].keys, sh.span[p])
  {
    hide Holds, NodesOk;
    At(t, sh, sl, contents, p);
    assert KidOk(t, sh, sl, p, j) && KidOk(t, sh, sl, p, j + 1);
    assert Inside(t.nodes[p].keys[j], sh.span[p]);
  }

  lemma ResplitKeeps(t: Tree, sh: Shape, sl: Slack, contents: map<int, Value>, p: Id, j: nat, l: Id, r: Id, at: nat)
    requires CanResplit(t, sh, sl, contents, p, j, l, r, at)
    ensures var key := (t.nodes[l].keys + t.nodes[r].keys)[at];
      Inv(Resplit(t, p, j, at), MoveBound(sh, l, key, r), Tight, contents)
  {
    hide Holds, NodesOk, NodeOk, HoldsSpan, Resplit;
    ResplitAt(t, sh, sl, contents, p, j, l, r, at);
    var key := (t.nodes[l].keys + t.nodes[r].keys)[at];
    var t', sh' := Resplit(t, p, j, at), MoveBound(sh, l, key, r);
    ResplitFramed(t, sh, sl, contents, p, j, l, r, at);
    forall y | y in t'.nodes
      ensures NodeOk(t', sh', Tight, y) && ParentOk(t', Tight, y) && SizeOk(t', Tight, y)
    {
      At(t, sh, sl, contents, y);
      if y == l || y == r {
        ResplitLeaf(t, sh, sl, contents, p, j, l, r, at, y);
      } else if y == p {
        ResplitParent(t, sh, sl, contents, p, j, l, r, at);
      } else {
        ResplitFar(t, sh, sl, contents, p, j, l, r, at, y);
      }
    }
    NodesAll(t', sh', Tight);
    ResplitHolds(t, sh, sl, contents, p, j, l, r, at);
  }

  lemma ResplitHolds(t: Tree, sh: Shape, sl: Slack, contents: map<int, Value>, p: Id, j: nat, l: Id, r: Id, at: nat)
    requires CanResplit(t, sh, sl, contents, p, j, l, r, at)
    ensures Holds(Resplit(t, p, j, at), MoveBound(sh, l, (t.nodes[l].keys + t.nodes[r].keys)[at], r), contents)
  {
    hide Holds, NodesOk, NodeOk, HoldsSpan, Resplit;
    ResplitAt(t, sh, sl, contents, p, j, l, r, at);
    var t', sh' := Resplit(t, p, j, at), MoveBound(sh, l, (t.nodes[l].keys + t.nodes[r].keys)[at], r);
    forall y | y in t'.nodes && t'.nodes[y].leaf
      ensures HoldsSpan(t', sh', contents, y)
    {
      At(t, sh, sl, contents, y);
      if y == l || y == r {
        ResplitHeld(t, sh, sl, contents, p, j, l, r, at, y);
      } else {
        SameHeld(t, sh, t', sh', contents, y);
      }
    }
    HoldsAll(t', sh', contents);
  }

  lemma ResplitFramed(t: Tree, sh: Shape, sl: Slack, contents: map<int, Value>, p: Id, j: nat, l: Id, r: Id, at: nat)
    requires CanResplit(t, sh, sl, contents, p, j, l, r, at)
    ensures Framed(Resplit(t, p, j, at), MoveBound(sh, l, (t.nodes[l].keys + t.nodes[r].keys)[at], r), Tight)
  {
    hide Holds, NodesOk, Resplit;
    ResplitAt(t, sh, sl, contents, p, j, l, r, at);
  }

  lemma ResplitLeaf(t: Tree, sh: Shape, sl: Slack, contents: map<int, Value>, p: Id, j: nat, l: Id, r: Id, at: nat,
      y: Id)
    requires CanResplit(t, sh, sl, contents, p, j, l, r, at) && (y == l || y == r)
    requires Framed(Resplit(t, p, j, at), MoveBound(sh, l, (t.nodes[l].keys + t.nodes[r].keys)[at], r), Tight)
    ensures NodeOk(Resplit(t, p, j, at), MoveBound(sh, l, (t.nodes[l].keys + t.nodes[r].keys)[at], r), Tight, y)
  {
    hide Holds, NodesOk, Resplit, Sorted, AllIn, HoldsSpan, ParentOk, SizeOk, KidOk, In, Inside;
    ResplitAt(t, sh, sl, contents, p, j, l, r, at);
    var keys := t.nodes[l].keys + t.nodes[r].keys;
    var t', sh' := Resplit(t, p, j, at), MoveBound(sh, l, keys[at], r);
    SplitKeys(keys, Span(sh.span[l].lo, sh.span[r].hi), at);
    ResplitChain(t, sh, sl, contents, p, j, l, r, at, y);
    At(t, sh, sl, contents, y);
  }

  /** No node's span is empty. */
  lemma SpanNotEmpty(t: Tree, sh: Shape, sl: Slack, contents: map<int, Value>, x: Id)
    requires Inv(t, sh, sl, contents) && x in t.nodes && (sl.Odd? ==> t.nodes[sl.node].leaf) && !sl.Pending?
    ensures sh.span[x].lo.Some? ==> In(sh.span[x].lo.value, sh.span[x])
  {
    hide Holds, NodesOk;
    if x != t.root {
      var p, i := Placed(t, sh, sl, contents, x);
      At(t, sh, sl, contents, p);
      var keys, s := t.nodes[p].keys, sh.span[p];
      if i > 0 && i < |keys| { assert keys[i - 1] < keys[i]; }
      if i == 0 { assert Inside(keys[0], s); } else { assert Inside(keys[i - 1], s); }
    }
  }

  /** Neighbouring leaves under one parent follow each other in the chain. */
  lemma SiblingsChained(t: Tree, sh: Shape, sl: Slack, contents: map<int, Value>, p: Id, j: nat, l: Id, r: Id)
    requires Siblings(t, sh, sl, contents, p, j, l, r) && t.nodes[l].leaf && (sl.Odd? ==> t.nodes[sl.node].leaf)
    ensures t.nodes[l].next == Some(r) && t.nodes[r].prev == Some(l)
  {
    hide Holds, NodesOk;
    At(t, sh, sl, contents, l);
    assert ChainOk(t, sh, l);
    var z := t.nodes[l].next.value;
    LeafLevels(t, sh, sl, contents, z, r);
    SpanNotEmpty(t, sh, sl, contents, z);
    SpanNotEmpty(t, sh, sl, contents, r);
    SpansDisjoint(t, sh, sl, contents, z, r, t.nodes[p].keys[j]);
  }

  lemma ResplitChain(t: Tree, sh: Shape, sl: Slack, contents: map<int, Value>, p: Id, j: nat, l: Id, r: Id, at: nat,
      y: Id)
    requires CanResplit(t, sh, sl, contents, p, j, l, r, at) && y in t.nodes && t.nodes[y].leaf
    requires Framed(Resplit(t, p, j, at), MoveBound(sh, l, (t.nodes[l].keys + t.nodes[r].keys)[at], r), Tight)
    ensures ChainOk(Resplit(t, p, j, at), MoveBound(sh, l, (t.nodes[l].keys + t.nodes[r].keys)[at], r), y)
  {
    hide Holds, NodesOk, Resplit, Sorted, AllIn, HoldsSpan, ParentOk, SizeOk, KidOk, In, Inside;
    ResplitAt(t, sh, sl, contents, p, j, l, r, at);
    SiblingsChained(t, sh, sl, contents, p, j, l, r);
    At(t, sh, sl, contents, y);
    assert ChainOk(t, sh, y);
    At(t, sh, sl, contents, r);
    assert ChainOk(t, sh, r);
  }

  lemma ResplitParent(t: Tree, sh: Shape, sl: Slack, contents: map<int, Value>, p: Id, j: nat, l: Id, r: Id, at: nat)
    requires CanResplit(t, sh, sl, contents, p, j, l, r, at)
    requires Framed(Resplit(t, p, j, at), MoveBound(sh, l, (t.nodes[l].keys + t.nodes[r].keys)[at], r), Tight)
    ensures NodeOk(Resplit(t, p, j, at), MoveBound(sh, l, (t.nodes[l].keys + t.nodes[r].keys)[at], r), Tight, p)
  {
    hide Holds, NodesOk, Resplit, Sorted, AllIn, AllInside, HoldsSpan, ParentOk, SizeOk, In, Inside, ChainOk;
    ResplitAt(t, sh, sl, contents, p, j, l, r, at);
    var keys := t.nodes[l].keys + t.nodes[r].keys;
    var t', sh' := Resplit(t, p, j, at), MoveBound(sh, l, keys[at], r);
    SplitKeys(keys, Span(sh.span[l].lo, sh.span[r].hi), at);
    SiblingSpan(t, sh, sl, contents, p, j, l, r);
    ReplaceKey(t.nodes[p].keys, sh.span[p], j, keys[at]);
    At(t, sh, sl, contents, p);
    forall i | 0 <= i < |t'.nodes[p].kids|
      ensures KidOk(t', sh', Tight, p, i)
    {
      assert KidOk(t, sh, sl, p, i);
      if i != j { KidsDistinct(t, sh, sl, contents, p, i, j); }
      if i != j + 1 { KidsDistinct(t, sh, sl, contents, p, i, j + 1); }
    }
  }

  /** Moving one separator within the span of its two neighbours. */
  lemma ReplaceKey(keys: seq<int>, s: Span, j: nat, key: int)
    requires Sorted(keys) && AllInside(keys, s) && j < |keys|
    requires Inside(key, Span(ChildSpan(keys, s, j).lo, ChildSpan(keys, s, j + 1).hi))
    ensures Sorted(keys[j := key]) && AllInside(keys[j := key], s)
    ensures forall i {:trigger ChildSpan(keys[j := key], s, i)} :: 0 <= i <= |keys| && i != j && i != j + 1 ==>
      ChildSpan(keys[j := key], s, i) == ChildSpan(keys, s, i)
    ensures ChildSpan(keys[j := key], s, j) == Span(ChildSpan(keys, s, j).lo, Some(key))
    ensures ChildSpan(keys[j := key], s, j + 1) == Span(Some(key), ChildSpan(keys, s, j + 1).hi)
  {
    if j > 0 { assert keys[j - 1] < key && Inside(keys[j - 1], s); }
    if j + 1 < |keys| { assert key < keys[j + 1] && Inside(keys[j + 1], s); }
  }

  lemma ResplitFar(t: Tree, sh: Shape, sl: Slack, contents: map<int, Value>, p: Id, j: nat, l: Id, r: Id, at: nat,
      y: Id)
    requires CanResplit(t, sh, sl, contents, p, j, l, r, at) && y in t.nodes && y != l && y != r && y != p
    requires Framed(Resplit(t, p, j, at), MoveBound(sh, l, (t.nodes[l].keys + t.nodes[r].keys)[at], r), Tight)
    ensures NodeOk(Resplit(t, p, j, at), MoveBound(sh, l, (t.nodes[l].keys + t.nodes[r].keys)[at], r), Tight, y)
  {
    hide Holds, NodesOk, Resplit, Sorted, AllIn, AllInside, HoldsSpan, ParentOk, SizeOk, In, Inside, ChildSpan;
    ResplitAt(t, sh, sl, contents, p, j, l, r, at);
    var t', sh' := Resplit(t, p, j, at), MoveBound(sh, l, (t.nodes[l].keys + t.nodes[r].keys)[at], r);
    At(t, sh, sl, contents, y);
    if t.nodes[y].leaf {
      ResplitChain(t, sh, sl, contents, p, j, l, r, at, y);
    } else {
      forall i | 0 <= i < |t.nodes[y].kids|
        ensures KidUntouched(t, sh, sl, t', sh', Tight, t.nodes[y].kids[i])
      {
        assert KidOk(t, sh, sl, y, i);
        ParentOfSiblings(t, sh, sl, contents, p, j, l, r);
      }
      FrameInner(t, sh, sl, t', sh', Tight, y);
    }
  }

  lemma ParentOfSiblings(t: Tree, sh: Shape, sl: Slack, contents: map<int, Value>, p: Id, j: nat, l: Id, r: Id)
    requires Siblings(t, sh, sl, contents, p, j, l, r)
    ensures t.nodes[l].parent == Some(p) == t.nodes[r].parent
  {
    hide Holds, NodesOk;
    At(t, sh, sl, contents, p);
    assert KidOk(t, sh, sl, p, j) && KidOk(t, sh, sl, p, j + 1);
  }

  lemma ResplitHeld(t: Tree, sh: Shape, sl: Slack, contents: map<int, Value>, p: Id, j: nat, l: Id, r: Id, at: nat,
      y: Id)
    requires CanResplit(t, sh, sl, contents, p, j, l, r, at) && (y == l || y == r)
    ensures HoldsSpan(Resplit(t, p, j, at), MoveBound(sh, l, (t.nodes[l].keys + t.nodes[r].keys)[at], r), contents, y)
  {
    hide Holds, NodesOk, Resplit, Sorted, AllIn, AllInside, In, Inside, ParentOk, SizeOk, NodeOk;
    ResplitAt(t, sh, sl, contents, p, j, l, r, at);
    At(t, sh, sl, contents, l);
    At(t, sh, sl, contents, r);
    var keys := t.nodes[l].keys + t.nodes[r].keys;
    var sl0, sr0 := sh.span[l], sh.span[r];
    SplitKeys(keys, Span(sl0.lo, sr0.hi), at);
    SiblingSpan(t, sh, sl, contents, p, j, l, r);
    var t', sh' := Resplit(t, p, j, at), MoveBound(sh, l, keys[at], r);
    forall k | k in contents && In(k, sh'.span[y])
      ensures k in t'.nodes[y].keys
    {
      HalfSpan(Span(sl0.lo, sr0.hi), keys[at], k);
      WholeSpan(sl0.lo, t.nodes[p].keys[j], sr0.hi, k);
      assert k in keys;
      KeyInHalf(keys, at, k);
    }
    JoinedValues(contents, t.nodes[l].keys, t.nodes[l].vals, t.nodes[r].keys, t.nodes[r].vals);
  }

  lemma WholeSpan(lo: Option<int>, key: int, hi: Option<int>, k: int)
    requires In(k, Span(lo, hi))
    ensures In(k, Span(lo, Some(key))) || In(k, Span(Some(key), hi))
  {
  }

  lemma JoinedValues(contents: map<int, Value>, ka: seq<int>, va: seq<Value>, kb: seq<int>, vb: seq<Value>)
    requires |ka| == |va| && |kb| == |vb|
    requires forall i :: 0 <= i < |ka| ==> ka[i] in contents && contents[ka[i]] == va[i]
    requires forall i :: 0 <= i < |kb| ==> kb[i] in contents && contents[kb[i]] == vb[i]
    ensures forall i :: 0 <= i < |ka + kb| ==> (ka + kb)[i] in contents && contents[(ka + kb)[i]] == (va + vb)[i]
  {
  }
}
