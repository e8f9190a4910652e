/**
  What the invariant means for the tree as a whole: all leaves are equally deep, the height is logarithmic in
  the number of keys, and the chain of leaves is the tree read from left to right.
*/
module BTreeHeight {
  import opened Common
  import opened BTreeShape
  import opened BTreeInsert
  import opened BTreeDelete

  // ----- Depth -----

  /** The node reached from x by taking the listed children in turn. */
  function Descend(t: Tree, x: Id, path: seq<nat>): Option<Id>
    decreases |path|
  {
    if path == [] then Some(x)
    else if x in t.nodes && path[0] < |t.nodes[x].kids| then Descend(t, t.nodes[x].kids[path[0]], path[1..])
    else None
  }

  lemma {:induction false} DescendLevel(t: Tree, sh: Shape, contents: map<int, Value>, x: Id, path: seq<nat>)
    requires Inv(t, sh, Tight, contents) && x in t.nodes
    ensures Descend(t, x, path).Some? ==>
      var y := Descend(t, x, path).value;
      y in t.nodes && sh.level[x] == sh.level[y] + |path| && (t.nodes[y].leaf <==> |path| == sh.level[x])
    decreases |path|
  {
    hide NodesOk, Holds;
    At(t, sh, Tight, contents, x);
    if path != [] && path[0] < |t.nodes[x].kids| {
      assert KidOk(t, sh, Tight, x, path[0]);
      DescendLevel(t, sh, contents, t.nodes[x].kids[path[0]], path[1..]);
    }
  }

  /** A path from the root ends in a leaf exactly when it visits `height` nodes. */
  lemma LeavesEquallyDeep(t: Tree, sh: Shape, contents: map<int, Value>, path: seq<nat>)
    requires Inv(t, sh, Tight, contents) && Descend(t, t.root, path).Some?
    ensures var y := Descend(t, t.root, path).value;
      y in t.nodes && (t.nodes[y].leaf <==> |path| + 1 == t.height)
  {
    DescendLevel(t, sh, contents, t.root, path);
  }

  // ----- Height -----

  function Power(b: nat, e: nat): nat {
    if e == 0 then 1 else b * Power(b, e - 1)
  }

  /** The bound keys that lie in a span. */
  ghost function KeysIn(contents: map<int, Value>, s: Span): set<int> {
    set k | k in contents && In(k, s)
  }

  lemma SplitCount(contents: map<int, Value>, lo: Option<int>, key: int, hi: Option<int>)
    requires Inside(key, Span(lo, hi)) || (hi == Some(key) && (lo.Some? ==> lo.value <= key))
    ensures |KeysIn(contents, Span(lo, hi))|
      == |KeysIn(contents, Span(lo, Some(key)))| + |KeysIn(contents, Span(Some(key), hi))|
  {
    var a, b := KeysIn(contents, Span(lo, Some(key))), KeysIn(contents, Span(Some(key), hi));
    assert KeysIn(contents, Span(lo, hi)) == a + b;
    assert a !! b;
  }

  lemma {:induction false} DistinctCount(keys: seq<int>, s: set<int>)
    requires Sorted(keys) && forall i :: 0 <= i < |keys| ==> keys[i] in s
    ensures |keys| <= |s|
  {
    if keys != [] {
      var last := keys[|keys| - 1];
      DistinctCount(keys[..|keys| - 1], s - {last});
    }
  }

  /** Every leaf but the root has MinKeys keys, every internal node but the root one child more than that. */
  lemma {:induction false} SubtreeCount(t: Tree, sh: Shape, contents: map<int, Value>, x: Id)
    requires Inv(t, sh, Tight, contents) && x in t.nodes && x != t.root
    ensures |KeysIn(contents, sh.span[x])| >= MinKeys(t) * Power(MinKeys(t) + 1, sh.level[x])
    decreases sh.level[x], 1
  {
    hide NodesOk, Holds;
    At(t, sh, Tight, contents, x);
    var n, m := t.nodes[x], MinKeys(t);
    if n.leaf {
      DistinctCount(n.keys, KeysIn(contents, sh.span[x]));
    } else {
      KidsCount(t, sh, contents, x, |n.keys|);
      Grow(m, |n.keys|, sh.level[x]);
    }
  }

  lemma Grow(m: nat, n: nat, level: nat)
    requires level >= 1 && n >= m
    ensures (n + 1) * (m * Power(m + 1, level - 1)) >= m * Power(m + 1, level)
  {
    var p := m * Power(m + 1, level - 1);
    assert (n + 1) * p >= (m + 1) * p;
    assert (m + 1) * p == m * ((m + 1) * Power(m + 1, level - 1));
  }

  /** Children 0 to i of a node. */
  lemma {:induction false} KidsCount(t: Tree, sh: Shape, contents: map<int, Value>, x: Id, i: nat)
    requires Inv(t, sh, Tight, contents) && x in t.nodes && !t.nodes[x].leaf
    requires i < |t.nodes[x].kids| == |t.nodes[x].keys| + 1
    requires sh.level[x] >= 1
    ensures var upTo := Span(sh.span[x].lo, ChildSpan(t.nodes[x].keys, sh.span[x], i).hi);
      |KeysIn(contents, upTo)| >= (i + 1) * (MinKeys(t) * Power(MinKeys(t) + 1, sh.level[x] - 1))
    decreases sh.level[x], 0, i
  {
    hide NodesOk, Holds;
    At(t, sh, Tight, contents, x);
    var n, s := t.nodes[x], sh.span[x];
    assert KidOk(t, sh, Tight, x, i);
    At(t, sh, Tight, contents, n.kids[i]);
    SubtreeCount(t, sh, contents, n.kids[i]);
    if i > 0 {
      KidsCount(t, sh, contents, x, i - 1);
      var key, hi := n.keys[i - 1], ChildSpan(n.keys, s, i).hi;
      assert Inside(key, Span(s.lo, hi)) by {
        assert Inside(key, s);
        if i < |n.keys| { assert n.keys[i - 1] < n.keys[i]; }
      }
      SplitCount(contents, s.lo, key, hi);
      var p := MinKeys(t) * Power(MinKeys(t) + 1, sh.level[x] - 1);
      assert (i + 1) * p == i * p + p;
    }
  }

  lemma Scaled(a: nat, b: nat, p: nat)
    requires a >= b
    ensures a * p >= b * p
  {
  }

  /** A tree of height h >= 2 holds at least 2 * m * (m + 1)^(h - 2) keys, m being the minimum for a node. */
  lemma LogarithmicHeight(t: Tree, sh: Shape, contents: map<int, Value>)
    requires Inv(t, sh, Tight, contents) && t.height >= 2
    ensures |contents| >= 2 * (MinKeys(t) * Power(MinKeys(t) + 1, t.height - 2))
  {
    hide NodesOk, Holds;
    At(t, sh, Tight, contents, t.root);
    var n := t.nodes[t.root];
    KidsCount(t, sh, contents, t.root, |n.keys|);
    var p := MinKeys(t) * Power(MinKeys(t) + 1, t.height - 2);
    Scaled(|n.keys| + 1, 2, p);
    assert KeysIn(contents, Span(None, None)) == contents.Keys;
  }

  // ----- The chain -----

  /** The leaves under x, from left to right. */
  ghost function Leaves(t: Tree, sh: Shape, contents: map<int, Value>, x: Id): (r: seq<Id>)
    requires Inv(t, sh, Tight, contents) && x in t.nodes
    ensures forall i :: 0 <= i < |r| ==> r[i] in t.nodes && t.nodes[r[i]].leaf
    decreases sh.level[x], 0
  {
    var n := t.nodes[x];
    At(t, sh, Tight, contents, x);
    if n.leaf then [x] else LeavesUpTo(t, sh, contents, x, |n.kids|)
  }

  /** The leaves under the first i children of x. */
  ghost function LeavesUpTo(t: Tree, sh: Shape, contents: map<int, Value>, x: Id, i: nat): (r: seq<Id>)
    requires Inv(t, sh, Tight, contents) && x in t.nodes && !t.nodes[x].leaf && i <= |t.nodes[x].kids|
    ensures forall i :: 0 <= i < |r| ==> r[i] in t.nodes && t.nodes[r[i]].leaf
    decreases sh.level[x], 0, i
  {
    if i == 0 then []
    else
      At(t, sh, Tight, contents, x);
      assert KidOk(t, sh, Tight, x, i - 1);
      LeavesUpTo(t, sh, contents, x, i - 1) + Leaves(t, sh, contents, t.nodes[x].kids[i - 1])
  }

  /** The spans of these nodes cover a span without gap or overlap, in order. */
  ghost predicate Tiles(sh: Shape, xs: seq<Id>, s: Span) {
    && xs != [] && (forall i :: 0 <= i < |xs| ==> xs[i] in sh.span)
    && sh.span[xs[0]].lo == s.lo && sh.span[xs[|xs| - 1]].hi == s.hi
    && forall i :: 0 <= i < |xs| - 1 ==> sh.span[xs[i]].hi.Some? && sh.span[xs[i]].hi == sh.span[xs[i + 1]].lo
  }

  lemma TilesJoin(sh: Shape, xs: seq<Id>, ys: seq<Id>, lo: Option<int>, key: int, hi: Option<int>)
    requires Tiles(sh, xs, Span(lo, Some(key))) && Tiles(sh, ys, Span(Some(key), hi))
    ensures Tiles(sh, xs + ys, Span(lo, hi))
  {
    var zs := xs + ys;
    forall i | 0 <= i < |zs| - 1
      ensures sh.span[zs[i]].hi.Some? && sh.span[zs[i]].hi == sh.span[zs[i + 1]].lo
    {
      if i >= |xs| { assert zs[i] == ys[i - |xs|] && zs[i + 1] == ys[i + 1 - |xs|]; }
    }
  }

  lemma {:induction false} LeavesTile(t: Tree, sh: Shape, contents: map<int, Value>, x: Id)
    requires Inv(t, sh, Tight, contents) && x in t.nodes
    ensures Tiles(sh, Leaves(t, sh, contents, x), sh.span[x])
    decreases sh.level[x], 1
  {
    hide NodesOk, Holds;
    At(t, sh, Tight, contents, x);
    if !t.nodes[x].leaf {
      KidsTile(t, sh, contents, x, |t.nodes[x].keys|);
    }
  }

  lemma {:induction false} KidsTile(t: Tree, sh: Shape, contents: map<int, Value>, x: Id, i: nat)
    requires Inv(t, sh, Tight, contents) && x in t.nodes && !t.nodes[x].leaf
    requires i < |t.nodes[x].kids| == |t.nodes[x].keys| + 1
    ensures Tiles(sh, LeavesUpTo(t, sh, contents, x, i + 1),
      Span(sh.span[x].lo, ChildSpan(t.nodes[x].keys, sh.span[x], i).hi))
    decreases sh.level[x], 0, i
  {
    hide NodesOk, Holds;
    At(t, sh, Tight, contents, x);
    var n, s := t.nodes[x], sh.span[x];
    assert KidOk(t, sh, Tight, x, i);
    LeavesTile(t, sh, contents, n.kids[i]);
    if i == 0 {
      assert LeavesUpTo(t, sh, contents, x, 0) == [];
      assert LeavesUpTo(t, sh, contents, x, 1) == Leaves(t, sh, contents, n.kids[0]);
    } else {
      KidsTile(t, sh, contents, x, i - 1);
      TilesJoin(sh, LeavesUpTo(t, sh, contents, x, i), Leaves(t, sh, contents, n.kids[i]), s.lo, n.keys[i - 1],
        ChildSpan(n.keys, s, i).hi);
    }
  }

  /** Following the chain from the leftmost leaf visits the tree's leaves from left to right, and ends there. */
  lemma ChainIsInOrder(t: Tree, sh: Shape, contents: map<int, Value>, i: nat)
    requires Inv(t, sh, Tight, contents) && i < |Leaves(t, sh, contents, t.root)|
    ensures var xs := Leaves(t, sh, contents, t.root);
      && t.nodes[xs[i]].next == (if i + 1 < |xs| then Some(xs[i + 1]) else None)
      && t.nodes[xs[i]].prev == (if i > 0 then Some(xs[i - 1]) else None)
  {
    hide NodesOk, Holds, Leaves, LeavesUpTo;
    var xs := Leaves(t, sh, contents, t.root);
    LeavesTile(t, sh, contents, t.root);
    LinkNext(t, sh, contents, xs, i);
    if i > 0 {
      LinkNext(t, sh, contents, xs, i - 1);
      At(t, sh, Tight, contents, xs[i - 1]);
      assert ChainOk(t, sh, xs[i - 1]);
    } else {
      At(t, sh, Tight, contents, xs[0]);
      assert ChainOk(t, sh, xs[0]);
      if t.nodes[xs[0]].prev.Some? {
        var w := t.nodes[xs[0]].prev.value;
        At(t, sh, Tight, contents, w);
      }
    }
  }

  lemma LinkNext(t: Tree, sh: Shape, contents: map<int, Value>, xs: seq<Id>, i: nat)
    requires Inv(t, sh, Tight, contents) && i < |xs| && Tiles(sh, xs, Span(None, None))
    requires forall i :: 0 <= i < |xs| ==> xs[i] in t.nodes && t.nodes[xs[i]].leaf
    ensures t.nodes[xs[i]].next == (if i + 1 < |xs| then Some(xs[i + 1]) else None)
  {
    hide NodesOk, Holds;
    At(t, sh, Tight, contents, xs[i]);
    assert ChainOk(t, sh, xs[i]);
    if i + 1 < |xs| {
      var y, z := xs[i + 1], t.nodes[xs[i]].next.value;
      SpanNotEmpty(t, sh, Tight, contents, y);
      SpanNotEmpty(t, sh, Tight, contents, z);
      LeafLevels(t, sh, Tight, contents, y, z);
      SpansDisjoint(t, sh, Tight, contents, y, z, sh.span[y].lo.value);
    }
  }

  // ----- Occupancy, as documented -----

  /** ceil((order - 1) / 2), the least number of keys the class comment gives for a leaf. */
  function DocumentedKeys(order: nat): nat {
    order / 2
  }

  ghost predicate LeafBelowRoot(t: Tree, sh: Shape, contents: map<int, Value>, x: Id, order: nat) {
    Inv(t, sh, Tight, contents) && t.order == order && x in t.nodes && x != t.root && t.nodes[x].leaf
  }

  /** The documented least occupancy of leaves is fallen short of in some tree exactly when the order is even. */
  lemma LeavesFallShort(order: nat)
    requires order >= 3
    ensures (exists t, sh, contents, x ::
               LeafBelowRoot(t, sh, contents, x, order) && |t.nodes[x].keys| < DocumentedKeys(order))
            <==> order % 2 == 0
  {
    if order % 2 == 0 {
      var t, sh, contents := TwoLeaves(order);
      assert LeafBelowRoot(t, sh, contents, 0, order) && |t.nodes[0].keys| < DocumentedKeys(order);
    } else {
      forall t, sh, contents, x | LeafBelowRoot(t, sh, contents, x, order)
        ensures |t.nodes[x].keys| >= DocumentedKeys(order)
      {
        At(t, sh, Tight, contents, x);
      }
    }
  }

  /** The documented least number of children, ceil(order / 2), is kept by every internal node but the root. */
  lemma ChildrenAsDocumented(t: Tree, sh: Shape, contents: map<int, Value>, x: Id)
    requires Inv(t, sh, Tight, contents) && x in t.nodes && !t.nodes[x].leaf
    ensures (x != t.root ==> |t.nodes[x].kids| >= (t.order + 1) / 2) && 2 <= |t.nodes[x].kids| <= t.order
  {
    At(t, sh, Tight, contents, x);
  }

  /** Leaves with q keys each fill every node below the root with q keys. */
  lemma {:induction false} SubtreeHolds(t: Tree, sh: Shape, contents: map<int, Value>, x: Id, q: nat)
    requires Inv(t, sh, Tight, contents) && x in t.nodes && x != t.root
    requires forall y :: LeafBelowRoot(t, sh, contents, y, t.order) ==> |t.nodes[y].keys| >= q
    ensures |KeysIn(contents, sh.span[x])| >= q
    decreases sh.level[x]
  {
    hide NodesOk, Holds;
    At(t, sh, Tight, contents, x);
    var n, s := t.nodes[x], sh.span[x];
    if n.leaf {
      assert LeafBelowRoot(t, sh, contents, x, t.order);
      DistinctCount(n.keys, KeysIn(contents, s));
    } else {
      assert KidOk(t, sh, Tight, x, 0);
      At(t, sh, Tight, contents, n.kids[0]);
      SubtreeHolds(t, sh, contents, n.kids[0], q);
      forall k | In(k, ChildSpan(n.keys, s, 0)) ensures In(k, s) { ChildSpans(n.keys, s, 0, 0, k); }
      SubsetSize(KeysIn(contents, sh.span[n.kids[0]]), KeysIn(contents, s));
    }
  }

  /** Where two leaves' worth of keys is lacking, some leaf below the root is short. */
  lemma ShortLeafExists(t: Tree, sh: Shape, contents: map<int, Value>, q: nat)
    requires Inv(t, sh, Tight, contents) && t.height >= 2 && |contents| < 2 * q
    ensures exists x :: LeafBelowRoot(t, sh, contents, x, t.order) && |t.nodes[x].keys| < q
  {
    hide NodesOk, Holds;
    At(t, sh, Tight, contents, t.root);
    var n, s := t.nodes[t.root], sh.span[t.root];
    if forall y :: LeafBelowRoot(t, sh, contents, y, t.order) ==> |t.nodes[y].keys| >= q {
      assert KidOk(t, sh, Tight, t.root, 0) && KidOk(t, sh, Tight, t.root, 1);
      At(t, sh, Tight, contents, n.kids[0]);
      At(t, sh, Tight, contents, n.kids[1]);
      SubtreeHolds(t, sh, contents, n.kids[0], q);
      SubtreeHolds(t, sh, contents, n.kids[1], q);
      var a, b := KeysIn(contents, sh.span[n.kids[0]]), KeysIn(contents, sh.span[n.kids[1]]);
      assert a !! b;
      SubsetSize(a + b, contents.Keys);
      assert false;
    }
  }

  /** A tree of one level holds fewer than `order` keys. */
  lemma OneLevelHolds(t: Tree, sh: Shape, contents: map<int, Value>)
    requires Inv(t, sh, Tight, contents) && t.height == 1
    ensures |contents| < t.order
  {
    hide NodesOk, Holds;
    At(t, sh, Tight, contents, t.root);
    forall k | k in contents ensures k in t.nodes[t.root].keys { assert In(k, sh.span[t.root]); }
    CountAtMost(t.nodes[t.root].keys, contents.Keys);
  }

  function Numbers(from: nat, n: nat): (r: seq<int>)
    ensures |r| == n && forall i :: 0 <= i < n ==> r[i] == from + i
  {
    seq(n, i => from + i)
  }

  /** A tree of two leaves, each as empty as the invariant allows. */
  lemma TwoLeaves(order: nat) returns (t: Tree, sh: Shape, contents: map<int, Value>)
    requires order >= 3
    ensures LeafBelowRoot(t, sh, contents, 0, order) && |t.nodes[0].keys| == (order - 1) / 2
  {
    var m := (order - 1) / 2;
    var left := Node(true, Numbers(0, m), [], Numbers(0, m), Some(1), None, Some(2));
    var right := Node(true, Numbers(m, m), [], Numbers(m, m), None, Some(0), Some(2));
    var root := Node(false, [m], [0, 1], [], None, None, None);
    t := Tree(order, map[0 := left, 1 := right, 2 := root], 2, 2);
    sh := Shape(map[0 := Span(None, Some(m)), 1 := Span(Some(m), None), 2 := Span(None, None)],
      map[0 := 0, 1 := 0, 2 := 1]);
    contents := map k | k in Numbers(0, 2 * m) :: k;
    TwoLeavesNodes(t, sh, m);
    TwoLeavesHold(t, sh, contents, m);
  }

  ghost predicate IsTwoLeaves(t: Tree, sh: Shape, m: nat) {
    && t.order >= 3 && m == (t.order - 1) / 2 && t.root == 2 && t.height == 2
    && t.nodes == map[0 := Node(true, Numbers(0, m), [], Numbers(0, m), Some(1), None, Some(2)),
                      1 := Node(true, Numbers(m, m), [], Numbers(m, m), None, Some(0), Some(2)),
                      2 := Node(false, [m], [0, 1], [], None, None, None)]
    && sh == Shape(map[0 := Span(None, Some(m)), 1 := Span(Some(m), None), 2 := Span(None, None)],
                   map[0 := 0, 1 := 0, 2 := 1])
  }

  lemma TwoLeavesNodes(t: Tree, sh: Shape, m: nat)
    requires IsTwoLeaves(t, sh, m)
    ensures Framed(t, sh, Tight) && NodesOk(t, sh, Tight)
  {
    assert KidOk(t, sh, Tight, 2, 0) && KidOk(t, sh, Tight, 2, 1);
    assert ChainOk(t, sh, 0) && ChainOk(t, sh, 1);
    assert t.nodes[2].kids[0] == 0 && t.nodes[2].kids[1] == 1;
    forall x | x in t.nodes
      ensures NodeOk(t, sh, Tight, x) && ParentOk(t, Tight, x) && SizeOk(t, Tight, x)
    {
    }
  }

  lemma TwoLeavesHold(t: Tree, sh: Shape, contents: map<int, Value>, m: nat)
    requires IsTwoLeaves(t, sh, m) && contents == map k | k in Numbers(0, 2 * m) :: k
    ensures Holds(t, sh, contents)
  {
    forall x | x in t.nodes && t.nodes[x].leaf
      ensures HoldsSpan(t, sh, contents, x)
    {
      forall i | 0 <= i < |t.nodes[x].keys|
        ensures t.nodes[x].keys[i] in contents
      {
        assert Numbers(0, 2 * m)[if x == 0 then i else m + i] == t.nodes[x].keys[i];
      }
      forall k | k in contents && In(k, sh.span[x])
        ensures k in t.nodes[x].keys
      {
        assert t.nodes[x].keys[if x == 0 then k else k - m] == k;
      }
    }
  }
}
