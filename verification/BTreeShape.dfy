/**
  The nodes of a B+tree (pysql/storage/btree.py) and the invariant that ties them together.
  Nodes live in an arena, a map from identifier to node, and refer to each other by identifier, as
  the source's nodes refer to each other by reference.  The invariant is local: every node is given
  a span, the half-open key range its subtree answers for, and a level, its distance from the leaves,
  and each clause speaks of one node and its neighbours only.
*/
module BTreeShape {
  import opened Common

  type Id = nat
  type Value = int     // what the index stores with a key; never inspected

  datatype Node = Node(leaf: bool, keys: seq<int>, kids: seq<Id>, vals: seq<Value>,
                          next: Option<Id>, prev: Option<Id>, parent: Option<Id>)

  datatype Tree = Tree(order: nat, nodes: map<Id, Node>, root: Id, height: nat)

  /** Keys k with lo <= k < hi; None is unbounded. */
  datatype Span = Span(lo: Option<int>, hi: Option<int>)

  datatype Shape = Shape(span: map<Id, Span>, level: map<Id, nat>)

  /** What may be out of order while a change is under way. */
  datatype Slack =
    | Tight
    | Odd(node: Id)                              // this node may hold too many or too few keys
    | Pending(left: Id, key: int, right: Id)     // right was split off left and has no place in a parent yet

  // ----- Key ranges -----

  predicate In(k: int, s: Span) {
    (s.lo.Some? ==> s.lo.value <= k) && (s.hi.Some? ==> k < s.hi.value)
  }

  predicate Inside(k: int, s: Span) {
    (s.lo.Some? ==> s.lo.value < k) && (s.hi.Some? ==> k < s.hi.value)
  }

  predicate Sorted(keys: seq<int>) {
    forall i, j :: 0 <= i < j < |keys| ==> keys[i] < keys[j]
  }

  predicate AllIn(keys: seq<int>, s: Span) {
    forall i :: 0 <= i < |keys| ==> In(keys[i], s)
  }

  predicate AllInside(keys: seq<int>, s: Span) {
    forall i :: 0 <= i < |keys| ==> Inside(keys[i], s)
  }

  /** The range left to child i of a node with these keys and this span. */
  function ChildSpan(keys: seq<int>, s: Span, i: nat): Span
    requires i <= |keys|
  {
    Span(if i == 0 then s.lo else Some(keys[i - 1]), if i == |keys| then s.hi else Some(keys[i]))
  }

  // ----- The invariant of one node -----

  function MinKeys(t: Tree): nat
    requires t.order >= 1
  {
    (t.order - 1) / 2
  }

  /** The span a parent sees: a node that was just split still stands for both halves. */
  function SeenSpan(sh: Shape, sl: Slack, x: Id): Span
    requires x in sh.span && (sl.Pending? ==> sl.right in sh.span)
  {
    if sl.Pending? && sl.left == x then Span(sh.span[x].lo, sh.span[sl.right].hi) else sh.span[x]
  }

  predicate KidOk(t: Tree, sh: Shape, sl: Slack, x: Id, i: nat)
    requires x in t.nodes && x in sh.span && x in sh.level
    requires t.nodes.Keys == sh.span.Keys == sh.level.Keys && (sl.Pending? ==> sl.right in t.nodes)
    requires i < |t.nodes[x].kids| && |t.nodes[x].kids| == |t.nodes[x].keys| + 1
  {
    var c := t.nodes[x].kids[i];
    && c in t.nodes && t.nodes[c].parent == Some(x)
    && sh.level[c] + 1 == sh.level[x]
    && !(sl.Pending? && sl.right == c)
    && SeenSpan(sh, sl, c) == ChildSpan(t.nodes[x].keys, sh.span[x], i)
  }

  predicate ChainOk(t: Tree, sh: Shape, x: Id)
    requires x in t.nodes && t.nodes.Keys == sh.span.Keys
  {
    var n, s := t.nodes[x], sh.span[x];
    && (n.next.None? ==> s.hi.None?)
    && (n.next.Some? ==>
          && n.next.value in t.nodes && t.nodes[n.next.value].leaf && t.nodes[n.next.value].prev == Some(x)
          && s.hi.Some? && sh.span[n.next.value].lo == s.hi)
    && (n.prev.None? ==> s.lo.None?)
    && (n.prev.Some? ==>
          n.prev.value in t.nodes && t.nodes[n.prev.value].leaf && t.nodes[n.prev.value].next == Some(x))
  }

  ghost predicate NodeOk(t: Tree, sh: Shape, sl: Slack, x: Id)
    requires x in t.nodes && t.nodes.Keys == sh.span.Keys == sh.level.Keys
    requires sl.Pending? ==> sl.right in t.nodes
  {
    var n, s := t.nodes[x], sh.span[x];
    && Sorted(n.keys) && (n.leaf <==> sh.level[x] == 0) && sh.level[x] < t.height
    && (n.leaf ==>
          && |n.vals| == |n.keys| && n.kids == []
          && AllIn(n.keys, s)
          && ChainOk(t, sh, x))
    && (!n.leaf ==>
          && |n.kids| == |n.keys| + 1 && n.vals == []
          && AllInside(n.keys, s)
          && (forall i :: 0 <= i < |n.kids| ==> KidOk(t, sh, sl, x, i)))
  }

  predicate ParentOk(t: Tree, sl: Slack, x: Id)
    requires x in t.nodes
  {
    var n := t.nodes[x];
    if x == t.root then n.parent.None?
    else if sl.Pending? && sl.right == x then true
    else n.parent.Some? && n.parent.value in t.nodes && x in t.nodes[n.parent.value].kids
  }

  predicate SizeOk(t: Tree, sl: Slack, x: Id)
    requires x in t.nodes && t.order >= 3
  {
    var n := t.nodes[x];
    || sl == Odd(x)
    || (&& |n.keys| < t.order
        && (x == t.root ==> n.leaf || |n.keys| >= 1)
        && (x != t.root ==> |n.keys| >= MinKeys(t)))
  }

  /** A leaf holds exactly the bindings of its span. */
  ghost predicate HoldsSpan(t: Tree, sh: Shape, contents: map<int, Value>, x: Id)
    requires x in t.nodes && x in sh.span
  {
    var n := t.nodes[x];
    && |n.vals| == |n.keys|
    && (forall i :: 0 <= i < |n.keys| ==> n.keys[i] in contents && contents[n.keys[i]] == n.vals[i])
    && (forall k :: k in contents && In(k, sh.span[x]) ==> k in n.keys)
  }

  // ----- The invariant of the tree -----

  ghost predicate Framed(t: Tree, sh: Shape, sl: Slack) {
    && t.order >= 3
    && t.nodes.Keys == sh.span.Keys == sh.level.Keys
    && t.root in t.nodes
    && (sl.Odd? ==> sl.node in t.nodes)
    && (sl.Pending? ==>
          && sl.left in t.nodes && sl.right in t.nodes && sl.left != sl.right && sl.right != t.root
          && sh.level[sl.left] == sh.level[sl.right]
          && sh.span[sl.left].hi == Some(sl.key) == sh.span[sl.right].lo
          && Inside(sl.key, Span(sh.span[sl.left].lo, sh.span[sl.right].hi))
          && MinKeys(t) <= |t.nodes[sl.left].keys|)
    && sh.level[t.root] + 1 == t.height
    && SeenSpan(sh, sl, t.root) == Span(None, None)
  }

  ghost predicate NodesOk(t: Tree, sh: Shape, sl: Slack)
    requires Framed(t, sh, sl)
  {
    forall x :: x in t.nodes ==> NodeOk(t, sh, sl, x) && ParentOk(t, sl, x) && SizeOk(t, sl, x)
  }

  ghost predicate Holds(t: Tree, sh: Shape, contents: map<int, Value>)
    requires t.nodes.Keys == sh.span.Keys
  {
    forall x :: x in t.nodes && t.nodes[x].leaf ==> HoldsSpan(t, sh, contents, x)
  }

  /** The tree is sound, up to the slack, and its leaves hold `contents`. */
  ghost predicate Inv(t: Tree, sh: Shape, sl: Slack, contents: map<int, Value>) {
    Framed(t, sh, sl) && NodesOk(t, sh, sl) && Holds(t, sh, contents)
  }

  // ----- Lists -----

  function InsertAt<T>(s: seq<T>, i: nat, x: T): (r: seq<T>)
    requires i <= |s|
    ensures |r| == |s| + 1
    ensures forall j :: 0 <= j < |r| ==> r[j] == if j < i then s[j] else if j == i then x else s[j - 1]
  {
    s[..i] + [x] + s[i..]
  }

  function RemoveAt<T>(s: seq<T>, i: nat): (r: seq<T>)
    requires i < |s|
    ensures |r| == |s| - 1
    ensures forall j :: 0 <= j < |r| ==> r[j] == if j < i then s[j] else s[j + 1]
  {
    s[..i] + s[i + 1..]
  }

  // ----- What a change leaves alone -----

  /** Node y itself is the same in both trees, but for its parent. */
  ghost predicate Untouched(t: Tree, sh: Shape, t': Tree, sh': Shape, y: Id)
    requires t.nodes.Keys == sh.span.Keys == sh.level.Keys && t'.nodes.Keys == sh'.span.Keys == sh'.level.Keys
    requires y in t.nodes
  {
    && y in t'.nodes && t'.nodes[y] == t.nodes[y].(parent := t'.nodes[y].parent)
    && sh'.span[y] == sh.span[y] && sh'.level[y] == sh.level[y] < t'.height
  }

  /** What leaf y's neighbours say of it is the same in both trees. */
  predicate NeighboursUntouched(t: Tree, sh: Shape, t': Tree, sh': Shape, y: Id)
    requires t.nodes.Keys == sh.span.Keys && t'.nodes.Keys == sh'.span.Keys && y in t.nodes
  {
    var n := t.nodes[y];
    && (n.next.Some? ==>
          && n.next.value in t.nodes && n.next.value in t'.nodes
          && t'.nodes[n.next.value].prev == t.nodes[n.next.value].prev
          && t'.nodes[n.next.value].leaf == t.nodes[n.next.value].leaf
          && sh'.span[n.next.value].lo == sh.span[n.next.value].lo)
    && (n.prev.Some? ==>
          && n.prev.value in t.nodes && n.prev.value in t'.nodes
          && t'.nodes[n.prev.value].next == t.nodes[n.prev.value].next
          && t'.nodes[n.prev.value].leaf == t.nodes[n.prev.value].leaf)
  }

  predicate KidUntouched(t: Tree, sh: Shape, sl: Slack, t': Tree, sh': Shape, sl': Slack, c: Id)
    requires t.nodes.Keys == sh.span.Keys == sh.level.Keys && t'.nodes.Keys == sh'.span.Keys == sh'.level.Keys
    requires (sl.Pending? ==> sl.right in t.nodes) && (sl'.Pending? ==> sl'.right in t'.nodes)
  {
    && c in t.nodes && c in t'.nodes && t'.nodes[c].parent == t.nodes[c].parent && sh'.level[c] == sh.level[c]
    && !(sl'.Pending? && sl'.right == c)
    && SeenSpan(sh', sl', c) == SeenSpan(sh, sl, c)
  }

  lemma FrameLeaf(t: Tree, sh: Shape, sl: Slack, t': Tree, sh': Shape, sl': Slack, y: Id)
    requires Framed(t, sh, sl) && Framed(t', sh', sl') && y in t.nodes && NodeOk(t, sh, sl, y) && t.nodes[y].leaf
    requires Untouched(t, sh, t', sh', y) && NeighboursUntouched(t, sh, t', sh', y)
    ensures NodeOk(t', sh', sl', y)
  {
    assert ChainOk(t, sh, y);
    assert ChainOk(t', sh', y);
  }

  lemma FrameInner(t: Tree, sh: Shape, sl: Slack, t': Tree, sh': Shape, sl': Slack, y: Id)
    requires Framed(t, sh, sl) && Framed(t', sh', sl') && y in t.nodes && NodeOk(t, sh, sl, y) && !t.nodes[y].leaf
    requires Untouched(t, sh, t', sh', y)
    requires forall i :: 0 <= i < |t.nodes[y].kids| ==> KidUntouched(t, sh, sl, t', sh', sl', t.nodes[y].kids[i])
    ensures NodeOk(t', sh', sl', y)
  {
    var n := t.nodes[y];
    forall i | 0 <= i < |n.kids|
      ensures KidOk(t', sh', sl', y, i)
    {
      assert KidOk(t, sh, sl, y, i);
      assert KidUntouched(t, sh, sl, t', sh', sl', n.kids[i]);
    }
  }

  lemma FrameNode(t: Tree, sh: Shape, sl: Slack, t': Tree, sh': Shape, sl': Slack, y: Id)
    requires Framed(t, sh, sl) && Framed(t', sh', sl') && y in t.nodes && NodeOk(t, sh, sl, y)
    requires Untouched(t, sh, t', sh', y)
    requires t.nodes[y].leaf ==> NeighboursUntouched(t, sh, t', sh', y)
    requires forall i :: 0 <= i < |t.nodes[y].kids| ==> KidUntouched(t, sh, sl, t', sh', sl', t.nodes[y].kids[i])
    ensures NodeOk(t', sh', sl', y)
  {
    if t.nodes[y].leaf {
      FrameLeaf(t, sh, sl, t', sh', sl', y);
    } else {
      FrameInner(t, sh, sl, t', sh', sl', y);
    }
  }

  /** Only its parent has x as a child. */
  lemma OnlyParent(t: Tree, sh: Shape, sl: Slack, y: Id, x: Id)
    requires Framed(t, sh, sl) && y in t.nodes && NodeOk(t, sh, sl, y) && x in t.nodes[y].kids
    ensures x in t.nodes && t.nodes[x].parent == Some(y) && !t.nodes[y].leaf && x != y
  {
    var i :| 0 <= i < |t.nodes[y].kids| && t.nodes[y].kids[i] == x;
    assert KidOk(t, sh, sl, y, i);
  }

  // ----- Facts about one node -----

  lemma KeysAgree(t: Tree, sh: Shape, sl: Slack)
    requires Framed(t, sh, sl)
    ensures t.order >= 3 && t.nodes.Keys == sh.span.Keys == sh.level.Keys
    ensures (sl.Odd? ==> sl.node in t.nodes) && (sl.Pending? ==> sl.left in t.nodes && sl.right in t.nodes)
  {
  }

  lemma At(t: Tree, sh: Shape, sl: Slack, contents: map<int, Value>, x: Id)
    requires Inv(t, sh, sl, contents) && x in t.nodes
    ensures NodeOk(t, sh, sl, x) && ParentOk(t, sl, x) && SizeOk(t, sl, x)
    ensures t.nodes[x].leaf ==> HoldsSpan(t, sh, contents, x)
  {
  }

  /** A leaf's place in the chain. */
  lemma Chained(t: Tree, sh: Shape, sl: Slack, contents: map<int, Value>, y: Id)
    requires Inv(t, sh, sl, contents) && y in t.nodes && t.nodes[y].leaf
    ensures ChainOk(t, sh, y)
  {
    hide Holds, NodesOk;
    At(t, sh, sl, contents, y);
  }

  /** Where a node other than the root hangs. */
  lemma Placed(t: Tree, sh: Shape, sl: Slack, contents: map<int, Value>, x: Id) returns (p: Id, i: nat)
    requires !sl.Pending? && Inv(t, sh, sl, contents) && x in t.nodes && x != t.root
    ensures t.nodes[x].parent == Some(p) && p in t.nodes && !t.nodes[p].leaf
    ensures i < |t.nodes[p].kids| == |t.nodes[p].keys| + 1 && t.nodes[p].kids[i] == x
    ensures sh.level[x] + 1 == sh.level[p] < t.height && sh.span[x] == ChildSpan(t.nodes[p].keys, sh.span[p], i)
  {
    At(t, sh, sl, contents, x);
    p := t.nodes[x].parent.value;
    At(t, sh, sl, contents, p);
    i :| i < |t.nodes[p].kids| && t.nodes[p].kids[i] == x;
    assert KidOk(t, sh, sl, p, i);
  }

  /** The spans of a node's children lie within its own and are disjoint. */
  lemma ChildSpans(keys: seq<int>, s: Span, i: nat, j: nat, k: int)
    requires Sorted(keys) && i <= |keys| && j <= |keys| && In(k, ChildSpan(keys, s, i))
    requires AllInside(keys, s)
    ensures In(k, s)
    ensures In(k, ChildSpan(keys, s, j)) ==> i == j
  {
    if i < j {
      assert keys[i] <= keys[j - 1];
    } else if j < i {
      assert keys[j] <= keys[i - 1];
    }
  }

  lemma NodeKeys(t: Tree, sh: Shape, sl: Slack, contents: map<int, Value>, x: Id)
    requires !sl.Pending? && Inv(t, sh, sl, contents) && x in t.nodes && !t.nodes[x].leaf
    ensures Sorted(t.nodes[x].keys) && |t.nodes[x].kids| == |t.nodes[x].keys| + 1
    ensures AllInside(t.nodes[x].keys, sh.span[x])
  {
    At(t, sh, sl, contents, x);
  }

  /** Distinct nodes of one level have disjoint spans. */
  lemma {:induction false} SpansDisjoint(t: Tree, sh: Shape, sl: Slack, contents: map<int, Value>, x: Id, y: Id, k: int)
    requires !sl.Pending? && Inv(t, sh, sl, contents) && x in t.nodes && y in t.nodes
    requires sh.level[x] == sh.level[y] < t.height
    requires In(k, sh.span[x]) && In(k, sh.span[y])
    ensures x == y
    decreases t.height - sh.level[x]
  {
    hide NodesOk, Holds;
    if x == t.root {
      if y != t.root { var q, j := Placed(t, sh, sl, contents, y); }
    } else if y == t.root {
      var p, i := Placed(t, sh, sl, contents, x);
    } else {
      var p, i := Placed(t, sh, sl, contents, x);
      var q, j := Placed(t, sh, sl, contents, y);
      NodeKeys(t, sh, sl, contents, p);
      NodeKeys(t, sh, sl, contents, q);
      ChildSpans(t.nodes[p].keys, sh.span[p], i, i, k);
      ChildSpans(t.nodes[q].keys, sh.span[q], j, j, k);
      SpansDisjoint(t, sh, sl, contents, p, q, k);
      ChildSpans(t.nodes[p].keys, sh.span[p], i, j, k);
    }
  }
}
