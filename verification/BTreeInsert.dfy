/** The changes an insertion makes, as functions on trees, and the proofs that each keeps the invariant. */
module BTreeInsert {
  import opened Common
  import opened BTreeShape

  /** A node that is no longer odd. */
  lemma Tighten(t: Tree, sh: Shape, x: Id, contents: map<int, Value>)
    requires Inv(t, sh, Odd(x), contents) && SizeOk(t, Tight, x)
    ensures Inv(t, sh, Tight, contents)
  {
    forall y | y in t.nodes
      ensures NodeOk(t, sh, Tight, y) && ParentOk(t, Tight, y) && SizeOk(t, Tight, y)
    {
      SameButSlack(t, sh, Odd(x), Tight, y);
    }
  }

  lemma SameButSlack(t: Tree, sh: Shape, sl: Slack, sl': Slack, y: Id)
    requires Framed(t, sh, sl) && y in t.nodes && NodeOk(t, sh, sl, y) && !sl.Pending? && !sl'.Pending?
    requires sl'.Odd? ==> sl'.node in t.nodes
    ensures NodeOk(t, sh, sl', y)
  {
    var n := t.nodes[y];
    if !n.leaf {
      forall i | 0 <= i < |n.kids| ensures KidOk(t, sh, sl', y, i) { assert KidOk(t, sh, sl, y, i); }
    }
  }

  // ----- A binding added to a leaf -----

  function AddBinding(t: Tree, x: Id, i: nat, k: int, v: Value): Tree
    requires x in t.nodes && i <= |t.nodes[x].keys| == |t.nodes[x].vals|
  {
    var n := t.nodes[x];
    t.(nodes := t.nodes[x := n.(keys := InsertAt(n.keys, i, k), vals := InsertAt(n.vals, i, v))])
  }

  /** i is where k goes in a sorted list that does not hold it. */
  predicate GoesAt(keys: seq<int>, i: nat, k: int) {
    i <= |keys| && (forall j :: 0 <= j < i ==> keys[j] < k) && (forall j :: i <= j < |keys| ==> k < keys[j])
  }

  lemma AddKeepsNodes(t: Tree, sh: Shape, contents: map<int, Value>, x: Id, i: nat, k: int, v: Value)
    requires Inv(t, sh, Tight, contents) && x in t.nodes && t.nodes[x].leaf && In(k, sh.span[x])
    requires |t.nodes[x].keys| == |t.nodes[x].vals| && GoesAt(t.nodes[x].keys, i, k)
    ensures Framed(AddBinding(t, x, i, k, v), sh, Odd(x)) && NodesOk(AddBinding(t, x, i, k, v), sh, Odd(x))
  {
    hide Holds, NodesOk, NodeOk;
    var t' := AddBinding(t, x, i, k, v);
    forall y | y in t'.nodes
      ensures NodeOk(t', sh, Odd(x), y) && ParentOk(t', Odd(x), y) && SizeOk(t', Odd(x), y)
    {
      At(t, sh, Tight, contents, y);
      if y == x {
        AddToLeaf(t, sh, x, i, k, v);
      } else {
        AddElsewhere(t, sh, x, i, k, v, y);
      }
    }
    NodesAll(t', sh, Odd(x));
  }

  lemma AddToLeaf(t: Tree, sh: Shape, x: Id, i: nat, k: int, v: Value)
    requires Framed(t, sh, Tight) && x in t.nodes && t.nodes[x].leaf && In(k, sh.span[x]) && NodeOk(t, sh, Tight, x)
    requires |t.nodes[x].keys| == |t.nodes[x].vals| && GoesAt(t.nodes[x].keys, i, k)
    ensures NodeOk(AddBinding(t, x, i, k, v), sh, Odd(x), x)
  {
    var t' := AddBinding(t, x, i, k, v);
    assert ChainOk(t, sh, x);
    assert ChainOk(t', sh, x);
    assert Sorted(t'.nodes[x].keys);
  }

  lemma AddElsewhere(t: Tree, sh: Shape, x: Id, i: nat, k: int, v: Value, y: Id)
    requires Framed(t, sh, Tight) && x in t.nodes && y in t.nodes && y != x && NodeOk(t, sh, Tight, y)
    requires |t.nodes[x].keys| == |t.nodes[x].vals| && i <= |t.nodes[x].keys|
    ensures NodeOk(AddBinding(t, x, i, k, v), sh, Odd(x), y)
  {
    var n := t.nodes[y];
    var t' := AddBinding(t, x, i, k, v);
    forall j | 0 <= j < |n.kids|
      ensures KidUntouched(t, sh, Tight, t', sh, Odd(x), n.kids[j])
    {
      assert KidOk(t, sh, Tight, y, j);
    }
    FrameNode(t, sh, Tight, t', sh, Odd(x), y);
  }

  lemma AddHolds(t: Tree, sh: Shape, contents: map<int, Value>, x: Id, i: nat, k: int, v: Value)
    requires Inv(t, sh, Tight, contents) && x in t.nodes && t.nodes[x].leaf && In(k, sh.span[x])
    requires |t.nodes[x].keys| == |t.nodes[x].vals| && GoesAt(t.nodes[x].keys, i, k)
    ensures Holds(AddBinding(t, x, i, k, v), sh, contents[k := v])
  {
    hide NodesOk, Holds, HoldsSpan, NodeOk;
    var t' := AddBinding(t, x, i, k, v);
    At(t, sh, Tight, contents, x);
    forall y | y in t'.nodes && t'.nodes[y].leaf
      ensures HoldsSpan(t', sh, contents[k := v], y)
    {
      At(t, sh, Tight, contents, y);
      if y == x {
        AddHeld(t, sh, contents, x, i, k, v);
      } else {
        LeafLevels(t, sh, Tight, contents, x, y);
        if In(k, sh.span[y]) {
          SpansDisjoint(t, sh, Tight, contents, x, y, k);
        }
        LeafKeys(t, sh, Tight, contents, y);
        AddNotHeld(t, sh, contents, x, i, k, v, y);
      }
    }
    HoldsAll(t', sh, contents[k := v]);
  }

  lemma LeafKeys(t: Tree, sh: Shape, sl: Slack, contents: map<int, Value>, x: Id)
    requires Inv(t, sh, sl, contents) && x in t.nodes && t.nodes[x].leaf
    ensures Sorted(t.nodes[x].keys) && |t.nodes[x].keys| == |t.nodes[x].vals|
    ensures AllIn(t.nodes[x].keys, sh.span[x])
  {
    At(t, sh, sl, contents, x);
  }

  lemma LeafLevels(t: Tree, sh: Shape, sl: Slack, contents: map<int, Value>, x: Id, y: Id)
    requires Inv(t, sh, sl, contents) && x in t.nodes && y in t.nodes && t.nodes[x].leaf && t.nodes[y].leaf
    ensures sh.level[x] == sh.level[y] == 0 < t.height
  {
    hide NodesOk, Holds;
    At(t, sh, sl, contents, x);
    At(t, sh, sl, contents, y);
  }

  lemma AddHeld(t: Tree, sh: Shape, contents: map<int, Value>, x: Id, i: nat, k: int, v: Value)
    requires x in t.nodes && x in sh.span && HoldsSpan(t, sh, contents, x) && GoesAt(t.nodes[x].keys, i, k)
    ensures HoldsSpan(AddBinding(t, x, i, k, v), sh, contents[k := v], x)
  {
    var n, n' := t.nodes[x], AddBinding(t, x, i, k, v).nodes[x];
    forall j | 0 <= j < |n'.keys|
      ensures n'.keys[j] in contents[k := v] && contents[k := v][n'.keys[j]] == n'.vals[j]
    {
      if j < i { assert n'.keys[j] == n.keys[j] < k; } else if j > i { assert n'.keys[j] == n.keys[j - 1] > k; }
    }
    forall q | q in contents[k := v] && In(q, sh.span[x])
      ensures q in n'.keys
    {
      if q == k {
        assert n'.keys[i] == k;
      } else {
        var j :| 0 <= j < |n.keys| && n.keys[j] == q;
        assert n'.keys[if j < i then j else j + 1] == q;
      }
    }
  }

  lemma AddNotHeld(t: Tree, sh: Shape, contents: map<int, Value>, x: Id, i: nat, k: int, v: Value, y: Id)
    requires x in t.nodes && y in t.nodes && y in sh.span && y != x && HoldsSpan(t, sh, contents, y)
    requires i <= |t.nodes[x].keys| == |t.nodes[x].vals| && !In(k, sh.span[y])
    requires AllIn(t.nodes[y].keys, sh.span[y])
    ensures HoldsSpan(AddBinding(t, x, i, k, v), sh, contents[k := v], y)
  {
  }

  lemma HoldsAll(t: Tree, sh: Shape, contents: map<int, Value>)
    requires t.nodes.Keys == sh.span.Keys
    requires forall y :: y in t.nodes && t.nodes[y].leaf ==> HoldsSpan(t, sh, contents, y)
    ensures Holds(t, sh, contents)
  {
  }

  lemma AddKeeps(t: Tree, sh: Shape, contents: map<int, Value>, x: Id, i: nat, k: int, v: Value)
    requires Inv(t, sh, Tight, contents) && x in t.nodes && t.nodes[x].leaf && In(k, sh.span[x])
    requires |t.nodes[x].keys| == |t.nodes[x].vals| && GoesAt(t.nodes[x].keys, i, k)
    ensures Inv(AddBinding(t, x, i, k, v), sh, Odd(x), contents[k := v])
  {
    hide NodesOk, Framed, Holds, GoesAt;
    AddKeepsNodes(t, sh, contents, x, i, k, v);
    AddHolds(t, sh, contents, x, i, k, v);
  }

  // ----- A leaf split in two -----

  function SplitLeaf(t: Tree, x: Id, r: Id): Tree
    requires x in t.nodes && |t.nodes[x].keys| == |t.nodes[x].vals|
    requires t.nodes[x].next.Some? ==> t.nodes[x].next.value in t.nodes
  {
    var n := t.nodes[x];
    var mid := (|n.keys| + 1) / 2;
    var right := Node(true, n.keys[mid..], [], n.vals[mid..], n.next, Some(x), None);
    var nodes := t.nodes[x := n.(keys := n.keys[..mid], vals := n.vals[..mid], next := Some(r))][r := right];
    t.(nodes := if n.next.Some? then nodes[n.next.value := nodes[n.next.value].(prev := Some(r))] else nodes)
  }

  /** The shape after x is split at `key`, its upper part going to r. */
  function SplitShape(sh: Shape, x: Id, key: int, r: Id): Shape
    requires x in sh.span && x in sh.level
  {
    Shape(sh.span[x := Span(sh.span[x].lo, Some(key))][r := Span(Some(key), sh.span[x].hi)], sh.level[r := sh.level[x]])
  }

  ghost predicate FullLeaf(t: Tree, sh: Shape, contents: map<int, Value>, x: Id, r: Id) {
    && Inv(t, sh, Odd(x), contents) && t.nodes[x].leaf && |t.nodes[x].keys| == |t.nodes[x].vals| == t.order
    && r !in t.nodes
    && (t.nodes[x].next.Some? ==> t.nodes[x].next.value in t.nodes && t.nodes[x].next.value != x)
  }

  /** A leaf is not its own neighbour. */
  lemma NextIsOther(t: Tree, sh: Shape, sl: Slack, contents: map<int, Value>, x: Id)
    requires Inv(t, sh, sl, contents) && x in t.nodes && t.nodes[x].leaf && |t.nodes[x].keys| > 0
    ensures t.nodes[x].next.Some? ==> t.nodes[x].next.value in t.nodes && t.nodes[x].next.value != x
    ensures t.nodes[x].prev.Some? ==> t.nodes[x].prev.value in t.nodes && t.nodes[x].prev.value != x
    ensures |t.nodes[x].keys| == |t.nodes[x].vals|
  {
    At(t, sh, sl, contents, x);
    assert ChainOk(t, sh, x) && In(t.nodes[x].keys[0], sh.span[x]);
  }

  lemma SplitLeafFramed(t: Tree, sh: Shape, contents: map<int, Value>, x: Id, r: Id)
    requires FullLeaf(t, sh, contents, x, r)
    ensures var key := t.nodes[x].keys[(t.order + 1) / 2];
      Framed(SplitLeaf(t, x, r), SplitShape(sh, x, key, r), Pending(x, key, r))
  {
    hide Holds, NodesOk, SplitLeaf, Sorted, AllIn;
    LeafKeys(t, sh, Odd(x), contents, x);
    SplitKeys(t.nodes[x].keys, sh.span[x], (t.order + 1) / 2);
    SplitLeafAt(t, x, r);
  }

  /** What SplitLeaf does, node by node. */
  lemma SplitLeafAt(t: Tree, x: Id, r: Id)
    requires x in t.nodes && r !in t.nodes && |t.nodes[x].keys| == |t.nodes[x].vals|
    requires t.nodes[x].next.Some? ==> t.nodes[x].next.value in t.nodes && t.nodes[x].next.value != x
    ensures var n, t' := t.nodes[x], SplitLeaf(t, x, r);
      var mid := (|n.keys| + 1) / 2;
      && t' == t.(nodes := t'.nodes) && t'.nodes.Keys == t.nodes.Keys + {r}
      && t'.nodes[x] == n.(keys := n.keys[..mid], vals := n.vals[..mid], next := Some(r))
      && t'.nodes[r] == Node(true, n.keys[mid..], [], n.vals[mid..], n.next, Some(x), None)
      && (forall y :: y in t.nodes && y != x ==>
            t'.nodes[y] == if n.next == Some(y) then t.nodes[y].(prev := Some(r)) else t.nodes[y])
  {
  }

  lemma SplitLeafNodes(t: Tree, sh: Shape, contents: map<int, Value>, x: Id, r: Id)
    requires FullLeaf(t, sh, contents, x, r)
    ensures var key := t.nodes[x].keys[(t.order + 1) / 2];
      Framed(SplitLeaf(t, x, r), SplitShape(sh, x, key, r), Pending(x, key, r))
        && NodesOk(SplitLeaf(t, x, r), SplitShape(sh, x, key, r), Pending(x, key, r))
  {
    hide Holds, NodesOk;
    SplitLeafFramed(t, sh, contents, x, r);
    var key := t.nodes[x].keys[(t.order + 1) / 2];
    var t', sh', sl' := SplitLeaf(t, x, r), SplitShape(sh, x, key, r), Pending(x, key, r);
    forall y | y in t'.nodes
      ensures NodeOk(t', sh', sl', y) && ParentOk(t', sl', y) && SizeOk(t', sl', y)
    {
      SplitLeafNode(t, sh, contents, x, r, y);
    }
    NodesAll(t', sh', sl');
  }

  lemma NodesAll(t: Tree, sh: Shape, sl: Slack)
    requires Framed(t, sh, sl)
    requires forall x :: x in t.nodes ==> NodeOk(t, sh, sl, x) && ParentOk(t, sl, x) && SizeOk(t, sl, x)
    ensures NodesOk(t, sh, sl)
  {
  }

  lemma SplitLeafNode(t: Tree, sh: Shape, contents: map<int, Value>, x: Id, r: Id, y: Id)
    requires FullLeaf(t, sh, contents, x, r) && y in SplitLeaf(t, x, r).nodes
    requires var key := t.nodes[x].keys[(t.order + 1) / 2];
      Framed(SplitLeaf(t, x, r), SplitShape(sh, x, key, r), Pending(x, key, r))
    ensures var key := t.nodes[x].keys[(t.order + 1) / 2];
      var t', sh', sl' := SplitLeaf(t, x, r), SplitShape(sh, x, key, r), Pending(x, key, r);
      NodeOk(t', sh', sl', y) && ParentOk(t', sl', y) && SizeOk(t', sl', y)
  {
    hide Holds, NodesOk, NodeOk, SplitLeaf, SizeOk, Framed;
    KeysAgree(t, sh, Odd(x));
    SplitLeafAt(t, x, r);
    SplitLeafSize(t, sh, contents, x, r, y);
    if y == x || y == r {
      SplitLeafHalf(t, sh, contents, x, r, y);
    } else {
      SplitLeafFar(t, sh, contents, x, r, y);
    }
    if y != r { At(t, sh, Odd(x), contents, y); }
  }

  lemma SplitLeafSize(t: Tree, sh: Shape, contents: map<int, Value>, x: Id, r: Id, y: Id)
    requires FullLeaf(t, sh, contents, x, r) && y in SplitLeaf(t, x, r).nodes
    requires var key := t.nodes[x].keys[(t.order + 1) / 2];
      Framed(SplitLeaf(t, x, r), SplitShape(sh, x, key, r), Pending(x, key, r))
    ensures SizeOk(SplitLeaf(t, x, r), Pending(x, t.nodes[x].keys[(t.order + 1) / 2], r), y)
  {
    hide Holds, NodesOk, NodeOk, SplitLeaf, ParentOk;
    SplitLeafAt(t, x, r);
    if y != r { At(t, sh, Odd(x), contents, y); }
  }

  /** Splitting a sorted list that lies in a span splits the span. */
  lemma SplitKeys(keys: seq<int>, s: Span, mid: nat)
    requires Sorted(keys) && AllIn(keys, s) && 0 < mid < |keys|
    ensures Sorted(keys[..mid]) && AllIn(keys[..mid], Span(s.lo, Some(keys[mid])))
    ensures Sorted(keys[mid..]) && AllIn(keys[mid..], Span(Some(keys[mid]), s.hi))
    ensures Inside(keys[mid], s)
  {
    assert In(keys[0], s) && In(keys[mid], s) && keys[0] < keys[mid];
    forall j | mid <= j < |keys|
      ensures In(keys[j], Span(Some(keys[mid]), s.hi))
    {
      assert In(keys[j], s);
    }
    assert AllIn(keys[mid..], Span(Some(keys[mid]), s.hi));
  }

  lemma SplitLeafHalf(t: Tree, sh: Shape, contents: map<int, Value>, x: Id, r: Id, y: Id)
    requires FullLeaf(t, sh, contents, x, r) && (y == x || y == r)
    requires y in SplitLeaf(t, x, r).nodes
    requires var key := t.nodes[x].keys[(t.order + 1) / 2];
      Framed(SplitLeaf(t, x, r), SplitShape(sh, x, key, r), Pending(x, key, r))
    ensures var key := t.nodes[x].keys[(t.order + 1) / 2];
      var t', sh', sl' := SplitLeaf(t, x, r), SplitShape(sh, x, key, r), Pending(x, key, r);
      NodeOk(t', sh', sl', y)
  {
    hide Holds, NodesOk, SplitLeaf, Sorted, AllIn, AllInside, KidOk, HoldsSpan, ParentOk, SizeOk, ChainOk;
    SplitLeafAt(t, x, r);
    At(t, sh, Odd(x), contents, x);
    SplitKeys(t.nodes[x].keys, sh.span[x], (t.order + 1) / 2);
    SplitLeafChain(t, sh, contents, x, r, y);
  }

  lemma SplitLeafChain(t: Tree, sh: Shape, contents: map<int, Value>, x: Id, r: Id, y: Id)
    requires FullLeaf(t, sh, contents, x, r) && y in SplitLeaf(t, x, r).nodes && (y == r || t.nodes[y].leaf)
    requires var key := t.nodes[x].keys[(t.order + 1) / 2];
      Framed(SplitLeaf(t, x, r), SplitShape(sh, x, key, r), Pending(x, key, r))
    ensures ChainOk(SplitLeaf(t, x, r), SplitShape(sh, x, t.nodes[x].keys[(t.order + 1) / 2], r), y)
  {
    hide Holds, NodesOk, NodeOk, SplitLeaf, ChainOk, Framed;
    KeysAgree(t, sh, Odd(x));
    SplitLeafAt(t, x, r);
    var key := t.nodes[x].keys[(t.order + 1) / 2];
    Chained(t, sh, Odd(x), contents, x);
    if y != r { Chained(t, sh, Odd(x), contents, y); }
    At(t, sh, Odd(x), contents, x);
    ChainOpens(t, sh, SplitLeaf(t, x, r), SplitShape(sh, x, key, r), x, r, y);
  }

  /** The chain takes in r after x. */
  lemma ChainOpens(t: Tree, sh: Shape, t': Tree, sh': Shape, x: Id, r: Id, y: Id)
    requires t.nodes.Keys == sh.span.Keys && t'.nodes.Keys == sh'.span.Keys == t.nodes.Keys + {r} && r !in t.nodes
    requires x in t.nodes && t.nodes[x].leaf && ChainOk(t, sh, x) && t.nodes[x].next != Some(x)
    requires y in t'.nodes && (y == r || (t.nodes[y].leaf && ChainOk(t, sh, y)))
    requires t'.nodes[x].leaf && t'.nodes[x].next == Some(r) && t'.nodes[x].prev == t.nodes[x].prev
    requires t'.nodes[r].leaf && t'.nodes[r].next == t.nodes[x].next && t'.nodes[r].prev == Some(x)
    requires forall z :: z in t.nodes && z != x && t.nodes[z].leaf ==>
      && t'.nodes[z].leaf && t'.nodes[z].next == t.nodes[z].next
      && t'.nodes[z].prev == if t.nodes[x].next == Some(z) then Some(r) else t.nodes[z].prev
    requires sh'.span[x].lo == sh.span[x].lo && sh'.span[x].hi.Some? && sh'.span[x].hi == sh'.span[r].lo
    requires sh'.span[r].hi == sh.span[x].hi
    requires forall z :: z in t.nodes && z != x ==> sh'.span[z] == sh.span[z]
    ensures ChainOk(t', sh', y)
  {
  }

  lemma SplitLeafFar(t: Tree, sh: Shape, contents: map<int, Value>, x: Id, r: Id, y: Id)
    requires FullLeaf(t, sh, contents, x, r) && y in t.nodes && y != x
    requires var key := t.nodes[x].keys[(t.order + 1) / 2];
      Framed(SplitLeaf(t, x, r), SplitShape(sh, x, key, r), Pending(x, key, r))
    ensures var key := t.nodes[x].keys[(t.order + 1) / 2];
      NodeOk(SplitLeaf(t, x, r), SplitShape(sh, x, key, r), Pending(x, key, r), y)
  {
    hide Holds, NodesOk, NodeOk, SplitLeaf;
    At(t, sh, Odd(x), contents, y);
    Chained(t, sh, Odd(x), contents, x);
    if t.nodes[y].leaf {
      SplitLeafFarLeaf(t, sh, contents, x, r, y);
    } else {
      SplitLeafFarInner(t, sh, contents, x, r, y);
    }
  }

  lemma SplitLeafFarLeaf(t: Tree, sh: Shape, contents: map<int, Value>, x: Id, r: Id, y: Id)
    requires FullLeaf(t, sh, contents, x, r) && y in t.nodes && y != x && t.nodes[y].leaf && NodeOk(t, sh, Odd(x), y)
    requires var key := t.nodes[x].keys[(t.order + 1) / 2];
      Framed(SplitLeaf(t, x, r), SplitShape(sh, x, key, r), Pending(x, key, r))
    ensures var key := t.nodes[x].keys[(t.order + 1) / 2];
      NodeOk(SplitLeaf(t, x, r), SplitShape(sh, x, key, r), Pending(x, key, r), y)
  {
    hide Holds, NodesOk, SplitLeaf, HoldsSpan, Sorted, AllIn, AllInside, KidOk, ParentOk, SizeOk, ChainOk;
    SplitLeafAt(t, x, r);
    SplitLeafChain(t, sh, contents, x, r, y);
  }

  lemma SplitLeafFarInner(t: Tree, sh: Shape, contents: map<int, Value>, x: Id, r: Id, y: Id)
    requires FullLeaf(t, sh, contents, x, r) && y in t.nodes && y != x && !t.nodes[y].leaf
    requires NodeOk(t, sh, Odd(x), y) && t.nodes[x].next != Some(y)
    requires var key := t.nodes[x].keys[(t.order + 1) / 2];
      Framed(SplitLeaf(t, x, r), SplitShape(sh, x, key, r), Pending(x, key, r))
    ensures var key := t.nodes[x].keys[(t.order + 1) / 2];
      NodeOk(SplitLeaf(t, x, r), SplitShape(sh, x, key, r), Pending(x, key, r), y)
  {
    hide Holds, NodesOk, NodeOk, SplitLeaf, Framed;
    KeysAgree(t, sh, Odd(x));
    SplitLeafAt(t, x, r);
    var key := t.nodes[x].keys[(t.order + 1) / 2];
    InnerStays(t, sh, SplitLeaf(t, x, r), SplitShape(sh, x, key, r), x, key, r, y);
  }

  /** An internal node whose children keep their parents is sound after node x is split. */
  lemma InnerStays(t: Tree, sh: Shape, t': Tree, sh': Shape, x: Id, key: int, r: Id, y: Id)
    requires Framed(t, sh, Odd(x)) && Framed(t', sh', Pending(x, key, r)) && t'.height == t.height
    requires y in t.nodes && y in t'.nodes && y != x && !t.nodes[y].leaf && NodeOk(t, sh, Odd(x), y)
    requires r !in t.nodes && sh' == SplitShape(sh, x, key, r)
    requires t'.nodes[y] == t.nodes[y].(parent := t'.nodes[y].parent)
    requires forall c :: c in t.nodes[y].kids && c in t.nodes ==>
      c in t'.nodes && t'.nodes[c].parent == t.nodes[c].parent
    ensures NodeOk(t', sh', Pending(x, key, r), y)
  {
    hide Sorted, AllIn, AllInside, ChildSpan, ChainOk, Inside;
    forall i | 0 <= i < |t.nodes[y].kids|
      ensures KidUntouched(t, sh, Odd(x), t', sh', Pending(x, key, r), t.nodes[y].kids[i])
    {
      assert KidOk(t, sh, Odd(x), y, i);
    }
    FrameInner(t, sh, Odd(x), t', sh', Pending(x, key, r), y);
  }

  lemma SplitLeafHolds(t: Tree, sh: Shape, contents: map<int, Value>, x: Id, r: Id)
    requires FullLeaf(t, sh, contents, x, r)
    ensures var key := t.nodes[x].keys[(t.order + 1) / 2];
      Holds(SplitLeaf(t, x, r), SplitShape(sh, x, key, r), contents)
  {
    hide NodesOk, Holds, HoldsSpan, SplitLeaf;
    SplitLeafAt(t, x, r);
    var key := t.nodes[x].keys[(t.order + 1) / 2];
    var t', sh' := SplitLeaf(t, x, r), SplitShape(sh, x, key, r);
    forall y | y in t'.nodes && t'.nodes[y].leaf
      ensures HoldsSpan(t', sh', contents, y)
    {
      if y == x || y == r {
        SplitLeafHeld(t, sh, contents, x, r, y);
      } else {
        At(t, sh, Odd(x), contents, y);
        SameHeld(t, sh, t', sh', contents, y);
      }
    }
    HoldsAll(t', sh', contents);
  }

  lemma SameHeld(t: Tree, sh: Shape, t': Tree, sh': Shape, contents: map<int, Value>, y: Id)
    requires y in t.nodes && y in t'.nodes && y in sh.span && y in sh'.span && HoldsSpan(t, sh, contents, y)
    requires t'.nodes[y].keys == t.nodes[y].keys && t'.nodes[y].vals == t.nodes[y].vals && sh'.span[y] == sh.span[y]
    ensures HoldsSpan(t', sh', contents, y)
  {
  }

  lemma SplitLeafHeld(t: Tree, sh: Shape, contents: map<int, Value>, x: Id, r: Id, y: Id)
    requires FullLeaf(t, sh, contents, x, r) && (y == x || y == r) && y in SplitLeaf(t, x, r).nodes
    ensures var key := t.nodes[x].keys[(t.order + 1) / 2];
      HoldsSpan(SplitLeaf(t, x, r), SplitShape(sh, x, key, r), contents, y)
  {
    hide NodesOk, Holds, SplitLeaf, Sorted, AllIn, In, Inside, Framed;
    KeysAgree(t, sh, Odd(x));
    SplitLeafAt(t, x, r);
    LeafKeys(t, sh, Odd(x), contents, x);
    At(t, sh, Odd(x), contents, x);
    var n, mid := t.nodes[x], (t.order + 1) / 2;
    var t', sh' := SplitLeaf(t, x, r), SplitShape(sh, x, n.keys[mid], r);
    SplitKeys(n.keys, sh.span[x], mid);
    forall k | k in contents && In(k, sh'.span[y])
      ensures k in t'.nodes[y].keys
    {
      HalfSpan(sh.span[x], n.keys[mid], k);
      KeyInHalf(n.keys, mid, k);
    }
  }

  lemma HalfSpan(s: Span, key: int, k: int)
    requires Inside(key, s)
    ensures In(k, Span(s.lo, Some(key))) ==> In(k, s) && k < key
    ensures In(k, Span(Some(key), s.hi)) ==> In(k, s) && key <= k
  {
  }

  lemma KeyInHalf(keys: seq<int>, mid: nat, k: int)
    requires Sorted(keys) && mid < |keys| && k in keys
    ensures k < keys[mid] ==> k in keys[..mid]
    ensures keys[mid] <= k ==> k in keys[mid..]
  {
    var j :| 0 <= j < |keys| && keys[j] == k;
    if j < mid { assert keys[..mid][j] == k; } else { assert keys[mid..][j - mid] == k; }
  }

  lemma SplitLeafKeeps(t: Tree, sh: Shape, contents: map<int, Value>, x: Id, r: Id)
    requires FullLeaf(t, sh, contents, x, r)
    ensures var key := t.nodes[x].keys[(t.order + 1) / 2];
      Inv(SplitLeaf(t, x, r), SplitShape(sh, x, key, r), Pending(x, key, r), contents)
  {
    hide FullLeaf, NodesOk, Holds, Framed;
    SplitLeafNodes(t, sh, contents, x, r);
    SplitLeafHolds(t, sh, contents, x, r);
  }

  // ----- A new root over a split one -----

  function GrowRoot(t: Tree, left: Id, key: int, right: Id, top: Id): Tree
    requires left in t.nodes && right in t.nodes && left != right
  {
    var nodes := t.nodes[top := Node(false, [key], [left, right], [], None, None, None)];
    var nodes := nodes[left := nodes[left].(parent := Some(top))];
    Tree(t.order, nodes[right := nodes[right].(parent := Some(top))], top, t.height + 1)
  }

  function GrowShape(sh: Shape, top: Id, level: nat): Shape {
    Shape(sh.span[top := Span(None, None)], sh.level[top := level])
  }

  lemma GrowKeeps(t: Tree, sh: Shape, contents: map<int, Value>, left: Id, key: int, right: Id, top: Id)
    requires Inv(t, sh, Pending(left, key, right), contents) && left == t.root && top !in t.nodes
    ensures Inv(GrowRoot(t, left, key, right, top), GrowShape(sh, top, t.height), Tight, contents)
  {
    hide NodesOk, Holds, NodeOk, HoldsSpan, ParentOk, SizeOk;
    var t', sh' := GrowRoot(t, left, key, right, top), GrowShape(sh, top, t.height);
    GrowFramed(t, sh, contents, left, key, right, top);
    forall y | y in t'.nodes
      ensures NodeOk(t', sh', Tight, y) && ParentOk(t', Tight, y) && SizeOk(t', Tight, y)
    {
      GrowNode(t, sh, contents, left, key, right, top, y);
    }
    NodesAll(t', sh', Tight);
    forall y | y in t'.nodes && t'.nodes[y].leaf
      ensures HoldsSpan(t', sh', contents, y)
    {
      At(t, sh, Pending(left, key, right), contents, y);
      SameHeld(t, sh, t', sh', contents, y);
    }
    HoldsAll(t', sh', contents);
  }

  lemma GrowFramed(t: Tree, sh: Shape, contents: map<int, Value>, left: Id, key: int, right: Id, top: Id)
    requires Inv(t, sh, Pending(left, key, right), contents) && left == t.root && top !in t.nodes
    ensures Framed(GrowRoot(t, left, key, right, top), GrowShape(sh, top, t.height), Tight)
  {
    hide NodesOk, Holds;
  }

  lemma GrowNode(t: Tree, sh: Shape, contents: map<int, Value>, left: Id, key: int, right: Id, top: Id, y: Id)
    requires Inv(t, sh, Pending(left, key, right), contents) && left == t.root && top !in t.nodes
    requires y in GrowRoot(t, left, key, right, top).nodes
    requires Framed(GrowRoot(t, left, key, right, top), GrowShape(sh, top, t.height), Tight)
    ensures var t', sh' := GrowRoot(t, left, key, right, top), GrowShape(sh, top, t.height);
      NodeOk(t', sh', Tight, y) && ParentOk(t', Tight, y) && SizeOk(t', Tight, y)
  {
    hide NodesOk, Holds, NodeOk;
    var t' := GrowRoot(t, left, key, right, top);
    if y == top {
      GrowTop(t, sh, contents, left, key, right, top);
    } else {
      GrowOther(t, sh, contents, left, key, right, top, y);
      At(t, sh, Pending(left, key, right), contents, y);
      assert t'.nodes[top].kids[0] == left && t'.nodes[top].kids[1] == right;
    }
  }

  lemma GrowTop(t: Tree, sh: Shape, contents: map<int, Value>, left: Id, key: int, right: Id, top: Id)
    requires Inv(t, sh, Pending(left, key, right), contents) && left == t.root && top !in t.nodes
    requires Framed(GrowRoot(t, left, key, right, top), GrowShape(sh, top, t.height), Tight)
    ensures NodeOk(GrowRoot(t, left, key, right, top), GrowShape(sh, top, t.height), Tight, top)
  {
    hide NodesOk, Holds;
    var t', sh' := GrowRoot(t, left, key, right, top), GrowShape(sh, top, t.height);
    assert KidOk(t', sh', Tight, top, 0) && KidOk(t', sh', Tight, top, 1);
  }

  lemma GrowOther(t: Tree, sh: Shape, contents: map<int, Value>, left: Id, key: int, right: Id, top: Id, y: Id)
    requires Inv(t, sh, Pending(left, key, right), contents) && left == t.root && top !in t.nodes
    requires y in t.nodes
    requires Framed(GrowRoot(t, left, key, right, top), GrowShape(sh, top, t.height), Tight)
    ensures NodeOk(GrowRoot(t, left, key, right, top), GrowShape(sh, top, t.height), Tight, y)
  {
    hide NodesOk, Holds;
    var t', sh', sl := GrowRoot(t, left, key, right, top), GrowShape(sh, top, t.height), Pending(left, key, right);
    At(t, sh, sl, contents, y);
    At(t, sh, sl, contents, left);
    At(t, sh, sl, contents, right);
    forall i | 0 <= i < |t.nodes[y].kids|
      ensures KidUntouched(t, sh, sl, t', sh', Tight, t.nodes[y].kids[i])
    {
      assert KidOk(t, sh, sl, y, i);
    }
    if t.nodes[y].leaf { Chained(t, sh, sl, contents, y); }
    FrameNode(t, sh, sl, t', sh', Tight, y);
  }

  // ----- The new half attached to the parent -----

  function Attach(t: Tree, p: Id, i: nat, key: int, right: Id): Tree
    requires p in t.nodes && right in t.nodes && i <= |t.nodes[p].keys| && i < |t.nodes[p].kids|
  {
    var nodes := t.nodes[right := t.nodes[right].(parent := Some(p))];
    var n := nodes[p];
    t.(nodes := nodes[p :=
      n.(keys := InsertAt(t.nodes[p].keys, i, key), kids := InsertAt(t.nodes[p].kids, i + 1, right))])
  }

  ghost predicate Attachable(t: Tree, sh: Shape, contents: map<int, Value>, left: Id, key: int, right: Id, p: Id,
      i: nat) {
    && Inv(t, sh, Pending(left, key, right), contents)
    && p in t.nodes && p != right && !t.nodes[p].leaf
    && i < |t.nodes[p].kids| == |t.nodes[p].keys| + 1 && t.nodes[p].kids[i] == left
  }

  lemma AttachKeeps(t: Tree, sh: Shape, contents: map<int, Value>, left: Id, key: int, right: Id, p: Id, i: nat)
    requires Attachable(t, sh, contents, left, key, right, p, i)
    ensures Inv(Attach(t, p, i, key, right), sh, Odd(p), contents)
  {
    hide NodesOk, Holds, NodeOk, HoldsSpan, ParentOk, SizeOk;
    var t' := Attach(t, p, i, key, right);
    AttachFramed(t, sh, contents, left, key, right, p, i);
    forall y | y in t'.nodes
      ensures NodeOk(t', sh, Odd(p), y) && ParentOk(t', Odd(p), y) && SizeOk(t', Odd(p), y)
    {
      AttachNode(t, sh, contents, left, key, right, p, i, y);
    }
    NodesAll(t', sh, Odd(p));
    forall y | y in t'.nodes && t'.nodes[y].leaf
      ensures HoldsSpan(t', sh, contents, y)
    {
      At(t, sh, Pending(left, key, right), contents, y);
      SameHeld(t, sh, t', sh, contents, y);
    }
    HoldsAll(t', sh, contents);
  }

  lemma AttachFramed(t: Tree, sh: Shape, contents: map<int, Value>, left: Id, key: int, right: Id, p: Id, i: nat)
    requires Attachable(t, sh, contents, left, key, right, p, i)
    ensures Framed(Attach(t, p, i, key, right), sh, Odd(p))
  {
    hide NodesOk, Holds;
    At(t, sh, Pending(left, key, right), contents, p);
    assert KidOk(t, sh, Pending(left, key, right), p, i);
  }

  lemma AttachNode(t: Tree, sh: Shape, contents: map<int, Value>, left: Id, key: int, right: Id, p: Id, i: nat, y: Id)
    requires Attachable(t, sh, contents, left, key, right, p, i) && y in t.nodes
    requires Framed(Attach(t, p, i, key, right), sh, Odd(p))
    ensures var t' := Attach(t, p, i, key, right);
      NodeOk(t', sh, Odd(p), y) && ParentOk(t', Odd(p), y) && SizeOk(t', Odd(p), y)
  {
    hide NodesOk, Holds;
    var t', sl := Attach(t, p, i, key, right), Pending(left, key, right);
    At(t, sh, sl, contents, y);
    At(t, sh, sl, contents, p);
    var n := t.nodes[y];
    if y == p {
      AttachParent(t, sh, contents, left, key, right, p, i);
    } else {
      forall j | 0 <= j < |n.kids|
        ensures KidUntouched(t, sh, sl, t', sh, Odd(p), n.kids[j])
      {
        assert KidOk(t, sh, sl, y, j) && KidOk(t, sh, sl, p, i);
      }
      if n.leaf { assert ChainOk(t, sh, y); }
      FrameNode(t, sh, sl, t', sh, Odd(p), y);
    }
    AttachParents(t, sh, contents, left, key, right, p, i, y);
  }

  lemma AttachParents(t: Tree, sh: Shape, contents: map<int, Value>, left: Id, key: int, right: Id, p: Id, i: nat,
      y: Id)
    requires Attachable(t, sh, contents, left, key, right, p, i) && y in t.nodes
    requires ParentOk(t, Pending(left, key, right), y)
    ensures ParentOk(Attach(t, p, i, key, right), Odd(p), y)
  {
    hide NodesOk, Holds, NodeOk;
    var t' := Attach(t, p, i, key, right);
    var kids, kids' := t.nodes[p].kids, t'.nodes[p].kids;
    if y == right {
      assert kids'[i + 1] == right;
    } else if y != t.root && t.nodes[y].parent == Some(p) {
      var j :| 0 <= j < |kids| && kids[j] == y;
      assert kids'[if j < i + 1 then j else j + 1] == y;
    }
  }

  lemma AttachParent(t: Tree, sh: Shape, contents: map<int, Value>, left: Id, key: int, right: Id, p: Id, i: nat)
    requires Attachable(t, sh, contents, left, key, right, p, i)
    requires Framed(Attach(t, p, i, key, right), sh, Odd(p))
    ensures NodeOk(Attach(t, p, i, key, right), sh, Odd(p), p)
  {
    hide NodesOk, Holds;
    var t', sl := Attach(t, p, i, key, right), Pending(left, key, right);
    var n, n', s := t.nodes[p], t'.nodes[p], sh.span[p];
    At(t, sh, sl, contents, p);
    assert KidOk(t, sh, sl, p, i);
    AttachKeys(n.keys, s, i, key);
    forall j | 0 <= j < |n'.kids|
      ensures KidOk(t', sh, Odd(p), p, j)
    {
      if j < i {
        assert KidOk(t, sh, sl, p, j);
        KidsDistinct(t, sh, sl, contents, p, i, j);
      } else if j > i + 1 {
        assert KidOk(t, sh, sl, p, j - 1);
        KidsDistinct(t, sh, sl, contents, p, i, j - 1);
      }
    }
  }

  lemma DistinctSpans(keys: seq<int>, s: Span, i: nat, j: nat)
    requires Sorted(keys) && i <= |keys| && j <= |keys| && i != j
    requires AllInside(keys, s)
    ensures ChildSpan(keys, s, i) != ChildSpan(keys, s, j)
  {
    var a, b := if i < j then i else j, if i < j then j else i;
    assert a > 0 ==> keys[a - 1] < keys[b - 1];
    assert Inside(keys[b - 1], s);
  }

  lemma AttachKeys(keys: seq<int>, s: Span, i: nat, key: int)
    requires Sorted(keys) && i <= |keys| && AllInside(keys, s)
    requires Inside(key, ChildSpan(keys, s, i))
    ensures Sorted(InsertAt(keys, i, key)) && AllInside(InsertAt(keys, i, key), s)
  {
    if i > 0 { assert keys[i - 1] < key; }
    if i < |keys| { assert key < keys[i]; }
  }

  // ----- An internal node split in two -----

  /** The listed nodes given p as their parent. */
  function SetParents(nodes: map<Id, Node>, kids: seq<Id>, p: Id): (r: map<Id, Node>)
    requires forall i :: 0 <= i < |kids| ==> kids[i] in nodes
    ensures r.Keys == nodes.Keys
    ensures forall x :: x in nodes ==> r[x] == if x in kids then nodes[x].(parent := Some(p)) else nodes[x]
    decreases |kids|
  {
    if kids == [] then nodes
    else
      var m, last := |kids| - 1, kids[|kids| - 1];
      assert forall x :: x in kids <==> x in kids[..m] || x == last;
      var q := SetParents(nodes, kids[..m], p);
      q[last := q[last].(parent := Some(p))]
  }

  function SplitInternal(t: Tree, x: Id, r: Id): Tree
    requires x in t.nodes && t.nodes[x].keys != [] && |t.nodes[x].kids| == |t.nodes[x].keys| + 1
    requires forall i :: 0 <= i < |t.nodes[x].kids| ==> t.nodes[x].kids[i] in t.nodes
  {
    var n := t.nodes[x];
    var mid := |n.keys| / 2;
    var right := Node(false, n.keys[mid + 1..], n.kids[mid + 1..], [], None, None, None);
    var nodes := SetParents(t.nodes[r := right], n.kids[mid + 1..], r);
    t.(nodes := nodes[x := nodes[x].(keys := n.keys[..mid], kids := n.kids[..mid + 1])])
  }

  ghost predicate FullInternal(t: Tree, sh: Shape, contents: map<int, Value>, x: Id, r: Id) {
    && Inv(t, sh, Odd(x), contents) && !t.nodes[x].leaf && |t.nodes[x].keys| == t.order
    && |t.nodes[x].kids| == t.order + 1
    && r !in t.nodes
    && (forall i :: 0 <= i < |t.nodes[x].kids| ==> t.nodes[x].kids[i] in t.nodes)
    && x !in t.nodes[x].kids
  }

  lemma KidsAreNodes(t: Tree, sh: Shape, sl: Slack, contents: map<int, Value>, x: Id)
    requires Inv(t, sh, sl, contents) && x in t.nodes && !t.nodes[x].leaf
    ensures |t.nodes[x].kids| == |t.nodes[x].keys| + 1 && x !in t.nodes[x].kids
    ensures forall i :: 0 <= i < |t.nodes[x].kids| ==> t.nodes[x].kids[i] in t.nodes && t.nodes[x].kids[i] != x
  {
    hide NodesOk, Holds;
    At(t, sh, sl, contents, x);
    forall i | 0 <= i < |t.nodes[x].kids|
      ensures t.nodes[x].kids[i] in t.nodes && t.nodes[x].kids[i] != x
    {
      assert KidOk(t, sh, sl, x, i);
    }
  }

  /** What SplitInternal does, node by node. */
  lemma SplitInternalAt(t: Tree, x: Id, r: Id)
    requires x in t.nodes && t.nodes[x].keys != [] && |t.nodes[x].kids| == |t.nodes[x].keys| + 1
    requires forall i :: 0 <= i < |t.nodes[x].kids| ==> t.nodes[x].kids[i] in t.nodes
    requires r !in t.nodes && x !in t.nodes[x].kids
    ensures var n, t' := t.nodes[x], SplitInternal(t, x, r);
      var mid := |n.keys| / 2;
      && t' == t.(nodes := t'.nodes) && t'.nodes.Keys == t.nodes.Keys + {r}
      && t'.nodes[x] == n.(keys := n.keys[..mid], kids := n.kids[..mid + 1])
      && t'.nodes[r] == Node(false, n.keys[mid + 1..], n.kids[mid + 1..], [], None, None, None)
      && (forall y :: y in t.nodes && y != x ==>
            t'.nodes[y] == if y in n.kids[mid + 1..] then t.nodes[y].(parent := Some(r)) else t.nodes[y])
  {
    hide SetParents;
    var moved := t.nodes[x].kids[|t.nodes[x].keys| / 2 + 1..];
    forall y | y in moved
      ensures y in t.nodes[x].kids && y in t.nodes
    {
      var j :| 0 <= j < |moved| && moved[j] == y;
      assert t.nodes[x].kids[|t.nodes[x].keys| / 2 + 1 + j] == y;
    }
  }

  lemma SplitInternalKeeps(t: Tree, sh: Shape, contents: map<int, Value>, x: Id, r: Id)
    requires FullInternal(t, sh, contents, x, r)
    ensures var key := t.nodes[x].keys[t.order / 2];
      Inv(SplitInternal(t, x, r), SplitShape(sh, x, key, r), Pending(x, key, r), contents)
  {
    hide NodesOk, Holds, HoldsSpan, NodeOk, SplitInternal, ParentOk, SizeOk, Framed;
    KeysAgree(t, sh, Odd(x));
    SplitInternalAt(t, x, r);
    var key := t.nodes[x].keys[t.order / 2];
    var t', sh', sl' := SplitInternal(t, x, r), SplitShape(sh, x, key, r), Pending(x, key, r);
    SplitInternalFramed(t, sh, contents, x, r);
    forall y | y in t'.nodes
      ensures NodeOk(t', sh', sl', y) && ParentOk(t', sl', y) && SizeOk(t', sl', y)
    {
      SplitInternalNode(t, sh, contents, x, r, y);
    }
    NodesAll(t', sh', sl');
    forall y | y in t'.nodes && t'.nodes[y].leaf
      ensures HoldsSpan(t', sh', contents, y)
    {
      At(t, sh, Odd(x), contents, y);
      SameHeld(t, sh, t', sh', contents, y);
    }
    HoldsAll(t', sh', contents);
  }

  /** Splitting the keys of an internal node around one of them. */
  lemma SplitInnerKeys(keys: seq<int>, s: Span, mid: nat)
    requires Sorted(keys) && AllInside(keys, s) && mid < |keys|
    ensures Inside(keys[mid], s)
    ensures Sorted(keys[..mid]) && AllInside(keys[..mid], Span(s.lo, Some(keys[mid])))
    ensures Sorted(keys[mid + 1..]) && AllInside(keys[mid + 1..], Span(Some(keys[mid]), s.hi))
    ensures forall i :: 0 <= i <= mid ==>
      ChildSpan(keys[..mid], Span(s.lo, Some(keys[mid])), i) == ChildSpan(keys, s, i)
    ensures forall i {:trigger ChildSpan(keys[mid + 1..], Span(Some(keys[mid]), s.hi), i)} :: 0 <= i < |keys| - mid ==>
      ChildSpan(keys[mid + 1..], Span(Some(keys[mid]), s.hi), i) == ChildSpan(keys, s, mid + 1 + i)
  {
    forall j | mid < j < |keys|
      ensures Inside(keys[j], Span(Some(keys[mid]), s.hi))
    {
      assert Inside(keys[j], s);
    }
    assert AllInside(keys[mid + 1..], Span(Some(keys[mid]), s.hi));
  }

  lemma SplitInternalFramed(t: Tree, sh: Shape, contents: map<int, Value>, x: Id, r: Id)
    requires FullInternal(t, sh, contents, x, r)
    ensures var key := t.nodes[x].keys[t.order / 2];
      Framed(SplitInternal(t, x, r), SplitShape(sh, x, key, r), Pending(x, key, r))
  {
    hide NodesOk, Holds, SplitInternal;
    SplitInternalAt(t, x, r);
    At(t, sh, Odd(x), contents, x);
    assert Inside(t.nodes[x].keys[t.order / 2], sh.span[x]);
  }

  lemma SplitInternalNode(t: Tree, sh: Shape, contents: map<int, Value>, x: Id, r: Id, y: Id)
    requires FullInternal(t, sh, contents, x, r) && y in SplitInternal(t, x, r).nodes
    requires var key := t.nodes[x].keys[t.order / 2];
      Framed(SplitInternal(t, x, r), SplitShape(sh, x, key, r), Pending(x, key, r))
    ensures var key := t.nodes[x].keys[t.order / 2];
      var t', sh', sl' := SplitInternal(t, x, r), SplitShape(sh, x, key, r), Pending(x, key, r);
      NodeOk(t', sh', sl', y) && ParentOk(t', sl', y) && SizeOk(t', sl', y)
  {
    hide NodesOk, Holds, NodeOk, SplitInternal, SizeOk;
    SplitInternalAt(t, x, r);
    if y == x {
      SplitInternalLeft(t, sh, contents, x, r);
    } else if y == r {
      SplitInternalRight(t, sh, contents, x, r);
    } else {
      SplitInternalFar(t, sh, contents, x, r, y);
    }
    SplitInternalSize(t, sh, contents, x, r, y);
    SplitInternalParent(t, sh, contents, x, r, y);
  }

  lemma SplitInternalSize(t: Tree, sh: Shape, contents: map<int, Value>, x: Id, r: Id, y: Id)
    requires FullInternal(t, sh, contents, x, r) && y in SplitInternal(t, x, r).nodes
    requires var key := t.nodes[x].keys[t.order / 2];
      Framed(SplitInternal(t, x, r), SplitShape(sh, x, key, r), Pending(x, key, r))
    ensures SizeOk(SplitInternal(t, x, r), Pending(x, t.nodes[x].keys[t.order / 2], r), y)
  {
    hide Holds, NodesOk, NodeOk, SplitInternal, ParentOk;
    SplitInternalAt(t, x, r);
    if y != r { At(t, sh, Odd(x), contents, y); }
  }

  lemma SplitInternalParent(t: Tree, sh: Shape, contents: map<int, Value>, x: Id, r: Id, y: Id)
    requires FullInternal(t, sh, contents, x, r) && y in SplitInternal(t, x, r).nodes
    ensures ParentOk(SplitInternal(t, x, r), Pending(x, t.nodes[x].keys[t.order / 2], r), y)
  {
    hide NodesOk, Holds, NodeOk, SplitInternal, Framed;
    KeysAgree(t, sh, Odd(x));
    SplitInternalAt(t, x, r);
    var n, t' := t.nodes[x], SplitInternal(t, x, r);
    var mid := t.order / 2;
    if y != r {
      At(t, sh, Odd(x), contents, y);
      if y != t.root && t.nodes[y].parent == Some(x) && y !in n.kids[mid + 1..] {
        KeptHalf(n.kids, mid, y);
      }
      if y in n.kids[mid + 1..] {
        var j :| 0 <= j < |n.kids[mid + 1..]| && n.kids[mid + 1..][j] == y;
        RootIsNoKid(t, sh, contents, x, mid + 1 + j);
      }
    }
  }

  /** A child that is not among those moved is among those kept. */
  lemma KeptHalf(kids: seq<Id>, mid: nat, y: Id)
    requires mid < |kids| && y in kids && y !in kids[mid + 1..]
    ensures y in kids[..mid + 1]
  {
    var j :| 0 <= j < |kids| && kids[j] == y;
    forall q | mid < q < |kids|
      ensures kids[q] != y
    {
      assert kids[q] == kids[mid + 1..][q - mid - 1];
    }
    assert kids[..mid + 1][j] == y;
  }

  lemma RootIsNoKid(t: Tree, sh: Shape, contents: map<int, Value>, x: Id, i: nat)
    requires Inv(t, sh, Odd(x), contents) && !t.nodes[x].leaf && i < |t.nodes[x].kids|
    ensures t.nodes[x].kids[i] != t.root
  {
    hide NodesOk, Holds;
    At(t, sh, Odd(x), contents, x);
    assert KidOk(t, sh, Odd(x), x, i);
    At(t, sh, Odd(x), contents, t.nodes[x].kids[i]);
  }

  lemma SplitInternalLeft(t: Tree, sh: Shape, contents: map<int, Value>, x: Id, r: Id)
    requires FullInternal(t, sh, contents, x, r)
    requires var key := t.nodes[x].keys[t.order / 2];
      Framed(SplitInternal(t, x, r), SplitShape(sh, x, key, r), Pending(x, key, r))
    ensures var key := t.nodes[x].keys[t.order / 2];
      var t', sh', sl' := SplitInternal(t, x, r), SplitShape(sh, x, key, r), Pending(x, key, r);
      NodeOk(t', sh', sl', x)
  {
    hide NodesOk, Holds, SplitInternal, Sorted, AllInside, AllIn, Inside, ChildSpan, HoldsSpan, ParentOk, SizeOk,
      ChainOk, Framed;
    KeysAgree(t, sh, Odd(x));
    SplitInternalAt(t, x, r);
    var n := t.nodes[x];
    var mid := t.order / 2;
    var key := n.keys[mid];
    var t', sh', sl' := SplitInternal(t, x, r), SplitShape(sh, x, key, r), Pending(x, key, r);
    At(t, sh, Odd(x), contents, x);
    SplitInnerKeys(n.keys, sh.span[x], mid);
    forall i | 0 <= i < mid + 1
      ensures KidOk(t', sh', sl', x, i)
    {
      assert KidOk(t, sh, Odd(x), x, i);
      StaysLeft(t, sh, contents, x, mid, i);
    }
  }

  /** A child kept on the left is not among those moved. */
  lemma StaysLeft(t: Tree, sh: Shape, contents: map<int, Value>, x: Id, mid: nat, i: nat)
    requires Inv(t, sh, Odd(x), contents) && !t.nodes[x].leaf && i <= mid < |t.nodes[x].keys|
    requires |t.nodes[x].kids| == |t.nodes[x].keys| + 1
    ensures t.nodes[x].kids[i] !in t.nodes[x].kids[mid + 1..]
  {
    var kids := t.nodes[x].kids;
    forall j | mid < j < |kids|
      ensures kids[j] != kids[i]
    {
      KidsDistinct(t, sh, Odd(x), contents, x, i, j);
    }
  }

  lemma KidsDistinct(t: Tree, sh: Shape, sl: Slack, contents: map<int, Value>, x: Id, i: nat, j: nat)
    requires Inv(t, sh, sl, contents) && x in t.nodes && !t.nodes[x].leaf && i < |t.nodes[x].kids|
    requires j < |t.nodes[x].kids| && i != j
    ensures t.nodes[x].kids[i] != t.nodes[x].kids[j]
  {
    hide NodesOk, Holds;
    At(t, sh, sl, contents, x);
    assert KidOk(t, sh, sl, x, i) && KidOk(t, sh, sl, x, j);
    DistinctSpans(t.nodes[x].keys, sh.span[x], i, j);
  }

  /** A key of child i lies in the i-th gap between its parent's keys. */
  lemma KeyInGap(t: Tree, sh: Shape, sl: Slack, contents: map<int, Value>, x: Id, i: nat, k: int)
    requires Inv(t, sh, sl, contents) && x in t.nodes && !t.nodes[x].leaf && i < |t.nodes[x].kids|
    ensures t.nodes[x].kids[i] in t.nodes && |t.nodes[x].kids| == |t.nodes[x].keys| + 1
    ensures k in t.nodes[t.nodes[x].kids[i]].keys ==> In(k, ChildSpan(t.nodes[x].keys, sh.span[x], i))
    ensures (t.nodes[t.nodes[x].kids[i]].keys == [] ==> sl == Odd(t.nodes[x].kids[i]))
  {
    hide NodesOk, Holds;
    At(t, sh, sl, contents, x);
    assert KidOk(t, sh, sl, x, i);
    var c := t.nodes[x].kids[i];
    At(t, sh, sl, contents, c);
    if k in t.nodes[c].keys {
      var j :| 0 <= j < |t.nodes[c].keys| && t.nodes[c].keys[j] == k;
      assert In(k, sh.span[c]);
    }
    assert sh.level[c] + 1 < t.height;
  }

  /** Siblings never have the same keys: comparing nodes by content finds the node itself. */
  lemma SiblingKeysDiffer(t: Tree, sh: Shape, sl: Slack, contents: map<int, Value>, x: Id, i: nat, j: nat)
    requires Inv(t, sh, sl, contents) && x in t.nodes && !t.nodes[x].leaf && i < |t.nodes[x].kids|
    requires j < |t.nodes[x].kids| && i != j
    ensures t.nodes[x].kids[i] in t.nodes && t.nodes[x].kids[j] in t.nodes
    ensures t.nodes[t.nodes[x].kids[i]].keys != t.nodes[t.nodes[x].kids[j]].keys
  {
    hide NodesOk, Holds;
    var a, b := t.nodes[x].kids[i], t.nodes[x].kids[j];
    KidsDistinct(t, sh, sl, contents, x, i, j);
    KeyInGap(t, sh, sl, contents, x, i, 0);
    KeyInGap(t, sh, sl, contents, x, j, 0);
    if t.nodes[a].keys != [] {
      var k := t.nodes[a].keys[0];
      KeyInGap(t, sh, sl, contents, x, i, k);
      KeyInGap(t, sh, sl, contents, x, j, k);
      At(t, sh, sl, contents, x);
      ChildSpans(t.nodes[x].keys, sh.span[x], i, j, k);
    }
  }

  lemma SplitInternalRight(t: Tree, sh: Shape, contents: map<int, Value>, x: Id, r: Id)
    requires FullInternal(t, sh, contents, x, r)
    requires var key := t.nodes[x].keys[t.order / 2];
      Framed(SplitInternal(t, x, r), SplitShape(sh, x, key, r), Pending(x, key, r))
    ensures var key := t.nodes[x].keys[t.order / 2];
      var t', sh', sl' := SplitInternal(t, x, r), SplitShape(sh, x, key, r), Pending(x, key, r);
      NodeOk(t', sh', sl', r)
  {
    hide NodesOk, Holds, SplitInternal, Sorted, AllInside, AllIn, Inside, ChildSpan, HoldsSpan, ParentOk, SizeOk,
      ChainOk, KidOk, Framed;
    KeysAgree(t, sh, Odd(x));
    SplitInternalAt(t, x, r);
    var n := t.nodes[x];
    var mid := t.order / 2;
    var key := n.keys[mid];
    var t', sh', sl' := SplitInternal(t, x, r), SplitShape(sh, x, key, r), Pending(x, key, r);
    At(t, sh, Odd(x), contents, x);
    SplitInnerKeys(n.keys, sh.span[x], mid);
    forall i | 0 <= i < |n.kids[mid + 1..]|
      ensures KidOk(t', sh', sl', r, i)
    {
      SplitInternalMoved(t, sh, contents, x, r, i);
    }
  }

  lemma SplitInternalMoved(t: Tree, sh: Shape, contents: map<int, Value>, x: Id, r: Id, i: nat)
    requires FullInternal(t, sh, contents, x, r) && i + t.order / 2 + 1 < |t.nodes[x].kids|
    requires var key := t.nodes[x].keys[t.order / 2];
      Framed(SplitInternal(t, x, r), SplitShape(sh, x, key, r), Pending(x, key, r))
    ensures var key := t.nodes[x].keys[t.order / 2];
      var t', sh', sl' := SplitInternal(t, x, r), SplitShape(sh, x, key, r), Pending(x, key, r);
      r in t'.nodes && i < |t'.nodes[r].kids| == |t'.nodes[r].keys| + 1 && KidOk(t', sh', sl', r, i)
  {
    hide NodesOk, Holds, NodeOk, SplitInternal, Sorted, AllInside, Inside, ChildSpan;
    NodeKeysAt(t, sh, contents, x);
    SplitInnerKeys(t.nodes[x].keys, sh.span[x], t.order / 2);
    OneKid(t, sh, Odd(x), contents, x, t.order / 2 + 1 + i);
    KidMoves(t, x, r, i);
  }

  /** A moved child, before and after. */
  lemma KidMoves(t: Tree, x: Id, r: Id, i: nat)
    requires x in t.nodes && t.nodes[x].keys != [] && |t.nodes[x].kids| == |t.nodes[x].keys| + 1
    requires forall i :: 0 <= i < |t.nodes[x].kids| ==> t.nodes[x].kids[i] in t.nodes
    requires r !in t.nodes && x !in t.nodes[x].kids && i + |t.nodes[x].keys| / 2 + 1 < |t.nodes[x].kids|
    ensures var n, t', mid := t.nodes[x], SplitInternal(t, x, r), |t.nodes[x].keys| / 2;
      var c := n.kids[mid + 1 + i];
      && t'.order == t.order && t'.root == t.root && t'.height == t.height
      && r in t'.nodes && c in t'.nodes && c != r && c != x && t'.nodes[c].parent == Some(r)
      && t'.nodes[r].keys == n.keys[mid + 1..] && |t'.nodes[r].kids| == |n.kids| - mid - 1 && t'.nodes[r].kids[i] == c
  {
    hide SplitInternal;
    SplitInternalAt(t, x, r);
    var n, mid := t.nodes[x], |t.nodes[x].keys| / 2;
    var moved := n.kids[mid + 1..];
    assert moved[i] == n.kids[mid + 1 + i] && moved[i] in moved;
    assert n.kids[mid + 1 + i] in n.kids;
  }

  lemma NodeKeysAt(t: Tree, sh: Shape, contents: map<int, Value>, x: Id)
    requires Inv(t, sh, Odd(x), contents) && !t.nodes[x].leaf
    ensures Sorted(t.nodes[x].keys) && AllInside(t.nodes[x].keys, sh.span[x])
    ensures |t.nodes[x].kids| == |t.nodes[x].keys| + 1
  {
    hide NodesOk, Holds;
    At(t, sh, Odd(x), contents, x);
  }

  lemma OneKid(t: Tree, sh: Shape, sl: Slack, contents: map<int, Value>, x: Id, i: nat)
    requires Inv(t, sh, sl, contents) && x in t.nodes && !t.nodes[x].leaf && i < |t.nodes[x].kids|
    ensures |t.nodes[x].kids| == |t.nodes[x].keys| + 1 && KidOk(t, sh, sl, x, i)
  {
    hide NodesOk, Holds, KidOk;
    At(t, sh, sl, contents, x);
  }

  lemma SplitInternalFar(t: Tree, sh: Shape, contents: map<int, Value>, x: Id, r: Id, y: Id)
    requires FullInternal(t, sh, contents, x, r) && y in t.nodes && y != x && y != r
    requires var key := t.nodes[x].keys[t.order / 2];
      Framed(SplitInternal(t, x, r), SplitShape(sh, x, key, r), Pending(x, key, r))
    ensures var key := t.nodes[x].keys[t.order / 2];
      NodeOk(SplitInternal(t, x, r), SplitShape(sh, x, key, r), Pending(x, key, r), y)
  {
    hide NodesOk, Holds, NodeOk, SplitInternal;
    SplitInternalAt(t, x, r);
    var key := t.nodes[x].keys[t.order / 2];
    At(t, sh, Odd(x), contents, y);
    if t.nodes[y].leaf {
      SplitInternalFarLeaf(t, sh, contents, x, r, y);
    } else {
      forall c | c in t.nodes[y].kids
        ensures c !in t.nodes[x].kids[t.order / 2 + 1..]
      {
        NotMoved(t, sh, contents, x, r, y, c);
      }
      InnerStays(t, sh, SplitInternal(t, x, r), SplitShape(sh, x, key, r), x, key, r, y);
    }
  }

  lemma SplitInternalFarLeaf(t: Tree, sh: Shape, contents: map<int, Value>, x: Id, r: Id, y: Id)
    requires FullInternal(t, sh, contents, x, r) && y in t.nodes && t.nodes[y].leaf && NodeOk(t, sh, Odd(x), y)
    requires var key := t.nodes[x].keys[t.order / 2];
      Framed(SplitInternal(t, x, r), SplitShape(sh, x, key, r), Pending(x, key, r))
    ensures var key := t.nodes[x].keys[t.order / 2];
      NodeOk(SplitInternal(t, x, r), SplitShape(sh, x, key, r), Pending(x, key, r), y)
  {
    hide NodesOk, Holds, NodeOk, SplitInternal, Framed;
    KeysAgree(t, sh, Odd(x));
    SplitInternalAt(t, x, r);
    var key := t.nodes[x].keys[t.order / 2];
    var t', sh', sl' := SplitInternal(t, x, r), SplitShape(sh, x, key, r), Pending(x, key, r);
    Chained(t, sh, Odd(x), contents, y);
    Levelled(t, sh, Odd(x), y);
    assert NeighboursUntouched(t, sh, t', sh', y);
    FrameLeaf(t, sh, Odd(x), t', sh', sl', y);
  }

  lemma Levelled(t: Tree, sh: Shape, sl: Slack, y: Id)
    requires Framed(t, sh, sl) && y in t.nodes && NodeOk(t, sh, sl, y)
    ensures sh.level[y] < t.height
  {
  }

  lemma NotMoved(t: Tree, sh: Shape, contents: map<int, Value>, x: Id, r: Id, y: Id, c: Id)
    requires FullInternal(t, sh, contents, x, r) && y in t.nodes && y != x
    requires NodeOk(t, sh, Odd(x), y) && c in t.nodes[y].kids
    ensures c !in t.nodes[x].kids[t.order / 2 + 1..]
  {
    hide NodesOk, Holds, NodeOk;
    OnlyParent(t, sh, Odd(x), y, c);
    At(t, sh, Odd(x), contents, x);
    if c in t.nodes[x].kids {
      OnlyParent(t, sh, Odd(x), x, c);
    }
  }
}
