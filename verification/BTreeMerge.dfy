/** Deletion above and across the leaves: internal siblings share out children, siblings merge, the root collapses. */
module BTreeMerge {
  import opened Common
  import opened BTreeShape
  import opened BTreeInsert
  import opened BTreeDelete

  // ----- Two neighbouring internal nodes share out their children anew -----

  /** The keys of l and r with the separator between them, and their children in order. */
  function JoinedKeys(t: Tree, p: Id, j: nat, l: Id, r: Id): seq<int>
    requires p in t.nodes && l in t.nodes && r in t.nodes && j < |t.nodes[p].keys|
  {
    t.nodes[l].keys + [t.nodes[p].keys[j]] + t.nodes[r].keys
  }

  function JoinedKids(t: Tree, l: Id, r: Id): seq<Id>
    requires l in t.nodes && r in t.nodes
  {
    t.nodes[l].kids + t.nodes[r].kids
  }

  /** l keeps `at` of the joined keys, the next one separates, r gets the rest; child c moves to q. */
  function ResplitInner(t: Tree, p: Id, j: nat, l: Id, r: Id, at: nat, c: Id, q: Id): Tree
    requires p in t.nodes && l in t.nodes && r in t.nodes && c in t.nodes && j < |t.nodes[p].keys|
    requires at < |JoinedKeys(t, p, j, l, r)| && at + 1 <= |JoinedKids(t, l, r)|
  {
    var keys, kids := JoinedKeys(t, p, j, l, r), JoinedKids(t, l, r);
    t.(nodes := t.nodes[c := t.nodes[c].(parent := Some(q))]
                       [l := t.nodes[l].(keys := keys[..at], kids := kids[..at + 1])]
                       [r := t.nodes[r].(keys := keys[at + 1..], kids := kids[at + 1..])]
                       [p := t.nodes[p].(keys := t.nodes[p].keys[j := keys[at]])])
  }

  ghost predicate InnerSiblings(t: Tree, sh: Shape, sl: Slack, contents: map<int, Value>, p: Id, j: nat, l: Id, r: Id) {
    && Siblings(t, sh, sl, contents, p, j, l, r) && !t.nodes[l].leaf && !t.nodes[r].leaf
    && (sl == Tight || sl == Odd(l) || sl == Odd(r))
    && |t.nodes[l].kids| == |t.nodes[l].keys| + 1 && |t.nodes[r].kids| == |t.nodes[r].keys| + 1
  }

  /** The joined keys are sorted and the joined children fill the gaps between them. */
  lemma JoinedOk(t: Tree, sh: Shape, sl: Slack, contents: map<int, Value>, p: Id, j: nat, l: Id, r: Id)
    requires InnerSiblings(t, sh, sl, contents, p, j, l, r)
    ensures var keys, kids, s := JoinedKeys(t, p, j, l, r), JoinedKids(t, l, r), Span(sh.span[l].lo, sh.span[r].hi);
      && Sorted(keys) && AllInside(keys, s) && |kids| == |keys| + 1
      && forall i :: 0 <= i < |kids| ==> JoinedKid(t, sh, keys, kids, s, l, r, i)
  {
    hide Holds, NodesOk, Sorted, AllInside, AllIn, HoldsSpan, ParentOk, SizeOk, ChainOk, ChildSpan, In, Inside;
    var keys, kids, s := JoinedKeys(t, p, j, l, r), JoinedKids(t, l, r), Span(sh.span[l].lo, sh.span[r].hi);
    var a, b, key := t.nodes[l].keys, t.nodes[r].keys, t.nodes[p].keys[j];
    SiblingSpan(t, sh, sl, contents, p, j, l, r);
    At(t, sh, sl, contents, l);
    At(t, sh, sl, contents, r);
    JoinInnerKeys(a, key, b, s);
    forall i | 0 <= i < |kids|
      ensures JoinedKid(t, sh, keys, kids, s, l, r, i)
    {
      if i <= |a| {
        assert KidOk(t, sh, sl, l, i);
      } else {
        assert KidOk(t, sh, sl, r, i - |a| - 1);
        assert i - |a| - 1 <= |b| && |a| + 1 + (i - |a| - 1) == i;
      }
    }
  }

  /** Child i of the joined node: it hangs under l or r and its span is the i-th gap. */
  predicate JoinedKid(t: Tree, sh: Shape, keys: seq<int>, kids: seq<Id>, s: Span, l: Id, r: Id, i: nat)
    requires t.nodes.Keys == sh.span.Keys == sh.level.Keys && l in t.nodes && r in t.nodes
    requires i < |kids| == |keys| + 1
  {
    var c := kids[i];
    && c in t.nodes && (t.nodes[c].parent == Some(l) || t.nodes[c].parent == Some(r))
    && sh.level[c] + 1 == sh.level[l] && sh.span[c] == ChildSpan(keys, s, i)
    && (c in t.nodes[l].kids || c in t.nodes[r].kids)
  }

  lemma JoinInnerKeys(a: seq<int>, key: int, b: seq<int>, s: Span)
    requires Sorted(a) && AllInside(a, Span(s.lo, Some(key))) && Sorted(b) && AllInside(b, Span(Some(key), s.hi))
    requires Inside(key, s)
    ensures Sorted(a + [key] + b) && AllInside(a + [key] + b, s)
    ensures forall i :: 0 <= i <= |a| ==> ChildSpan(a + [key] + b, s, i) == ChildSpan(a, Span(s.lo, Some(key)), i)
    ensures forall i {:trigger ChildSpan(b, Span(Some(key), s.hi), i)} :: 0 <= i <= |b| ==>
      ChildSpan(a + [key] + b, s, |a| + 1 + i) == ChildSpan(b, Span(Some(key), s.hi), i)
  {
    var c := a + [key] + b;
    forall i | 0 <= i < |c|
      ensures Inside(c[i], s) && (i < |a| ==> c[i] < key) && (i > |a| ==> key < c[i])
    {
      if i < |a| { assert Inside(a[i], Span(s.lo, Some(key))); }
      if i > |a| { assert Inside(b[i - |a| - 1], Span(Some(key), s.hi)); }
    }
    forall i, k | 0 <= i < k < |c|
      ensures c[i] < c[k]
    {
      if k < |a| { assert a[i] < a[k]; } else if i > |a| { assert b[i - |a| - 1] < b[k - |a| - 1]; }
    }
  }

  ghost predicate CanResplitInner(t: Tree, sh: Shape, sl: Slack, contents: map<int, Value>, p: Id, j: nat, l: Id,
      r: Id, at: nat, c: Id, q: Id) {
    && InnerSiblings(t, sh, sl, contents, p, j, l, r)
    && var kids, n := JoinedKids(t, l, r), |t.nodes[l].keys|;
    && MinKeys(t) <= at < t.order && MinKeys(t) <= n + |t.nodes[r].keys| - at < t.order
    && ((at + 1 == n && q == r && c == kids[n]) || (at == n + 1 && q == l && c == kids[n + 1]))
  }

  lemma MovedKid(t: Tree, sh: Shape, sl: Slack, contents: map<int, Value>, p: Id, j: nat, l: Id, r: Id, at: nat,
      c: Id, q: Id)
    requires CanResplitInner(t, sh, sl, contents, p, j, l, r, at, c, q)
    ensures c in t.nodes && c != l && c != r && c != p && c != t.root
    ensures at < |JoinedKeys(t, p, j, l, r)| && |JoinedKids(t, l, r)| == |JoinedKeys(t, p, j, l, r)| + 1
    ensures c == JoinedKids(t, l, r)[|t.nodes[l].keys| + (if q == r then 0 else 1)]
  {
    hide Holds, NodesOk, Sorted, AllInside, ChildSpan;
    var i := |t.nodes[l].keys| + (if q == r then 0 else 1);
    JoinedOk(t, sh, sl, contents, p, j, l, r);
    var keys, kids, s := JoinedKeys(t, p, j, l, r), JoinedKids(t, l, r), Span(sh.span[l].lo, sh.span[r].hi);
    assert JoinedKid(t, sh, keys, kids, s, l, r, i);
    At(t, sh, sl, contents, c);
  }

  /** What ResplitInner does, node by node. */
  lemma ResplitInnerAt(t: Tree, sh: Shape, sl: Slack, contents: map<int, Value>, p: Id, j: nat, l: Id, r: Id, at: nat,
      c: Id, q: Id)
    requires CanResplitInner(t, sh, sl, contents, p, j, l, r, at, c, q)
    ensures c in t.nodes && c != l && c != r && c != p && c != t.root
    ensures at < |JoinedKeys(t, p, j, l, r)| && |JoinedKids(t, l, r)| == |JoinedKeys(t, p, j, l, r)| + 1
    ensures var t' := ResplitInner(t, p, j, l, r, at, c, q);
      var keys, kids := JoinedKeys(t, p, j, l, r), JoinedKids(t, l, r);
      && t' == t.(nodes := t'.nodes) && t'.nodes.Keys == t.nodes.Keys
      && t'.nodes[l] == t.nodes[l].(keys := keys[..at], kids := kids[..at + 1])
      && t'.nodes[r] == t.nodes[r].(keys := keys[at + 1..], kids := kids[at + 1..])
      && t'.nodes[p] == t.nodes[p].(keys := t.nodes[p].keys[j := keys[at]])
      && t'.nodes[c] == t.nodes[c].(parent := Some(q))
      && (forall y :: y in t.nodes && y != l && y != r && y != p && y != c ==> t'.nodes[y] == t.nodes[y])
  {
    hide Holds, NodesOk, NodeOk, Framed;
    MovedKid(t, sh, sl, contents, p, j, l, r, at, c, q);
  }

  /** The shape afterwards. */
  function NewBound(t: Tree, sh: Shape, p: Id, j: nat, l: Id, r: Id, at: nat): Shape
    requires p in t.nodes && l in t.nodes && r in t.nodes && l in sh.span && r in sh.span
    requires j < |t.nodes[p].keys| && at < |JoinedKeys(t, p, j, l, r)|
  {
    MoveBound(sh, l, JoinedKeys(t, p, j, l, r)[at], r)
  }

  lemma ResplitInnerFramed(t: Tree, sh: Shape, sl: Slack, contents: map<int, Value>, p: Id, j: nat, l: Id, r: Id,
      at: nat, c: Id, q: Id)
    requires CanResplitInner(t, sh, sl, contents, p, j, l, r, at, c, q)
    ensures c in t.nodes && at < |JoinedKeys(t, p, j, l, r)| && |JoinedKids(t, l, r)| == |JoinedKeys(t, p, j, l, r)| + 1
    ensures Framed(ResplitInner(t, p, j, l, r, at, c, q), NewBound(t, sh, p, j, l, r, at), Tight)
  {
    hide Holds, NodesOk, NodeOk, ResplitInner;
    ResplitInnerAt(t, sh, sl, contents, p, j, l, r, at, c, q);
  }

  lemma ResplitInnerKeeps(t: Tree, sh: Shape, sl: Slack, contents: map<int, Value>, p: Id, j: nat, l: Id, r: Id,
      at: nat, c: Id, q: Id)
    requires CanResplitInner(t, sh, sl, contents, p, j, l, r, at, c, q)
    ensures c in t.nodes && at < |JoinedKeys(t, p, j, l, r)| && |JoinedKids(t, l, r)| == |JoinedKeys(t, p, j, l, r)| + 1
    ensures Inv(ResplitInner(t, p, j, l, r, at, c, q), NewBound(t, sh, p, j, l, r, at), Tight, contents)
  {
    hide Holds, NodesOk, NodeOk, HoldsSpan, ResplitInner, ParentOk, SizeOk;
    ResplitInnerFramed(t, sh, sl, contents, p, j, l, r, at, c, q);
    ResplitInnerAt(t, sh, sl, contents, p, j, l, r, at, c, q);
    var t', sh' := ResplitInner(t, p, j, l, r, at, c, q), NewBound(t, sh, p, j, l, r, at);
    forall y | y in t'.nodes
      ensures NodeOk(t', sh', Tight, y) && ParentOk(t', Tight, y) && SizeOk(t', Tight, y)
    {
      At(t, sh, sl, contents, y);
      ResplitInnerParents(t, sh, sl, contents, p, j, l, r, at, c, q, y);
      ResplitInnerSize(t, sh, sl, contents, p, j, l, r, at, c, q, y);
      if y == l || y == r {
        ResplitInnerHalf(t, sh, sl, contents, p, j, l, r, at, c, q, y);
      } else if y == p {
        ResplitInnerTop(t, sh, sl, contents, p, j, l, r, at, c, q);
      } else {
        ResplitInnerFar(t, sh, sl, contents, p, j, l, r, at, c, q, y);
      }
    }
    NodesAll(t', sh', Tight);
    forall y | y in t'.nodes && t'.nodes[y].leaf
      ensures HoldsSpan(t', sh', contents, y)
    {
      At(t, sh, sl, contents, y);
      SameHeld(t, sh, t', sh', contents, y);
    }
    HoldsAll(t', sh', contents);
  }

  lemma ResplitInnerSize(t: Tree, sh: Shape, sl: Slack, contents: map<int, Value>, p: Id, j: nat, l: Id, r: Id,
      at: nat, c: Id, q: Id, y: Id)
    requires CanResplitInner(t, sh, sl, contents, p, j, l, r, at, c, q) && y in t.nodes && SizeOk(t, sl, y)
    requires c in t.nodes && at < |JoinedKeys(t, p, j, l, r)|
    requires |JoinedKids(t, l, r)| == |JoinedKeys(t, p, j, l, r)| + 1
    requires Framed(ResplitInner(t, p, j, l, r, at, c, q), NewBound(t, sh, p, j, l, r, at), Tight)
    requires y in ResplitInner(t, p, j, l, r, at, c, q).nodes
    ensures SizeOk(ResplitInner(t, p, j, l, r, at, c, q), Tight, y)
  {
    hide Holds, NodesOk, NodeOk, ResplitInner;
    ResplitInnerAt(t, sh, sl, contents, p, j, l, r, at, c, q);
  }

  lemma ResplitInnerParents(t: Tree, sh: Shape, sl: Slack, contents: map<int, Value>, p: Id, j: nat, l: Id, r: Id,
      at: nat, c: Id, q: Id, y: Id)
    requires CanResplitInner(t, sh, sl, contents, p, j, l, r, at, c, q) && y in t.nodes && ParentOk(t, sl, y)
    requires c in t.nodes && at < |JoinedKeys(t, p, j, l, r)|
    requires |JoinedKids(t, l, r)| == |JoinedKeys(t, p, j, l, r)| + 1
    requires y in ResplitInner(t, p, j, l, r, at, c, q).nodes
    ensures ParentOk(ResplitInner(t, p, j, l, r, at, c, q), Tight, y)
  {
    hide Holds, NodesOk, NodeOk, ResplitInner, Framed;
    ResplitInnerAt(t, sh, sl, contents, p, j, l, r, at, c, q);
    MovedKid(t, sh, sl, contents, p, j, l, r, at, c, q);
    var kids, n := JoinedKids(t, l, r), |t.nodes[l].keys|;
    if y == c {
      if q == r { assert kids[at + 1..][0] == c; } else { assert kids[..at + 1][at] == c; }
    } else if y != t.root && t.nodes[y].parent == Some(l) {
      var i :| 0 <= i < |t.nodes[l].kids| && t.nodes[l].kids[i] == y;
      assert kids[i] == y && kids[..at + 1][i] == y;
    } else if y != t.root && t.nodes[y].parent == Some(r) {
      var i :| 0 <= i < |t.nodes[r].kids| && t.nodes[r].kids[i] == y;
      assert kids[n + 1 + i] == y;
      assert n + 1 + i >= at + 1;
      assert kids[at + 1..][n + 1 + i - (at + 1)] == y;
    }
  }

  /** Every child that stays keeps its parent; c gets the right one. */
  lemma ResplitInnerHalf(t: Tree, sh: Shape, sl: Slack, contents: map<int, Value>, p: Id, j: nat, l: Id, r: Id,
      at: nat, c: Id, q: Id, y: Id)
    requires CanResplitInner(t, sh, sl, contents, p, j, l, r, at, c, q) && (y == l || y == r)
    requires c in t.nodes && at < |JoinedKeys(t, p, j, l, r)|
    requires |JoinedKids(t, l, r)| == |JoinedKeys(t, p, j, l, r)| + 1
    requires Framed(ResplitInner(t, p, j, l, r, at, c, q), NewBound(t, sh, p, j, l, r, at), Tight)
    ensures NodeOk(ResplitInner(t, p, j, l, r, at, c, q), NewBound(t, sh, p, j, l, r, at), Tight, y)
  {
    hide Holds, NodesOk, ResplitInner, Sorted, AllInside, AllIn, ChildSpan, ChainOk, HoldsSpan, ParentOk, SizeOk, In,
      Inside;
    ResplitInnerAt(t, sh, sl, contents, p, j, l, r, at, c, q);
    var keys, kids, s := JoinedKeys(t, p, j, l, r), JoinedKids(t, l, r), Span(sh.span[l].lo, sh.span[r].hi);
    var t', sh' := ResplitInner(t, p, j, l, r, at, c, q), NewBound(t, sh, p, j, l, r, at);
    JoinedOk(t, sh, sl, contents, p, j, l, r);
    SplitInnerKeys(keys, s, at);
    At(t, sh, sl, contents, y);
    var from := if y == l then 0 else at + 1;
    forall i | 0 <= i < |t'.nodes[y].kids|
      ensures KidOk(t', sh', Tight, y, i)
    {
      assert t'.nodes[y].kids[i] == kids[from + i];
      assert JoinedKid(t, sh, keys, kids, s, l, r, from + i);
      KidParent(t, sh, sl, contents, p, j, l, r, at, c, q, from + i);
    }
  }

  lemma KidParent(t: Tree, sh: Shape, sl: Slack, contents: map<int, Value>, p: Id, j: nat, l: Id, r: Id, at: nat,
      c: Id, q: Id, i: nat)
    requires CanResplitInner(t, sh, sl, contents, p, j, l, r, at, c, q) && i < |JoinedKids(t, l, r)|
    requires c in t.nodes && at < |JoinedKeys(t, p, j, l, r)|
    requires |JoinedKids(t, l, r)| == |JoinedKeys(t, p, j, l, r)| + 1
    ensures var x, t' := JoinedKids(t, l, r)[i], ResplitInner(t, p, j, l, r, at, c, q);
      x in t.nodes && x in t'.nodes && x != l && x != r && t'.nodes[x].parent == Some(if i <= at then l else r)
  {
    hide Holds, NodesOk, ResplitInner, Sorted, AllInside, AllIn, ChildSpan, ChainOk, HoldsSpan, ParentOk, SizeOk, In,
      Inside;
    ResplitInnerAt(t, sh, sl, contents, p, j, l, r, at, c, q);
    MovedKid(t, sh, sl, contents, p, j, l, r, at, c, q);
    var kids, n := JoinedKids(t, l, r), |t.nodes[l].keys|;
    var x, m := kids[i], n + (if q == r then 0 else 1);
    At(t, sh, sl, contents, l);
    At(t, sh, sl, contents, r);
    if i <= n { assert KidOk(t, sh, sl, l, i); } else { assert KidOk(t, sh, sl, r, i - n - 1); }
    assert x != p;
    if x == c { JoinedDistinct(t, sh, sl, contents, p, j, l, r, i, m); }
  }

  lemma JoinedDistinct(t: Tree, sh: Shape, sl: Slack, contents: map<int, Value>, p: Id, j: nat, l: Id, r: Id, i: nat,
      m: nat)
    requires InnerSiblings(t, sh, sl, contents, p, j, l, r) && i < |JoinedKids(t, l, r)| && m < |JoinedKids(t, l, r)|
    ensures i != m ==> JoinedKids(t, l, r)[i] != JoinedKids(t, l, r)[m]
  {
    hide Holds, NodesOk, NodeOk, Sorted, AllInside, ChildSpan;
    JoinedOk(t, sh, sl, contents, p, j, l, r);
    var keys, kids, s := JoinedKeys(t, p, j, l, r), JoinedKids(t, l, r), Span(sh.span[l].lo, sh.span[r].hi);
    assert JoinedKid(t, sh, keys, kids, s, l, r, i) && JoinedKid(t, sh, keys, kids, s, l, r, m);
    if i != m {
      DistinctSpans(keys, s, i, m);
    }
  }

  lemma ResplitInnerTop(t: Tree, sh: Shape, sl: Slack, contents: map<int, Value>, p: Id, j: nat, l: Id, r: Id,
      at: nat, c: Id, q: Id)
    requires CanResplitInner(t, sh, sl, contents, p, j, l, r, at, c, q)
    requires c in t.nodes && at < |JoinedKeys(t, p, j, l, r)|
    requires |JoinedKids(t, l, r)| == |JoinedKeys(t, p, j, l, r)| + 1
    requires Framed(ResplitInner(t, p, j, l, r, at, c, q), NewBound(t, sh, p, j, l, r, at), Tight)
    ensures NodeOk(ResplitInner(t, p, j, l, r, at, c, q), NewBound(t, sh, p, j, l, r, at), Tight, p)
  {
    hide Holds, NodesOk, ResplitInner, Sorted, AllIn, AllInside, HoldsSpan, ParentOk, SizeOk, In, Inside, ChainOk,
      ChildSpan;
    ResplitInnerAt(t, sh, sl, contents, p, j, l, r, at, c, q);
    var keys, s := JoinedKeys(t, p, j, l, r), Span(sh.span[l].lo, sh.span[r].hi);
    var t', sh' := ResplitInner(t, p, j, l, r, at, c, q), NewBound(t, sh, p, j, l, r, at);
    JoinedOk(t, sh, sl, contents, p, j, l, r);
    SplitInnerKeys(keys, s, at);
    SiblingSpan(t, sh, sl, contents, p, j, l, r);
    ReplaceKey(t.nodes[p].keys, sh.span[p], j, keys[at]);
    At(t, sh, sl, contents, p);
    forall i | 0 <= i < |t'.nodes[p].kids|
      ensures KidOk(t', sh', Tight, p, i)
    {
      assert KidOk(t, sh, sl, p, i);
      if i != j { KidsDistinct(t, sh, sl, contents, p, i, j); }
      if i != j + 1 { KidsDistinct(t, sh, sl, contents, p, i, j + 1); }
      NotGrandchild(t, sh, sl, contents, p, j, l, r, at, c, q);
    }
  }

  lemma NotGrandchild(t: Tree, sh: Shape, sl: Slack, contents: map<int, Value>, p: Id, j: nat, l: Id, r: Id, at: nat,
      c: Id, q: Id)
    requires CanResplitInner(t, sh, sl, contents, p, j, l, r, at, c, q) && c in t.nodes
    ensures t.nodes[c].parent == Some(l) || t.nodes[c].parent == Some(r)
    ensures sh.level[c] + 2 == sh.level[p]
  {
    hide Holds, NodesOk, NodeOk, Sorted, AllInside, ChildSpan;
    MovedKid(t, sh, sl, contents, p, j, l, r, at, c, q);
    JoinedOk(t, sh, sl, contents, p, j, l, r);
    var keys, kids, s := JoinedKeys(t, p, j, l, r), JoinedKids(t, l, r), Span(sh.span[l].lo, sh.span[r].hi);
    assert JoinedKid(t, sh, keys, kids, s, l, r, |t.nodes[l].keys| + (if q == r then 0 else 1));
  }

  lemma ResplitInnerFar(t: Tree, sh: Shape, sl: Slack, contents: map<int, Value>, p: Id, j: nat, l: Id, r: Id,
      at: nat, c: Id, q: Id, y: Id)
    requires CanResplitInner(t, sh, sl, contents, p, j, l, r, at, c, q) && y in t.nodes && y != l && y != r && y != p
    requires c in t.nodes && at < |JoinedKeys(t, p, j, l, r)|
    requires |JoinedKids(t, l, r)| == |JoinedKeys(t, p, j, l, r)| + 1
    requires Framed(ResplitInner(t, p, j, l, r, at, c, q), NewBound(t, sh, p, j, l, r, at), Tight)
    ensures NodeOk(ResplitInner(t, p, j, l, r, at, c, q), NewBound(t, sh, p, j, l, r, at), Tight, y)
  {
    hide Holds, NodesOk, ResplitInner, Sorted, AllIn, AllInside, HoldsSpan, ParentOk, SizeOk, In, Inside, ChildSpan;
    ResplitInnerAt(t, sh, sl, contents, p, j, l, r, at, c, q);
    var t', sh' := ResplitInner(t, p, j, l, r, at, c, q), NewBound(t, sh, p, j, l, r, at);
    At(t, sh, sl, contents, y);
    if t.nodes[y].leaf {
      assert ChainOk(t, sh, y);
      assert NeighboursUntouched(t, sh, t', sh', y);
      FrameLeaf(t, sh, sl, t', sh', Tight, y);
    } else {
      NotGrandchild(t, sh, sl, contents, p, j, l, r, at, c, q);
      ParentOfSiblings(t, sh, sl, contents, p, j, l, r);
      forall i | 0 <= i < |t.nodes[y].kids|
        ensures KidUntouched(t, sh, sl, t', sh', Tight, t.nodes[y].kids[i])
      {
        assert KidOk(t, sh, sl, y, i);
      }
      FrameInner(t, sh, sl, t', sh', Tight, y);
    }
  }
}
