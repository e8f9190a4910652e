/** Deletion continued: two siblings merge into one, and a root left with a single child gives way to it. */
module BTreeCollapse {
  import opened Common
  import opened BTreeShape
  import opened BTreeInsert
  import opened BTreeDelete
  import opened BTreeMerge

  /** The shape after r has gone into l. */
  function JoinShape(sh: Shape, l: Id, r: Id): Shape
    requires l in sh.span && r in sh.span
  {
    Shape(sh.span[l := Span(sh.span[l].lo, sh.span[r].hi)] - {r}, sh.level - {r})
  }

  /** Taking separator j out of a sorted list joins the two gaps beside it. */
  lemma RemoveSeparator(keys: seq<int>, s: Span, j: nat)
    requires Sorted(keys) && AllInside(keys, s) && j < |keys|
    ensures Sorted(RemoveAt(keys, j)) && AllInside(RemoveAt(keys, j), s)
    ensures forall i {:trigger ChildSpan(RemoveAt(keys, j), s, i)} :: 0 <= i < |keys| ==>
      ChildSpan(RemoveAt(keys, j), s, i)
      == if i < j then ChildSpan(keys, s, i)
         else if i == j then Span(ChildSpan(keys, s, j).lo, ChildSpan(keys, s, j + 1).hi)
         else ChildSpan(keys, s, i + 1)
  {
    forall i | 0 <= i < |keys| - 1
      ensures Inside(RemoveAt(keys, j)[i], s)
    {
      assert Inside(keys[if i < j then i else i + 1], s);
    }
  }

  // ----- The parent of the two -----

  /** p without its separator j and without child r is sound, if its other children still hang under it. */
  lemma TopLosesKid(t: Tree, sh: Shape, sl: Slack, contents: map<int, Value>, p: Id, j: nat, l: Id, r: Id, t': Tree)
    requires Siblings(t, sh, sl, contents, p, j, l, r) && Framed(t', JoinShape(sh, l, r), Odd(p))
    requires t'.height == t.height
    requires t'.nodes[p] == t.nodes[p].(keys := RemoveAt(t.nodes[p].keys, j), kids := RemoveAt(t.nodes[p].kids, j + 1))
    requires forall c :: c in t.nodes && c != r && t.nodes[c].parent == Some(p) ==>
      c in t'.nodes && t'.nodes[c].parent == Some(p)
    ensures NodeOk(t', JoinShape(sh, l, r), Odd(p), p)
  {
    hide Holds, NodesOk, Sorted, AllInside, Inside, ChildSpan, KidOk, ParentOk, SizeOk, ChainOk, HoldsSpan;
    SiblingSpan(t, sh, sl, contents, p, j, l, r);
    RemoveSeparator(t.nodes[p].keys, sh.span[p], j);
    At(t, sh, sl, contents, p);
    forall i | 0 <= i < |t'.nodes[p].kids|
      ensures KidOk(t', JoinShape(sh, l, r), Odd(p), p, i)
    {
      RemainingKid(t, sh, sl, contents, p, j, l, r, t', i);
    }
  }

  lemma RemainingKid(t: Tree, sh: Shape, sl: Slack, contents: map<int, Value>, p: Id, j: nat, l: Id, r: Id, t': Tree,
      i: nat)
    requires Siblings(t, sh, sl, contents, p, j, l, r) && Framed(t', JoinShape(sh, l, r), Odd(p))
    requires t'.nodes[p] == t.nodes[p].(keys := RemoveAt(t.nodes[p].keys, j), kids := RemoveAt(t.nodes[p].kids, j + 1))
    requires forall c :: c in t.nodes && c != r && t.nodes[c].parent == Some(p) ==>
      c in t'.nodes && t'.nodes[c].parent == Some(p)
    requires i < |t'.nodes[p].kids|
    ensures |t'.nodes[p].kids| == |t'.nodes[p].keys| + 1 && KidOk(t', JoinShape(sh, l, r), Odd(p), p, i)
  {
    hide Holds, NodesOk, NodeOk, Sorted, AllInside, ChildSpan;
    SiblingSpan(t, sh, sl, contents, p, j, l, r);
    RemoveSeparator(t.nodes[p].keys, sh.span[p], j);
    var o := if i < j + 1 then i else i + 1;
    OneKid(t, sh, sl, contents, p, o);
    if o != j { KidsDistinct(t, sh, sl, contents, p, o, j); }
    KidsDistinct(t, sh, sl, contents, p, o, j + 1);
  }

  // ----- Leaves -----

  /** Leaf r, child j + 1 of p, goes into leaf l, child j; nothing refers to r any more. */
  function MergeLeaves(t: Tree, p: Id, j: nat, l: Id, r: Id): Tree
    requires p in t.nodes && l in t.nodes && r in t.nodes && j < |t.nodes[p].keys| && j + 1 < |t.nodes[p].kids|
    requires t.nodes[r].next.Some? ==> t.nodes[r].next.value in t.nodes
  {
    var a, b := t.nodes[l], t.nodes[r];
    var nodes := t.nodes[l := a.(keys := a.keys + b.keys, vals := a.vals + b.vals, next := b.next)];
    var nodes := if b.next.Some? then nodes[b.next.value := nodes[b.next.value].(prev := Some(l))] else nodes;
    var n := nodes[p];
    t.(nodes := nodes[p := n.(keys := RemoveAt(t.nodes[p].keys, j), kids := RemoveAt(t.nodes[p].kids, j + 1))] - {r})
  }

  ghost predicate CanMergeLeaves(t: Tree, sh: Shape, sl: Slack, contents: map<int, Value>, p: Id, j: nat, l: Id,
      r: Id) {
    && Siblings(t, sh, sl, contents, p, j, l, r) && t.nodes[l].leaf && (sl == Odd(l) || sl == Odd(r))
    && MinKeys(t) <= |t.nodes[l].keys| + |t.nodes[r].keys| < t.order
    && t.nodes[l].next == Some(r) && t.nodes[r].prev == Some(l)
    && (t.nodes[r].next.Some? ==>
          && t.nodes[r].next.value in t.nodes && t.nodes[t.nodes[r].next.value].leaf
          && t.nodes[r].next.value != l && t.nodes[r].next.value != r)
  }

  lemma MergeReady(t: Tree, sh: Shape, sl: Slack, contents: map<int, Value>, p: Id, j: nat, l: Id, r: Id)
    requires Siblings(t, sh, sl, contents, p, j, l, r) && t.nodes[l].leaf && (sl == Odd(l) || sl == Odd(r))
    requires MinKeys(t) <= |t.nodes[l].keys| + |t.nodes[r].keys| < t.order
    ensures CanMergeLeaves(t, sh, sl, contents, p, j, l, r)
  {
    hide Holds, NodesOk;
    SiblingsChained(t, sh, sl, contents, p, j, l, r);
    At(t, sh, sl, contents, r);
    assert ChainOk(t, sh, r);
    SiblingSpan(t, sh, sl, contents, p, j, l, r);
    SpanNotEmpty(t, sh, sl, contents, r);
  }

  /** What MergeLeaves does, node by node. */
  lemma MergeLeavesAt(t: Tree, sh: Shape, sl: Slack, contents: map<int, Value>, p: Id, j: nat, l: Id, r: Id)
    requires CanMergeLeaves(t, sh, sl, contents, p, j, l, r)
    ensures var t', a, b := MergeLeaves(t, p, j, l, r), t.nodes[l], t.nodes[r];
      && t' == t.(nodes := t'.nodes) && t'.nodes.Keys == t.nodes.Keys - {r}
      && t'.nodes[l] == a.(keys := a.keys + b.keys, vals := a.vals + b.vals, next := b.next)
      && t'.nodes[p] == t.nodes[p].(keys := RemoveAt(t.nodes[p].keys, j), kids := RemoveAt(t.nodes[p].kids, j + 1))
      && (forall y :: y in t.nodes && y != l && y != r && y != p ==>
            t'.nodes[y] == if b.next == Some(y) then t.nodes[y].(prev := Some(l)) else t.nodes[y])
  {
    hide Holds, NodesOk, NodeOk, Framed;
  }

  lemma MergeLeavesFramed(t: Tree, sh: Shape, sl: Slack, contents: map<int, Value>, p: Id, j: nat, l: Id, r: Id)
    requires CanMergeLeaves(t, sh, sl, contents, p, j, l, r)
    ensures Framed(MergeLeaves(t, p, j, l, r), JoinShape(sh, l, r), Odd(p))
  {
    hide Holds, NodesOk, NodeOk, MergeLeaves;
    MergeLeavesAt(t, sh, sl, contents, p, j, l, r);
  }

  lemma MergeLeavesKeeps(t: Tree, sh: Shape, sl: Slack, contents: map<int, Value>, p: Id, j: nat, l: Id, r: Id)
    requires CanMergeLeaves(t, sh, sl, contents, p, j, l, r)
    ensures Inv(MergeLeaves(t, p, j, l, r), JoinShape(sh, l, r), Odd(p), contents)
  {
    hide Holds, NodesOk, NodeOk, HoldsSpan, MergeLeaves, ParentOk, SizeOk;
    MergeLeavesFramed(t, sh, sl, contents, p, j, l, r);
    MergeLeavesAt(t, sh, sl, contents, p, j, l, r);
    var t', sh' := MergeLeaves(t, p, j, l, r), JoinShape(sh, l, r);
    forall y | y in t'.nodes
      ensures NodeOk(t', sh', Odd(p), y) && ParentOk(t', Odd(p), y) && SizeOk(t', Odd(p), y)
    {
      At(t, sh, sl, contents, y);
      MergeLeavesSize(t, sh, sl, contents, p, j, l, r, y);
      MergeLeavesParents(t, sh, sl, contents, p, j, l, r, y);
      MergeLeavesNode(t, sh, sl, contents, p, j, l, r, y);
    }
    NodesAll(t', sh', Odd(p));
    MergeLeavesHolds(t, sh, sl, contents, p, j, l, r);
  }

  lemma MergeLeavesNode(t: Tree, sh: Shape, sl: Slack, contents: map<int, Value>, p: Id, j: nat, l: Id, r: Id, y: Id)
    requires CanMergeLeaves(t, sh, sl, contents, p, j, l, r) && y in t.nodes && y != r
    requires Framed(MergeLeaves(t, p, j, l, r), JoinShape(sh, l, r), Odd(p)) && y in MergeLeaves(t, p, j, l, r).nodes
    ensures NodeOk(MergeLeaves(t, p, j, l, r), JoinShape(sh, l, r), Odd(p), y)
  {
    hide Holds, NodesOk, NodeOk, MergeLeaves;
    if y == l {
      MergedLeaf(t, sh, sl, contents, p, j, l, r);
    } else if y == p {
      MergeLeavesTop(t, sh, sl, contents, p, j, l, r);
    } else if t.nodes[y].leaf {
      MergeLeavesFarLeaf(t, sh, sl, contents, p, j, l, r, y);
    } else {
      MergeLeavesFarInner(t, sh, sl, contents, p, j, l, r, y);
    }
  }

  lemma MergeLeavesSize(t: Tree, sh: Shape, sl: Slack, contents: map<int, Value>, p: Id, j: nat, l: Id, r: Id, y: Id)
    requires CanMergeLeaves(t, sh, sl, contents, p, j, l, r) && y in t.nodes && y != r && SizeOk(t, sl, y)
    requires Framed(MergeLeaves(t, p, j, l, r), JoinShape(sh, l, r), Odd(p)) && y in MergeLeaves(t, p, j, l, r).nodes
    ensures SizeOk(MergeLeaves(t, p, j, l, r), Odd(p), y)
  {
    hide Holds, NodesOk, NodeOk, MergeLeaves;
    MergeLeavesAt(t, sh, sl, contents, p, j, l, r);
  }

  lemma MergeLeavesParents(t: Tree, sh: Shape, sl: Slack, contents: map<int, Value>, p: Id, j: nat, l: Id, r: Id, y: Id)
    requires CanMergeLeaves(t, sh, sl, contents, p, j, l, r) && y in t.nodes && y != r && ParentOk(t, sl, y)
    requires y in MergeLeaves(t, p, j, l, r).nodes
    ensures ParentOk(MergeLeaves(t, p, j, l, r), Odd(p), y)
  {
    hide Holds, NodesOk, MergeLeaves, Framed;
    MergeLeavesAt(t, sh, sl, contents, p, j, l, r);
    KeptKid(t.nodes[p].kids, j + 1, y);
    if y != t.root && t.nodes[y].parent == Some(r) {
      At(t, sh, sl, contents, r);
    }
  }

  lemma KeptKid(kids: seq<Id>, j: nat, y: Id)
    requires j < |kids| && y != kids[j]
    ensures y in kids ==> y in RemoveAt(kids, j)
  {
    if y in kids {
      var i :| 0 <= i < |kids| && kids[i] == y;
      assert RemoveAt(kids, j)[if i < j then i else i - 1] == y;
    }
  }

  lemma MergeLeavesChain(t: Tree, sh: Shape, sl: Slack, contents: map<int, Value>, p: Id, j: nat, l: Id, r: Id, y: Id)
    requires CanMergeLeaves(t, sh, sl, contents, p, j, l, r) && y in t.nodes && y != r && t.nodes[y].leaf
    requires Framed(MergeLeaves(t, p, j, l, r), JoinShape(sh, l, r), Odd(p)) && y in MergeLeaves(t, p, j, l, r).nodes
    ensures ChainOk(MergeLeaves(t, p, j, l, r), JoinShape(sh, l, r), y)
  {
    hide Holds, NodesOk, NodeOk, MergeLeaves, ChainOk;
    MergeLeavesAt(t, sh, sl, contents, p, j, l, r);
    Chained(t, sh, sl, contents, y);
    Chained(t, sh, sl, contents, l);
    Chained(t, sh, sl, contents, r);
    ChainCloses(t, sh, MergeLeaves(t, p, j, l, r), l, r, y);
  }

  /** The chain closes over the gap that r leaves. */
  lemma ChainCloses(t: Tree, sh: Shape, t': Tree, l: Id, r: Id, y: Id)
    requires t.nodes.Keys == sh.span.Keys == sh.level.Keys && t'.nodes.Keys == t.nodes.Keys - {r}
    requires l in t'.nodes && r in t.nodes && y in t'.nodes && t.nodes[y].leaf && t.nodes[l].leaf
    requires t.nodes[l].next == Some(r)
    requires ChainOk(t, sh, y) && ChainOk(t, sh, l) && ChainOk(t, sh, r) && t.nodes[r].next != Some(l)
    requires t.nodes[r].next != Some(r)
    requires t'.nodes[l].leaf && t'.nodes[l].next == t.nodes[r].next && t'.nodes[l].prev == t.nodes[l].prev
    requires forall x :: x in t'.nodes && x != l && t.nodes[x].leaf ==>
      && t'.nodes[x].leaf && t'.nodes[x].next == t.nodes[x].next
      && t'.nodes[x].prev == if t.nodes[r].next == Some(x) then Some(l) else t.nodes[x].prev
    ensures ChainOk(t', JoinShape(sh, l, r), y)
  {
  }

  lemma MergedLeaf(t: Tree, sh: Shape, sl: Slack, contents: map<int, Value>, p: Id, j: nat, l: Id, r: Id)
    requires CanMergeLeaves(t, sh, sl, contents, p, j, l, r)
    requires Framed(MergeLeaves(t, p, j, l, r), JoinShape(sh, l, r), Odd(p))
    ensures NodeOk(MergeLeaves(t, p, j, l, r), JoinShape(sh, l, r), Odd(p), l)
  {
    hide Holds, NodesOk, MergeLeaves, Sorted, AllIn, AllInside, KidOk, HoldsSpan, ParentOk, SizeOk, In, ChainOk;
    MergeLeavesAt(t, sh, sl, contents, p, j, l, r);
    LeafKeys(t, sh, sl, contents, l);
    LeafKeys(t, sh, sl, contents, r);
    SiblingSpan(t, sh, sl, contents, p, j, l, r);
    JoinKeys(t.nodes[l].keys, t.nodes[r].keys, sh.span[l].lo, t.nodes[p].keys[j], sh.span[r].hi);
    At(t, sh, sl, contents, l);
    MergeLeavesChain(t, sh, sl, contents, p, j, l, r, l);
  }

  lemma MergeLeavesTop(t: Tree, sh: Shape, sl: Slack, contents: map<int, Value>, p: Id, j: nat, l: Id, r: Id)
    requires CanMergeLeaves(t, sh, sl, contents, p, j, l, r)
    requires Framed(MergeLeaves(t, p, j, l, r), JoinShape(sh, l, r), Odd(p))
    ensures NodeOk(MergeLeaves(t, p, j, l, r), JoinShape(sh, l, r), Odd(p), p)
  {
    hide Holds, NodesOk, NodeOk, MergeLeaves, Framed;
    MergeLeavesAt(t, sh, sl, contents, p, j, l, r);
    TopLosesKid(t, sh, sl, contents, p, j, l, r, MergeLeaves(t, p, j, l, r));
  }

  lemma MergeLeavesFarLeaf(t: Tree, sh: Shape, sl: Slack, contents: map<int, Value>, p: Id, j: nat, l: Id, r: Id, y: Id)
    requires CanMergeLeaves(t, sh, sl, contents, p, j, l, r) && y in t.nodes && y != l && y != r && t.nodes[y].leaf
    requires Framed(MergeLeaves(t, p, j, l, r), JoinShape(sh, l, r), Odd(p))
    ensures NodeOk(MergeLeaves(t, p, j, l, r), JoinShape(sh, l, r), Odd(p), y)
  {
    hide Holds, NodesOk, MergeLeaves, Sorted, AllIn, AllInside, HoldsSpan, ParentOk, SizeOk, In, Inside, KidOk,
      ChildSpan, ChainOk;
    MergeLeavesAt(t, sh, sl, contents, p, j, l, r);
    At(t, sh, sl, contents, y);
    MergeLeavesChain(t, sh, sl, contents, p, j, l, r, y);
  }

  lemma MergeLeavesFarInner(t: Tree, sh: Shape, sl: Slack, contents: map<int, Value>, p: Id, j: nat, l: Id, r: Id,
      y: Id)
    requires CanMergeLeaves(t, sh, sl, contents, p, j, l, r) && y in t.nodes && y != p && !t.nodes[y].leaf
    requires Framed(MergeLeaves(t, p, j, l, r), JoinShape(sh, l, r), Odd(p)) && y in MergeLeaves(t, p, j, l, r).nodes
    ensures NodeOk(MergeLeaves(t, p, j, l, r), JoinShape(sh, l, r), Odd(p), y)
  {
    hide Holds, NodesOk, NodeOk, MergeLeaves, Framed;
    KeysAgree(t, sh, sl);
    MergeLeavesAt(t, sh, sl, contents, p, j, l, r);
    At(t, sh, sl, contents, y);
    ParentOfSiblings(t, sh, sl, contents, p, j, l, r);
    InnerBesideMerge(t, sh, sl, MergeLeaves(t, p, j, l, r), l, r, p, y);
  }

  lemma MergeLeavesHolds(t: Tree, sh: Shape, sl: Slack, contents: map<int, Value>, p: Id, j: nat, l: Id, r: Id)
    requires CanMergeLeaves(t, sh, sl, contents, p, j, l, r)
    requires Framed(MergeLeaves(t, p, j, l, r), JoinShape(sh, l, r), Odd(p))
    ensures Holds(MergeLeaves(t, p, j, l, r), JoinShape(sh, l, r), contents)
  {
    hide Holds, NodesOk, NodeOk, HoldsSpan, MergeLeaves;
    MergeLeavesAt(t, sh, sl, contents, p, j, l, r);
    var t', sh' := MergeLeaves(t, p, j, l, r), JoinShape(sh, l, r);
    forall y | y in t'.nodes && t'.nodes[y].leaf
      ensures HoldsSpan(t', sh', contents, y)
    {
      At(t, sh, sl, contents, y);
      if y == l {
        At(t, sh, sl, contents, r);
        SiblingSpan(t, sh, sl, contents, p, j, l, r);
        JoinedHeld(t, sh, t', sh', contents, l, r, t.nodes[p].keys[j]);
      } else {
        SameHeld(t, sh, t', sh', contents, y);
      }
    }
    HoldsAll(t', sh', contents);
  }

  lemma JoinedHeld(t: Tree, sh: Shape, t': Tree, sh': Shape, contents: map<int, Value>, l: Id, r: Id, key: int)
    requires l in t.nodes && r in t.nodes && l in t'.nodes && l in sh.span && r in sh.span && l in sh'.span
    requires HoldsSpan(t, sh, contents, l) && HoldsSpan(t, sh, contents, r)
    requires sh.span[l].hi == Some(key) == sh.span[r].lo && sh'.span[l] == Span(sh.span[l].lo, sh.span[r].hi)
    requires t'.nodes[l].keys == t.nodes[l].keys + t.nodes[r].keys
    requires t'.nodes[l].vals == t.nodes[l].vals + t.nodes[r].vals
    ensures HoldsSpan(t', sh', contents, l)
  {
    hide In;
    JoinedValues(contents, t.nodes[l].keys, t.nodes[l].vals, t.nodes[r].keys, t.nodes[r].vals);
    forall k | k in contents && In(k, sh'.span[l])
      ensures k in t'.nodes[l].keys
    {
      WholeSpan(sh.span[l].lo, key, sh.span[r].hi, k);
    }
  }

  // ----- Internal nodes -----

  /** Node r, child j + 1 of p, goes into l, child j, the separator coming down between them. */
  function MergeInner(t: Tree, p: Id, j: nat, l: Id, r: Id): Tree
    requires p in t.nodes && l in t.nodes && r in t.nodes && j < |t.nodes[p].keys| && j + 1 < |t.nodes[p].kids|
    requires forall i :: 0 <= i < |t.nodes[r].kids| ==> t.nodes[r].kids[i] in t.nodes
  {
    var nodes := SetParents(t.nodes, t.nodes[r].kids, l);
    t.(nodes := nodes[l := nodes[l].(keys := JoinedKeys(t, p, j, l, r), kids := JoinedKids(t, l, r))]
                     [p := nodes[p].(keys := RemoveAt(t.nodes[p].keys, j), kids := RemoveAt(t.nodes[p].kids, j + 1))]
               - {r})
  }

  ghost predicate CanMergeInner(t: Tree, sh: Shape, sl: Slack, contents: map<int, Value>, p: Id, j: nat, l: Id, r: Id) {
    && InnerSiblings(t, sh, sl, contents, p, j, l, r) && (sl == Odd(l) || sl == Odd(r))
    && MinKeys(t) <= |t.nodes[l].keys| + |t.nodes[r].keys| + 1 < t.order
    && (forall i :: 0 <= i < |t.nodes[r].kids| ==>
          t.nodes[r].kids[i] in t.nodes && t.nodes[r].kids[i] != l && t.nodes[r].kids[i] != r
            && t.nodes[r].kids[i] != p)
  }

  lemma MergeInnerReady(t: Tree, sh: Shape, sl: Slack, contents: map<int, Value>, p: Id, j: nat, l: Id, r: Id)
    requires InnerSiblings(t, sh, sl, contents, p, j, l, r) && (sl == Odd(l) || sl == Odd(r))
    requires MinKeys(t) <= |t.nodes[l].keys| + |t.nodes[r].keys| + 1 < t.order
    ensures CanMergeInner(t, sh, sl, contents, p, j, l, r)
  {
    hide Holds, NodesOk;
    At(t, sh, sl, contents, r);
    forall i | 0 <= i < |t.nodes[r].kids|
      ensures t.nodes[r].kids[i] in t.nodes && t.nodes[r].kids[i] != l && t.nodes[r].kids[i] != r
      ensures t.nodes[r].kids[i] != p
    {
      assert KidOk(t, sh, sl, r, i);
    }
  }

  /** What MergeInner does, node by node. */
  lemma MergeInnerAt(t: Tree, p: Id, j: nat, l: Id, r: Id)
    requires p in t.nodes && l in t.nodes && r in t.nodes && j < |t.nodes[p].keys| && j + 1 < |t.nodes[p].kids|
    requires l != r && l != p && r != p
    requires forall i :: 0 <= i < |t.nodes[r].kids| ==>
      t.nodes[r].kids[i] in t.nodes && t.nodes[r].kids[i] != l && t.nodes[r].kids[i] != p
    ensures var t' := MergeInner(t, p, j, l, r);
      && t' == t.(nodes := t'.nodes) && t'.nodes.Keys == t.nodes.Keys - {r}
      && t'.nodes[l] == t.nodes[l].(keys := JoinedKeys(t, p, j, l, r), kids := JoinedKids(t, l, r))
      && t'.nodes[p] == t.nodes[p].(keys := RemoveAt(t.nodes[p].keys, j), kids := RemoveAt(t.nodes[p].kids, j + 1))
      && (forall y :: y in t.nodes && y != l && y != r && y != p ==>
            t'.nodes[y] == if y in t.nodes[r].kids then t.nodes[y].(parent := Some(l)) else t.nodes[y])
  {
    assert l !in t.nodes[r].kids && p !in t.nodes[r].kids;
  }

  lemma MergeInnerFramed(t: Tree, sh: Shape, sl: Slack, contents: map<int, Value>, p: Id, j: nat, l: Id, r: Id)
    requires CanMergeInner(t, sh, sl, contents, p, j, l, r)
    ensures Framed(MergeInner(t, p, j, l, r), JoinShape(sh, l, r), Odd(p))
  {
    hide Holds, NodesOk, NodeOk, MergeInner;
    MergeInnerAt(t, p, j, l, r);
  }

  lemma MergeInnerKeeps(t: Tree, sh: Shape, sl: Slack, contents: map<int, Value>, p: Id, j: nat, l: Id, r: Id)
    requires CanMergeInner(t, sh, sl, contents, p, j, l, r)
    ensures Inv(MergeInner(t, p, j, l, r), JoinShape(sh, l, r), Odd(p), contents)
  {
    hide Holds, NodesOk, NodeOk, HoldsSpan, MergeInner, ParentOk, SizeOk;
    MergeInnerFramed(t, sh, sl, contents, p, j, l, r);
    MergeInnerAt(t, p, j, l, r);
    var t', sh' := MergeInner(t, p, j, l, r), JoinShape(sh, l, r);
    forall y | y in t'.nodes
      ensures NodeOk(t', sh', Odd(p), y) && ParentOk(t', Odd(p), y) && SizeOk(t', Odd(p), y)
    {
      At(t, sh, sl, contents, y);
      MergeInnerSize(t, sh, sl, contents, p, j, l, r, y);
      MergeInnerParents(t, sh, sl, contents, p, j, l, r, y);
      if y == l {
        MergedInner(t, sh, sl, contents, p, j, l, r);
      } else if y == p {
        MergeInnerTop(t, sh, sl, contents, p, j, l, r);
      } else {
        MergeInnerFar(t, sh, sl, contents, p, j, l, r, y);
      }
    }
    NodesAll(t', sh', Odd(p));
    forall y | y in t'.nodes && t'.nodes[y].leaf
      ensures HoldsSpan(t', sh', contents, y)
    {
      At(t, sh, sl, contents, y);
      SameHeld(t, sh, t', sh', contents, y);
    }
    HoldsAll(t', sh', contents);
  }

  lemma MergeInnerSize(t: Tree, sh: Shape, sl: Slack, contents: map<int, Value>, p: Id, j: nat, l: Id, r: Id, y: Id)
    requires CanMergeInner(t, sh, sl, contents, p, j, l, r) && y in t.nodes && y != r && SizeOk(t, sl, y)
    requires Framed(MergeInner(t, p, j, l, r), JoinShape(sh, l, r), Odd(p)) && y in MergeInner(t, p, j, l, r).nodes
    ensures SizeOk(MergeInner(t, p, j, l, r), Odd(p), y)
  {
    hide Holds, NodesOk, NodeOk, MergeInner;
    MergeInnerAt(t, p, j, l, r);
  }

  lemma MergeInnerParents(t: Tree, sh: Shape, sl: Slack, contents: map<int, Value>, p: Id, j: nat, l: Id, r: Id, y: Id)
    requires CanMergeInner(t, sh, sl, contents, p, j, l, r) && y in t.nodes && y != r && ParentOk(t, sl, y)
    requires y in MergeInner(t, p, j, l, r).nodes
    ensures ParentOk(MergeInner(t, p, j, l, r), Odd(p), y)
  {
    hide Holds, NodesOk, MergeInner, Framed;
    MergeInnerAt(t, p, j, l, r);
    KeptKid(t.nodes[p].kids, j + 1, y);
    assert forall x :: x in t.nodes[l].kids || x in t.nodes[r].kids ==> x in JoinedKids(t, l, r);
    if y in t.nodes[r].kids {
      At(t, sh, sl, contents, r);
      OnlyParent(t, sh, sl, r, y);
    }
  }

  lemma MergedInner(t: Tree, sh: Shape, sl: Slack, contents: map<int, Value>, p: Id, j: nat, l: Id, r: Id)
    requires CanMergeInner(t, sh, sl, contents, p, j, l, r)
    requires Framed(MergeInner(t, p, j, l, r), JoinShape(sh, l, r), Odd(p)) && l in MergeInner(t, p, j, l, r).nodes
    ensures NodeOk(MergeInner(t, p, j, l, r), JoinShape(sh, l, r), Odd(p), l)
  {
    hide Holds, NodesOk, MergeInner, Sorted, AllInside, AllIn, ChildSpan, ChainOk, HoldsSpan, ParentOk, SizeOk, In,
      Inside, Framed;
    KeysAgree(t, sh, sl);
    MergeInnerAt(t, p, j, l, r);
    JoinedOk(t, sh, sl, contents, p, j, l, r);
    var keys, kids, s := JoinedKeys(t, p, j, l, r), JoinedKids(t, l, r), Span(sh.span[l].lo, sh.span[r].hi);
    var t', sh' := MergeInner(t, p, j, l, r), JoinShape(sh, l, r);
    At(t, sh, sl, contents, l);
    forall i | 0 <= i < |kids|
      ensures KidOk(t', sh', Odd(p), l, i)
    {
      assert JoinedKid(t, sh, keys, kids, s, l, r, i);
      if i > |t.nodes[l].keys| {
        assert kids[i] == t.nodes[r].kids[i - |t.nodes[l].keys| - 1];
      } else {
        assert KidOk(t, sh, sl, l, i);
      }
    }
  }

  lemma MergeInnerTop(t: Tree, sh: Shape, sl: Slack, contents: map<int, Value>, p: Id, j: nat, l: Id, r: Id)
    requires CanMergeInner(t, sh, sl, contents, p, j, l, r)
    requires Framed(MergeInner(t, p, j, l, r), JoinShape(sh, l, r), Odd(p))
    ensures NodeOk(MergeInner(t, p, j, l, r), JoinShape(sh, l, r), Odd(p), p)
  {
    hide Holds, NodesOk, NodeOk, MergeInner, Framed;
    MergeInnerAt(t, p, j, l, r);
    ParentOfMoved(t, sh, sl, contents, r);
    TopLosesKid(t, sh, sl, contents, p, j, l, r, MergeInner(t, p, j, l, r));
  }

  lemma ParentOfMoved(t: Tree, sh: Shape, sl: Slack, contents: map<int, Value>, r: Id)
    requires Inv(t, sh, sl, contents) && r in t.nodes
    ensures forall c :: c in t.nodes[r].kids ==> c in t.nodes && t.nodes[c].parent == Some(r)
  {
    hide Holds, NodesOk, NodeOk;
    At(t, sh, sl, contents, r);
    forall c | c in t.nodes[r].kids
      ensures c in t.nodes && t.nodes[c].parent == Some(r)
    {
      OnlyParent(t, sh, sl, r, c);
    }
  }

  lemma MergeInnerFar(t: Tree, sh: Shape, sl: Slack, contents: map<int, Value>, p: Id, j: nat, l: Id, r: Id, y: Id)
    requires CanMergeInner(t, sh, sl, contents, p, j, l, r) && y in t.nodes && y != l && y != r && y != p
    requires Framed(MergeInner(t, p, j, l, r), JoinShape(sh, l, r), Odd(p)) && y in MergeInner(t, p, j, l, r).nodes
    ensures NodeOk(MergeInner(t, p, j, l, r), JoinShape(sh, l, r), Odd(p), y)
  {
    hide Holds, NodesOk, NodeOk, MergeInner, Framed, ChainOk, JoinShape, JoinedKeys, JoinedKids, RemoveAt, SizeOk,
      ParentOk;
    KeysAgree(t, sh, sl);
    MergeInnerAt(t, p, j, l, r);
    At(t, sh, sl, contents, y);
    var t' := MergeInner(t, p, j, l, r);
    if t.nodes[y].leaf {
      Chained(t, sh, sl, contents, y);
      LeafBesideMerge(t, sh, sl, t', l, r, p, y);
    } else {
      ParentOfSiblings(t, sh, sl, contents, p, j, l, r);
      ParentOfMoved(t, sh, sl, contents, r);
      InnerBesideMerge(t, sh, sl, t', l, r, p, y);
    }
  }

  lemma LeafBesideMerge(t: Tree, sh: Shape, sl: Slack, t': Tree, l: Id, r: Id, p: Id, y: Id)
    requires Framed(t, sh, sl) && l in t.nodes && r in t.nodes && Framed(t', JoinShape(sh, l, r), Odd(p))
    requires t'.height == t.height
    requires y in t.nodes && y in t'.nodes && y != l && t.nodes[y].leaf && !t.nodes[l].leaf && !t.nodes[r].leaf
    requires NodeOk(t, sh, sl, y) && ChainOk(t, sh, y)
    requires forall x :: x in t.nodes && x != r && t.nodes[x].leaf ==>
      x in t'.nodes && t'.nodes[x] == t.nodes[x].(parent := t'.nodes[x].parent)
    ensures NodeOk(t', JoinShape(sh, l, r), Odd(p), y)
  {
    assert NeighboursUntouched(t, sh, t', JoinShape(sh, l, r), y);
    FrameLeaf(t, sh, sl, t', JoinShape(sh, l, r), Odd(p), y);
  }

  /** An internal node that is neither of the two nor their parent keeps its children. */
  lemma InnerBesideMerge(t: Tree, sh: Shape, sl: Slack, t': Tree, l: Id, r: Id, p: Id, y: Id)
    requires Framed(t, sh, sl) && l in t.nodes && r in t.nodes && Framed(t', JoinShape(sh, l, r), Odd(p))
    requires t'.height == t.height
    requires !sl.Pending? && y in t.nodes && y in t'.nodes && y != l && y != p && !t.nodes[y].leaf
    requires NodeOk(t, sh, sl, y)
    requires t.nodes[l].parent == Some(p) == t.nodes[r].parent
    requires t'.nodes[y] == t.nodes[y].(parent := t'.nodes[y].parent)
    requires forall c :: c in t.nodes && t.nodes[c].parent == Some(y) ==> c in t'.nodes && t'.nodes[c].parent == Some(y)
    ensures NodeOk(t', JoinShape(sh, l, r), Odd(p), y)
  {
    hide Sorted, AllIn, AllInside, ChildSpan, ChainOk, Inside;
    forall i | 0 <= i < |t.nodes[y].kids|
      ensures KidUntouched(t, sh, sl, t', JoinShape(sh, l, r), Odd(p), t.nodes[y].kids[i])
    {
      assert KidOk(t, sh, sl, y, i);
    }
    FrameInner(t, sh, sl, t', JoinShape(sh, l, r), Odd(p), y);
  }

  // ----- The root -----

  /** The root's only child becomes the root. */
  function CollapseRoot(t: Tree, c: Id): Tree
    requires c in t.nodes && t.height >= 1
  {
    Tree(t.order, t.nodes[c := t.nodes[c].(parent := None)] - {t.root}, c, t.height - 1)
  }

  function CollapseShape(sh: Shape, root: Id): Shape {
    Shape(sh.span - {root}, sh.level - {root})
  }

  lemma CollapseKeeps(t: Tree, sh: Shape, contents: map<int, Value>, c: Id)
    requires Inv(t, sh, Odd(t.root), contents) && t.nodes[t.root].keys == [] && t.nodes[t.root].kids == [c]
    ensures t.height >= 1 && c in t.nodes && Inv(CollapseRoot(t, c), CollapseShape(sh, t.root), Tight, contents)
  {
    hide Holds, NodesOk, NodeOk, HoldsSpan;
    OnlyKid(t, sh, contents, c);
    var t', sh' := CollapseRoot(t, c), CollapseShape(sh, t.root);
    forall y | y in t'.nodes
      ensures NodeOk(t', sh', Tight, y) && ParentOk(t', Tight, y) && SizeOk(t', Tight, y)
    {
      CollapseNode(t, sh, contents, c, y);
    }
    NodesAll(t', sh', Tight);
    forall y | y in t'.nodes && t'.nodes[y].leaf
      ensures HoldsSpan(t', sh', contents, y)
    {
      At(t, sh, Odd(t.root), contents, y);
      SameHeld(t, sh, t', sh', contents, y);
    }
    HoldsAll(t', sh', contents);
  }

  lemma OnlyKid(t: Tree, sh: Shape, contents: map<int, Value>, c: Id)
    requires Inv(t, sh, Odd(t.root), contents) && t.nodes[t.root].keys == [] && t.nodes[t.root].kids == [c]
    ensures c in t.nodes && c != t.root && t.height >= 2 && sh.level[c] + 2 == t.height
    ensures sh.span[c] == Span(None, None)
    ensures t.nodes[c].parent == Some(t.root) && !t.nodes[t.root].leaf
  {
    hide Holds, NodesOk;
    At(t, sh, Odd(t.root), contents, t.root);
    assert KidOk(t, sh, Odd(t.root), t.root, 0);
  }

  lemma CollapseNode(t: Tree, sh: Shape, contents: map<int, Value>, c: Id, y: Id)
    requires Inv(t, sh, Odd(t.root), contents) && t.nodes[t.root].keys == [] && t.nodes[t.root].kids == [c]
    requires c in t.nodes && t.height >= 1 && y in t.nodes && y != t.root
    requires Framed(CollapseRoot(t, c), CollapseShape(sh, t.root), Tight)
    ensures var t', sh' := CollapseRoot(t, c), CollapseShape(sh, t.root);
      NodeOk(t', sh', Tight, y) && ParentOk(t', Tight, y) && SizeOk(t', Tight, y)
  {
    hide Holds, NodesOk, Sorted, AllIn, AllInside, HoldsSpan, In, Inside, ChildSpan;
    var t', sh', sl := CollapseRoot(t, c), CollapseShape(sh, t.root), Odd(t.root);
    OnlyKid(t, sh, contents, c);
    var p, i := Placed(t, sh, sl, contents, y);
    At(t, sh, sl, contents, y);
    if t.nodes[y].leaf {
      assert ChainOk(t, sh, y);
      FrameLeaf(t, sh, sl, t', sh', Tight, y);
    } else {
      forall i | 0 <= i < |t.nodes[y].kids|
        ensures KidUntouched(t, sh, sl, t', sh', Tight, t.nodes[y].kids[i])
      {
        assert KidOk(t, sh, sl, y, i);
      }
      FrameInner(t, sh, sl, t', sh', Tight, y);
    }
  }
}
