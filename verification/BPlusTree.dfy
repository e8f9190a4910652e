/**
  The B+tree of pysql/storage/btree.py as an object: its nodes are changed in place, step by step, and every
  operation is proved against the map of bindings the tree stands for.
*/
module BPlusTrees {
  import opened Common
  import opened BTreeShape
  import opened BTreeInsert
  import opened BTreeDelete
  import opened BTreeMerge
  import opened BTreeCollapse
  import opened BTreeHeight

  // ----- Range scans -----

  predicate AboveLow(k: int, low: Option<int>, includeLow: bool) {
    low.Some? ==> (if includeLow then low.value <= k else low.value < k)
  }

  predicate BelowHigh(k: int, high: Option<int>, includeHigh: bool) {
    high.Some? ==> (if includeHigh then k <= high.value else k < high.value)
  }

  predicate Ascending(out: seq<(int, Value)>) {
    forall i, j :: 0 <= i < j < |out| ==> out[i].0 < out[j].0
  }

  /** `out` lists, in order, the bindings whose key is both wanted and already seen. */
  ghost predicate Lists(out: seq<(int, Value)>, contents: map<int, Value>, wanted: set<int>, seen: set<int>) {
    && Ascending(out)
    && forall p :: p in out <==> p.0 in contents && contents[p.0] == p.1 && p.0 in wanted && p.0 in seen
  }

  /** What has been seen once the first i keys of a leaf have been looked at. */
  ghost function Seen(passed: set<int>, keys: seq<int>, i: nat): set<int>
    requires i <= |keys|
  {
    passed + set k | k in keys[..i]
  }

  lemma SeenNone(passed: set<int>, keys: seq<int>)
    ensures Seen(passed, keys, 0) == passed
  {
  }

  /** The keys of a leaf are bound, follow all those already passed, and leave no gap. */
  ghost predicate Upcoming(contents: map<int, Value>, passed: set<int>, n: Node) {
    && Sorted(n.keys) && |n.vals| == |n.keys|
    && (forall i :: 0 <= i < |n.keys| ==> n.keys[i] in contents && contents[n.keys[i]] == n.vals[i])
    && (forall i, k :: 0 <= i < |n.keys| && k in passed ==> k < n.keys[i])
    && (forall i, k :: 0 <= i < |n.keys| && k in contents && k < n.keys[i] ==> k in passed || k in n.keys)
  }

  lemma ListOne(out: seq<(int, Value)>, contents: map<int, Value>, wanted: set<int>, passed: set<int>, n: Node, i: nat)
    requires Upcoming(contents, passed, n) && i < |n.keys| && Lists(out, contents, wanted, Seen(passed, n.keys, i))
    ensures n.keys[i] in wanted ==> Lists(out + [(n.keys[i], n.vals[i])], contents, wanted, Seen(passed, n.keys, i + 1))
    ensures n.keys[i] !in wanted ==> Lists(out, contents, wanted, Seen(passed, n.keys, i + 1))
  {
    var key, seen, seen' := n.keys[i], Seen(passed, n.keys, i), Seen(passed, n.keys, i + 1);
    assert n.keys[..i + 1] == n.keys[..i] + [key];
    assert seen' == seen + {key};
    assert key !in seen;
    forall j | 0 <= j < |out|
      ensures out[j].0 < key
    {
      assert out[j] in out;
    }
    var longer := out + [(key, n.vals[i])];
    forall p
      ensures p in longer <==> p in out || p == (key, n.vals[i])
    {
    }
  }

  /** When a key is too large, so are all that follow. */
  lemma NoMore(out: seq<(int, Value)>, contents: map<int, Value>, wanted: set<int>, passed: set<int>, n: Node, i: nat)
    requires Upcoming(contents, passed, n) && i < |n.keys| && Lists(out, contents, wanted, Seen(passed, n.keys, i))
    requires forall k :: k in wanted ==> k < n.keys[i]
    ensures Lists(out, contents, wanted, contents.Keys)
  {
    forall k | k in contents && k in wanted
      ensures k in Seen(passed, n.keys, i)
    {
      if k in n.keys {
        var j :| 0 <= j < |n.keys| && n.keys[j] == k;
        assert n.keys[..i][j] == k;
      }
    }
    ListSame(out, contents, wanted, Seen(passed, n.keys, i), contents.Keys);
  }

  ghost function Wanted(contents: map<int, Value>, low: Option<int>, high: Option<int>, includeLow: bool,
      includeHigh: bool): set<int> {
    set k | k in contents && AboveLow(k, low, includeLow) && BelowHigh(k, high, includeHigh)
  }

  lemma AllListed(out: seq<(int, Value)>, sh: Shape, contents: map<int, Value>, low: Option<int>, high: Option<int>,
      includeLow: bool, includeHigh: bool)
    requires var wanted := Wanted(contents, low, high, includeLow, includeHigh);
      Lists(out, contents, wanted, contents.Keys) || Lists(out, contents, wanted, Passed(sh, contents, None))
    ensures Ascending(out)
    ensures forall k: int, v: Value :: (k, v) in out <==>
      k in contents && contents[k] == v && AboveLow(k, low, includeLow) && BelowHigh(k, high, includeHigh)
  {
    assert Passed(sh, contents, None) == contents.Keys;
  }

  /** Nothing wanted lies to the left of the leaf where the scan begins. */
  lemma StartScan(sh: Shape, contents: map<int, Value>, wanted: set<int>, x: Id)
    requires x in sh.span && forall k :: k in wanted && sh.span[x].lo.Some? ==> sh.span[x].lo.value <= k
    ensures Lists([], contents, wanted, Passed(sh, contents, Some(x)))
    ensures Behind(sh, {}, Some(x))
  {
  }

  lemma ListSame(out: seq<(int, Value)>, contents: map<int, Value>, wanted: set<int>, seen: set<int>, seen': set<int>)
    requires Lists(out, contents, wanted, seen)
    requires forall k :: k in contents && k in wanted ==> (k in seen <==> k in seen')
    ensures Lists(out, contents, wanted, seen')
  {
    forall p: (int, Value)
      ensures p in out <==> p.0 in contents && contents[p.0] == p.1 && p.0 in wanted && p.0 in seen'
    {
      var (k, v) := p;
      assert k in contents && k in wanted ==> (k in seen <==> k in seen');
    }
  }

  /** The keys of `contents` that lie to the left of leaf x, or all of them when the chain has ended. */
  ghost function Passed(sh: Shape, contents: map<int, Value>, x: Option<Id>): set<int>
    requires x.Some? ==> x.value in sh.span
  {
    set k | k in contents && (x.Some? ==> sh.span[x.value].lo.Some? && k < sh.span[x.value].lo.value)
  }

  /** Going on to the next leaf passes exactly the keys of this one. */
  lemma PassLeaf(t: Tree, sh: Shape, contents: map<int, Value>, x: Id)
    requires Inv(t, sh, Tight, contents) && x in t.nodes && t.nodes[x].leaf
    ensures var n, passed := t.nodes[x], Passed(sh, contents, Some(x));
      && (n.next.Some? ==> n.next.value in t.nodes && t.nodes[n.next.value].leaf)
      && Passed(sh, contents, n.next) == Seen(passed, n.keys, |n.keys|)
      && Upcoming(contents, passed, n)
  {
    hide NodesOk, Holds;
    At(t, sh, Tight, contents, x);
    assert ChainOk(t, sh, x);
    SpanNotEmpty(t, sh, Tight, contents, x);
    var n, passed := t.nodes[x], Passed(sh, contents, Some(x));
    assert n.keys[..|n.keys|] == n.keys;
    forall i | 0 <= i < |n.keys|
      ensures n.keys[i] in contents && In(n.keys[i], sh.span[x])
    {
    }
    forall k | k in contents
      ensures k in Passed(sh, contents, n.next) <==> k in passed || k in n.keys
    {
    }
  }

  /** The leaves already scanned: all of them end before leaf x begins. */
  ghost predicate Behind(sh: Shape, visited: set<Id>, x: Option<Id>)
    requires visited <= sh.span.Keys && (x.Some? ==> x.value in sh.span)
  {
    x.Some? ==> forall y :: y in visited ==>
      sh.span[y].hi.Some? && sh.span[x.value].lo.Some? && sh.span[y].hi.value <= sh.span[x.value].lo.value
  }

  /** The chain never comes back to a leaf. */
  lemma ChainAdvances(t: Tree, sh: Shape, contents: map<int, Value>, visited: set<Id>, x: Id)
    requires Inv(t, sh, Tight, contents) && x in t.nodes && t.nodes[x].leaf
    requires visited <= t.nodes.Keys && t.nodes.Keys == sh.span.Keys && Behind(sh, visited, Some(x))
    ensures x !in visited
    ensures t.nodes[x].next.Some? ==> t.nodes[x].next.value in t.nodes
    ensures Behind(sh, visited + {x}, t.nodes[x].next)
  {
    hide NodesOk, Holds;
    At(t, sh, Tight, contents, x);
    assert ChainOk(t, sh, x);
    SpanNotEmpty(t, sh, Tight, contents, x);
  }

  // ----- Two neighbouring siblings -----

  /** Nodes l and r are children j and j + 1 of p, and each is well formed on its own. */
  ghost predicate Adjacent(nodes: map<Id, Node>, p: Id, j: nat, l: Id, r: Id) {
    && p in nodes && l in nodes && r in nodes && l != r && l != p && r != p
    && j + 1 < |nodes[p].kids| == |nodes[p].keys| + 1 && nodes[p].kids[j] == l && nodes[p].kids[j + 1] == r
    && nodes[l].leaf == nodes[r].leaf
    && (nodes[l].leaf ==>
          && |nodes[l].keys| == |nodes[l].vals| && |nodes[r].keys| == |nodes[r].vals|
          && (nodes[r].next.Some? ==> nodes[r].next.value in nodes))
    && (!nodes[l].leaf ==> ForkOk(nodes, l) && ForkOk(nodes, r))
    && (!nodes[l].leaf ==> forall x :: x in nodes[l].kids || x in nodes[r].kids ==> x != l && x != r && x != p)
  }

  ghost predicate ForkOk(nodes: map<Id, Node>, x: Id)
    requires x in nodes
  {
    |nodes[x].kids| == |nodes[x].keys| + 1 && forall i :: 0 <= i < |nodes[x].kids| ==> nodes[x].kids[i] in nodes
  }

  lemma BeAdjacent(t: Tree, sh: Shape, sl: Slack, contents: map<int, Value>, p: Id, j: nat, l: Id, r: Id)
    requires Siblings(t, sh, sl, contents, p, j, l, r) && (sl.Odd? ==> sl.node == l || sl.node == r)
    ensures Adjacent(t.nodes, p, j, l, r)
    ensures !t.nodes[l].leaf ==>
      |t.nodes[l].kids| == |t.nodes[l].keys| + 1 && |t.nodes[r].kids| == |t.nodes[r].keys| + 1
  {
    hide NodesOk, Holds, HoldsSpan, Sorted, AllIn, AllInside, In, Inside, ChildSpan, SizeOk, ParentOk;
    At(t, sh, sl, contents, l);
    At(t, sh, sl, contents, r);
    ParentOfSiblings(t, sh, sl, contents, p, j, l, r);
    if t.nodes[l].leaf {
      assert ChainOk(t, sh, r);
    } else {
      forall x | x in t.nodes[l].kids || x in t.nodes[r].kids
        ensures x in t.nodes && x != l && x != r && x != p
      {
        var q := if x in t.nodes[l].kids then l else r;
        OnlyParent(t, sh, sl, q, x);
        LevelBelow(t, sh, sl, q, x);
      }
    }
  }

  lemma LevelBelow(t: Tree, sh: Shape, sl: Slack, y: Id, x: Id)
    requires Framed(t, sh, sl) && y in t.nodes && NodeOk(t, sh, sl, y) && x in t.nodes[y].kids
    ensures x in t.nodes && sh.level[x] + 1 == sh.level[y]
  {
    var i :| 0 <= i < |t.nodes[y].kids| && t.nodes[y].kids[i] == x;
    assert KidOk(t, sh, sl, y, i);
  }

  /** Borrowing from the left sibling keeps the invariant. */
  /** The last binding or child of `l` goes to its right neighbour `r`. */
  ghost function LastMoved(t: Tree, p: Id, j: nat, l: Id, r: Id): Tree
    requires Adjacent(t.nodes, p, j, l, r) && t.nodes[l].keys != []
  {
    var m := |t.nodes[l].keys| - 1;
    if t.nodes[l].leaf then Resplit(t, p, j, m) else ResplitInner(t, p, j, l, r, m, t.nodes[l].kids[m + 1], r)
  }

  /** The first binding or child of `r` goes to its left neighbour `l`. */
  ghost function FirstMoved(t: Tree, p: Id, j: nat, l: Id, r: Id): Tree
    requires Adjacent(t.nodes, p, j, l, r) && |t.nodes[r].keys| > 1
  {
    var m := |t.nodes[l].keys| + 1;
    if t.nodes[l].leaf then Resplit(t, p, j, m) else ResplitInner(t, p, j, l, r, m, t.nodes[r].kids[0], l)
  }

  lemma FromLeftKeeps(t: Tree, sh: Shape, contents: map<int, Value>, p: Id, j: nat, left: Id, node: Id)
    requires Siblings(t, sh, Odd(node), contents, p, j, left, node) && Adjacent(t.nodes, p, j, left, node)
    requires |t.nodes[node].keys| + 1 == MinKeys(t) < |t.nodes[left].keys| < t.order
    ensures var m := |t.nodes[left].keys| - 1; var sh' := MoveBound(sh, left, t.nodes[left].keys[m], node);
      Inv(LastMoved(t, p, j, left, node), sh', Tight, contents)
  {
    hide Inv;
    var m := |t.nodes[left].keys| - 1;
    if t.nodes[node].leaf {
      ResplitKeeps(t, sh, Odd(node), contents, p, j, left, node, m);
    } else {
      ResplitInnerKeeps(t, sh, Odd(node), contents, p, j, left, node, m, t.nodes[left].kids[m + 1], node);
    }
  }

  /** Borrowing from the right sibling keeps the invariant. */
  lemma FromRightKeeps(t: Tree, sh: Shape, contents: map<int, Value>, p: Id, j: nat, node: Id, right: Id)
    requires Siblings(t, sh, Odd(node), contents, p, j, node, right) && Adjacent(t.nodes, p, j, node, right)
    requires |t.nodes[node].keys| + 1 == MinKeys(t) < |t.nodes[right].keys| < t.order
    ensures var bound := t.nodes[right].keys[if t.nodes[node].leaf then 1 else 0];
      Inv(FirstMoved(t, p, j, node, right), MoveBound(sh, node, bound, right), Tight, contents)
  {
    hide Inv;
    var m := |t.nodes[node].keys| + 1;
    if t.nodes[node].leaf {
      ResplitKeeps(t, sh, Odd(node), contents, p, j, node, right, m);
    } else {
      ResplitInnerKeeps(t, sh, Odd(node), contents, p, j, node, right, m, t.nodes[right].kids[0], node);
    }
  }

  /** Merging keeps the invariant, up to the parent's size. */
  lemma JoinKeeps(t: Tree, sh: Shape, sl: Slack, contents: map<int, Value>, p: Id, j: nat, l: Id, r: Id)
    requires Siblings(t, sh, sl, contents, p, j, l, r) && Adjacent(t.nodes, p, j, l, r)
    requires sl == Odd(l) || sl == Odd(r)
    requires |t.nodes[l].keys| + |t.nodes[r].keys| + 1 == 2 * MinKeys(t)
    ensures t.nodes[l].leaf && t.nodes[r].next.Some? ==>
      t.nodes[r].next.value != l && t.nodes[r].next.value != r && t.nodes[r].next.value != p
    ensures t.nodes[l].leaf ==> Inv(MergeLeaves(t, p, j, l, r), JoinShape(sh, l, r), Odd(p), contents)
    ensures !t.nodes[l].leaf ==> Inv(MergeInner(t, p, j, l, r), JoinShape(sh, l, r), Odd(p), contents)
  {
    assert t.order >= 3;
    hide Inv;
    if t.nodes[l].leaf {
      MergeReady(t, sh, sl, contents, p, j, l, r);
      MergeLeavesKeeps(t, sh, sl, contents, p, j, l, r);
    } else {
      MergeInnerReady(t, sh, sl, contents, p, j, l, r);
      MergeInnerKeeps(t, sh, sl, contents, p, j, l, r);
    }
  }

  /** A node that lacks a key and the sibling beside it. */
  lemma Beside(t: Tree, sh: Shape, contents: map<int, Value>, p: Id, j: nat, l: Id, r: Id, short: Id)
    requires Inv(t, sh, Odd(short), contents) && p in t.nodes && !t.nodes[p].leaf && j + 1 < |t.nodes[p].kids|
    requires t.nodes[p].kids[j] == l && t.nodes[p].kids[j + 1] == r && (short == l || short == r)
    ensures Siblings(t, sh, Odd(short), contents, p, j, l, r) && Adjacent(t.nodes, p, j, l, r)
    ensures l in sh.span && r in sh.span && l in sh.level && sh.level[l] == sh.level[r] < sh.level[p] < t.height
    ensures var other := if short == l then r else l;
      other in t.nodes && MinKeys(t) <= |t.nodes[other].keys| < t.order
  {
    hide NodesOk, Holds;
    AreSiblings(t, sh, Odd(short), contents, p, j);
    BeAdjacent(t, sh, Odd(short), contents, p, j, l, r);
    At(t, sh, Odd(short), contents, p);
    At(t, sh, Odd(short), contents, l);
    At(t, sh, Odd(short), contents, r);
  }

  /** A key is in one leaf only. */
  lemma OneHome(t: Tree, sh: Shape, contents: map<int, Value>, key: int, leaf: Id)
    requires Inv(t, sh, Tight, contents) && leaf in t.nodes && t.nodes[leaf].leaf && In(key, sh.span[leaf])
    ensures forall x :: x in t.nodes && t.nodes[x].leaf && key in t.nodes[x].keys ==> x == leaf
  {
    hide NodesOk, Holds;
    forall x | x in t.nodes && t.nodes[x].leaf && key in t.nodes[x].keys
      ensures x == leaf
    {
      LeafKeys(t, sh, Tight, contents, x);
      LeafLevels(t, sh, Tight, contents, x, leaf);
      SpansDisjoint(t, sh, Tight, contents, x, leaf, key);
    }
  }

  lemma FirstIsBound(t: Tree, sh: Shape, contents: map<int, Value>, x: Id)
    requires Inv(t, sh, Tight, contents) && x in t.nodes && t.nodes[x].leaf && t.nodes[x].keys != []
    ensures t.nodes[x].keys[0] in contents
  {
    At(t, sh, Tight, contents, x);
  }

  lemma TallEnough(t: Tree, sh: Shape, contents: map<int, Value>)
    requires Inv(t, sh, Tight, contents) && |contents| >= t.order
    ensures t.height >= 2
  {
    if t.height == 1 { OneLevelHolds(t, sh, contents); }
  }

  lemma RootIsFork(t: Tree, sh: Shape, contents: map<int, Value>)
    requires Inv(t, sh, Tight, contents) && t.height >= 2
    ensures !t.nodes[t.root].leaf
  {
    At(t, sh, Tight, contents, t.root);
  }

  /** The first key of a leaf may stand as the separator to its left. */
  lemma SeparatorKeeps(t: Tree, sh: Shape, contents: map<int, Value>, p: Id, j: nat, l: Id, r: Id)
    requires Inv(t, sh, Tight, contents) && p in t.nodes && !t.nodes[p].leaf && j + 1 < |t.nodes[p].kids|
    requires t.nodes[p].kids[j] == l && t.nodes[p].kids[j + 1] == r
    requires r in t.nodes && t.nodes[r].leaf && t.nodes[r].keys != []
    ensures j < |t.nodes[p].keys| && l in sh.span && r in sh.span
    ensures var n, key := t.nodes[p], t.nodes[r].keys[0];
      Inv(t.(nodes := t.nodes[p := n.(keys := n.keys[j := key])]), MoveBound(sh, l, key, r), Tight, contents)
  {
    hide NodesOk, Holds;
    AreSiblings(t, sh, Tight, contents, p, j);
    At(t, sh, Tight, contents, l);
    At(t, sh, Tight, contents, r);
    var at, n := |t.nodes[l].keys|, t.nodes[p];
    ResplitKeeps(t, sh, Tight, contents, p, j, l, r, at);
    BorrowNone(t.nodes[l].keys, t.nodes[r].keys);
    BorrowNone(t.nodes[l].vals, t.nodes[r].vals);
    assert Resplit(t, p, j, at).nodes == t.nodes[p := n.(keys := n.keys[j := t.nodes[r].keys[0]])];
  }

  /** The tree is as before, but that the separator to the left of leaf `x` is the leaf's first key. */
  predicate Respaced(before: map<Id, Node>, after: map<Id, Node>, x: Id) {
    && before.Keys == after.Keys
    && forall p :: p in before ==>
         && after[p] == before[p].(keys := after[p].keys) && |after[p].keys| == |before[p].keys|
         && forall i :: 0 <= i < |before[p].keys| ==>
              after[p].keys[i] ==
                if i + 1 < |before[p].kids| && before[p].kids[i + 1] == x && x in after && after[x].keys != []
                then after[x].keys[0] else before[p].keys[i]
  }

  /** Leaf `x` has lost `key` and nothing else has changed, but for the separator to its left if `key` came first. */
  ghost predicate Trimmed(before: map<Id, Node>, after: map<Id, Node>, x: Id, key: int) {
    exists i :: Taken(before, after, x, key, i)
  }

  predicate Taken(before: map<Id, Node>, after: map<Id, Node>, x: Id, key: int, i: nat) {
    && x in before && i < |before[x].keys| == |before[x].vals| && before[x].keys[i] == key
    && var n := before[x];
       var kept := before[x := n.(keys := RemoveAt(n.keys, i), vals := RemoveAt(n.vals, i))];
       if n.parent.Some? && i == 0 && |n.keys| > 1 then Respaced(kept, after, x) else after == kept
  }

  lemma BeTrimmed(before: map<Id, Node>, after: map<Id, Node>, x: Id, key: int, i: nat)
    requires x in before && i < |before[x].keys| == |before[x].vals| && before[x].keys[i] == key
    requires var n := before[x];
      var kept := before[x := n.(keys := RemoveAt(n.keys, i), vals := RemoveAt(n.vals, i))];
      if n.parent.Some? && i == 0 && |n.keys| > 1 then Respaced(kept, after, x) else after == kept
    ensures Trimmed(before, after, x, key)
  {
    assert Taken(before, after, x, key, i);
  }

  /** A short node borrows from the sibling on its left if that one can spare a key, else from the one on its right
      if that one can, and else is merged, with its left sibling if it has one. */
  ghost predicate Repaired(before: map<Id, Node>, after: map<Id, Node>, x: Id, least: nat) {
    exists p, i :: RepairedAt(before, after, x, p, i, least)
  }

  predicate RepairedAt(before: map<Id, Node>, after: map<Id, Node>, x: Id, p: Id, i: nat, least: nat) {
    && p in before && i < |before[p].kids| && before[p].kids[i] == x && KidsKnown(before, p)
    && var kids := before[p].kids;
       if i > 0 && |before[kids[i - 1]].keys| > least then Gave(before, after, kids[i - 1])
       else if i + 1 < |kids| && |before[kids[i + 1]].keys| > least then Gave(before, after, kids[i + 1])
       else if i > 0 then x !in after
       else |kids| > 1 && kids[1] !in after
  }

  predicate KidsKnown(nodes: map<Id, Node>, p: Id)
    requires p in nodes
  {
    forall k :: 0 <= k < |nodes[p].kids| ==> nodes[p].kids[k] in nodes
  }

  lemma BeRepaired(before: map<Id, Node>, after: map<Id, Node>, x: Id, p: Id, i: nat, least: nat)
    requires p in before && i < |before[p].kids| && before[p].kids[i] == x && KidsKnown(before, p)
    requires var kids := before[p].kids;
      var left, right := i > 0 && |before[kids[i - 1]].keys| > least,
        i + 1 < |kids| && |before[kids[i + 1]].keys| > least;
      && (left ==> Gave(before, after, kids[i - 1])) && (!left && right ==> Gave(before, after, kids[i + 1]))
      && (!left && !right ==> if i > 0 then x !in after else |kids| > 1 && kids[1] !in after)
    ensures Repaired(before, after, x, least)
  {
    assert RepairedAt(before, after, x, p, i, least);
  }

  lemma KnowKids(t: Tree, sh: Shape, sl: Slack, contents: map<int, Value>, p: Id)
    requires Inv(t, sh, sl, contents) && p in t.nodes && !t.nodes[p].leaf
    ensures KidsKnown(t.nodes, p)
  {
    hide NodesOk, Holds;
    KidsAreNodes(t, sh, sl, contents, p);
  }

  predicate Gave(before: map<Id, Node>, after: map<Id, Node>, x: Id) {
    x in before && after.Keys == before.Keys && |after[x].keys| + 1 == |before[x].keys|
  }

  lemma LeftGives(t: Tree, sh: Shape, contents: map<int, Value>, p: Id, j: nat, left: Id, node: Id)
    requires Inv(t, sh, Odd(node), contents) && p in t.nodes && !t.nodes[p].leaf && j + 1 < |t.nodes[p].kids|
    requires t.nodes[p].kids[j] == left && t.nodes[p].kids[j + 1] == node && left in t.nodes && node in t.nodes
    requires |t.nodes[node].keys| + 1 == MinKeys(t) < |t.nodes[left].keys|
    ensures Adjacent(t.nodes, p, j, left, node) && left in sh.span && node in sh.span
    ensures var m := |t.nodes[left].keys| - 1;
      Inv(LastMoved(t, p, j, left, node), MoveBound(sh, left, t.nodes[left].keys[m], node), Tight, contents)
  {
    hide Inv;
    Beside(t, sh, contents, p, j, left, node, node);
    FromLeftKeeps(t, sh, contents, p, j, left, node);
  }

  lemma RightGives(t: Tree, sh: Shape, contents: map<int, Value>, p: Id, j: nat, node: Id, right: Id)
    requires Inv(t, sh, Odd(node), contents) && p in t.nodes && !t.nodes[p].leaf && j + 1 < |t.nodes[p].kids|
    requires t.nodes[p].kids[j] == node && t.nodes[p].kids[j + 1] == right && right in t.nodes && node in t.nodes
    requires |t.nodes[node].keys| + 1 == MinKeys(t) < |t.nodes[right].keys|
    ensures Adjacent(t.nodes, p, j, node, right) && right in sh.span && node in sh.span && |t.nodes[right].keys| > 1
    ensures var bound := t.nodes[right].keys[if t.nodes[node].leaf then 1 else 0];
      Inv(FirstMoved(t, p, j, node, right), MoveBound(sh, node, bound, right), Tight, contents)
  {
    hide Inv;
    Beside(t, sh, contents, p, j, node, right, node);
    FromRightKeeps(t, sh, contents, p, j, node, right);
  }

  /** A node is at one place in one list of children. */
  lemma OnlyPlace(t: Tree, sh: Shape, contents: map<int, Value>, p: Id, j: nat, q: Id, i: nat)
    requires Inv(t, sh, Tight, contents) && p in t.nodes && j < |t.nodes[p].kids|
    requires q in t.nodes && i < |t.nodes[q].kids| && t.nodes[q].kids[i] == t.nodes[p].kids[j]
    ensures q == p && i == j
  {
    hide NodesOk, Holds;
    At(t, sh, Tight, contents, p);
    At(t, sh, Tight, contents, q);
    OnlyParent(t, sh, Tight, p, t.nodes[p].kids[j]);
    OnlyParent(t, sh, Tight, q, t.nodes[q].kids[i]);
    if i != j { KidsDistinct(t, sh, Tight, contents, p, i, j); }
  }

  lemma SeparatorSet(t: Tree, sh: Shape, contents: map<int, Value>, p: Id, j: nat, x: Id)
    requires Inv(t, sh, Tight, contents) && p in t.nodes && j + 1 < |t.nodes[p].kids| && j < |t.nodes[p].keys|
    requires t.nodes[p].kids[j + 1] == x && x in t.nodes && t.nodes[x].keys != [] && x != p
    ensures var n := t.nodes[p];
      Respaced(t.nodes, t.nodes[p := n.(keys := n.keys[j := t.nodes[x].keys[0]])], x)
  {
    hide Inv;
    forall q, i | q in t.nodes && 0 <= i < |t.nodes[q].kids| && t.nodes[q].kids[i] == x
      ensures q == p && i == j + 1
    {
      OnlyPlace(t, sh, contents, p, j + 1, q, i);
    }
  }

  lemma NoSeparator(t: Tree, sh: Shape, contents: map<int, Value>, x: Id)
    requires Inv(t, sh, Tight, contents) && x in t.nodes
    requires t.nodes[x].parent.Some? ==>
      t.nodes[x].parent.value in t.nodes && 0 < |t.nodes[t.nodes[x].parent.value].kids|
      && t.nodes[t.nodes[x].parent.value].kids[0] == x
    ensures Respaced(t.nodes, t.nodes, x)
  {
    hide NodesOk, Holds;
    forall q, i | q in t.nodes && 0 <= i < |t.nodes[q].kids| && t.nodes[q].kids[i] == x
      ensures i == 0
    {
      At(t, sh, Tight, contents, q);
      OnlyParent(t, sh, Tight, q, x);
      OnlyPlace(t, sh, contents, q, 0, q, i);
    }
  }

  lemma BorrowNone<T>(a: seq<T>, b: seq<T>)
    ensures (a + b)[..|a|] == a && (a + b)[|a|..] == b
  {
  }

  class BPlusTree {
    const order: nat
    var nodes: map<Id, Node>
    var root: Id
    var size: nat
    var height: nat
    var unused: Id                        // no node has this identifier or a larger one
    ghost var shape: Shape
    ghost var contents: map<int, Value>   // the bindings the tree stands for

    ghost function Tree(): Tree
      reads this
    {
      BTreeShape.Tree(order, nodes, root, height)
    }

    ghost predicate Numbered()
      reads this
    {
      forall x :: x in nodes ==> x < unused
    }

    /** Sound but for the slack. */
    ghost predicate Loose(sl: Slack)
      reads this
    {
      Inv(Tree(), shape, sl, contents) && Numbered()
    }

    ghost predicate Valid()
      reads this
    {
      Loose(Tight) && size == |contents|
    }

    constructor (order: nat)
      requires order >= 3
      ensures Valid() && contents == map[] && this.order == order && height == 1
    {
      this.order := order;
      nodes := map[0 := Node(true, [], [], [], None, None, None)];
      root, size, height, unused := 0, 0, 1, 1;
      shape := Shape(map[0 := Span(None, None)], map[0 := 0]);
      contents := map[];
    }

    // ----- Lookup -----

    /** The number of keys at most `target`: where it goes in the list, after any equal key. */
    static method BisectRight(keys: seq<int>, target: int) returns (lo: nat)
      requires Sorted(keys)
      ensures lo <= |keys|
      ensures forall i :: 0 <= i < lo ==> keys[i] <= target
      ensures forall i :: lo <= i < |keys| ==> target < keys[i]
    {
      var hi := |keys|;
      lo := 0;
      while lo < hi
        invariant 0 <= lo <= hi <= |keys|
        invariant forall i :: 0 <= i < lo ==> keys[i] <= target
        invariant forall i :: hi <= i < |keys| ==> target < keys[i]
      {
        var mid := (lo + hi) / 2;
        if keys[mid] <= target {
          lo := mid + 1;
        } else {
          hi := mid;
        }
      }
    }

    /** The leaf whose span holds `key`. */
    method FindLeaf(key: int) returns (node: Id)
      requires Loose(Tight)
      ensures node in nodes && nodes[node].leaf && In(key, shape.span[node])
    {
      hide NodesOk, Holds;
      node := root;
      At(Tree(), shape, Tight, contents, node);
      while !nodes[node].leaf
        invariant node in nodes && NodeOk(Tree(), shape, Tight, node) && In(key, shape.span[node])
        decreases shape.level[node]
      {
        var idx := BisectRight(nodes[node].keys, key);
        assert KidOk(Tree(), shape, Tight, node, idx);
        node := nodes[node].kids[idx];
        At(Tree(), shape, Tight, contents, node);
      }
    }

    /** The first position of `key` in a list, if it is there. */
    static method Position(keys: seq<int>, key: int) returns (found: bool, i: nat)
      ensures found <==> key in keys
      ensures found ==> i < |keys| && keys[i] == key
    {
      i := 0;
      while i < |keys|
        invariant i <= |keys| && key !in keys[..i]
      {
        if keys[i] == key { return true, i; }
        i := i + 1;
      }
      return false, i;
    }

    /** The value bound to `key`. */
    method Search(key: int) returns (r: Option<Value>)
      requires Valid()
      ensures r == if key in contents then Some(contents[key]) else None
    {
      hide NodesOk, Holds;
      var leaf := FindLeaf(key);
      At(Tree(), shape, Tight, contents, leaf);
      var found, i := Position(nodes[leaf].keys, key);
      if found { r := Some(nodes[leaf].vals[i]); } else { r := None; }
    }

    /** The leaf with the smallest keys. */
    method LeftmostLeaf() returns (node: Id)
      requires Loose(Tight)
      ensures node in nodes && nodes[node].leaf && shape.span[node].lo == None
    {
      hide NodesOk, Holds;
      node := root;
      At(Tree(), shape, Tight, contents, node);
      while !nodes[node].leaf
        invariant node in nodes && NodeOk(Tree(), shape, Tight, node) && shape.span[node].lo == None
        decreases shape.level[node]
      {
        assert KidOk(Tree(), shape, Tight, node, 0);
        node := nodes[node].kids[0];
        At(Tree(), shape, Tight, contents, node);
      }
    }

    /** The bindings within the bounds, in ascending order of their keys. */
    method RangeScan(low: Option<int>, high: Option<int>, includeLow: bool, includeHigh: bool)
      returns (out: seq<(int, Value)>)
      requires Valid()
      ensures Ascending(out)
      ensures forall k: int, v: Value :: (k, v) in out <==>
        k in contents && contents[k] == v && AboveLow(k, low, includeLow) && BelowHigh(k, high, includeHigh)
    {
      hide NodesOk, Holds, Lists, Behind, Passed, Seen;
      ghost var wanted := Wanted(contents, low, high, includeLow, includeHigh);
      var first;
      if low.Some? { first := FindLeaf(low.value); } else { first := LeftmostLeaf(); }
      StartScan(shape, contents, wanted, first);
      var leaf := Some(first);
      out := [];
      ghost var visited := {};
      while leaf.Some?
        invariant leaf.Some? ==> leaf.value in nodes && nodes[leaf.value].leaf
        invariant visited <= nodes.Keys && Behind(shape, visited, leaf)
        invariant Lists(out, contents, wanted, Passed(shape, contents, leaf))
        decreases nodes.Keys - visited
      {
        PassLeaf(Tree(), shape, contents, leaf.value);
        ChainAdvances(Tree(), shape, contents, visited, leaf.value);
        var n, done := nodes[leaf.value], false;
        out, done := ScanLeaf(n, low, high, includeLow, includeHigh, out, contents, Passed(shape, contents, leaf));
        if done { break; }
        visited := visited + {leaf.value};
        leaf := n.next;
      }
      AllListed(out, shape, contents, low, high, includeLow, includeHigh);
    }

    /** The part of a scan that concerns one leaf; `done` when the upper bound was passed. */
    static method ScanLeaf(n: Node, low: Option<int>, high: Option<int>, includeLow: bool, includeHigh: bool,
                           out0: seq<(int, Value)>, ghost contents: map<int, Value>, ghost passed: set<int>)
      returns (out: seq<(int, Value)>, done: bool)
      requires Upcoming(contents, passed, n)
      requires Lists(out0, contents, Wanted(contents, low, high, includeLow, includeHigh), passed)
      ensures var wanted := Wanted(contents, low, high, includeLow, includeHigh);
        Lists(out, contents, wanted, if done then contents.Keys else Seen(passed, n.keys, |n.keys|))
    {
      hide Lists, Seen;
      ghost var wanted := Wanted(contents, low, high, includeLow, includeHigh);
      out := out0;
      assert Seen(passed, n.keys, 0) == passed by { SeenNone(passed, n.keys); }
      var i := 0;
      while i < |n.keys|
        invariant i <= |n.keys|
        invariant Lists(out, contents, wanted, Seen(passed, n.keys, i))
      {
        var key := n.keys[i];
        ListOne(out, contents, wanted, passed, n, i);
        if low.Some? && (if includeLow then key < low.value else key <= low.value) {
          i := i + 1;
          continue;
        }
        if high.Some? && (if includeHigh then key > high.value else key >= high.value) {
          NoMore(out, contents, wanted, passed, n, i);
          return out, true;
        }
        out := out + [(key, n.vals[i])];
        i := i + 1;
      }
      done := false;
    }

    // ----- Insertion -----

    /** Binds `value` to `key` unless the key is bound already. */
    method InsertUnique(key: int, value: Value) returns (inserted: bool)
      requires Valid()
      modifies this
      ensures Valid()
      ensures inserted <==> key !in old(contents)
      ensures inserted ==> contents == old(contents)[key := value]
      ensures !inserted ==> Tree() == old(Tree()) && contents == old(contents)
    {
      hide NodesOk, Holds;
      var leaf := FindLeaf(key);
      At(Tree(), shape, Tight, contents, leaf);
      var found, i := Position(nodes[leaf].keys, key);
      if found { return false; }
      InsertIntoLeaf(leaf, key, value);
      size := size + 1;
      return true;
    }

    method InsertIntoLeaf(leaf: Id, key: int, value: Value)
      requires Loose(Tight)
      requires leaf in nodes && nodes[leaf].leaf && In(key, shape.span[leaf]) && key !in nodes[leaf].keys
      modifies this
      ensures Loose(Tight) && size == old(size) && contents == old(contents)[key := value]
    {
      hide NodesOk, Holds;
      LeafKeys(Tree(), shape, Tight, contents, leaf);
      At(Tree(), shape, Tight, contents, leaf);
      var pos := BisectRight(nodes[leaf].keys, key);
      AddKeeps(Tree(), shape, contents, leaf, pos, key, value);
      nodes := nodes[leaf :=
        nodes[leaf].(keys := InsertAt(nodes[leaf].keys, pos, key), vals := InsertAt(nodes[leaf].vals, pos, value))];
      contents := contents[key := value];
      if |nodes[leaf].keys| > order - 1 {
        SplitLeaf(leaf);
      } else {
        Tighten(Tree(), shape, leaf, contents);
      }
    }

    method SplitLeaf(leaf: Id)
      requires Loose(Odd(leaf)) && nodes[leaf].leaf && |nodes[leaf].keys| == order
      modifies this
      ensures Loose(Tight) && size == old(size) && contents == old(contents)
      decreases height - shape.level[leaf], 1
    {
      hide NodesOk, Holds, NodeOk, SizeOk, ParentOk, BTreeInsert.SplitLeaf, HoldsSpan, In, Inside, Sorted, AllIn;
      ghost var t := Tree();
      NextIsOther(t, shape, Odd(leaf), contents, leaf);
      SplitLeafKeeps(t, shape, contents, leaf, unused);
      var right := DetachUpperBindings(leaf);
      var separator := nodes[right].keys[0];
      shape := SplitShape(shape, leaf, separator, right);
      InsertIntoParent(leaf, separator, right);
    }

    /** Moves the upper half of a leaf's bindings to a new leaf, which follows it in the chain. */
    method DetachUpperBindings(leaf: Id) returns (right: Id)
      requires leaf in nodes && unused !in nodes && |nodes[leaf].keys| == |nodes[leaf].vals|
      requires nodes[leaf].next.Some? ==> nodes[leaf].next.value in nodes && nodes[leaf].next.value != leaf
      modifies this`nodes, this`unused
      ensures right == old(unused) && unused == right + 1
      ensures Tree() == BTreeInsert.SplitLeaf(old(Tree()), leaf, right)
      ensures nodes.Keys == old(nodes.Keys) + {right}
      ensures var keys := old(nodes[leaf].keys); var mid := (|keys| + 1) / 2;
        leaf in nodes && nodes[leaf].keys == keys[..mid] && nodes[right].keys == keys[mid..]
    {
      var n := nodes[leaf];
      var mid := (|n.keys| + 1) / 2;
      right := unused;
      nodes := nodes[right := Node(true, n.keys[mid..], [], n.vals[mid..], None, None, None)];
      unused := unused + 1;
      nodes := nodes[leaf := n.(keys := n.keys[..mid], vals := n.vals[..mid])];
      LinkAfter(leaf, right);
      assert nodes == BTreeInsert.SplitLeaf(old(Tree()), leaf, right).nodes;
    }

    /** The four links that put `right` behind `leaf` in the chain. */
    method LinkAfter(leaf: Id, right: Id)
      requires leaf in nodes && right in nodes && leaf != right
      requires nodes[leaf].next.Some? ==>
        nodes[leaf].next.value in nodes && nodes[leaf].next.value != leaf && nodes[leaf].next.value != right
      modifies this`nodes
      ensures var n := old(nodes[leaf]);
        var both := old(nodes)[leaf := n.(next := Some(right))]
                              [right := old(nodes[right]).(next := n.next, prev := Some(leaf))];
        nodes == match n.next { case None => both case Some(z) => both[z := old(nodes)[z].(prev := Some(right))] }
    {
      nodes := nodes[right := nodes[right].(next := nodes[leaf].next, prev := Some(leaf))];
      if nodes[leaf].next.Some? {
        var after := nodes[leaf].next.value;
        nodes := nodes[after := nodes[after].(prev := Some(right))];
      }
      nodes := nodes[leaf := nodes[leaf].(next := Some(right))];
    }

    /** Where `child` stands among the children of `parent`. */
    method ChildIndex(parent: Id, child: Id) returns (i: nat)
      requires parent in nodes && child in nodes[parent].kids
      ensures i < |nodes[parent].kids| && nodes[parent].kids[i] == child
    {
      i := 0;
      while nodes[parent].kids[i] != child
        invariant i < |nodes[parent].kids| && child in nodes[parent].kids[i..]
        decreases |nodes[parent].kids| - i
      {
        i := i + 1;
      }
    }

    method InsertIntoParent(left: Id, key: int, right: Id)
      requires Loose(Pending(left, key, right))
      modifies this
      ensures Loose(Tight) && size == old(size) && contents == old(contents)
      decreases height - shape.level[left], 0
    {
      hide NodesOk, Holds, HoldsSpan, ChainOk, Sorted, AllInside, AllIn, Attach, GrowRoot;
      ghost var t := Tree();
      At(t, shape, Pending(left, key, right), contents, left);
      if nodes[left].parent.None? {
        GrowKeeps(t, shape, contents, left, key, right, unused);
        shape := GrowShape(shape, unused, height);
        NewRoot(left, key, right);
        return;
      }
      var parent := nodes[left].parent.value;
      At(t, shape, Pending(left, key, right), contents, parent);
      var i := ChildIndex(parent, left);
      assert KidOk(t, shape, Pending(left, key, right), parent, i);
      AttachKeeps(t, shape, contents, left, key, right, parent, i);
      AttachChild(parent, i + 1, key, right);
      At(Tree(), shape, Odd(parent), contents, parent);
      if |nodes[parent].keys| >= order {
        SplitInternal(parent);
      } else {
        Tighten(Tree(), shape, parent, contents);
      }
    }

    /** A new root over the two halves of the old one. */
    method NewRoot(left: Id, key: int, right: Id)
      requires Numbered() && left in nodes && right in nodes && left != right
      modifies this`nodes, this`unused, this`root, this`height
      ensures unused == old(unused) + 1
      ensures Tree() == GrowRoot(old(Tree()), left, key, right, old(unused))
      ensures Numbered()
    {
      var top := unused;
      nodes := nodes[top := Node(false, [key], [left, right], [], None, None, None)];
      unused := unused + 1;
      nodes := nodes[left := nodes[left].(parent := Some(top))];
      nodes := nodes[right := nodes[right].(parent := Some(top))];
      root := top;
      height := height + 1;
    }

    /** Makes `right` child `pos` of `parent`, with `key` to its left. */
    method AttachChild(parent: Id, pos: nat, key: int, right: Id)
      requires Numbered() && parent in nodes && right in nodes && parent != right
      requires 1 <= pos <= |nodes[parent].kids| == |nodes[parent].keys| + 1
      modifies this`nodes
      ensures Tree() == Attach(old(Tree()), parent, pos - 1, key, right)
      ensures Numbered() && nodes[parent].keys == InsertAt(old(nodes[parent].keys), pos - 1, key)
      ensures nodes[parent].leaf == old(nodes[parent].leaf)
    {
      nodes := nodes[right := nodes[right].(parent := Some(parent))];
      nodes := nodes[parent := nodes[parent].(keys := InsertAt(nodes[parent].keys, pos - 1, key))];
      nodes := nodes[parent := nodes[parent].(kids := InsertAt(nodes[parent].kids, pos, right))];
    }

    method SplitInternal(node: Id)
      requires Loose(Odd(node)) && !nodes[node].leaf && |nodes[node].keys| == order
      modifies this
      ensures Loose(Tight) && size == old(size) && contents == old(contents)
      decreases height - shape.level[node], 1
    {
      hide NodesOk, Holds, NodeOk, SizeOk, ParentOk, BTreeInsert.SplitInternal;
      ghost var t := Tree();
      KidsAreNodes(t, shape, Odd(node), contents, node);
      SplitInternalKeeps(t, shape, contents, node, unused);
      SplitInternalAt(t, node, unused);
      var pushUp := nodes[node].keys[|nodes[node].keys| / 2];
      var right := DetachUpperHalf(node);
      shape := SplitShape(shape, node, pushUp, right);
      InsertIntoParent(node, pushUp, right);
    }

    /** Moves what lies above the middle key of an internal node to a new node. */
    method DetachUpperHalf(node: Id) returns (right: Id)
      requires node in nodes && nodes[node].keys != [] && |nodes[node].kids| == |nodes[node].keys| + 1
      requires forall i :: 0 <= i < |nodes[node].kids| ==> nodes[node].kids[i] in nodes
      modifies this`nodes, this`unused
      ensures right == old(unused) && unused == right + 1
      ensures Tree() == BTreeInsert.SplitInternal(old(Tree()), node, right)
    {
      hide SetParents;
      var n := nodes[node];
      var mid := |n.keys| / 2;
      right := unused;
      nodes := nodes[right := Node(false, n.keys[mid + 1..], n.kids[mid + 1..], [], None, None, None)];
      unused := unused + 1;
      SetParent(n.kids[mid + 1..], right);
      nodes := nodes[node := nodes[node].(keys := n.keys[..mid], kids := n.kids[..mid + 1])];
      assert nodes == BTreeInsert.SplitInternal(old(Tree()), node, right).nodes;
    }

    /** Makes `parent` the parent of every listed node. */
    method SetParent(kids: seq<Id>, parent: Id)
      requires forall i :: 0 <= i < |kids| ==> kids[i] in nodes
      modifies this`nodes
      ensures nodes == SetParents(old(nodes), kids, parent)
    {
      for i := 0 to |kids|
        invariant nodes == SetParents(old(nodes), kids[..i], parent)
      {
        assert kids[..i + 1][..i] == kids[..i];
        nodes := nodes[kids[i] := nodes[kids[i]].(parent := Some(parent))];
      }
      assert kids[..|kids|] == kids;
    }

    // ----- Deletion -----

    /** Removes the binding of `key`, if there is one. */
    method Delete(key: int) returns (deleted: bool)
      requires Valid()
      modifies this
      ensures Valid()
      ensures deleted <==> key in old(contents)
      ensures contents == old(contents) - {key}
      ensures !deleted ==> Tree() == old(Tree())
      ensures HeightKept() && (old(Spare(key)) ==> root == old(root) && height == old(height))
      ensures forall x :: old(CanLose(x, key)) ==> Trimmed(old(nodes), nodes, x, key)
    {
      hide NodesOk, Holds, NodeOk, ChainOk, KidOk, Respaced, RemoveAt, Trimmed, Taken, HoldsSpan;
      var leaf := FindLeaf(key);
      At(Tree(), shape, Tight, contents, leaf);
      var found, idx := Position(nodes[leaf].keys, key);
      OneHome(Tree(), shape, contents, key, leaf);
      assert forall x :: CanLose(x, key) ==> x == leaf && key in nodes[leaf].keys;
      if !found {
        assert contents == contents - {key};
        return false;
      }
      assert Spare(key) ==> |nodes[leaf].keys| > (order - 1) / 2;
      LeafKeys(Tree(), shape, Tight, contents, leaf);
      TakeOut(leaf, idx);
      if leaf == root || |nodes[leaf].keys| >= (order - 1) / 2 {
        Tighten(Tree(), shape, leaf, contents);
        if nodes[leaf].parent.Some? && idx == 0 && |nodes[leaf].keys| > 0 {
          UpdateParentKey(leaf);
        }
        BeTrimmed(old(nodes), nodes, leaf, key, idx);
        return true;
      }
      HandleUnderflow(leaf);
      return true;
    }

    /** Takes a binding out of its leaf, which may then be short. */
    method TakeOut(leaf: Id, idx: nat)
      requires Loose(Tight) && leaf in nodes && nodes[leaf].leaf && idx < |nodes[leaf].keys| && size > 0
      modifies this`nodes, this`contents, this`size
      ensures Loose(Odd(leaf)) && contents == old(contents) - {old(nodes[leaf].keys)[idx]} && size == old(size) - 1
      ensures leaf in nodes && nodes[leaf].leaf && |nodes[leaf].keys| == |old(nodes[leaf].keys)| - 1
      ensures var n := old(nodes[leaf]);
        idx < |n.vals| && nodes == old(nodes)[leaf := n.(keys := RemoveAt(n.keys, idx), vals := RemoveAt(n.vals, idx))]
      ensures leaf != root && |nodes[leaf].keys| < (order - 1) / 2 ==> |nodes[leaf].keys| + 1 == (order - 1) / 2
      ensures |nodes[leaf].keys| < order
    {
      hide NodesOk, Holds, NodeOk;
      LeafKeys(Tree(), shape, Tight, contents, leaf);
      At(Tree(), shape, Tight, contents, leaf);
      RemoveKeeps(Tree(), shape, contents, leaf, idx);
      contents := contents - {nodes[leaf].keys[idx]};
      nodes := nodes[leaf :=
        nodes[leaf].(keys := RemoveAt(nodes[leaf].keys, idx), vals := RemoveAt(nodes[leaf].vals, idx))];
      size := size - 1;
    }

    /** Leaf `x` holds the key and is not short without it. */
    ghost predicate CanLose(x: Id, key: int)
      reads this
    {
      x in nodes && nodes[x].leaf && key in nodes[x].keys && (x == root || |nodes[x].keys| > (order - 1) / 2)
    }

    /** The leaf that holds the key could do without one. */
    ghost predicate Spare(key: int)
      reads this
    {
      exists x :: x in nodes && nodes[x].leaf && key in nodes[x].keys && |nodes[x].keys| > (order - 1) / 2
    }

    /** Insertions, and a deletion if need be, that leave a leaf below the root short of the documented minimum. */
    static method MakeShortLeaf(order: nat) returns (tree: BPlusTree, x: Id)
      requires order >= 4 && order % 2 == 0
      ensures tree.Valid() && tree.order == order && x in tree.nodes && x != tree.root && tree.nodes[x].leaf
      ensures |tree.nodes[x].keys| < DocumentedKeys(order)
    {
      hide Inv;
      tree := new BPlusTree(order);
      for i := 0 to order
        invariant fresh(tree) && tree.Valid() && tree.order == order && |tree.contents| == i
        invariant forall k :: k in tree.contents ==> 0 <= k < i
      {
        var inserted := tree.InsertUnique(i, i);
      }
      TallEnough(tree.Tree(), tree.shape, tree.contents);
      x := tree.LeftmostLeaf();
      RootIsFork(tree.Tree(), tree.shape, tree.contents);
      if |tree.nodes[x].keys| >= order / 2 {
        var key := tree.nodes[x].keys[0];
        FirstIsBound(tree.Tree(), tree.shape, tree.contents, x);
        var deleted := tree.Delete(key);
        ShortLeafExists(tree.Tree(), tree.shape, tree.contents, order / 2);
        x :| x in tree.nodes && x != tree.root && tree.nodes[x].leaf && |tree.nodes[x].keys| < order / 2;
      }
    }

    /** The separator to the left of a leaf becomes the leaf's first key. */
    method UpdateParentKey(node: Id)
      requires Loose(Tight) && node in nodes && nodes[node].leaf && nodes[node].keys != []
      modifies this
      ensures Loose(Tight) && size == old(size) && contents == old(contents)
      ensures root == old(root) && height == old(height) && Respaced(old(nodes), nodes, node)
    {
      hide NodesOk, Holds, Respaced;
      ghost var t := Tree();
      At(t, shape, Tight, contents, node);
      if nodes[node].parent.None? {
        NoSeparator(t, shape, contents, node);
        return;
      }
      ghost var p, j := Placed(t, shape, Tight, contents, node);
      var parent := nodes[node].parent.value;
      var idx := ChildIndex(parent, node);
      if idx == 0 {
        NoSeparator(t, shape, contents, node);
      } else {
        SeparatorSet(t, shape, contents, parent, idx - 1, node);
        ghost var left := nodes[parent].kids[idx - 1];
        SeparatorKeeps(t, shape, contents, parent, idx - 1, left, node);
        nodes := nodes[parent := nodes[parent].(keys := nodes[parent].keys[idx - 1 := nodes[node].keys[0]])];
        shape := MoveBound(shape, left, nodes[node].keys[0], node);
      }
    }

    /** The height falls by one where the root has given way to its child, and otherwise stays. */
    twostate predicate HeightKept()
      reads this
    {
      (root == old(root) && height == old(height)) || (old(root) !in nodes && height + 1 == old(height))
    }

    /** Repairs a node one key short of the minimum: borrows a key from a sibling, or merges with one. */
    method HandleUnderflow(node: Id)
      requires Loose(Odd(node)) && node != root && |nodes[node].keys| + 1 == (order - 1) / 2
      modifies this
      ensures Loose(Tight) && size == old(size) && contents == old(contents) && HeightKept()
      ensures nodes.Keys <= old(nodes.Keys)
      ensures Repaired(old(nodes), nodes, node, (order - 1) / 2)
      decreases height - shape.level[node], 1
    {
      hide Repaired, LastMoved, FirstMoved, NodesOk, Holds, Siblings, Adjacent, Resplit, ResplitInner, MoveBound,
        ChainOk, HoldsSpan, Sorted, AllIn, AllInside, KidOk, ParentOk, NodeOk, Framed;
      ghost var t, sl := Tree(), Odd(node);
      KeysAgree(t, shape, sl);
      ghost var p, j := Placed(t, shape, sl, contents, node);
      At(t, shape, sl, contents, p);
      if nodes[node].parent.None? { return; }
      var parent := nodes[node].parent.value;
      var idx := ChildIndex(parent, node);
      KnowKids(t, shape, sl, contents, parent);
      if idx > 0 {
        var left := nodes[parent].kids[idx - 1];
        if |nodes[left].keys| > (order - 1) / 2 {
          LeftGives(t, shape, contents, parent, idx - 1, left, node);
          shape := MoveBound(shape, left, nodes[left].keys[|nodes[left].keys| - 1], node);
          RedistributeFromLeft(node, left, parent, idx);
          BeRepaired(t.nodes, nodes, node, parent, idx, (order - 1) / 2);
          return;
        }
      }
      if idx < |nodes[parent].kids| - 1 {
        var right := nodes[parent].kids[idx + 1];
        if |nodes[right].keys| > (order - 1) / 2 {
          RightGives(t, shape, contents, parent, idx, node, right);
          shape := MoveBound(shape, node, nodes[right].keys[if nodes[node].leaf then 1 else 0], right);
          RedistributeFromRight(node, right, parent, idx);
          BeRepaired(t.nodes, nodes, node, parent, idx, (order - 1) / 2);
          return;
        }
      }
      if idx > 0 {
        Beside(t, shape, contents, parent, idx - 1, nodes[parent].kids[idx - 1], node, node);
        MergeNodes(nodes[parent].kids[idx - 1], node, parent, idx - 1, node);
      } else {
        Beside(t, shape, contents, parent, idx, node, nodes[parent].kids[idx + 1], node);
        MergeNodes(node, nodes[parent].kids[idx + 1], parent, idx, node);
      }
      BeRepaired(t.nodes, nodes, node, parent, idx, (order - 1) / 2);
    }

    /** Merges `right` into `left`; `short` is the one of them that lacks a key. */
    method MergeNodes(left: Id, right: Id, parent: Id, separatorIdx: nat, ghost short: Id)
      requires Loose(Odd(short)) && (short == left || short == right)
      requires Siblings(Tree(), shape, Odd(short), contents, parent, separatorIdx, left, right)
      requires |nodes[left].keys| + |nodes[right].keys| + 1 == 2 * ((order - 1) / 2)
      modifies this
      ensures Loose(Tight) && size == old(size) && contents == old(contents) && HeightKept()
      ensures nodes.Keys <= old(nodes.Keys) - {right}
      decreases height - shape.level[left], 0
    {
      hide NodesOk, Holds, CollapseRoot, MergeLeaves, MergeInner, ChainOk, HoldsSpan, Sorted, AllIn, AllInside, KidOk,
        In, Inside, ParentOk;
      ghost var t := Tree();
      BeAdjacent(t, shape, Odd(short), contents, parent, separatorIdx, left, right);
      JoinKeeps(t, shape, Odd(short), contents, parent, separatorIdx, left, right);
      At(t, shape, Odd(short), contents, parent);
      shape := JoinShape(shape, left, right);
      if nodes[left].leaf {
        JoinLeaves(left, right, parent, separatorIdx);
      } else {
        JoinForks(left, right, parent, separatorIdx);
      }
      if parent == root && |nodes[parent].keys| == 0 { assert nodes[parent].kids == [left]; }
      RepairParent(parent, left);
    }

    /** What is left to do above a merge. */
    method RepairParent(parent: Id, left: Id)
      requires Loose(Odd(parent)) && parent in nodes && |nodes[parent].keys| < order
      requires parent == root && nodes[parent].keys == [] ==> nodes[parent].kids == [left]
      requires parent != root ==> |nodes[parent].keys| + 1 >= (order - 1) / 2
      modifies this
      ensures Loose(Tight) && size == old(size) && contents == old(contents) && HeightKept()
      ensures nodes.Keys <= old(nodes.Keys)
      decreases height - shape.level[parent], 2
    {
      hide NodesOk, Holds, CollapseRoot, ChainOk, HoldsSpan, Sorted, AllIn, AllInside, KidOk, In, Inside, ParentOk;
      if parent == root {
        if |nodes[parent].keys| == 0 {
          CollapseKeeps(Tree(), shape, contents, left);
          shape := CollapseShape(shape, root);
          Promote(left);
        } else {
          Tighten(Tree(), shape, parent, contents);
        }
      } else if |nodes[parent].keys| < (order - 1) / 2 {
        HandleUnderflow(parent);
      } else {
        Tighten(Tree(), shape, parent, contents);
      }
    }

    /** The root's only child becomes the root. */
    method Promote(child: Id)
      requires child in nodes && height >= 1
      modifies this`nodes, this`root, this`height
      ensures root == child && height + 1 == old(height)
      ensures Tree() == CollapseRoot(old(Tree()), child) && nodes.Keys == old(nodes.Keys) - {old(root)}
    {
      nodes := nodes[child := nodes[child].(parent := None)] - {root};
      root := child;
      height := height - 1;
    }

    /** Moves the last binding, or the last child, of `left` to its right neighbour. */
    method RedistributeFromLeft(node: Id, left: Id, parent: Id, idx: nat)
      requires 0 < idx && Adjacent(nodes, parent, idx - 1, left, node) && nodes[left].keys != []
      modifies this`nodes
      ensures Gave(old(nodes), nodes, left)
      ensures Tree() == LastMoved(old(Tree()), parent, idx - 1, left, node)
    {
      hide Resplit, ResplitInner;
      if nodes[node].leaf {
        BorrowLastBinding(node, left, parent, idx);
      } else {
        BorrowLastChild(node, left, parent, idx);
      }
    }

    method BorrowLastBinding(node: Id, left: Id, parent: Id, idx: nat)
      requires 0 < idx && Adjacent(nodes, parent, idx - 1, left, node) && nodes[left].keys != [] && nodes[node].leaf
      modifies this`nodes
      ensures Gave(old(nodes), nodes, left)
      ensures Tree() == Resplit(old(Tree()), parent, idx - 1, |old(nodes[left].keys)| - 1)
    {
      var n, m := nodes[left], |nodes[left].keys| - 1;
      nodes := nodes[node :=
        nodes[node].(keys := [n.keys[m]] + nodes[node].keys, vals := [n.vals[m]] + nodes[node].vals)];
      nodes := nodes[left := n.(keys := n.keys[..m], vals := n.vals[..m])];
      nodes := nodes[parent := nodes[parent].(keys := nodes[parent].keys[idx - 1 := nodes[node].keys[0]])];
      BorrowLeft(n.keys, old(nodes[node].keys));
      BorrowLeft(n.vals, old(nodes[node].vals));
      assert nodes == Resplit(old(Tree()), parent, idx - 1, m).nodes;
    }

    method BorrowLastChild(node: Id, left: Id, parent: Id, idx: nat)
      requires 0 < idx && Adjacent(nodes, parent, idx - 1, left, node) && nodes[left].keys != [] && !nodes[node].leaf
      modifies this`nodes
      ensures Gave(old(nodes), nodes, left)
      ensures Tree() == ResplitInner(old(Tree()), parent, idx - 1, left, node, |old(nodes[left].keys)| - 1,
                                     old(nodes[left].kids)[|old(nodes[left].keys)|], node)
    {
      hide ResplitInner, JoinedKeys, JoinedKids;
      LastChildMoved(Tree(), parent, idx - 1, left, node);
      var n, m := nodes[left], |nodes[left].keys| - 1;
      var child := n.kids[m + 1];
      ghost var t' := ResplitInner(Tree(), parent, idx - 1, left, node, m, child, node);
      nodes := nodes[node := nodes[node].(keys := [nodes[parent].keys[idx - 1]] + nodes[node].keys)];
      nodes := nodes[parent := nodes[parent].(keys := nodes[parent].keys[idx - 1 := n.keys[m]])];
      nodes := nodes[left := n.(keys := n.keys[..m], kids := n.kids[..m + 1])];
      nodes := nodes[child := nodes[child].(parent := Some(node))];
      nodes := nodes[node := nodes[node].(kids := [child] + nodes[node].kids)];
      assert nodes[left] == t'.nodes[left] && nodes[node] == t'.nodes[node];
      assert nodes[parent] == t'.nodes[parent] && nodes[child] == t'.nodes[child];
      assert nodes == t'.nodes;
    }

    /** Moves the first binding, or the first child, of `right` to its left neighbour. */
    method RedistributeFromRight(node: Id, right: Id, parent: Id, idx: nat)
      requires Adjacent(nodes, parent, idx, node, right) && |nodes[right].keys| > 1
      modifies this`nodes
      ensures Gave(old(nodes), nodes, right)
      ensures Tree() == FirstMoved(old(Tree()), parent, idx, node, right)
    {
      hide Resplit, ResplitInner;
      if nodes[node].leaf {
        BorrowFirstBinding(node, right, parent, idx);
      } else {
        BorrowFirstChild(node, right, parent, idx);
      }
    }

    method BorrowFirstBinding(node: Id, right: Id, parent: Id, idx: nat)
      requires Adjacent(nodes, parent, idx, node, right) && |nodes[right].keys| > 1 && nodes[node].leaf
      modifies this`nodes
      ensures Gave(old(nodes), nodes, right)
      ensures Tree() == Resplit(old(Tree()), parent, idx, |old(nodes[node].keys)| + 1)
    {
      var n := nodes[right];
      nodes := nodes[node :=
        nodes[node].(keys := nodes[node].keys + [n.keys[0]], vals := nodes[node].vals + [n.vals[0]])];
      nodes := nodes[right := n.(keys := n.keys[1..], vals := n.vals[1..])];
      nodes := nodes[parent := nodes[parent].(keys := nodes[parent].keys[idx := nodes[right].keys[0]])];
      BorrowRight(old(nodes[node].keys), n.keys);
      BorrowRight(old(nodes[node].vals), n.vals);
      assert nodes == Resplit(old(Tree()), parent, idx, |old(nodes[node].keys)| + 1).nodes;
    }

    method BorrowFirstChild(node: Id, right: Id, parent: Id, idx: nat)
      requires Adjacent(nodes, parent, idx, node, right) && |nodes[right].keys| > 1 && !nodes[node].leaf
      modifies this`nodes
      ensures Gave(old(nodes), nodes, right)
      ensures Tree() ==
        ResplitInner(old(Tree()), parent, idx, node, right, |old(nodes[node].keys)| + 1, old(nodes[right].kids)[0],
          node)
    {
      hide ResplitInner, JoinedKeys, JoinedKids;
      FirstChildMoved(Tree(), parent, idx, node, right);
      var n := nodes[right];
      var child := n.kids[0];
      ghost var t' := ResplitInner(Tree(), parent, idx, node, right, |nodes[node].keys| + 1, child, node);
      nodes := nodes[node := nodes[node].(keys := nodes[node].keys + [nodes[parent].keys[idx]])];
      nodes := nodes[parent := nodes[parent].(keys := nodes[parent].keys[idx := n.keys[0]])];
      nodes := nodes[right := n.(keys := n.keys[1..], kids := n.kids[1..])];
      nodes := nodes[child := nodes[child].(parent := Some(node))];
      nodes := nodes[node := nodes[node].(kids := nodes[node].kids + [child])];
      assert nodes[right] == t'.nodes[right] && nodes[node] == t'.nodes[node];
      assert nodes[parent] == t'.nodes[parent] && nodes[child] == t'.nodes[child];
      assert nodes == t'.nodes;
    }

    /** A leaf takes over the bindings of its right neighbour, which leaves the chain and the parent. */
    method JoinLeaves(left: Id, right: Id, parent: Id, separatorIdx: nat)
      requires Adjacent(nodes, parent, separatorIdx, left, right) && nodes[left].leaf
      requires nodes[right].next.Some? ==>
        nodes[right].next.value != left && nodes[right].next.value != right && nodes[right].next.value != parent
      modifies this`nodes
      ensures nodes.Keys == old(nodes.Keys) - {right}
      ensures nodes[parent].keys == RemoveAt(old(nodes[parent].keys), separatorIdx)
      ensures nodes[parent].kids == RemoveAt(old(nodes[parent].kids), separatorIdx + 1)
      ensures Tree() == MergeLeaves(old(Tree()), parent, separatorIdx, left, right)
    {
      var n := nodes[right];
      nodes := nodes[left := nodes[left].(keys := nodes[left].keys + n.keys, vals := nodes[left].vals + n.vals)];
      nodes := nodes[left := nodes[left].(next := n.next)];
      if n.next.Some? {
        nodes := nodes[n.next.value := nodes[n.next.value].(prev := Some(left))];
      }
      DropChild(parent, separatorIdx, right);
    }

    /** An internal node takes over the children of its right neighbour, which leaves the parent. */
    method JoinForks(left: Id, right: Id, parent: Id, separatorIdx: nat)
      requires Adjacent(nodes, parent, separatorIdx, left, right) && !nodes[left].leaf
      modifies this`nodes
      ensures nodes.Keys == old(nodes.Keys) - {right}
      ensures nodes[parent].keys == RemoveAt(old(nodes[parent].keys), separatorIdx)
      ensures nodes[parent].kids == RemoveAt(old(nodes[parent].kids), separatorIdx + 1)
      ensures Tree() == MergeInner(old(Tree()), parent, separatorIdx, left, right)
    {
      hide SetParents, MergeInner;
      ForksJoined(Tree(), parent, separatorIdx, left, right);
      ghost var t' := MergeInner(Tree(), parent, separatorIdx, left, right);
      var a, n, separator := nodes[left], nodes[right], nodes[parent].keys[separatorIdx];
      nodes := nodes[left := nodes[left].(keys := nodes[left].keys + [separator])];
      nodes := nodes[left := nodes[left].(keys := nodes[left].keys + n.keys, kids := nodes[left].kids + n.kids)];
      assert nodes == old(nodes)[left := a.(keys := a.keys + [separator] + n.keys, kids := a.kids + n.kids)];
      SetParent(n.kids, left);
      DropChild(parent, separatorIdx, right);
      assert nodes == t'.nodes;
    }

    /** Takes separator `at` and the child after it, `gone`, out of `parent`. */
    method DropChild(parent: Id, at: nat, gone: Id)
      requires parent in nodes && at < |nodes[parent].keys| && at + 1 < |nodes[parent].kids|
      modifies this`nodes
      ensures var n := old(nodes[parent]);
        nodes == old(nodes)[parent := n.(keys := RemoveAt(n.keys, at), kids := RemoveAt(n.kids, at + 1))] - {gone}
    {
      nodes := nodes[parent := nodes[parent].(keys := RemoveAt(nodes[parent].keys, at))];
      nodes := nodes[parent := nodes[parent].(kids := RemoveAt(nodes[parent].kids, at + 1))];
      nodes := nodes - {gone};
    }
  }

  /** Sharing out children anew at one place before l's end moves l's last child to the front of r. */
  lemma LastChildMoved(t: Tree, p: Id, j: nat, l: Id, r: Id)
    requires Adjacent(t.nodes, p, j, l, r) && !t.nodes[l].leaf && t.nodes[l].keys != []
    ensures var a, b, m, key := t.nodes[l], t.nodes[r], |t.nodes[l].keys| - 1, t.nodes[p].keys[j];
      var c := a.kids[m + 1];
      && c in t.nodes && c != l && c != r && c != p && |JoinedKids(t, l, r)| > m + 1 && |JoinedKeys(t, p, j, l, r)| > m
      && ResplitInner(t, p, j, l, r, m, c, r)
         == t.(nodes := t.nodes[c := t.nodes[c].(parent := Some(r))]
                               [l := a.(keys := a.keys[..m], kids := a.kids[..m + 1])]
                               [r := b.(keys := [key] + b.keys, kids := [c] + b.kids)]
                               [p := t.nodes[p].(keys := t.nodes[p].keys[j := a.keys[m]])])
  {
    var a, b, key := t.nodes[l], t.nodes[r], t.nodes[p].keys[j];
    assert a.kids[|a.keys|] in a.kids;
    BorrowLeft(a.kids, b.kids);
    BorrowLeft(a.keys, [key] + b.keys);
    assert JoinedKeys(t, p, j, l, r) == a.keys + ([key] + b.keys);
  }

  /** Sharing out children anew at one place past l's end moves r's first child to the end of l. */
  lemma FirstChildMoved(t: Tree, p: Id, j: nat, l: Id, r: Id)
    requires Adjacent(t.nodes, p, j, l, r) && !t.nodes[l].leaf && t.nodes[r].keys != []
    ensures var a, b, m, key := t.nodes[l], t.nodes[r], |t.nodes[l].keys| + 1, t.nodes[p].keys[j];
      var c := b.kids[0];
      && c in t.nodes && c != l && c != r && c != p && |JoinedKids(t, l, r)| > m && |JoinedKeys(t, p, j, l, r)| > m
      && ResplitInner(t, p, j, l, r, m, c, l)
         == t.(nodes := t.nodes[c := t.nodes[c].(parent := Some(l))]
                               [l := a.(keys := a.keys + [key], kids := a.kids + [c])]
                               [r := b.(keys := b.keys[1..], kids := b.kids[1..])]
                               [p := t.nodes[p].(keys := t.nodes[p].keys[j := b.keys[0]])])
  {
    var a, b, key := t.nodes[l], t.nodes[r], t.nodes[p].keys[j];
    assert b.kids[0] in b.kids;
    BorrowRight(a.kids, b.kids);
    BorrowRight(a.keys + [key], b.keys);
  }

  /** Merging internal nodes, in the order in which it is done. */
  lemma ForksJoined(t: Tree, p: Id, j: nat, l: Id, r: Id)
    requires Adjacent(t.nodes, p, j, l, r) && !t.nodes[l].leaf
    ensures forall i :: 0 <= i < |t.nodes[r].kids| ==> t.nodes[r].kids[i] in t.nodes
    ensures var a, b, n := t.nodes[l], t.nodes[r], t.nodes[p];
      var joined := SetParents(t.nodes[l := a.(keys := a.keys + [n.keys[j]] + b.keys, kids := a.kids + b.kids)],
        b.kids, l);
      && joined[p] == n
      && MergeInner(t, p, j, l, r)
         == t.(nodes := joined[p := n.(keys := RemoveAt(n.keys, j), kids := RemoveAt(n.kids, j + 1))] - {r})
  {
    hide SetParents, RemoveAt;
    assert forall i :: 0 <= i < |t.nodes[r].kids| ==> t.nodes[r].kids[i] in t.nodes[r].kids;
  }

  lemma BorrowLeft<T>(a: seq<T>, b: seq<T>)
    requires a != []
    ensures (a + b)[..|a| - 1] == a[..|a| - 1]
    ensures (a + b)[|a| - 1] == a[|a| - 1]
    ensures (a + b)[|a| - 1..] == [a[|a| - 1]] + b && (a + b)[|a|..] == b
  {
  }

  lemma BorrowRight<T>(a: seq<T>, b: seq<T>)
    requires b != []
    ensures (a + b)[..|a| + 1] == a + [b[0]] && (a + b)[|a|] == b[0]
    ensures (a + b)[|a| + 1..] == b[1..]
  {
  }
}
