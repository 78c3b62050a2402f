/** What the K-D-B tree guarantees about the plane it divides and the items it is built from. */
module KdbTreeTheorems {
  import opened Wrappers
  import opened Rectangle
  import opened KdbTree

  // ----- The division of the plane

  /** `l` and `r` are the two parts of `e` on either side of a line strictly inside it. */
  ghost predicate Halves(e: Rectangle, l: Rectangle, r: Rectangle) {
    || (e.xMin < l.xMax < e.xMax && l == e.(xMax := l.xMax) && r == e.(xMin := l.xMax))
    || (e.yMin < l.yMax < e.yMax && l == e.(yMax := l.yMax) && r == e.(yMin := l.yMax))
  }

  /** Every internal node is divided into exactly its two children. */
  ghost predicate Tiled(node: Node) {
    node.Leaf? || (Halves(node.extent, node.left.extent, node.right.extent) && Tiled(node.left) && Tiled(node.right))
  }

  function Leaves(node: Node): seq<(int, Rectangle)> {
    match node
    case Leaf(extent, id) => [(id, extent)]
    case Internal(_, left, right) => Leaves(left) + Leaves(right)
  }

  function Filter(leaves: seq<(int, Rectangle)>, envelope: Rectangle): seq<(int, Rectangle)> {
    if leaves == [] then []
    else (if Intersects(leaves[0].1, envelope) then [leaves[0]] else []) + Filter(leaves[1..], envelope)
  }

  lemma {:induction false} LeavesInExtent(node: Node, p: Point)
    requires Tiled(node)
    ensures Contains(node.extent, p) <==> exists leaf :: leaf in Leaves(node) && Contains(leaf.1, p)
  {
    match node
    case Leaf(extent, id) =>
      assert (id, extent) in Leaves(node);
    case Internal(extent, left, right) =>
      LeavesInExtent(left, p);
      LeavesInExtent(right, p);
      assert Contains(extent, p) <==> Contains(left.extent, p) || Contains(right.extent, p);
      assert forall leaf :: leaf in Leaves(node) <==> leaf in Leaves(left) || leaf in Leaves(right);
  }

  lemma {:induction false} LeafInside(node: Node, i: nat, p: Point)
    requires Tiled(node) && i < |Leaves(node)| && Inside(Leaves(node)[i].1, p)
    ensures Inside(node.extent, p)
  {
    if node.Internal? {
      var n := |Leaves(node.left)|;
      if i < n {
        LeafInside(node.left, i, p);
      } else {
        LeafInside(node.right, i - n, p);
      }
    }
  }

  /** No point lies inside two leaves. */
  lemma {:induction false} LeavesDisjoint(node: Node, i: nat, j: nat, p: Point)
    requires Tiled(node) && i < j < |Leaves(node)|
    ensures !(Inside(Leaves(node)[i].1, p) && Inside(Leaves(node)[j].1, p))
  {
    var n := if node.Internal? then |Leaves(node.left)| else 0;
    if node.Internal? && j < n {
      LeavesDisjoint(node.left, i, j, p);
    } else if node.Internal? && n <= i {
      LeavesDisjoint(node.right, i - n, j - n, p);
    } else if Inside(Leaves(node)[i].1, p) && Inside(Leaves(node)[j].1, p) {
      LeafInside(node.left, i, p);
      LeafInside(node.right, j - n, p);
    }
  }

  // ----- The pruned search

  lemma {:induction false} FilterConcat(a: seq<(int, Rectangle)>, b: seq<(int, Rectangle)>, envelope: Rectangle)
    ensures Filter(a + b, envelope) == Filter(a, envelope) + Filter(b, envelope)
  {
    if a == [] {
      assert a + b == b;
    } else {
      assert (a + b)[1..] == a[1..] + b;
      FilterConcat(a[1..], b, envelope);
    }
  }

  lemma {:induction false} FilterIn(leaves: seq<(int, Rectangle)>, envelope: Rectangle, leaf: (int, Rectangle))
    ensures leaf in Filter(leaves, envelope) <==> leaf in leaves && Intersects(leaf.1, envelope)
  {
    if leaves == [] {
    } else {
      FilterIn(leaves[1..], envelope, leaf);
      assert leaf in leaves <==> leaf == leaves[0] || leaf in leaves[1..];
    }
  }

  /** Pruning is safe: an extent that misses the envelope has no leaf that meets it. */
  lemma {:induction false} PrunedMissNothing(node: Node, envelope: Rectangle)
    requires Tiled(node) && !Intersects(node.extent, envelope)
    ensures Filter(Leaves(node), envelope) == []
  {
    if node.Internal? {
      PrunedMissNothing(node.left, envelope);
      PrunedMissNothing(node.right, envelope);
      FilterConcat(Leaves(node.left), Leaves(node.right), envelope);
    }
  }

  lemma {:induction false} OnlyAppends(node: Node, leaves: seq<(int, Rectangle)>, keep: Node -> bool)
    ensures AddLeaves(node, leaves, keep) == leaves + AddLeaves(node, [], keep)
  {
    if keep(node) && node.Internal? {
      OnlyAppends(node.left, leaves, keep);
      OnlyAppends(node.right, AddLeaves(node.left, leaves, keep), keep);
      OnlyAppends(node.right, AddLeaves(node.left, [], keep), keep);
    }
  }

  lemma {:induction false} SearchFinds(node: Node, envelope: Rectangle, keep: Node -> bool)
    requires Tiled(node) && forall n :: keep(n) <==> Intersects(n.extent, envelope)
    ensures AddLeaves(node, [], keep) == Filter(Leaves(node), envelope)
  {
    if !keep(node) {
      PrunedMissNothing(node, envelope);
    } else if node.Internal? {
      SearchFinds(node.left, envelope, keep);
      SearchFinds(node.right, envelope, keep);
      OnlyAppends(node.right, AddLeaves(node.left, [], keep), keep);
      FilterConcat(Leaves(node.left), Leaves(node.right), envelope);
    }
  }

  lemma {:induction false} ScanFinds(node: Node, keep: Node -> bool)
    requires forall n :: keep(n)
    ensures AddLeaves(node, [], keep) == Leaves(node)
  {
    if node.Internal? {
      ScanFinds(node.left, keep);
      ScanFinds(node.right, keep);
      OnlyAppends(node.right, AddLeaves(node.left, [], keep), keep);
    }
  }

  /** The pruned search finds exactly the leaves that a scan of all leaves would keep, in the same order. */
  lemma SearchIsFilteredScan(root: Node, envelope: Rectangle)
    requires Tiled(root)
    ensures GetLeaves(root) == Leaves(root)
    ensures FindIntersectingLeaves(root, envelope) == Filter(GetLeaves(root), envelope)
  {
    ScanFinds(root, (node: Node) => true);
    SearchFinds(root, envelope, (node: Node) => Intersects(node.extent, envelope));
  }

  /** Two rectangles that meet at a point of the root's extent are found together in some leaf. */
  lemma MeetingRectanglesShareLeaf(root: Node, a: Rectangle, b: Rectangle) returns (leaf: (int, Rectangle))
    requires Tiled(root)
    requires Intersection(a, b).Some? && Intersects(Intersection(a, b).value, root.extent)
    ensures leaf in FindIntersectingLeaves(root, a) && leaf in FindIntersectingLeaves(root, b)
  {
    IntersectsIffCommonPoint(Intersection(a, b).value, root.extent);
    var p :| Contains(Intersection(a, b).value, p) && Contains(root.extent, p);
    LeavesInExtent(root, p);
    leaf :| leaf in Leaves(root) && Contains(leaf.1, p);
    assert Contains(a, p) && Contains(b, p);
    SearchIsFilteredScan(root, a);
    SearchIsFilteredScan(root, b);
    FilterIn(Leaves(root), a, leaf);
    FilterIn(Leaves(root), b, leaf);
  }

  // ----- The build

  ghost predicate Corners(extent: Rectangle, items: seq<Rectangle>) {
    forall r :: r in items ==> Contains(extent, MinCorner(r))
  }

  /** Every item of the leaf belongs there, and the leaf is overfull only at the level cap or when neither
      dimension can be cut. */
  ghost predicate GoodLeaf(level: nat, extent: Rectangle, items: seq<Rectangle>, maxItems: int) {
    && Corners(extent, items)
    && (|items| <= maxItems || level == MAX_LEVELS
        || (|items| > 1 && FindCut(ByX, items).NoCut? && FindCut(ByY, items).NoCut?))
  }

  ghost predicate GoodPlan(plan: Plan, maxItems: int) {
    match plan
    case Rest(level, extent, items) => GoodLeaf(level, extent, items, maxItems)
    case Branch(_, extent, _, left, right) =>
      Halves(extent, left.extent, right.extent) && GoodPlan(left, maxItems) && GoodPlan(right, maxItems)
  }

  ghost function Items(plan: Plan): multiset<Rectangle> {
    match plan
    case Rest(_, _, items) => multiset(items)
    case Branch(_, _, _, left, right) => Items(left) + Items(right)
  }

  /** A cut always falls strictly inside an extent that holds the items' corners, so the check in the split
      never fails, and each side's corners lie in its half. */
  lemma CutFallsInside(dim: Dimension, extent: Rectangle, items: seq<Rectangle>)
    returns (value: real, left: seq<Rectangle>, right: seq<Rectangle>, l: Rectangle, r: Rectangle)
    requires |items| > 1 && Corners(extent, items) && FindCut(dim, items).Cut?
    ensures FindCut(dim, items) == Cut(value, left, right)
    ensures SplitExtent(dim, extent, value) == Some((l, r)) && Halves(extent, l, r)
    ensures Corners(l, left) && Corners(r, right)
    ensures |left| < |items| && |right| < |items| && multiset(left) + multiset(right) == multiset(items)
  {
    FindCutSeparates(dim, items);
    var cut := FindCut(dim, items);
    value, left, right := cut.value, cut.left, cut.right;
    forall r | r in left || r in right ensures Contains(extent, MinCorner(r)) {
      assert r in multiset(left) + multiset(right);
    }
    assert Contains(extent, MinCorner(left[0])) && Value(dim, left[0]) < value;
    assert Contains(extent, MinCorner(right[0])) && value < Value(dim, right[0]);
    var halves := SplitExtent(dim, extent, value).value;
    l, r := halves.0, halves.1;
  }

  /** The plan divides `extent`, shares out exactly `items`, and leaves a leaf overfull only for good reason. */
  ghost predicate Sound(plan: Plan, maxItems: int, extent: Rectangle, items: multiset<Rectangle>) {
    plan.extent == extent && GoodPlan(plan, maxItems) && Items(plan) == items
  }

  lemma JoinSound(p: Plan, q: Plan, maxItems: int, level: nat, extent: Rectangle, items: seq<Rectangle>,
                  l: Rectangle, left: seq<Rectangle>, r: Rectangle, right: seq<Rectangle>)
    requires Halves(extent, l, r) && multiset(left) + multiset(right) == multiset(items)
    requires Sound(p, maxItems, l, multiset(left)) && Sound(q, maxItems, r, multiset(right))
    ensures Sound(Branch(level, extent, items, p, q), maxItems, extent, multiset(items))
  {
  }

  lemma PlanSplitOf(dim: Dimension, maxItems: int, level: nat, extent: Rectangle, items: seq<Rectangle>,
                    cut: Cut, l: Rectangle, r: Rectangle, p: Plan, q: Plan)
    requires |items| > 1 && FindCut(dim, items) == cut && cut.Cut?
    requires SplitExtent(dim, extent, cut.value) == Some((l, r))
    requires MakePlan(maxItems, level + 1, l, cut.left) == Some(p)
    requires MakePlan(maxItems, level + 1, r, cut.right) == Some(q)
    ensures PlanSplit(dim, maxItems, level, extent, items) == Split(p, q)
  {
  }

  lemma {:induction false} SplitIsSound(dim: Dimension, maxItems: int, level: nat, extent: Rectangle, items: seq<Rectangle>)
    returns (p: Plan, q: Plan)
    requires maxItems > 0 && level < MAX_LEVELS && |items| > 1 && Corners(extent, items)
    requires FindCut(dim, items).Cut?
    ensures PlanSplit(dim, maxItems, level, extent, items) == Split(p, q)
    ensures Sound(Branch(level, extent, items, p, q), maxItems, extent, multiset(items))
    decreases |items|, 0
  {
    var value, left, right, l, r := CutFallsInside(dim, extent, items);
    p := PlanIsSound(maxItems, level + 1, l, left);
    q := PlanIsSound(maxItems, level + 1, r, right);
    JoinSound(p, q, maxItems, level, extent, items, l, left, r, right);
    PlanSplitOf(dim, maxItems, level, extent, items, Cut(value, left, right), l, r, p, q);
  }

  /** Building succeeds whenever the extent holds the items' min corners. */
  lemma {:induction false} PlanIsSound(maxItems: int, level: nat, extent: Rectangle, items: seq<Rectangle>) returns (plan: Plan)
    requires maxItems > 0 && level <= MAX_LEVELS && Corners(extent, items)
    ensures MakePlan(maxItems, level, extent, items) == Some(plan)
    ensures Sound(plan, maxItems, extent, multiset(items))
    decreases |items|, 1
  {
    var longer := LongerSide(extent);
    if |items| <= maxItems || level == MAX_LEVELS {
      plan := Rest(level, extent, items);
    } else if FindCut(longer, items).Cut? {
      var p, q := SplitIsSound(longer, maxItems, level, extent, items);
      plan := Branch(level, extent, items, p, q);
    } else if FindCut(Other(longer), items).Cut? {
      assert PlanSplit(longer, maxItems, level, extent, items) == CannotSplit;
      var p, q := SplitIsSound(Other(longer), maxItems, level, extent, items);
      plan := Branch(level, extent, items, p, q);
    } else {
      assert PlanSplit(longer, maxItems, level, extent, items) == CannotSplit;
      assert PlanSplit(Other(longer), maxItems, level, extent, items) == CannotSplit;
      plan := Rest(level, extent, items);
    }
  }

  lemma {:induction false} NumberIsSound(plan: Plan, nextId: int, maxItems: int)
    requires GoodPlan(plan, maxItems)
    ensures Number(plan, nextId).extent == plan.extent && Tiled(Number(plan, nextId))
    ensures |Leaves(Number(plan, nextId))| == LeafCount(plan)
    ensures forall i :: 0 <= i < LeafCount(plan) ==> Leaves(Number(plan, nextId))[i].0 == nextId + i
  {
    if plan.Branch? {
      NumberIsSound(plan.left, nextId, maxItems);
      NumberIsSound(plan.right, nextId + LeafCount(plan.left), maxItems);
    }
  }

  // ----- When a dimension cannot be cut

  datatype Relation = Less | Equal | AtMost

  predicate Stands(rel: Relation, x: real, v: real) {
    match rel
    case Less => x < v
    case Equal => x == v
    case AtMost => x <= v
  }

  /** How many items have a value that stands in the relation to `v`. */
  ghost function Tally(dim: Dimension, items: seq<Rectangle>, rel: Relation, v: real): nat {
    if items == [] then 0
    else (if Stands(rel, Value(dim, items[0]), v) then 1 else 0) + Tally(dim, items[1..], rel, v)
  }

  lemma {:induction false} TallyConcat(dim: Dimension, a: seq<Rectangle>, b: seq<Rectangle>, rel: Relation, v: real)
    ensures Tally(dim, a + b, rel, v) == Tally(dim, a, rel, v) + Tally(dim, b, rel, v)
  {
    if a == [] {
      assert a + b == b;
    } else {
      assert (a + b)[1..] == a[1..] + b;
      TallyConcat(dim, a[1..], b, rel, v);
    }
  }

  lemma TakeOut(dim: Dimension, t: seq<Rectangle>, i: nat, rel: Relation, v: real) returns (rest: seq<Rectangle>)
    requires i < |t|
    ensures multiset(t) == multiset{t[i]} + multiset(rest)
    ensures Tally(dim, t, rel, v) == (if Stands(rel, Value(dim, t[i]), v) then 1 else 0) + Tally(dim, rest, rel, v)
  {
    rest := t[..i] + t[i + 1..];
    assert t == t[..i] + ([t[i]] + t[i + 1..]);
    TallyConcat(dim, t[..i], [t[i]] + t[i + 1..], rel, v);
    TallyConcat(dim, t[..i], t[i + 1..], rel, v);
  }

  lemma IndexOf(t: seq<Rectangle>, r: Rectangle, all: multiset<Rectangle>) returns (i: nat)
    requires r in all && all == multiset(t)
    ensures i < |t| && t[i] == r
  {
    assert r in t;
    i :| i < |t| && t[i] == r;
  }

  /** The order of the items does not matter. */
  lemma {:induction false} TallySame(dim: Dimension, s: seq<Rectangle>, t: seq<Rectangle>, rel: Relation, v: real)
    requires multiset(s) == multiset(t)
    ensures Tally(dim, s, rel, v) == Tally(dim, t, rel, v)
  {
    if s == [] {
      assert |multiset(t)| == 0;
    } else {
      var i := IndexOf(t, s[0], multiset(s));
      var rest := TakeOut(dim, t, i, rel, v);
      assert multiset(s[1..]) == multiset(rest) by {
        assert s == [s[0]] + s[1..];
        assert multiset(s[1..]) == multiset(s) - multiset{s[0]};
      }
      TallySame(dim, s[1..], rest, rel, v);
    }
  }

  lemma {:induction false} TallyAll(dim: Dimension, s: seq<Rectangle>, rel: Relation, v: real)
    ensures Tally(dim, s, rel, v) <= |s|
    ensures Tally(dim, s, rel, v) == |s| <==> forall r :: r in s ==> Stands(rel, Value(dim, r), v)
    ensures Tally(dim, s, rel, v) == 0 <==> forall r :: r in s ==> !Stands(rel, Value(dim, r), v)
  {
    if s == [] {
    } else {
      TallyAll(dim, s[1..], rel, v);
      assert forall r :: r in s <==> r == s[0] || r in s[1..];
    }
  }

  /** The largest value is shared by every item from the median up. */
  ghost predicate TopHeavy(dim: Dimension, items: seq<Rectangle>, v: real) {
    && (forall r :: r in items ==> Value(dim, r) <= v)
    && Tally(dim, items, Equal, v) >= |items| - (|items| - 1) / 2
  }

  /** In sorted order, a value that fills everything from the median up is the largest and common enough. */
  lemma MedianUpIsTopHeavy(dim: Dimension, s: seq<Rectangle>, m: nat, w: real)
    requires SortedBy(dim, s) && m < |s| && forall i :: m <= i < |s| ==> Value(dim, s[i]) == w
    ensures (forall i :: 0 <= i < |s| ==> Value(dim, s[i]) <= w) && Tally(dim, s, Equal, w) >= |s| - m
  {
    var b := s[m..];
    forall r | r in b ensures Value(dim, r) == w {
      var i :| 0 <= i < |b| && b[i] == r;
    }
    TallyAll(dim, b, Equal, w);
    assert s == s[..m] + b;
    TallyConcat(dim, s[..m], b, Equal, w);
    assert Value(dim, s[m]) == w;
  }

  /** Conversely, a largest value that common reaches down to the median. */
  lemma TopHeavyReachesMedian(dim: Dimension, s: seq<Rectangle>, m: nat, w: real, i: nat)
    requires SortedBy(dim, s) && m <= i < |s|
    requires (forall i :: 0 <= i < |s| ==> Value(dim, s[i]) <= w) && Tally(dim, s, Equal, w) >= |s| - m
    ensures Value(dim, s[i]) == w
  {
    var a, b := s[..m], s[m..];
    assert s == a + b;
    TallyConcat(dim, a, b, Equal, w);
    TallyAll(dim, b, Equal, w);
    assert b[i - m] == s[i];
    if Value(dim, s[i]) != w {
      assert Tally(dim, b, Equal, w) < |b|;
      assert forall r :: r in a ==> Value(dim, r) <= Value(dim, s[i]) < w;
      TallyAll(dim, a, Equal, w);
    }
  }

  lemma SkipsToEnd(dim: Dimension, s: seq<Rectangle>, k: nat, v: real)
    requires k <= |s|
    ensures SkipEqual(dim, s, k, v) == |s| <==> forall i :: k <= i < |s| ==> Value(dim, s[i]) == v
  {
  }

  /** A dimension is given up on exactly when the items that share the largest value are enough to reach down
      to the median, even if smaller values could still be cut off from them. */
  lemma NoCutIffTopHeavy(dim: Dimension, items: seq<Rectangle>)
    requires |items| > 1
    ensures FindCut(dim, items).NoCut? <==> exists v :: TopHeavy(dim, items, v)
  {
    SortedCopyIsSorted(dim, items);
    var s := SortedCopy(dim, items);
    var m := (|s| - 1) / 2;
    SkipsToEnd(dim, s, m, Value(dim, s[m]));
    forall v ensures TopHeavy(dim, items, v) <==> forall i :: m <= i < |s| ==> Value(dim, s[i]) == v {
      TallySame(dim, items, s, Equal, v);
      SameBound(dim, items, s, v);
      if forall i :: m <= i < |s| ==> Value(dim, s[i]) == v {
        MedianUpIsTopHeavy(dim, s, m, v);
      } else if TopHeavy(dim, items, v) {
        forall i | m <= i < |s| ensures Value(dim, s[i]) == v { TopHeavyReachesMedian(dim, s, m, v, i); }
      }
    }
    if FindCut(dim, items).NoCut? {
      assert TopHeavy(dim, items, Value(dim, s[m]));
    }
    if v :| TopHeavy(dim, items, v) {
      assert Value(dim, s[m]) == v;
    }
  }

  /** Of the values 0, 1 and 1 the first could be cut off from the others, but the dimension is given up on. */
  lemma NoCutAlthoughSeparable()
    ensures var items := [Bounds(0.0, 0.0, 0.0, 0.0), Bounds(1.0, 0.0, 1.0, 0.0), Bounds(1.0, 0.0, 1.0, 0.0)];
            && FindCut(ByX, items).NoCut?
            && Value(ByX, items[0]) < 0.5 < Value(ByX, items[1]) && 0.5 < Value(ByX, items[2])
  {
    var a, b := Bounds(0.0, 0.0, 0.0, 0.0), Bounds(1.0, 0.0, 1.0, 0.0);
    var items := [a, b, b];
    assert Tally(ByX, items, Equal, 1.0) == 2 by {
      assert items[1..] == [b, b] && [b, b][1..] == [b] && [b][1..] == [];
    }
    NoCutIffTopHeavy(ByX, items);
    assert TopHeavy(ByX, items, 1.0);
  }

  lemma SameBound(dim: Dimension, items: seq<Rectangle>, s: seq<Rectangle>, v: real)
    requires multiset(items) == multiset(s)
    ensures (forall r :: r in items ==> Value(dim, r) <= v) <==> (forall i :: 0 <= i < |s| ==> Value(dim, s[i]) <= v)
  {
    forall r ensures r in items <==> r in s {
      assert r in multiset(items) <==> r in multiset(s);
    }
  }
}
