/**
The K-D-B tree: building by recursive median splits, and searching with pruning. Building is described as a
plan, which decides every split, followed by a left-to-right numbering of the leaves.
 */
module KdbTree {
  import opened Wrappers
  import opened Rectangle

  const MAX_LEVELS: nat := 10_000

  datatype Node =
    | Leaf(extent: Rectangle, leafId: int)
    | Internal(extent: Rectangle, left: Node, right: Node)

  datatype Dimension = ByX | ByY

  function Other(dim: Dimension): Dimension {
    if dim.ByX? then ByY else ByX
  }

  function Value(dim: Dimension, r: Rectangle): real {
    if dim.ByX? then r.xMin else r.yMin
  }

  /** The order in which a dimension sorts: by its own coordinate, then by the other. */
  predicate Precedes(dim: Dimension, a: Rectangle, b: Rectangle) {
    Value(dim, a) < Value(dim, b)
    || (Value(dim, a) == Value(dim, b) && Value(Other(dim), a) <= Value(Other(dim), b))
  }

  /** The two halves of an extent, or None when the cut is not strictly inside it. */
  function SplitExtent(dim: Dimension, r: Rectangle, value: real): Option<(Rectangle, Rectangle)> {
    match dim
    case ByX =>
      if r.xMin < value < r.xMax then
        Some((Bounds(r.xMin, r.yMin, value, r.yMax), Bounds(value, r.yMin, r.xMax, r.yMax)))
      else None
    case ByY =>
      if r.yMin < value < r.yMax then
        Some((Bounds(r.xMin, r.yMin, r.xMax, value), Bounds(r.xMin, value, r.xMax, r.yMax)))
      else None
  }

  function Insert(dim: Dimension, r: Rectangle, sorted: seq<Rectangle>): (s: seq<Rectangle>)
    ensures |s| == |sorted| + 1
  {
    if sorted == [] || Precedes(dim, r, sorted[0]) then [r] + sorted
    else [sorted[0]] + Insert(dim, r, sorted[1..])
  }

  /** A stable sort. */
  function SortedCopy(dim: Dimension, items: seq<Rectangle>): (s: seq<Rectangle>)
    ensures |s| == |items|
  {
    if items == [] then [] else Insert(dim, items[0], SortedCopy(dim, items[1..]))
  }

  ghost predicate SortedBy(dim: Dimension, s: seq<Rectangle>) {
    forall i, j :: 0 <= i < j < |s| ==> Value(dim, s[i]) <= Value(dim, s[j])
  }

  lemma {:induction false} InsertKeepsItems(dim: Dimension, r: Rectangle, sorted: seq<Rectangle>)
    ensures multiset(Insert(dim, r, sorted)) == multiset{r} + multiset(sorted)
  {
    if sorted != [] && !Precedes(dim, r, sorted[0]) {
      InsertKeepsItems(dim, r, sorted[1..]);
      assert sorted == [sorted[0]] + sorted[1..];
    }
  }

  lemma ConsSorted(dim: Dimension, r: Rectangle, s: seq<Rectangle>)
    requires SortedBy(dim, s) && (s == [] || Value(dim, r) <= Value(dim, s[0]))
    ensures SortedBy(dim, [r] + s)
  {
  }

  lemma {:induction false} InsertIsSorted(dim: Dimension, r: Rectangle, sorted: seq<Rectangle>)
    requires SortedBy(dim, sorted)
    ensures SortedBy(dim, Insert(dim, r, sorted))
  {
    if sorted == [] || Precedes(dim, r, sorted[0]) {
      ConsSorted(dim, r, sorted);
    } else {
      InsertIsSorted(dim, r, sorted[1..]);
      ConsSorted(dim, sorted[0], Insert(dim, r, sorted[1..]));
    }
  }

  lemma {:induction false} SortedCopyIsSorted(dim: Dimension, items: seq<Rectangle>)
    ensures SortedBy(dim, SortedCopy(dim, items))
    ensures multiset(SortedCopy(dim, items)) == multiset(items)
  {
    if items == [] {
    } else {
      SortedCopyIsSorted(dim, items[1..]);
      InsertIsSorted(dim, items[0], SortedCopy(dim, items[1..]));
      InsertKeepsItems(dim, items[0], SortedCopy(dim, items[1..]));
      assert items == [items[0]] + items[1..];
    }
  }

  /** The first index from `k` on whose value differs from `v`. */
  function SkipEqual(dim: Dimension, s: seq<Rectangle>, k: nat, v: real): (j: nat)
    requires k <= |s|
    ensures k <= j <= |s|
    ensures forall i :: k <= i < j ==> Value(dim, s[i]) == v
    ensures j < |s| ==> Value(dim, s[j]) != v
    decreases |s| - k
  {
    if k < |s| && Value(dim, s[k]) == v then SkipEqual(dim, s, k + 1, v) else k
  }

  datatype Cut = NoCut | Cut(value: real, left: seq<Rectangle>, right: seq<Rectangle>)

  /** Where a dimension would cut the items: half way between the median value and the next larger one. */
  function FindCut(dim: Dimension, items: seq<Rectangle>): (cut: Cut)
    requires |items| > 1
    ensures cut.Cut? ==> 0 < |cut.left| < |items| && 0 < |cut.right| < |items|
  {
    var sorted := SortedCopy(dim, items);
    var middleIndex := (|sorted| - 1) / 2;
    var v := Value(dim, sorted[middleIndex]);
    var splitIndex := SkipEqual(dim, sorted, middleIndex, v);
    if splitIndex == |sorted| then NoCut
    else Cut((v + Value(dim, sorted[splitIndex])) / 2.0, sorted[..splitIndex], sorted[splitIndex..])
  }

  /** A value between the ends of two parts of a sorted sequence lies strictly between all their values. */
  lemma SeparatedAt(dim: Dimension, s: seq<Rectangle>, k: nat, value: real)
    requires SortedBy(dim, s) && 0 < k < |s| && Value(dim, s[k - 1]) < value < Value(dim, s[k])
    ensures forall r :: r in s[..k] ==> Value(dim, r) < value
    ensures forall r :: r in s[k..] ==> value < Value(dim, r)
  {
    assert forall i :: 0 <= i < k ==> Value(dim, s[i]) < value;
    assert forall i :: k <= i < |s| ==> value < Value(dim, s[i]);
  }

  lemma Halfway(v: real, w: real)
    requires v < w
    ensures v < (v + w) / 2.0 < w
  {
  }

  lemma PartsKeepItems(s: seq<Rectangle>, k: nat)
    requires k <= |s|
    ensures multiset(s[..k]) + multiset(s[k..]) == multiset(s)
  {
    assert s == s[..k] + s[k..];
  }

  /** A cut shares out the items strictly on either side of it, between two of their values. */
  lemma FindCutSeparates(dim: Dimension, items: seq<Rectangle>)
    requires |items| > 1 && FindCut(dim, items).Cut?
    ensures var Cut(value, left, right) := FindCut(dim, items);
            && multiset(left) + multiset(right) == multiset(items)
            && (forall r :: r in left ==> Value(dim, r) < value)
            && (forall r :: r in right ==> value < Value(dim, r))
  {
    SortedCopyIsSorted(dim, items);
    var sorted := SortedCopy(dim, items);
    var v := Value(dim, sorted[(|sorted| - 1) / 2]);
    var k := SkipEqual(dim, sorted, (|sorted| - 1) / 2, v);
    PartsKeepItems(sorted, k);
    Halfway(v, Value(dim, sorted[k]));
    SeparatedAt(dim, sorted, k, (v + Value(dim, sorted[k])) / 2.0);
  }

  /** The decisions of a build: at what level which items and which extent come to a node, and whether it is split. */
  datatype Plan =
    | Rest(level: nat, extent: Rectangle, items: seq<Rectangle>)
    | Branch(level: nat, extent: Rectangle, items: seq<Rectangle>, left: Plan, right: Plan)

  datatype Attempt = CannotSplit | Rejected | Split(left: Plan, right: Plan)

  /** None where the code throws. */
  function MakePlan(maxItems: int, level: nat, extent: Rectangle, items: seq<Rectangle>): Option<Plan>
    decreases |items|, 2
  {
    if maxItems <= 0 || level > MAX_LEVELS then None
    else if |items| <= maxItems || level == MAX_LEVELS then Some(Rest(level, extent, items))
    else
      match PlanEither(maxItems, level, extent, items)
      case Split(left, right) => Some(Branch(level, extent, items, left, right))
      case Rejected => None
      case CannotSplit => Some(Rest(level, extent, items))
  }

  function LongerSide(extent: Rectangle): Dimension {
    if Width(extent) >= Height(extent) then ByX else ByY
  }

  /** A split over the longer side, or else over the other. */
  function PlanEither(maxItems: int, level: nat, extent: Rectangle, items: seq<Rectangle>): Attempt
    requires |items| > 1
    decreases |items|, 1
  {
    var longer := LongerSide(extent);
    var attempt := PlanSplit(longer, maxItems, level, extent, items);
    if attempt.CannotSplit? then PlanSplit(Other(longer), maxItems, level, extent, items) else attempt
  }

  function PlanSplit(dim: Dimension, maxItems: int, level: nat, extent: Rectangle, items: seq<Rectangle>): Attempt
    requires |items| > 1
    decreases |items|, 0
  {
    match FindCut(dim, items)
    case NoCut => CannotSplit
    case Cut(value, leftItems, rightItems) =>
      match SplitExtent(dim, extent, value)
      case None => Rejected
      case Some((leftExtent, rightExtent)) =>
        var left := MakePlan(maxItems, level + 1, leftExtent, leftItems);
        var right := MakePlan(maxItems, level + 1, rightExtent, rightItems);
        if left.Some? && right.Some? then Split(left.value, right.value) else Rejected
  }

  function LeafCount(plan: Plan): nat {
    match plan
    case Rest(_, _, _) => 1
    case Branch(_, _, _, left, right) => LeafCount(left) + LeafCount(right)
  }

  /** The tree of a plan, its leaves numbered from `nextId` on, left to right. */
  function Number(plan: Plan, nextId: int): Node {
    match plan
    case Rest(_, extent, _) => Leaf(extent, nextId)
    case Branch(_, extent, _, left, right) => Internal(extent, Number(left, nextId), Number(right, nextId + LeafCount(left)))
  }

  /** Appends the leaves below `node` that no failing `keep` hides. */
  function AddLeaves(node: Node, leaves: seq<(int, Rectangle)>, keep: Node -> bool): seq<(int, Rectangle)>
    decreases node
  {
    if !keep(node) then leaves
    else
      match node
      case Leaf(extent, id) => leaves + [(id, extent)]
      case Internal(_, left, right) => AddLeaves(right, AddLeaves(left, leaves, keep), keep)
  }

  function GetLeaves(root: Node): seq<(int, Rectangle)> {
    AddLeaves(root, [], (node: Node) => true)
  }

  function FindIntersectingLeaves(root: Node, envelope: Rectangle): seq<(int, Rectangle)> {
    AddLeaves(root, [], (node: Node) => Intersects(node.extent, envelope))
  }
}
