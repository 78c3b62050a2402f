/** The build as the program runs it: ids are handed out by a counter while the tree grows. */
module KdbTreeBuild {
  import opened Wrappers
  import opened Rectangle
  import opened KdbTree
  import opened KdbTreeShape
  import opened KdbTreeTheorems

  class LeafIdAllocator {
    var nextId: int

    constructor ()
      ensures nextId == 0
    {
      nextId := 0;
    }

    method Next() returns (id: int)
      modifies this
      ensures id == old(nextId) && nextId == old(nextId) + 1
    {
      id := nextId;
      nextId := nextId + 1;
    }
  }

  datatype NodeSplit = NoSplit | Thrown | Children(left: Node, right: Node)

  /** The node is the numbered plan and the ids handed out are those of its leaves. */
  ghost predicate Realizes(node: Option<Node>, plan: Option<Plan>, before: int, after: int) {
    if plan.None? then node == None
    else node == Some(Number(plan.value, before)) && after == before + LeafCount(plan.value)
  }

  /** Likewise for a split; one that cannot be made hands out no id. */
  ghost predicate RealizesSplit(split: NodeSplit, attempt: Attempt, before: int, after: int) {
    match attempt
    case CannotSplit => split == NoSplit && after == before
    case Rejected => split == Thrown
    case Split(p, q) =>
      && split == Children(Number(p, before), Number(q, before + LeafCount(p)))
      && after == before + LeafCount(p) + LeafCount(q)
  }

  method BuildKdbTreeNode(maxItems: int, level: nat, extent: Rectangle, items: seq<Rectangle>, ids: LeafIdAllocator)
    returns (node: Option<Node>)
    modifies ids
    ensures Realizes(node, MakePlan(maxItems, level, extent, items), old(ids.nextId), ids.nextId)
    decreases |items|, 2
  {
    if maxItems <= 0 || level > MAX_LEVELS {
      return None;
    }
    if |items| <= maxItems || level == MAX_LEVELS {
      var id := ids.Next();
      return Some(Leaf(extent, id));
    }
    var split := TryEither(maxItems, level, extent, items, ids);
    match split
    case NoSplit =>
      var id := ids.Next();
      return Some(Leaf(extent, id));
    case Thrown =>
      return None;
    case Children(left, right) =>
      return Some(Internal(extent, left, right));
  }

  method TryEither(maxItems: int, level: nat, extent: Rectangle, items: seq<Rectangle>, ids: LeafIdAllocator)
    returns (split: NodeSplit)
    requires |items| > 1
    modifies ids
    ensures RealizesSplit(split, PlanEither(maxItems, level, extent, items), old(ids.nextId), ids.nextId)
    decreases |items|, 1
  {
    var longer := LongerSide(extent);
    split := TrySplit(longer, maxItems, level, extent, items, ids);
    if split.NoSplit? {
      split := TrySplit(Other(longer), maxItems, level, extent, items, ids);
    }
  }

  method TrySplit(dim: Dimension, maxItems: int, level: nat, extent: Rectangle, items: seq<Rectangle>, ids: LeafIdAllocator)
    returns (split: NodeSplit)
    requires |items| > 1
    modifies ids
    ensures RealizesSplit(split, PlanSplit(dim, maxItems, level, extent, items), old(ids.nextId), ids.nextId)
    decreases |items|, 0
  {
    var cut := ComputeCut(dim, items);
    if cut.NoCut? {
      return NoSplit;
    }
    var childExtents := SplitExtent(dim, extent, cut.value);
    if childExtents.None? {
      return Thrown;
    }
    var left := BuildKdbTreeNode(maxItems, level + 1, childExtents.value.0, cut.left, ids);
    if left.None? {
      return Thrown;
    }
    var right := BuildKdbTreeNode(maxItems, level + 1, childExtents.value.1, cut.right, ids);
    if right.None? {
      return Thrown;
    }
    return Children(left.value, right.value);
  }

  /** The search for the cut: sort, start at the median and skip over duplicates of its value. */
  method ComputeCut(dim: Dimension, items: seq<Rectangle>) returns (cut: Cut)
    requires |items| > 1
    ensures cut == FindCut(dim, items)
  {
    var sortedItems := SortedCopy(dim, items);
    var middleIndex := (|sortedItems| - 1) / 2;
    var splitValue := Value(dim, sortedItems[middleIndex]);
    var splitIndex := SkipDuplicates(dim, sortedItems, middleIndex, splitValue);
    if splitIndex == |sortedItems| {
      return NoCut;
    }
    splitValue := (splitValue + Value(dim, sortedItems[splitIndex])) / 2.0;
    return Cut(splitValue, sortedItems[..splitIndex], sortedItems[splitIndex..]);
  }

  method SkipDuplicates(dim: Dimension, s: seq<Rectangle>, from: nat, v: real) returns (k: nat)
    requires from <= |s|
    ensures k == SkipEqual(dim, s, from, v)
  {
    k := from;
    while k < |s| && Value(dim, s[k]) == v
      invariant from <= k <= |s|
      invariant SkipEqual(dim, s, k, v) == SkipEqual(dim, s, from, v)
    {
      k := k + 1;
    }
  }

  /** Any tree that comes out is the one tree described by `Built`. Over an extent that holds the items' min corners one
      always does, divides that extent, and has its leaves numbered 0, 1, 2, ... from left to right. */
  method BuildKdbTree(maxItems: int, extent: Rectangle, items: seq<Rectangle>) returns (root: Option<Node>)
    ensures maxItems <= 0 ==> root == None
    ensures root.Some? ==> root.value.extent == extent && Built(root.value, maxItems, extent, items)
    ensures maxItems > 0 && |items| <= maxItems ==> root == Some(Leaf(extent, 0))
    ensures maxItems > 0 && Corners(extent, items) ==>
              && root.Some? && Tiled(root.value)
              && forall i :: 0 <= i < |GetLeaves(root.value)| ==> GetLeaves(root.value)[i].0 == i
  {
    var ids := new LeafIdAllocator();
    root := BuildKdbTreeNode(maxItems, 0, extent, items, ids);
    if root.Some? {
      PlanIsBuilt(maxItems, extent, items, MakePlan(maxItems, 0, extent, items).value, 0);
    }
    if maxItems > 0 {
      SearchOfPlan(maxItems, extent, items);
    }
  }

  lemma SearchOfPlan(maxItems: int, extent: Rectangle, items: seq<Rectangle>)
    requires maxItems > 0
    ensures Corners(extent, items) ==>
              && MakePlan(maxItems, 0, extent, items).Some?
              && var root := Number(MakePlan(maxItems, 0, extent, items).value, 0);
              && root.extent == extent && Tiled(root)
              && forall i :: 0 <= i < |GetLeaves(root)| ==> GetLeaves(root)[i].0 == i
  {
    if Corners(extent, items) {
      var plan := PlanIsSound(maxItems, 0, extent, items);
      NumberIsSound(plan, 0, maxItems);
      ScanFinds(Number(plan, 0), (node: Node) => true);
    }
  }
}
