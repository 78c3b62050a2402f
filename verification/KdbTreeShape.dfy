/**
What tree comes out of a build, said of the tree and the items alone: when a node is split, over which side, and
where. No other tree fits the description.
 */
module KdbTreeShape {
  import opened Wrappers
  import opened Rectangle
  import opened KdbTree
  import opened KdbTreeTheorems

  ghost predicate Largest(dim: Dimension, s: seq<Rectangle>, v: real) {
    (exists r :: r in s && Value(dim, r) == v) && forall r :: r in s ==> Value(dim, r) <= v
  }

  ghost predicate Smallest(dim: Dimension, s: seq<Rectangle>, v: real) {
    (exists r :: r in s && Value(dim, r) == v) && forall r :: r in s ==> v <= Value(dim, r)
  }

  /** `v` is the value at the lower middle of the sorted items. */
  ghost predicate Medial(dim: Dimension, items: seq<Rectangle>, v: real) {
    Tally(dim, items, Less, v) <= (|items| - 1) / 2 < Tally(dim, items, AtMost, v)
  }

  /** The items with the median value or a smaller one go left, from which the cut keeps half the distance to the next. */
  ghost predicate Divides(dim: Dimension, items: seq<Rectangle>, left: seq<Rectangle>, right: seq<Rectangle>, cut: real) {
    && multiset(left) + multiset(right) == multiset(items)
    && exists v, w :: Borders(dim, items, left, right, v, w) && cut == (v + w) / 2.0
  }

  ghost predicate Borders(dim: Dimension, items: seq<Rectangle>, left: seq<Rectangle>, right: seq<Rectangle>, v: real, w: real) {
    Largest(dim, left, v) && Smallest(dim, right, w) && v < w && Medial(dim, items, v)
  }

  /** So many items share the largest value that they reach down to the median. */
  ghost predicate CannotCut(dim: Dimension, items: seq<Rectangle>) {
    exists v :: TopHeavy(dim, items, v)
  }

  /** `l` and `r` are the parts of `e` on either side of a line at `cut`. */
  ghost predicate PartsAt(dim: Dimension, e: Rectangle, cut: real, l: Rectangle, r: Rectangle) {
    match dim
    case ByX => e.xMin < cut < e.xMax && l == e.(xMax := cut) && r == e.(xMin := cut)
    case ByY => e.yMin < cut < e.yMax && l == e.(yMax := cut) && r == e.(yMin := cut)
  }

  /** The side a node is split over: the longer one, or the other if that cannot be cut. */
  ghost function SplitSide(e: Rectangle, items: seq<Rectangle>): Dimension {
    if e.xMax - e.xMin >= e.yMax - e.yMin then (if CannotCut(ByX, items) then ByY else ByX)
    else (if CannotCut(ByY, items) then ByX else ByY)
  }

  ghost predicate Splittable(maxItems: int, level: nat, items: seq<Rectangle>) {
    |items| > maxItems && level < 10_000 && !(CannotCut(ByX, items) && CannotCut(ByY, items))
  }

  /** A cut at `cut` over the side to split divides the items into `a` and `b` and the extent into `l` and `r`. */
  ghost predicate CutAcross(e: Rectangle, items: seq<Rectangle>, cut: real,
                            l: Rectangle, a: seq<Rectangle>, r: Rectangle, b: seq<Rectangle>) {
    Divides(SplitSide(e, items), items, a, b, cut) && PartsAt(SplitSide(e, items), e, cut, l, r)
  }

  /** A node is split exactly where there are too many items and they can be split, and then as it must be. */
  ghost predicate Decided(plan: Plan, maxItems: int) {
    match plan
    case Rest(level, _, items) => !Splittable(maxItems, level, items)
    case Branch(level, e, items, p, q) =>
      && Splittable(maxItems, level, items) && p.level == q.level == level + 1
      && (exists cut :: CutAcross(e, items, cut, p.extent, p.items, q.extent, q.items))
      && Decided(p, maxItems) && Decided(q, maxItems)
  }

  /** The node and its children have the extents of the plan and are split where it is. */
  ghost predicate Mirrors(node: Node, plan: Plan) {
    && node.extent == plan.extent && node.Leaf? == plan.Rest?
    && (node.Internal? ==> Mirrors(node.left, plan.left) && Mirrors(node.right, plan.right))
  }

  ghost predicate PlanFor(plan: Plan, maxItems: int, level: nat, e: Rectangle, items: seq<Rectangle>) {
    plan.level == level && plan.extent == e && plan.items == items && Decided(plan, maxItems)
  }

  /** `node` is the tree for these items over `e`. */
  ghost predicate Built(node: Node, maxItems: int, e: Rectangle, items: seq<Rectangle>) {
    exists plan :: PlanFor(plan, maxItems, 0, e, items) && Mirrors(node, plan)
  }

  // ----- The build makes it

  lemma TallyFrom(dim: Dimension, s: seq<Rectangle>, m: nat, rel: Relation, v: real)
    requires m <= |s|
    ensures (forall i :: 0 <= i < m ==> Stands(rel, Value(dim, s[i]), v)) ==> Tally(dim, s, rel, v) >= m
    ensures (forall i :: m <= i < |s| ==> !Stands(rel, Value(dim, s[i]), v)) ==> Tally(dim, s, rel, v) <= m
  {
    var a, b := s[..m], s[m..];
    assert s == a + b;
    TallyConcat(dim, a, b, rel, v);
    TallyAll(dim, a, rel, v);
    TallyAll(dim, b, rel, v);
  }

  lemma MiddleOfSorted(dim: Dimension, s: seq<Rectangle>, m: nat)
    requires SortedBy(dim, s) && m < |s|
    ensures Tally(dim, s, Less, Value(dim, s[m])) <= m < Tally(dim, s, AtMost, Value(dim, s[m]))
  {
    var v := Value(dim, s[m]);
    TallyFrom(dim, s, m, Less, v);
    TallyFrom(dim, s, m + 1, AtMost, v);
  }

  lemma SortedIsMedial(dim: Dimension, items: seq<Rectangle>)
    requires |items| > 1
    ensures Medial(dim, items, Value(dim, SortedCopy(dim, items)[(|items| - 1) / 2]))
  {
    SortedCopyIsSorted(dim, items);
    var s, m := SortedCopy(dim, items), (|items| - 1) / 2;
    TallySame(dim, items, s, Less, Value(dim, s[m]));
    TallySame(dim, items, s, AtMost, Value(dim, s[m]));
    MiddleOfSorted(dim, s, m);
  }

  lemma BordersAt(dim: Dimension, s: seq<Rectangle>, m: nat, k: nat)
    requires SortedBy(dim, s) && m < k < |s| && Value(dim, s[k]) != Value(dim, s[m])
    requires forall i :: m <= i < k ==> Value(dim, s[i]) == Value(dim, s[m])
    ensures Largest(dim, s[..k], Value(dim, s[m])) && Smallest(dim, s[k..], Value(dim, s[k]))
    ensures Value(dim, s[m]) < Value(dim, s[k])
  {
    assert s[..k][m] == s[m] && s[k..][0] == s[k];
    assert forall i :: 0 <= i < k ==> Value(dim, s[i]) <= Value(dim, s[m]);
    assert forall i :: k <= i < |s| ==> Value(dim, s[k]) <= Value(dim, s[i]);
  }

  lemma CutDivides(dim: Dimension, items: seq<Rectangle>)
    requires |items| > 1 && FindCut(dim, items).Cut?
    ensures var Cut(value, left, right) := FindCut(dim, items); Divides(dim, items, left, right, value)
  {
    FindCutSeparates(dim, items);
    SortedCopyIsSorted(dim, items);
    SortedIsMedial(dim, items);
    var s, m := SortedCopy(dim, items), (|items| - 1) / 2;
    var k := SkipEqual(dim, s, m, Value(dim, s[m]));
    BordersAt(dim, s, m, k);
    assert Borders(dim, items, s[..k], s[k..], Value(dim, s[m]), Value(dim, s[k]));
  }

  lemma SplitFails(dim: Dimension, maxItems: int, level: nat, e: Rectangle, items: seq<Rectangle>)
    requires |items| > 1
    ensures PlanSplit(dim, maxItems, level, e, items).CannotSplit? <==> CannotCut(dim, items)
  {
    NoCutIffTopHeavy(dim, items);
  }

  /** Which side an attempt is made over in the end. */
  lemma EitherIs(maxItems: int, level: nat, e: Rectangle, items: seq<Rectangle>)
    requires |items| > 1
    ensures PlanEither(maxItems, level, e, items)
            == if CannotCut(ByX, items) && CannotCut(ByY, items) then CannotSplit
               else PlanSplit(SplitSide(e, items), maxItems, level, e, items)
    ensures PlanEither(maxItems, level, e, items).CannotSplit? ==> CannotCut(ByX, items) && CannotCut(ByY, items)
  {
    SplitFails(ByX, maxItems, level, e, items);
    SplitFails(ByY, maxItems, level, e, items);
  }

  lemma {:induction false} SplitIsDecided(maxItems: int, level: nat, e: Rectangle, items: seq<Rectangle>, p: Plan, q: Plan)
    requires |items| > 1 && Splittable(maxItems, level, items)
    requires PlanSplit(SplitSide(e, items), maxItems, level, e, items) == Split(p, q)
    ensures PlanFor(Branch(level, e, items, p, q), maxItems, level, e, items)
    decreases |items|, 0
  {
    var dim := SplitSide(e, items);
    var Cut(cut, left, right) := FindCut(dim, items);
    CutDivides(dim, items);
    var (l, r) := SplitExtent(dim, e, cut).value;
    PlanIsDecided(maxItems, level + 1, l, left, p);
    PlanIsDecided(maxItems, level + 1, r, right, q);
    assert CutAcross(e, items, cut, l, left, r, right);
  }

  lemma {:induction false} PlanIsDecided(maxItems: int, level: nat, e: Rectangle, items: seq<Rectangle>, plan: Plan)
    requires MakePlan(maxItems, level, e, items) == Some(plan)
    ensures PlanFor(plan, maxItems, level, e, items)
    decreases |items|, 1
  {
    if |items| <= maxItems || level == MAX_LEVELS {
    } else {
      EitherIs(maxItems, level, e, items);
      if plan.Branch? {
        SplitIsDecided(maxItems, level, e, items, plan.left, plan.right);
      }
    }
  }

  lemma {:induction false} NumberMirrors(plan: Plan, nextId: int)
    ensures Mirrors(Number(plan, nextId), plan)
  {
    match plan
    case Rest(_, _, _) =>
    case Branch(_, _, _, p, q) =>
      NumberMirrors(p, nextId);
      NumberMirrors(q, nextId + LeafCount(p));
  }

  /** Whatever the build makes is the tree described. */
  lemma PlanIsBuilt(maxItems: int, e: Rectangle, items: seq<Rectangle>, plan: Plan, nextId: int)
    requires MakePlan(maxItems, 0, e, items) == Some(plan)
    ensures Number(plan, nextId).extent == e && Built(Number(plan, nextId), maxItems, e, items)
  {
    PlanIsDecided(maxItems, 0, e, items, plan);
    NumberMirrors(plan, nextId);
  }

  // ----- And nothing else fits

  /** The same tree but for the ids of the leaves. */
  ghost predicate SameShape(n: Node, o: Node) {
    && n.extent == o.extent && n.Leaf? == o.Leaf?
    && (n.Internal? ==> SameShape(n.left, o.left) && SameShape(n.right, o.right))
  }

  lemma SameTopHeavy(dim: Dimension, s: seq<Rectangle>, t: seq<Rectangle>)
    requires multiset(s) == multiset(t)
    ensures |s| == |t| && (CannotCut(dim, s) <==> CannotCut(dim, t))
  {
    assert |s| == |multiset(s)| && |t| == |multiset(t)|;
    forall v ensures TopHeavy(dim, s, v) <==> TopHeavy(dim, t, v) {
      TallySame(dim, s, t, Equal, v);
      forall r ensures r in s <==> r in t { assert r in multiset(s) <==> r in multiset(t); }
    }
  }

  /** There is one median. */
  lemma MedialOnce(dim: Dimension, items: seq<Rectangle>, v: real, u: real)
    requires Medial(dim, items, v) && Medial(dim, items, u)
    ensures v == u
  {
    if v < u {
      TallyGrows(dim, items, v, u);
    } else if u < v {
      TallyGrows(dim, items, u, v);
    }
  }

  lemma {:induction false} TallyGrows(dim: Dimension, items: seq<Rectangle>, v: real, u: real)
    requires v < u
    ensures Tally(dim, items, AtMost, v) <= Tally(dim, items, Less, u)
  {
    if items == [] {
    } else {
      TallyGrows(dim, items[1..], v, u);
    }
  }

  /** Of all the items, the left ones are those up to `v`. */
  lemma LeftIs(dim: Dimension, items: seq<Rectangle>, left: seq<Rectangle>, right: seq<Rectangle>, v: real, w: real, r: Rectangle)
    requires multiset(left) + multiset(right) == multiset(items) && Borders(dim, items, left, right, v, w)
    ensures multiset(left)[r] == if Value(dim, r) <= v then multiset(items)[r] else 0
  {
    assert multiset(items)[r] == multiset(left)[r] + multiset(right)[r];
    assert r in multiset(left) ==> r in left;
    assert r in multiset(right) ==> r in right;
  }

  lemma SameSmallest(dim: Dimension, s: seq<Rectangle>, t: seq<Rectangle>, v: real, w: real)
    requires multiset(s) == multiset(t) && Smallest(dim, s, v) && Smallest(dim, t, w)
    ensures v == w
  {
    var r :| r in s && Value(dim, r) == v;
    var q :| q in t && Value(dim, q) == w;
    assert r in multiset(t) && q in multiset(s);
  }

  lemma SameMedian(dim: Dimension, s: seq<Rectangle>, t: seq<Rectangle>, v: real, u: real)
    requires multiset(s) == multiset(t) && Medial(dim, s, v) && Medial(dim, t, u)
    ensures v == u
  {
    assert |s| == |multiset(s)| && |t| == |multiset(t)|;
    TallySame(dim, s, t, Less, u);
    TallySame(dim, s, t, AtMost, u);
    MedialOnce(dim, s, v, u);
  }

  lemma SameParts(dim: Dimension, s: seq<Rectangle>, a: seq<Rectangle>, b: seq<Rectangle>, v: real, w: real,
                  t: seq<Rectangle>, c: seq<Rectangle>, d: seq<Rectangle>, u: real)
    requires multiset(s) == multiset(t) && multiset(a) + multiset(b) == multiset(s) && multiset(c) + multiset(d) == multiset(t)
    requires Borders(dim, s, a, b, v, w) && Borders(dim, t, c, d, v, u)
    ensures multiset(a) == multiset(c) && multiset(b) == multiset(d)
  {
    forall r ensures multiset(a)[r] == multiset(c)[r] {
      LeftIs(dim, s, a, b, v, w, r);
      LeftIs(dim, t, c, d, v, u, r);
    }
    assert multiset(a) == multiset(c);
    assert multiset(b) == multiset(s) - multiset(a) && multiset(d) == multiset(t) - multiset(c);
  }

  lemma DividesOnce(dim: Dimension, s: seq<Rectangle>, a: seq<Rectangle>, b: seq<Rectangle>, cut: real,
                    t: seq<Rectangle>, c: seq<Rectangle>, d: seq<Rectangle>, cut': real)
    requires multiset(s) == multiset(t) && Divides(dim, s, a, b, cut) && Divides(dim, t, c, d, cut')
    ensures cut == cut' && multiset(a) == multiset(c) && multiset(b) == multiset(d)
  {
    var v, w :| Borders(dim, s, a, b, v, w) && cut == (v + w) / 2.0;
    var v', w' :| Borders(dim, t, c, d, v', w') && cut' == (v' + w') / 2.0;
    SameMedian(dim, s, t, v, v');
    SameParts(dim, s, a, b, v, w, t, c, d, w');
    SameSmallest(dim, b, d, w, w');
  }

  lemma SameSplittable(maxItems: int, level: nat, e: Rectangle, s: seq<Rectangle>, t: seq<Rectangle>)
    requires multiset(s) == multiset(t)
    ensures Splittable(maxItems, level, s) <==> Splittable(maxItems, level, t)
    ensures SplitSide(e, s) == SplitSide(e, t)
  {
    SameTopHeavy(ByX, s, t);
    SameTopHeavy(ByY, s, t);
  }

  lemma CutOnce(e: Rectangle, s: seq<Rectangle>, p: Plan, q: Plan, t: seq<Rectangle>, p': Plan, q': Plan, cut: real, cut': real)
    requires multiset(s) == multiset(t) && SplitSide(e, s) == SplitSide(e, t)
    requires CutAcross(e, s, cut, p.extent, p.items, q.extent, q.items)
    requires CutAcross(e, t, cut', p'.extent, p'.items, q'.extent, q'.items)
    ensures p.extent == p'.extent && q.extent == q'.extent
    ensures multiset(p.items) == multiset(p'.items) && multiset(q.items) == multiset(q'.items)
  {
    DividesOnce(SplitSide(e, s), s, p.items, q.items, cut, t, p'.items, q'.items, cut');
  }

  lemma {:induction false} DecidedOnce(maxItems: int, plan: Plan, other: Plan, n: Node, o: Node)
    requires Decided(plan, maxItems) && Decided(other, maxItems) && Mirrors(n, plan) && Mirrors(o, other)
    requires plan.level == other.level && plan.extent == other.extent && multiset(plan.items) == multiset(other.items)
    ensures SameShape(n, o)
    decreases plan
  {
    SameSplittable(maxItems, plan.level, plan.extent, plan.items, other.items);
    if plan.Branch? {
      var p, q, p', q' := plan.left, plan.right, other.left, other.right;
      var cut :| CutAcross(plan.extent, plan.items, cut, p.extent, p.items, q.extent, q.items);
      var cut' :| CutAcross(other.extent, other.items, cut', p'.extent, p'.items, q'.extent, q'.items);
      CutOnce(plan.extent, plan.items, p, q, other.items, p', q', cut, cut');
      DecidedOnce(maxItems, p, p', n.left, o.left);
      DecidedOnce(maxItems, q, q', n.right, o.right);
    }
  }

  /** The items, the extent and the node size determine the tree. */
  lemma BuiltOnce(maxItems: int, e: Rectangle, n: Node, o: Node, s: seq<Rectangle>, t: seq<Rectangle>)
    requires Built(n, maxItems, e, s) && Built(o, maxItems, e, t) && multiset(s) == multiset(t)
    ensures SameShape(n, o)
  {
    var plan :| PlanFor(plan, maxItems, 0, e, s) && Mirrors(n, plan);
    var other :| PlanFor(other, maxItems, 0, e, t) && Mirrors(o, other);
    DecidedOnce(maxItems, plan, other, n, o);
  }
}
