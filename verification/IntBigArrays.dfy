/**
The in-place sort over a segmented array: a three-way quicksort with a sampled pivot, a
four-pointer partition and a block swap of the two runs of pivot-like elements to the middle.
Every method is specified on the flat sequence that the segments stand for.
 */
module IntBigArrays {
  import opened BigArrays
  import opened SortSpec

  const SMALL := 7

  const MEDIUM := 40

  type IntSegments = array<array?<int>>

  method Swap(x: IntSegments, first: nat, second: nat, ghost segs: seq<array<int>>)
    requires Layout(x, segs) && first < Capacity(segs) && second < Capacity(segs)
    modifies segs
    ensures SwapOf(old(Flat(segs)), Flat(segs), first, second)
  {
    var t := Get(x, first, segs);
    var u := Get(x, second, segs);
    Set(x, first, u, segs);
    Set(x, second, t, segs);
  }

  /** One swap inside `[lo, hi)` of a sequence that is already a rearrangement of `s0` there. */
  method SwapWithin(x: IntSegments, first: nat, second: nat,
                    ghost segs: seq<array<int>>, ghost s0: seq<int>, ghost lo: nat, ghost hi: nat)
    requires Layout(x, segs) && lo <= first < hi <= Capacity(segs) && lo <= second < hi
    requires |s0| == Capacity(segs) && Rearranged(s0, Flat(segs), lo, hi)
    modifies segs
    ensures SwapOf(old(Flat(segs)), Flat(segs), first, second)
    ensures Rearranged(s0, Flat(segs), lo, hi)
  {
    ghost var s := Flat(segs);
    Swap(x, first, second, segs);
    SwapRearranges(s, Flat(segs), first, second, lo, hi);
    RearrangedTrans(s0, s, Flat(segs), lo, hi);
  }

  datatype Three = Three(p: int, q: int, r: int)

  ghost function Le(x: int, y: int, comp: Comparator): nat {
    if comp(x, y) <= 0 then 1 else 0
  }

  /** How many of the three come no later than `v`. */
  ghost function UpTo(t: Three, v: int, comp: Comparator): nat {
    Le(t.p, v, comp) + Le(t.q, v, comp) + Le(t.r, v, comp)
  }

  /** How many of the three come no earlier than `v`. */
  ghost function Onward(t: Three, v: int, comp: Comparator): nat {
    Le(v, t.p, comp) + Le(v, t.q, comp) + Le(v, t.r, comp)
  }

  /** `v` is one of the three, with two of them no later and two no earlier. */
  ghost predicate Median(t: Three, v: int, comp: Comparator) {
    (v == t.p || v == t.q || v == t.r) && UpTo(t, v, comp) >= 2 && Onward(t, v, comp) >= 2
  }

  /** The value that the comparisons below single out. */
  ghost function Middle(p: int, q: int, r: int, comp: Comparator): (v: int)
    requires TotalPreorder(comp)
    ensures Median(Three(p, q, r), v, comp)
  {
    Flip(comp, p, q);
    Flip(comp, q, r);
    Flip(comp, r, p);
    if comp(p, q) < 0 then
      (if comp(q, r) < 0 then q else if comp(p, r) < 0 then r else p)
    else
      (if comp(q, r) > 0 then q else if comp(p, r) > 0 then r else p)
  }

  function Med3(x: IntSegments, a: nat, b: nat, c: nat, comp: Comparator, ghost segs: seq<array<int>>): (m: nat)
    requires Layout(x, segs) && TotalPreorder(comp)
    requires a < Capacity(segs) && b < Capacity(segs) && c < Capacity(segs)
    reads x, segs
    ensures m == a || m == b || m == c
    ensures var s := Flat(segs); Median(Three(s[a], s[b], s[c]), s[m], comp)
  {
    var va, vb, vc := Get(x, a, segs), Get(x, b, segs), Get(x, c, segs);
    var ab, ac, bc := comp(va, vb), comp(va, vc), comp(vb, vc);
    assert Median(Three(va, vb, vc), Middle(va, vb, vc, comp), comp);
    if ab < 0 then
      (if bc < 0 then b else if ac < 0 then c else a)
    else
      (if bc > 0 then b else if ac > 0 then c else a)
  }

  /** The scan of the selection sort: the position of a least element of `[i, to)`. */
  method FindLeast(x: IntSegments, i: nat, to: nat, comp: Comparator, ghost segs: seq<array<int>>) returns (m: nat)
    requires Layout(x, segs) && TotalPreorder(comp) && i < to <= Capacity(segs)
    ensures i <= m < to && Least(Flat(segs), m, i, to, comp)
  {
    ghost var s := Flat(segs);
    m := i;
    var j := i + 1;
    Flip(comp, s[i], s[i]);
    while j < to
      invariant i <= m < j <= to
      invariant Least(s, m, i, j, comp)
    {
      var vj := Get(x, j, segs);
      var vm := Get(x, m, segs);
      if comp(vj, vm) < 0 {
        LeastMoves(s, m, i, j, comp);
        m := j;
      } else {
        Flip(comp, vj, vm);
      }
      j := j + 1;
    }
  }

  method SelectionSort(x: IntSegments, from: nat, to: nat, comp: Comparator, ghost segs: seq<array<int>>)
    requires Layout(x, segs) && TotalPreorder(comp)
    requires from <= to <= Capacity(segs)
    modifies segs
    ensures Sorted(Flat(segs), from, to, comp)
    ensures Rearranged(old(Flat(segs)), Flat(segs), from, to)
  {
    var i := from;
    ghost var s0 := Flat(segs);
    while i < to - 1
      invariant from <= i <= to && (i < to || i == from)
      invariant Rearranged(s0, Flat(segs), from, to)
      invariant Selected(Flat(segs), from, i, to, comp)
    {
      var m := FindLeast(x, i, to, comp, segs);
      ghost var s := Flat(segs);
      if m != i {
        SwapWithin(x, i, m, segs, s0, from, to);
      }
      SelectionStep(s, Flat(segs), from, i, to, m, comp);
      i := i + 1;
    }
    SelectionDone(Flat(segs), from, i, to, comp);
  }

  /** `[from, i)` is sorted and nothing in it comes after anything from `i` on. */
  ghost predicate Selected(s: seq<int>, from: int, i: int, to: int, comp: Comparator)
    requires 0 <= from && i <= to <= |s|
  {
    && Sorted(s, from, i, comp)
    && (forall k, l :: from <= k < i <= l < to ==> comp(s[k], s[l]) <= 0)
  }

  lemma SelectionDone(s: seq<int>, from: nat, i: nat, to: nat, comp: Comparator)
    requires from <= i <= to <= |s| && to - 1 <= i && Selected(s, from, i, to, comp)
    ensures Sorted(s, from, to, comp)
  {
  }

  ghost predicate Least(s: seq<int>, m: int, from: int, to: int, comp: Comparator)
    requires 0 <= from <= m < to <= |s|
  {
    forall k :: from <= k < to ==> comp(s[m], s[k]) <= 0
  }

  lemma LeastMoves(s: seq<int>, m: nat, i: nat, j: nat, comp: Comparator)
    requires TotalPreorder(comp) && i <= m < j < |s| && Least(s, m, i, j, comp)
    requires comp(s[j], s[m]) < 0
    ensures Least(s, j, i, j + 1, comp)
  {
    forall k | i <= k < j + 1 ensures comp(s[j], s[k]) <= 0 {
      if k < j {
        Chain(comp, s[j], s[m], s[k]);
      } else {
        Flip(comp, s[j], s[j]);
      }
    }
  }

  lemma SelectionStep(s: seq<int>, t: seq<int>, from: nat, i: nat, to: nat, m: nat, comp: Comparator)
    requires TotalPreorder(comp) && from <= i <= m < to <= |s| && SwapOf(s, t, i, m)
    requires Selected(s, from, i, to, comp) && Least(s, m, i, to, comp)
    ensures Selected(t, from, i + 1, to, comp)
  {
  }

  method VecSwap(x: IntSegments, a: nat, b: nat, count: nat, ghost segs: seq<array<int>>, ghost lo: nat, ghost hi: nat)
    requires Layout(x, segs) && lo <= a && a + count <= b && b + count <= hi <= Capacity(segs)
    modifies segs
    ensures Rearranged(old(Flat(segs)), Flat(segs), lo, hi)
    ensures BlocksSwapped(old(Flat(segs)), Flat(segs), a, b, count)
  {
    var i := 0;
    ghost var s0 := Flat(segs);
    while i < count
      invariant i <= count
      invariant Rearranged(s0, Flat(segs), lo, hi)
      invariant BlocksSwapped(s0, Flat(segs), a, b, i)
    {
      ghost var s := Flat(segs);
      SwapWithin(x, a + i, b + i, segs, s0, lo, hi);
      BlocksStep(s0, s, Flat(segs), a, b, i);
      i := i + 1;
    }
  }

  /** The two blocks of length `count` at `a` and `b` have changed places; the rest is as it was. */
  ghost predicate BlocksSwapped(s: seq<int>, t: seq<int>, a: nat, b: nat, count: nat)
    requires a + count <= b && b + count <= |s|
  {
    && |t| == |s|
    && (forall k :: a <= k < a + count ==> t[k] == s[k + (b - a)])
    && (forall k :: b <= k < b + count ==> t[k] == s[k - (b - a)])
    && (forall k :: 0 <= k < a || a + count <= k < b || b + count <= k < |s| ==> t[k] == s[k])
  }

  lemma BlocksStep(s0: seq<int>, s: seq<int>, t: seq<int>, a: nat, b: nat, i: nat)
    requires a + i + 1 <= b && b + i + 1 <= |s0|
    requires BlocksSwapped(s0, s, a, b, i) && SwapOf(s, t, a + i, b + i)
    ensures BlocksSwapped(s0, t, a, b, i + 1)
  {
  }

  /** The partition in progress: alike | before | unknown | after | alike. */
  ghost predicate Partitioning(s: seq<int>, from: int, to: int, a: int, b: int, c: int, d: int, v: int, comp: Comparator)
    requires 0 <= from <= to <= |s|
  {
    && from <= a <= b <= c + 1 <= d + 1 <= to
    && Alike(s, from, a, v, comp)
    && Below(s, a, b, v, comp)
    && Above(s, c + 1, d + 1, v, comp)
    && Alike(s, d + 1, to, v, comp)
  }

  lemma LowAlike(s: seq<int>, t: seq<int>, from: nat, to: nat, a: nat, b: nat, c: int, d: int, v: int, comp: Comparator)
    requires from <= to <= |s| && Partitioning(s, from, to, a, b, c, d, v, comp)
    requires b <= c && comp(s[b], v) == 0 && SwapOf(s, t, a, b)
    ensures Partitioning(t, from, to, a + 1, b + 1, c, d, v, comp)
  {
  }

  lemma HighAlike(s: seq<int>, t: seq<int>, from: nat, to: nat, a: nat, b: nat, c: int, d: int, v: int, comp: Comparator)
    requires from <= to <= |s| && Partitioning(s, from, to, a, b, c, d, v, comp)
    requires b <= c && comp(s[c], v) == 0 && SwapOf(s, t, c, d)
    ensures Partitioning(t, from, to, a, b, c - 1, d - 1, v, comp)
    ensures b < c ==> t[b] == s[b]
  {
  }

  lemma LowBelow(s: seq<int>, from: nat, to: nat, a: nat, b: nat, c: int, d: int, v: int, comp: Comparator)
    requires from <= to <= |s| && Partitioning(s, from, to, a, b, c, d, v, comp)
    requires b <= c && comp(s[b], v) < 0
    ensures Partitioning(s, from, to, a, b + 1, c, d, v, comp)
  {
  }

  lemma HighAbove(s: seq<int>, from: nat, to: nat, a: nat, b: nat, c: int, d: int, v: int, comp: Comparator)
    requires from <= to <= |s| && Partitioning(s, from, to, a, b, c, d, v, comp)
    requires b <= c && comp(s[c], v) > 0
    ensures Partitioning(s, from, to, a, b, c - 1, d, v, comp)
  {
  }

  lemma Exchange(s: seq<int>, t: seq<int>, from: nat, to: nat, a: nat, b: nat, c: int, d: int, v: int, comp: Comparator)
    requires from <= to <= |s| && Partitioning(s, from, to, a, b, c, d, v, comp)
    requires b < c && comp(s[b], v) > 0 && comp(s[c], v) < 0 && SwapOf(s, t, b, c)
    ensures Partitioning(t, from, to, a, b + 1, c - 1, d, v, comp)
  {
  }

  /** The inner loop that moves `b` up, gathering alike elements at the low end. */
  method ScanUp(x: IntSegments, from: nat, to: nat, a0: nat, b0: nat, c: int, d: int, v: int, comp: Comparator,
                ghost segs: seq<array<int>>, ghost s0: seq<int>)
    returns (a: nat, b: nat)
    requires Layout(x, segs) && from < to <= Capacity(segs) == |s0|
    requires Rearranged(s0, Flat(segs), from, to)
    requires Partitioning(Flat(segs), from, to, a0, b0, c, d, v, comp)
    modifies segs
    ensures Rearranged(s0, Flat(segs), from, to)
    ensures Partitioning(Flat(segs), from, to, a, b, c, d, v, comp)
    ensures b0 <= b && (b <= c ==> comp(Flat(segs)[b], v) > 0)
  {
    a, b := a0, b0;
    while b <= c
      invariant b0 <= b
      invariant Rearranged(s0, Flat(segs), from, to)
      invariant Partitioning(Flat(segs), from, to, a, b, c, d, v, comp)
      decreases c + 1 - b
    {
      var vb := Get(x, b, segs);
      var comparison := comp(vb, v);
      if comparison > 0 { break; }
      if comparison == 0 {
        ghost var s := Flat(segs);
        SwapWithin(x, a, b, segs, s0, from, to);
        LowAlike(s, Flat(segs), from, to, a, b, c, d, v, comp);
        a := a + 1;
      } else {
        LowBelow(Flat(segs), from, to, a, b, c, d, v, comp);
      }
      b := b + 1;
    }
  }

  /** The inner loop that moves `c` down, gathering alike elements at the high end. */
  method ScanDown(x: IntSegments, from: nat, to: nat, a: nat, b: nat, c0: int, d0: int, v: int, comp: Comparator,
                  ghost segs: seq<array<int>>, ghost s0: seq<int>)
    returns (c: int, d: int)
    requires Layout(x, segs) && from < to <= Capacity(segs) == |s0|
    requires Rearranged(s0, Flat(segs), from, to)
    requires Partitioning(Flat(segs), from, to, a, b, c0, d0, v, comp)
    requires b <= c0 ==> comp(Flat(segs)[b], v) > 0
    modifies segs
    ensures Rearranged(s0, Flat(segs), from, to)
    ensures Partitioning(Flat(segs), from, to, a, b, c, d, v, comp)
    ensures c <= c0 && (b <= c ==> b < c && comp(Flat(segs)[b], v) > 0 && comp(Flat(segs)[c], v) < 0)
  {
    c, d := c0, d0;
    while c >= b
      invariant c <= c0
      invariant Rearranged(s0, Flat(segs), from, to)
      invariant Partitioning(Flat(segs), from, to, a, b, c, d, v, comp)
      invariant b <= c ==> comp(Flat(segs)[b], v) > 0
      decreases c + 1 - b
    {
      var vc := Get(x, c, segs);
      var comparison := comp(vc, v);
      if comparison < 0 { break; }
      if comparison == 0 {
        ghost var s := Flat(segs);
        SwapWithin(x, c, d, segs, s0, from, to);
        HighAlike(s, Flat(segs), from, to, a, b, c, d, v, comp);
        d := d - 1;
      } else {
        HighAbove(Flat(segs), from, to, a, b, c, d, v, comp);
      }
      c := c - 1;
    }
  }

  method Partition(x: IntSegments, from: nat, to: nat, v: int, comp: Comparator, ghost segs: seq<array<int>>)
    returns (a: nat, b: nat, c: int, d: int)
    requires Layout(x, segs) && from < to <= Capacity(segs)
    modifies segs
    ensures Rearranged(old(Flat(segs)), Flat(segs), from, to)
    ensures Partitioning(Flat(segs), from, to, a, b, c, d, v, comp) && b == c + 1
  {
    a, b, c, d := from, from, to - 1, to - 1;
    ghost var s0 := Flat(segs);
    while true
      invariant Rearranged(s0, Flat(segs), from, to)
      invariant Partitioning(Flat(segs), from, to, a, b, c, d, v, comp)
      decreases c + 1 - b
    {
      a, b := ScanUp(x, from, to, a, b, c, d, v, comp, segs, s0);
      c, d := ScanDown(x, from, to, a, b, c, d, v, comp, segs, s0);
      if b > c { break; }
      ghost var s := Flat(segs);
      SwapWithin(x, b, c, segs, s0, from, to);
      Exchange(s, Flat(segs), from, to, a, b, c, d, v, comp);
      b, c := b + 1, c - 1;
    }
  }

  /** A finished partition regrouped: before | alike | after. */
  ghost predicate ThreeWay(s: seq<int>, from: int, lt: int, gt: int, to: int, v: int, comp: Comparator)
    requires 0 <= from <= to <= |s|
  {
    && from <= lt <= gt <= to
    && Below(s, from, lt, v, comp)
    && Alike(s, lt, gt, v, comp)
    && Above(s, gt, to, v, comp)
  }

  /** Half regrouped: before | alike | after | alike. */
  ghost predicate LowRegrouped(s: seq<int>, from: int, lt: int, b: int, d: int, to: int, v: int, comp: Comparator)
    requires 0 <= from <= to <= |s|
  {
    && from <= lt <= b <= d + 1 <= to
    && Below(s, from, lt, v, comp)
    && Alike(s, lt, b, v, comp)
    && Above(s, b, d + 1, v, comp)
    && Alike(s, d + 1, to, v, comp)
  }

  function Min(i: int, j: int): int {
    if i < j then i else j
  }

  /** Swapping the shorter of two adjacent runs with the end of the other exchanges the runs. */
  lemma RegroupLow(s: seq<int>, t: seq<int>, from: nat, to: nat, a: nat, b: nat, d: int, v: int, comp: Comparator)
    requires from <= to <= |s| && Partitioning(s, from, to, a, b, b - 1, d, v, comp)
    requires var count := Min(a - from, b - a); BlocksSwapped(s, t, from, b - count, count)
    ensures LowRegrouped(t, from, from + (b - a), b, d, to, v, comp)
  {
  }

  lemma RegroupHigh(s: seq<int>, t: seq<int>, from: nat, to: nat, lt: nat, b: nat, d: int, v: int, comp: Comparator)
    requires from <= to <= |s| && LowRegrouped(s, from, lt, b, d, to, v, comp)
    requires var count := Min(d + 1 - b, to - d - 1); BlocksSwapped(s, t, b, to - count, count)
    ensures ThreeWay(t, from, lt, to - (d + 1 - b), to, v, comp)
  {
  }

  method GatherLow(x: IntSegments, from: nat, to: nat, a: nat, b: nat, d: int, v: int, comp: Comparator,
                   ghost segs: seq<array<int>>)
    requires Layout(x, segs) && from <= to <= Capacity(segs)
    requires Partitioning(Flat(segs), from, to, a, b, b - 1, d, v, comp)
    modifies segs
    ensures Rearranged(old(Flat(segs)), Flat(segs), from, to)
    ensures LowRegrouped(Flat(segs), from, from + (b - a), b, d, to, v, comp)
  {
    ghost var s := Flat(segs);
    var count := Min(a - from, b - a);
    VecSwap(x, from, b - count, count, segs, from, to);
    RegroupLow(s, Flat(segs), from, to, a, b, d, v, comp);
  }

  method GatherHigh(x: IntSegments, from: nat, to: nat, ghost lt: nat, b: nat, c: int, d: int, v: int, comp: Comparator,
                    ghost segs: seq<array<int>>)
    requires Layout(x, segs) && from <= to <= Capacity(segs) && b == c + 1
    requires LowRegrouped(Flat(segs), from, lt, b, d, to, v, comp)
    modifies segs
    ensures Rearranged(old(Flat(segs)), Flat(segs), from, to)
    ensures ThreeWay(Flat(segs), from, lt, to - (d - c), to, v, comp)
  {
    ghost var s := Flat(segs);
    var count := Min(d - c, to - d - 1);
    VecSwap(x, b, to - count, count, segs, from, to);
    RegroupHigh(s, Flat(segs), from, to, lt, b, d, v, comp);
  }

  /** The pivot's own class is never empty, so both sides of the split are shorter than the range. */
  lemma PivotStays(s: seq<int>, t: seq<int>, m: nat, from: nat, lt: nat, gt: nat, to: nat, comp: Comparator)
    requires TotalPreorder(comp) && from <= m < to <= |s| && Rearranged(s, t, from, to)
    requires ThreeWay(t, from, lt, gt, to, s[m], comp)
    ensures lt < gt
  {
    RangeKeepsElements(s, t, from, to);
    assert s[m] == s[from..to][m - from];
    assert s[m] in multiset(t[from..to]);
    var k :| 0 <= k < to - from && t[from..to][k] == s[m];
    assert t[from + k] == s[m];
    Flip(comp, s[m], s[m]);
  }

  /** Sorting the two outer groups of a three-way split sorts the whole range. */
  lemma SortedOutside(s: seq<int>, t: seq<int>, u: seq<int>, from: nat, lt: nat, gt: nat, to: nat, v: int, comp: Comparator)
    requires TotalPreorder(comp) && from <= to <= |s| && ThreeWay(s, from, lt, gt, to, v, comp)
    requires Rearranged(s, t, from, lt) && Sorted(t, from, lt, comp)
    requires Rearranged(t, u, gt, to) && Sorted(u, gt, to, comp)
    ensures Sorted(u, from, to, comp) && Rearranged(s, u, from, to)
  {
    BelowRearranged(s, t, from, lt, v, comp);
    AboveRearranged(t, u, gt, to, v, comp);
    JoinSorted(u, from, lt, gt, to, v, comp);
    RearrangedWiden(s, t, from, to, from, lt);
    RearrangedWiden(t, u, from, to, gt, to);
    RearrangedTrans(s, t, u, from, to);
  }

  /** Three evenly spaced elements. */
  ghost function Triple(s: seq<int>, p: nat, step: nat): Three
    requires p + 2 * step < |s|
  {
    Three(s[p], s[p + step], s[p + 2 * step])
  }

  /** Where three evenly spaced triples of a range start, and the distance inside each. */
  datatype Spots = Spots(first: nat, middle: nat, last: nat, step: nat)

  ghost predicate Within(z: Spots, from: nat, to: nat) {
    && from <= z.first && z.first + 2 * z.step < to
    && from <= z.middle && z.middle + 2 * z.step < to
    && from <= z.last && z.last + 2 * z.step < to
  }

  /** Around the first, the middle and the last element, an eighth of the range apart. */
  function SpotsOf(from: nat, to: nat): (z: Spots)
    requires from + MEDIUM < to
    ensures Within(z, from, to)
    ensures z.first == from && z.middle + z.step == from + (to - from) / 2 && z.last + 2 * z.step == to - 1
  {
    var len := to - from;
    var step := len / 8;
    Spots(from, from + len / 2 - step, to - 1 - 2 * step, step)
  }

  /** The nine elements at these places. */
  ghost function Samples(s: seq<int>, z: Spots): (Three, Three, Three)
    requires Within(z, 0, |s|)
  {
    (Triple(s, z.first, z.step), Triple(s, z.middle, z.step), Triple(s, z.last, z.step))
  }

  /** `v` is the median of the medians of three triples. */
  ghost predicate Pseudomedian(t: (Three, Three, Three), v: int, comp: Comparator) {
    exists a, b, c :: Median(t.0, a, comp) && Median(t.1, b, comp) && Median(t.2, c, comp) && Median(Three(a, b, c), v, comp)
  }

  lemma MedianOfMedians(t: (Three, Three, Three), a: int, b: int, c: int, v: int, comp: Comparator)
    requires Median(t.0, a, comp) && Median(t.1, b, comp) && Median(t.2, c, comp) && Median(Three(a, b, c), v, comp)
    ensures Pseudomedian(t, v, comp)
  {
  }

  /** A median that comes no later than `v` brings two elements that do, and likewise the other way round. */
  lemma MedianBrings(t: Three, m: int, v: int, comp: Comparator)
    requires TotalPreorder(comp) && Median(t, m, comp)
    ensures comp(m, v) <= 0 ==> UpTo(t, v, comp) >= 2
    ensures comp(v, m) <= 0 ==> Onward(t, v, comp) >= 2
  {
    if comp(m, v) <= 0 {
      if comp(t.p, m) <= 0 { Chain(comp, t.p, m, v); }
      if comp(t.q, m) <= 0 { Chain(comp, t.q, m, v); }
      if comp(t.r, m) <= 0 { Chain(comp, t.r, m, v); }
    }
    if comp(v, m) <= 0 {
      if comp(m, t.p) <= 0 { Chain(comp, v, m, t.p); }
      if comp(m, t.q) <= 0 { Chain(comp, v, m, t.q); }
      if comp(m, t.r) <= 0 { Chain(comp, v, m, t.r); }
    }
  }

  /** A pseudomedian has four of the nine elements no later than itself and four no earlier. */
  lemma PseudomedianBounds(t: (Three, Three, Three), v: int, comp: Comparator)
    requires TotalPreorder(comp) && Pseudomedian(t, v, comp)
    ensures UpTo(t.0, v, comp) + UpTo(t.1, v, comp) + UpTo(t.2, v, comp) >= 4
    ensures Onward(t.0, v, comp) + Onward(t.1, v, comp) + Onward(t.2, v, comp) >= 4
  {
    var a, b, c :| Median(t.0, a, comp) && Median(t.1, b, comp) && Median(t.2, c, comp) && Median(Three(a, b, c), v, comp);
    MedianBrings(t.0, a, v, comp);
    MedianBrings(t.1, b, v, comp);
    MedianBrings(t.2, c, v, comp);
  }

  /** The median of three evenly spaced elements. */
  function Sample(x: IntSegments, p: nat, step: nat, comp: Comparator,
                  ghost from: nat, ghost to: nat, ghost segs: seq<array<int>>): (m: nat)
    requires Layout(x, segs) && TotalPreorder(comp) && from <= p && p + 2 * step < to <= Capacity(segs)
    reads x, segs
    ensures from <= m < to
    ensures var s := Flat(segs); Median(Triple(s, p, step), s[m], comp)
  {
    Med3(x, p, p + step, p + 2 * step, comp, segs)
  }

  /** The pseudomedian of nine. */
  function Ninther(x: IntSegments, z: Spots, comp: Comparator,
                   ghost from: nat, ghost to: nat, ghost segs: seq<array<int>>): (k: nat)
    requires Layout(x, segs) && TotalPreorder(comp) && Within(z, from, to) && to <= Capacity(segs)
    reads x, segs
    ensures from <= k < to
    ensures var s := Flat(segs); Pseudomedian(Samples(s, z), s[k], comp)
  {
    var l := Sample(x, z.first, z.step, comp, from, to, segs);
    var m := Sample(x, z.middle, z.step, comp, from, to, segs);
    var n := Sample(x, z.last, z.step, comp, from, to, segs);
    var k := Med3(x, l, m, n, comp, segs);
    ghost var s := Flat(segs);
    MedianOfMedians(Samples(s, z), s[l], s[m], s[n], s[k], comp);
    k
  }

  /** The partition element: the middle, the median of three, or the pseudomedian of nine. */
  function ChoosePivot(x: IntSegments, from: nat, to: nat, comp: Comparator, ghost segs: seq<array<int>>): (m: nat)
    requires Layout(x, segs) && TotalPreorder(comp) && from + SMALL <= to <= Capacity(segs)
    reads x, segs
    ensures from <= m < to
    ensures to - from == SMALL ==> m == from + SMALL / 2
    ensures SMALL < to - from <= MEDIUM ==>
              var s := Flat(segs); Median(Three(s[from], s[from + (to - from) / 2], s[to - 1]), s[m], comp)
    ensures MEDIUM < to - from ==> var s := Flat(segs); Pseudomedian(Samples(s, SpotsOf(from, to)), s[m], comp)
  {
    var len := to - from;
    if len == SMALL then
      from + len / 2
    else if len <= MEDIUM then
      Med3(x, from, from + len / 2, to - 1, comp, segs)
    else
      Ninther(x, SpotsOf(from, to), comp, from, to, segs)
  }

  /** Chooses a pivot and splits the range around it; `[lt, gt)` holds the elements alike to it. */
  method SplitThreeWay(x: IntSegments, from: nat, to: nat, comp: Comparator, ghost segs: seq<array<int>>)
    returns (lt: nat, gt: nat, ghost v: int)
    requires Layout(x, segs) && TotalPreorder(comp) && from + SMALL <= to <= Capacity(segs)
    modifies segs
    ensures Rearranged(old(Flat(segs)), Flat(segs), from, to)
    ensures ThreeWay(Flat(segs), from, lt, gt, to, v, comp) && lt < gt
  {
    ghost var s0 := Flat(segs);
    var m := ChoosePivot(x, from, to, comp, segs);
    var pivot := Get(x, m, segs);
    var a, b, c, d := Partition(x, from, to, pivot, comp, segs);
    ghost var s1 := Flat(segs);
    GatherLow(x, from, to, a, b, d, pivot, comp, segs);
    RearrangedTrans(s0, s1, Flat(segs), from, to);
    ghost var s2 := Flat(segs);
    lt, gt, v := from + (b - a), to - (d - c), pivot;
    GatherHigh(x, from, to, lt, b, c, d, pivot, comp, segs);
    RearrangedTrans(s0, s2, Flat(segs), from, to);
    PivotStays(s0, Flat(segs), m, from, lt, gt, to, comp);
  }

  /** Sorts `[from, to)` in place; an empty or inverted range is left alone. */
  method QuickSort(x: IntSegments, from: nat, to: nat, comp: Comparator, ghost segs: seq<array<int>>)
    requires Layout(x, segs) && TotalPreorder(comp) && (from <= to ==> to <= Capacity(segs))
    modifies segs
    ensures from <= to ==> Sorted(Flat(segs), from, to, comp) && Rearranged(old(Flat(segs)), Flat(segs), from, to)
    ensures from > to ==> Flat(segs) == old(Flat(segs))
    decreases if from <= to then to - from else 0
  {
    if to - from < SMALL {
      if from < to {
        SelectionSort(x, from, to, comp, segs);
      }
      return;
    }
    ghost var s0 := Flat(segs);
    var lt, gt, v := SplitThreeWay(x, from, to, comp, segs);
    ghost var s1 := Flat(segs);
    if lt - from > 1 {
      QuickSort(x, from, lt, comp, segs);
    }
    ghost var s2 := Flat(segs);
    if to - gt > 1 {
      QuickSort(x, gt, to, comp, segs);
    }
    SortedOutside(s1, s2, Flat(segs), from, lt, gt, to, v, comp);
    RearrangedTrans(s0, s1, Flat(segs), from, to);
  }
}
