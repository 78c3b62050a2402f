/**
The two-level layout shared by the big arrays of presto-array: an outer array of
fixed-size segments that stands for one flat sequence of elements.
 */
module BigArrays {

  const INITIAL_SEGMENTS := 1024

  const SEGMENT_SIZE := 1024

  function Segment(index: nat): nat {
    index / SEGMENT_SIZE
  }

  function Offset(index: nat): nat {
    index % SEGMENT_SIZE
  }

  /** Distinct indices never share a slot. */
  lemma SlotsAreDistinct(i: nat, j: nat)
    ensures Segment(i) == Segment(j) && Offset(i) == Offset(j) <==> i == j
    ensures Offset(i) < SEGMENT_SIZE
    ensures i == Segment(i) * SEGMENT_SIZE + Offset(i)
  {
  }

  /** Full segments, no two of them the same array. */
  ghost predicate Wellformed<T>(segs: seq<array<T>>) {
    && (forall i :: 0 <= i < |segs| ==> segs[i].Length == SEGMENT_SIZE)
    && (forall i, j :: 0 <= i < j < |segs| ==> segs[i] != segs[j])
  }

  /** The first slots of the outer array `x` hold exactly the segments `segs`. */
  ghost predicate Layout<T>(x: array<array?<T>>, segs: seq<array<T>>)
    reads x
  {
    && Wellformed(segs)
    && |segs| <= x.Length
    && (forall i :: 0 <= i < |segs| ==> x[i] == segs[i] && segs[i] as object != x)
  }

  ghost function Capacity<T>(segs: seq<array<T>>): nat {
    |segs| * SEGMENT_SIZE
  }

  /** The flat sequence that the segments stand for. */
  ghost function Flat<T>(segs: seq<array<T>>): (s: seq<T>)
    requires Wellformed(segs)
    reads segs
    ensures |s| == Capacity(segs)
  {
    if segs == [] then [] else
      var last := |segs| - 1;
      Flat(segs[..last]) + segs[last][..]
  }

  lemma {:induction false} FlatAt<T>(segs: seq<array<T>>, i: nat)
    requires Wellformed(segs) && i < Capacity(segs)
    ensures Flat(segs)[i] == segs[Segment(i)][Offset(i)]
  {
    var last := |segs| - 1;
    if i < Capacity(segs[..last]) {
      FlatAt(segs[..last], i);
    }
  }

  /** Reads one element of the flat sequence. */
  function Get<T>(x: array<array?<T>>, index: nat, ghost segs: seq<array<T>>): (value: T)
    requires Layout(x, segs) && index < Capacity(segs)
    reads x, segs
    ensures value == Flat(segs)[index]
  {
    FlatAt(segs, index);
    x[Segment(index)][Offset(index)]
  }

  /** Writes one element of the flat sequence and nothing else. */
  method Set<T>(x: array<array?<T>>, index: nat, value: T, ghost segs: seq<array<T>>)
    requires Layout(x, segs) && index < Capacity(segs)
    modifies segs
    ensures Flat(segs) == old(Flat(segs))[index := value]
  {
    ghost var s := Flat(segs);
    forall i | 0 <= i < |s| ensures s[i] == segs[Segment(i)][Offset(i)] { FlatAt(segs, i); }
    x[Segment(index)][Offset(index)] := value;
    forall i | 0 <= i < |s| ensures Flat(segs)[i] == s[index := value][i] {
      FlatAt(segs, i);
      SlotsAreDistinct(i, index);
    }
  }
}
