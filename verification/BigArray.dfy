/**
The growing segmented array: a flat sequence stored in fixed-size segments that are added on demand.
IntBigArray and ObjectBigArray are this one structure at two element types.
 */
module BigArray {
  import opened BigArrays
  import opened SortSpec
  import opened JavaInt
  import opened Sequences
  import IntBigArrays

  /** Java's `int` capacity bounds how far an array can grow. */
  const MAX_CAPACITY := 0x8000_0000

  /** The capacity that reaching index `length` calls for. */
  function RequiredCapacity(length: nat): nat {
    (Segment(length) + 1) * SEGMENT_SIZE
  }

  /** Whole segments, as many as reach index `length` and no more. */
  lemma LeastSegments(length: nat)
    ensures RequiredCapacity(length) % 1024 == 0 && RequiredCapacity(length) - 1024 <= length < RequiredCapacity(length)
  {
  }

  /** Growth on the flat sequence: whole segments of the initial value, and only if index `length` is missing. */
  function Grown<T>(s: seq<T>, length: nat, initialValue: T): seq<T> {
    if |s| > length then s
    else s + Repeat(initialValue, RequiredCapacity(length) - |s|)
  }

  class BigArray<T> {
    const initialValue: T
    var slots: array<array?<T>>
    var capacity: int
    var segments: int
    ghost var segs: seq<array<T>>

    ghost predicate Valid()
      reads this, slots
    {
      && Layout(slots, segs)
      && segments == |segs|
      && capacity == segments * SEGMENT_SIZE < MAX_CAPACITY
      && (forall i :: segments <= i < slots.Length ==> slots[i] == null)
      && (forall i :: 0 <= i < |segs| ==> segs[i] as object != this)
    }

    ghost function Contents(): (s: seq<T>)
      requires Valid()
      reads this, slots, segs
      ensures |s| == capacity
    {
      Flat(segs)
    }

    constructor (initialValue: T)
      ensures Valid() && fresh(slots) && fresh(segs)
      ensures this.initialValue == initialValue
      ensures Contents() == Repeat(initialValue, SEGMENT_SIZE)
    {
      this.initialValue := initialValue;
      slots := new array?<T>[INITIAL_SEGMENTS](_ => null);
      capacity, segments := 0, 0;
      segs := [];
      new;
      AllocateNewSegment();
    }

    function Get(index: nat): (value: T)
      requires Valid() && index < capacity
      reads this, slots, segs
      ensures value == Contents()[index]
    {
      BigArrays.Get(slots, index, segs)
    }

    method Set(index: nat, value: T)
      requires Valid() && index < capacity
      modifies segs
      ensures Valid() && Contents() == old(Contents())[index := value]
    {
      BigArrays.Set(slots, index, value, segs);
    }

    method AllocateNewSegment()
      requires Valid() && segments < slots.Length && capacity + SEGMENT_SIZE < MAX_CAPACITY
      modifies this, slots
      ensures Valid() && slots == old(slots)
      ensures segments == old(segments) + 1
      ensures segs != [] && segs == old(segs) + [segs[|segs| - 1]] && fresh(segs[|segs| - 1])
      ensures Contents() == old(Contents()) + Repeat(initialValue, SEGMENT_SIZE)
    {
      var newSegment := new T[SEGMENT_SIZE](_ => initialValue);
      slots[segments] := newSegment;
      capacity := capacity + SEGMENT_SIZE;
      segments := segments + 1;
      segs := segs + [newSegment];
      assert segs[..|segs| - 1] == old(segs);
      assert newSegment[..] == Repeat(initialValue, SEGMENT_SIZE);
    }

    /** Makes index `length` valid, keeping every old element and adding only initial values. */
    method EnsureCapacity(length: nat)
      requires Valid() && RequiredCapacity(length) < MAX_CAPACITY
      modifies this, slots
      ensures Valid() && length < capacity
      ensures slots == old(slots) || fresh(slots)
      ensures old(segs) <= segs && (forall i :: |old(segs)| <= i < |segs| ==> fresh(segs[i]))
      ensures Contents() == Grown(old(Contents()), length, initialValue)
    {
      if capacity > length {
        return;
      }
      Grow(length);
    }

    /** A wider outer array holding the same segments. */
    method WidenSlots(length: nat)
      requires Valid() && slots.Length < length
      modifies this
      ensures Valid() && fresh(slots) && slots.Length == length
      ensures segs == old(segs) && segments == old(segments) && capacity == old(capacity)
    {
      var wider := new array?<T>[length](_ => null);
      forall i | 0 <= i < slots.Length { wider[i] := slots[i]; }
      slots := wider;
    }

    method Grow(length: nat)
      requires Valid() && capacity <= length && RequiredCapacity(length) < MAX_CAPACITY
      modifies this, slots
      ensures Valid() && capacity == RequiredCapacity(length)
      ensures slots == old(slots) || fresh(slots)
      ensures old(segs) <= segs && (forall i :: |old(segs)| <= i < |segs| ==> fresh(segs[i]))
      ensures Contents() == old(Contents()) + Repeat(initialValue, RequiredCapacity(length) - old(capacity))
    {
      var requiredSegments := Segment(length) + 1;
      if slots.Length < requiredSegments {
        WidenSlots(requiredSegments);
      }
      while segments < requiredSegments
        invariant Valid() && segments <= requiredSegments <= slots.Length
        invariant slots == old(slots) || fresh(slots)
        invariant old(segs) <= segs && (forall i :: |old(segs)| <= i < |segs| ==> fresh(segs[i]))
        invariant old(capacity) <= capacity
        invariant Contents() == old(Contents()) + Repeat(initialValue, capacity - old(capacity))
      {
        RepeatMore(old(Contents()), initialValue, capacity - old(capacity), SEGMENT_SIZE);
        AllocateNewSegment();
      }
    }

    method Fill(value: T)
      requires Valid()
      modifies segs
      ensures Valid() && Contents() == Repeat(value, capacity)
    {
      var i := 0;
      while i < slots.Length
        invariant 0 <= i <= |segs|
        invariant forall k :: 0 <= k < i ==> segs[k][..] == Repeat(value, SEGMENT_SIZE)
      {
        if slots[i] == null {
          break;
        }
        FillSegment(slots[i], value);
        i := i + 1;
      }
      FlatOfFilled(segs, value);
    }
  }

  method FillSegment<T>(a: array<T>, value: T)
    modifies a
    ensures a[..] == Repeat(value, a.Length)
  {
    forall j | 0 <= j < a.Length { a[j] := value; }
  }

  lemma {:induction false} FlatOfFilled<T>(segs: seq<array<T>>, value: T)
    requires Wellformed(segs) && forall k :: 0 <= k < |segs| ==> segs[k][..] == Repeat(value, SEGMENT_SIZE)
    ensures Flat(segs) == Repeat(value, Capacity(segs))
  {
    if segs == [] {
    } else {
      FlatOfFilled(segs[..|segs| - 1], value);
    }
  }

  method Add(a: BigArray<int>, index: nat, value: int)
    requires a.Valid() && index < a.capacity
    modifies a.segs
    ensures a.Valid()
    ensures a.Contents() == old(a.Contents())[index := Wrap32(old(a.Contents())[index] + value)]
  {
    var current := a.Get(index);
    a.Set(index, Wrap32(current + value));
  }

  method Sort(a: BigArray<int>, from: nat, to: nat, comp: Comparator)
    requires a.Valid() && (from <= to ==> to <= a.capacity) && TotalPreorder(comp)
    modifies a.segs
    ensures a.Valid()
    ensures from <= to ==> Sorted(a.Contents(), from, to, comp) && Rearranged(old(a.Contents()), a.Contents(), from, to)
    ensures from > to ==> a.Contents() == old(a.Contents())
  {
    IntBigArrays.QuickSort(a.slots, from, to, comp, a.segs);
  }

  /** The calls that change an array of ints. */
  datatype Op = Put(index: nat, value: int) | Plus(index: nat, value: int) | Ensure(length: nat) | Refill(value: int)

  predicate Legal(op: Op, size: nat) {
    match op
    case Put(i, _) => i < size
    case Plus(i, _) => i < size
    case Ensure(n) => RequiredCapacity(n) < MAX_CAPACITY
    case Refill(_) => true
  }

  function Step(op: Op, s: seq<int>, initialValue: int): seq<int>
    requires Legal(op, |s|)
  {
    match op
    case Put(i, v) => s[i := v]
    case Plus(i, v) => s[i := Wrap32(s[i] + v)]
    case Ensure(n) => Grown(s, n, initialValue)
    case Refill(v) => Repeat(v, |s|)
  }

  predicate AllLegal(ops: seq<Op>, s: seq<int>, initialValue: int) {
    ops == [] || (Legal(ops[0], |s|) && AllLegal(ops[1..], Step(ops[0], s, initialValue), initialValue))
  }

  function Steps(ops: seq<Op>, s: seq<int>, initialValue: int): seq<int>
    requires AllLegal(ops, s, initialValue)
  {
    if ops == [] then s else Steps(ops[1..], Step(ops[0], s, initialValue), initialValue)
  }

  method Perform(a: BigArray<int>, op: Op)
    requires a.Valid() && Legal(op, a.capacity)
    modifies a, a.slots, a.segs
    ensures a.Valid() && a.Contents() == Step(op, old(a.Contents()), a.initialValue)
    ensures a.slots == old(a.slots) || fresh(a.slots)
    ensures old(a.segs) <= a.segs
    ensures forall i :: |old(a.segs)| <= i < |a.segs| ==> fresh(a.segs[i])
  {
    match op
    case Put(i, v) => a.Set(i, v);
    case Plus(i, v) => Add(a, i, v);
    case Ensure(n) => a.EnsureCapacity(n);
    case Refill(v) => a.Fill(v);
  }

  /** Any run of calls on the segmented array is the same run on one flat sequence. */
  method PerformAll(a: BigArray<int>, ops: seq<Op>)
    requires a.Valid() && AllLegal(ops, a.Contents(), a.initialValue)
    modifies a, a.slots, a.segs
    ensures a.Valid() && a.Contents() == Steps(ops, old(a.Contents()), a.initialValue)
    decreases |ops|
  {
    if ops != [] {
      Perform(a, ops[0]);
      PerformAll(a, ops[1..]);
    }
  }

  /** What one call does to the one cell `i` of an array of `size` cells; a cell not yet there waits
      with the initial value. */
  function CellStep(op: Op, i: nat, size: nat, value: int): int {
    match op
    case Put(j, v) => if j == i then v else value
    case Plus(j, v) => if j == i then Wrap32(value + v) else value
    case Ensure(_) => value
    case Refill(v) => if i < size then v else value
  }

  function SizeStep(op: Op, size: nat): nat {
    if op.Ensure? && size <= op.length then RequiredCapacity(op.length) else size
  }

  function Cell(ops: seq<Op>, i: nat, size: nat, value: int): int {
    if ops == [] then value
    else Cell(ops[1..], i, SizeStep(ops[0], size), CellStep(ops[0], i, size, value))
  }

  /** Cells never interfere, across segment boundaries or growth: after any run, each cell holds what its
      own history alone makes of it. */
  lemma {:induction false} CellsAreIndependent(ops: seq<Op>, s: seq<int>, initialValue: int, i: nat)
    requires AllLegal(ops, s, initialValue)
    ensures |s| <= |Steps(ops, s, initialValue)|
    ensures i < |Steps(ops, s, initialValue)| ==>
              Steps(ops, s, initialValue)[i] == Cell(ops, i, |s|, if i < |s| then s[i] else initialValue)
  {
    if ops == [] {
    } else {
      CellsAreIndependent(ops[1..], Step(ops[0], s, initialValue), initialValue, i);
    }
  }
}
