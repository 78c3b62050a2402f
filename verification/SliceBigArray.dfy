/**
An array of slices that keeps a running total of the memory its slices retain. Slices may share a base
and the same slice may sit at many positions; the total charges every base and every slice once.
 */
module SliceBigArray {
  import opened BigArray
  import opened Changes
  import opened ReferenceCounts
  import opened Sequences

  /** A fact of the JVM's object layout, left open. */
  const SLICE_INSTANCE_SIZE: nat

  class Base {
    const size: nat

    constructor (size: nat)
      ensures this.size == size
    {
      this.size := size;
    }
  }

  class Slice {
    const base: Base

    constructor (base: Base)
      ensures this.base == base
    {
      this.base := base;
    }

    function RetainedSize(): nat {
      SLICE_INSTANCE_SIZE + base.size
    }
  }

  /** The share of a slice's retained size that belongs to one object. */
  ghost function SizeOf(o: object): nat {
    if o is Slice then SLICE_INSTANCE_SIZE else if o is Base then (o as Base).size else 0
  }

  ghost function RefsOf(value: Slice?): multiset<object> {
    if value == null then multiset{} else multiset{value} + multiset{value.base}
  }

  /** All references held by the positions of the array: each slice there, and the base of each. */
  ghost function Refs(s: seq<Slice?>): multiset<object> {
    if s == [] then multiset{} else RefsOf(s[0]) + Refs(s[1..])
  }

  lemma {:induction false} RefsConcat(s: seq<Slice?>, t: seq<Slice?>)
    ensures Refs(s + t) == Refs(s) + Refs(t)
  {
    if s == [] {
      assert s + t == t;
    } else {
      assert (s + t)[1..] == s[1..] + t;
      RefsConcat(s[1..], t);
    }
  }

  /** Position `i` contributes exactly its own references. */
  lemma RefsUpdate(s: seq<Slice?>, i: nat, value: Slice?)
    requires i < |s|
    ensures Refs(s[i := value]) == Refs(s[i := null]) + RefsOf(value)
  {
    assert s[i := value] == s[..i] + ([value] + s[i + 1..]);
    assert s[i := null] == s[..i] + ([null] + s[i + 1..]);
    RefsConcat(s[..i], [value] + s[i + 1..]);
    RefsConcat(s[..i], [null] + s[i + 1..]);
  }

  lemma {:induction false} RefsOfNulls(n: nat)
    ensures Refs(Repeat<Slice?>(null, n)) == multiset{}
  {
    if n == 0 {
    } else {
      assert Repeat<Slice?>(null, n)[1..] == Repeat(null, n - 1);
      RefsOfNulls(n - 1);
    }
  }

  lemma GrownRefs(s: seq<Slice?>, length: nat)
    ensures Refs(Grown(s, length, null)) == Refs(s)
  {
    var n: nat := if |s| > length then 0 else RequiredCapacity(length) - |s|;
    assert Grown(s, length, null) == s + Repeat(null, n);
    RefsConcat(s, Repeat(null, n));
    RefsOfNulls(n);
  }

  lemma {:induction false} SliceBringsBase(s: seq<Slice?>, x: Slice)
    requires x in Refs(s)
    ensures x.base in Refs(s)
  {
    if x !in RefsOf(s[0]) {
      SliceBringsBase(s[1..], x);
    } else {
      assert (s[0].base as object) != x;
    }
  }

  /** The adjustment that adding or dropping one reference to `x` makes, as the code decides it: by the base
      first, and by the slice only when the base stays. */
  ghost function Charge(rest: multiset<object>, x: Slice): nat {
    if x.base !in rest then x.RetainedSize()
    else if x !in rest then SLICE_INSTANCE_SIZE
    else 0
  }

  lemma ChargeIsDifference(rest: multiset<object>, x: Slice)
    requires x in rest ==> x.base in rest
    ensures Retained(rest + RefsOf(x), SizeOf) == Retained(rest, SizeOf) + Charge(rest, x)
    ensures x.base in rest <==> x.base in rest + multiset{x}
  {
    var base: object := x.base;
    assert base != x;
    RetainedAdd(rest, x, SizeOf);
    RetainedAdd(rest + multiset{x}, base, SizeOf);
    assert rest + RefsOf(x) == rest + multiset{x} + multiset{base};
  }

  ghost function Slices(s: seq<Slice?>): set<object> {
    set i | 0 <= i < |s| && s[i] != null :: s[i]
  }

  ghost function Bases(s: seq<Slice?>): set<object> {
    set i | 0 <= i < |s| && s[i] != null :: s[i].base
  }

  ghost predicate Refers(x: Slice?, o: object) {
    x != null && (o == x || o == x.base)
  }

  /** The positions that hold the slice `o`, or a slice with base `o`. */
  ghost function Positions(s: seq<Slice?>, o: object): set<nat> {
    set i: nat | i < |s| && Refers(s[i], o)
  }

  lemma RefsOfOne(x: Slice?, o: object)
    ensures RefsOf(x)[o] == if Refers(x, o) then 1 else 0
  {
  }

  lemma RefsSnoc(s: seq<Slice?>, x: Slice?, o: object)
    ensures Refs(s + [x])[o] == Refs(s)[o] + if Refers(x, o) then 1 else 0
  {
    RefsConcat(s, [x]);
    assert [x][1..] == [];
    RefsOfOne(x, o);
  }

  lemma PositionsSnoc(s: seq<Slice?>, x: Slice?, o: object)
    ensures |Positions(s + [x], o)| == |Positions(s, o)| + if Refers(x, o) then 1 else 0
  {
    assert Positions(s + [x], o) == Positions(s, o) + if Refers(x, o) then {|s|} else {};
  }

  /** The count kept for an object is the number of positions that refer to it. */
  lemma {:induction false} RefsCountPositions(s: seq<Slice?>, o: object)
    ensures Refs(s)[o] == |Positions(s, o)|
  {
    if s == [] {
      assert Positions(s, o) == {};
    } else {
      var init, last := s[..|s| - 1], s[|s| - 1];
      RefsCountPositions(init, o);
      RefsSnoc(init, last, o);
      PositionsSnoc(init, last, o);
      assert s == init + [last];
    }
  }

  /** What the running total means: the bases in use, each once, and an instance for each slice in use. */
  lemma RetainedMeaning(s: seq<Slice?>)
    ensures Retained(Refs(s), SizeOf) == Sum(Bases(s), SizeOf) + SLICE_INSTANCE_SIZE * |Slices(s)|
  {
    forall o ensures o in Distinct(Refs(s)) <==> o in Bases(s) + Slices(s) {
      RefsCountPositions(s, o);
      if o in Bases(s) + Slices(s) {
        var i: nat :| i < |s| && Refers(s[i], o);
        assert i in Positions(s, o);
      } else {
        assert Positions(s, o) == {};
      }
    }
    assert Distinct(Refs(s)) == Bases(s) + Slices(s);
    SumUnion(Bases(s), Slices(s), SizeOf);
    SumUniform(Slices(s), SizeOf, SLICE_INSTANCE_SIZE);
  }

  /** The counters agree with the references: the map count by count, the total with a count from scratch. */
  ghost predicate Balanced(counts: CountMap, total: int, refs: multiset<object>) {
    Counts(counts, refs) && total == Retained(refs, SizeOf)
  }

  /** The references of all positions but one, with which any value there completes the whole. */
  lemma OtherRefs(s: seq<Slice?>, index: nat, current: Slice?, value: Slice?) returns (rest: multiset<object>)
    requires index < |s| && s[index] == current
    ensures Refs(s) == rest + RefsOf(current)
    ensures Refs(s[index := value]) == rest + RefsOf(value)
    ensures current != null && current in rest ==> current.base in rest
    ensures value != null && value in rest ==> value.base in rest
  {
    var s' := s[index := null];
    rest := Refs(s');
    assert s[index := current] == s;
    RefsUpdate(s, index, current);
    RefsUpdate(s, index, value);
    if current != null && current in rest { SliceBringsBase(s', current); }
    if value != null && value in rest { SliceBringsBase(s', value); }
  }

  class SliceBigArray {
    const store: BigArray<Slice?>
    const trackedSlices: ReferenceCountMap
    var sizeOfSlices: int

    ghost predicate Valid()
      reads this, store, store.slots, store.segs, trackedSlices
    {
      && store.Valid()
      && store.initialValue == null
      && (forall i :: 0 <= i < |store.segs| ==> store.segs[i] as object !in {this, trackedSlices})
      && Balanced(trackedSlices.counts, sizeOfSlices, Refs(store.Contents()))
    }

    constructor ()
      ensures Valid() && fresh(store) && fresh(store.slots) && fresh(store.segs) && fresh(trackedSlices)
      ensures store.Contents() == Repeat(null, |store.Contents()|) && sizeOfSlices == 0
    {
      store := new BigArray<Slice?>(null);
      trackedSlices := new ReferenceCountMap();
      sizeOfSlices := 0;
      new;
      RefsOfNulls(|store.Contents()|);
    }

    function Get(index: nat): (value: Slice?)
      requires Valid() && index < store.capacity
      reads this, store, store.slots, store.segs, trackedSlices
      ensures value == store.Contents()[index]
    {
      store.Get(index)
    }

    method Set(index: nat, value: Slice?)
      requires Valid() && index < store.capacity
      modifies `sizeOfSlices, trackedSlices, store.segs
      ensures Valid() && store.Contents() == old(store.Contents())[index := value]
    {
      UpdateRetainedSize(index, value);
      store.Set(index, value);
    }

    /** Brings the counters to what they must be once `value` is stored at `index`. */
    method UpdateRetainedSize(index: nat, value: Slice?)
      requires Valid() && index < store.capacity
      modifies `sizeOfSlices, trackedSlices
      ensures Balanced(trackedSlices.counts, sizeOfSlices, Refs(store.Contents()[index := value]))
    {
      var currentValue := store.Get(index);
      ghost var s := store.Contents();
      ghost var rest := OtherRefs(s, index, currentValue, value);
      Exchange(currentValue, value, rest);
      assert store.Contents() == s;
    }

    /** Moves the counters from `currentValue` to `value` at a position next to the references `rest`. */
    method Exchange(currentValue: Slice?, value: Slice?, ghost rest: multiset<object>)
      requires Balanced(trackedSlices.counts, sizeOfSlices, rest + RefsOf(currentValue))
      requires currentValue != null && currentValue in rest ==> currentValue.base in rest
      requires value != null && value in rest ==> value.base in rest
      modifies `sizeOfSlices, trackedSlices
      ensures Balanced(trackedSlices.counts, sizeOfSlices, rest + RefsOf(value))
    {
      if currentValue != null {
        Release(currentValue, rest);
      } else {
        assert rest + RefsOf(currentValue) == rest;
      }
      if value != null {
        Retain(value, rest);
      } else {
        assert rest + RefsOf(value) == rest;
      }
    }

    /** Drops one reference to `x`, leaving the references `rest`. */
    method Release(x: Slice, ghost rest: multiset<object>)
      requires Balanced(trackedSlices.counts, sizeOfSlices, rest + RefsOf(x))
      requires x in rest ==> x.base in rest
      modifies `sizeOfSlices, trackedSlices
      ensures Balanced(trackedSlices.counts, sizeOfSlices, rest)
    {
      ChargeIsDifference(rest, x);
      assert rest + RefsOf(x) == rest + multiset{x} + multiset{x.base};
      DecrementCounts(trackedSlices.counts, rest + multiset{x}, x.base);
      var baseReferenceCount := trackedSlices.DecrementAndGet(x.base);
      DecrementCounts(trackedSlices.counts, rest, x);
      var sliceReferenceCount := trackedSlices.DecrementAndGet(x);
      if baseReferenceCount == 0 {
        sizeOfSlices := sizeOfSlices - x.RetainedSize();
      } else if sliceReferenceCount == 0 {
        sizeOfSlices := sizeOfSlices - SLICE_INSTANCE_SIZE;
      }
    }

    /** Adds one reference to `x` to the references `rest`. */
    method Retain(x: Slice, ghost rest: multiset<object>)
      requires Balanced(trackedSlices.counts, sizeOfSlices, rest)
      requires x in rest ==> x.base in rest
      modifies `sizeOfSlices, trackedSlices
      ensures Balanced(trackedSlices.counts, sizeOfSlices, rest + RefsOf(x))
    {
      ChargeIsDifference(rest, x);
      IncrementCounts(trackedSlices.counts, rest, x.base);
      var baseReferenceCount := trackedSlices.IncrementAndGet(x.base);
      IncrementCounts(trackedSlices.counts, rest + multiset{x.base}, x);
      var sliceReferenceCount := trackedSlices.IncrementAndGet(x);
      assert rest + RefsOf(x) == rest + multiset{x.base} + multiset{x};
      assert x in rest + multiset{x.base} <==> x in rest;
      if baseReferenceCount == 1 {
        sizeOfSlices := sizeOfSlices + x.RetainedSize();
      } else if sliceReferenceCount == 1 {
        sizeOfSlices := sizeOfSlices + SLICE_INSTANCE_SIZE;
      }
    }

    method EnsureCapacity(length: nat)
      requires Valid() && RequiredCapacity(length) < MAX_CAPACITY
      modifies store, store.slots
      ensures Valid() && length < store.capacity
      ensures store.Contents() == Grown(old(store.Contents()), length, null)
      ensures store.slots == old(store.slots) || fresh(store.slots)
      ensures old(store.segs) <= store.segs
      ensures forall i :: |old(store.segs)| <= i < |store.segs| ==> fresh(store.segs[i])
    {
      ghost var s := store.Contents();
      GrownRefs(s, length);
      store.EnsureCapacity(length);
    }
  }

  method Perform(a: SliceBigArray, change: Change<Slice?>)
    requires a.Valid() && Possible(change, a.store.capacity)
    modifies a, a.trackedSlices, a.store, a.store.slots, a.store.segs
    ensures a.Valid() && a.store.Contents() == After(change, old(a.store.Contents()), null)
    ensures a.store.slots == old(a.store.slots) || fresh(a.store.slots)
    ensures old(a.store.segs) <= a.store.segs
    ensures forall i :: |old(a.store.segs)| <= i < |a.store.segs| ==> fresh(a.store.segs[i])
  {
    match change
    case Assign(i, v) => a.Set(i, v);
    case Reach(n) => a.EnsureCapacity(n);
  }

  /** The counters of a valid array, in terms of its contents alone. */
  lemma CountersMean(a: SliceBigArray)
    requires a.Valid()
    ensures var s := a.store.Contents();
            && a.sizeOfSlices == Sum(Bases(s), SizeOf) + SLICE_INSTANCE_SIZE * |Slices(s)|
            && (forall o :: Count(a.trackedSlices.counts, o) == |Positions(s, o)|)
  {
    var s := a.store.Contents();
    RetainedMeaning(s);
    forall o ensures Count(a.trackedSlices.counts, o) == |Positions(s, o)| {
      RefsCountPositions(s, o);
    }
  }

  /** After any run of calls the contents are those of the same run on one flat sequence, the total charges each base
      and each slice in use once, and every count is the number of positions that refer to the object. */
  method PerformAll(a: SliceBigArray, changes: seq<Change<Slice?>>)
    requires a.Valid() && AllPossible(changes, a.store.Contents(), null)
    modifies a, a.trackedSlices, a.store, a.store.slots, a.store.segs
    ensures a.Valid() && a.store.Contents() == AfterAll(changes, old(a.store.Contents()), null)
    ensures var s := AfterAll(changes, old(a.store.Contents()), null);
            && a.sizeOfSlices == Sum(Bases(s), SizeOf) + SLICE_INSTANCE_SIZE * |Slices(s)|
            && (forall o :: Count(a.trackedSlices.counts, o) == |Positions(s, o)|)
    decreases |changes|
  {
    if changes == [] {
      CountersMean(a);
    } else {
      Perform(a, changes[0]);
      PerformAll(a, changes[1..]);
    }
  }
}
