/**
An array of blocks that keeps a running total of the memory its blocks retain. A block reports its parts one
by one: its own instance, charged at every position that holds it, and parts that may be shared with other
blocks or repeated inside one, charged once.
 */
module BlockBigArray {
  import opened BigArray
  import opened Changes
  import opened ReferenceCounts
  import opened Sequences

  datatype Part = Part(obj: object, size: nat)

  /** A primitive array inside a block. */
  class Buffer {
    const size: nat

    constructor (size: nat)
      ensures this.size == size
    {
      this.size := size;
    }
  }

  class Block {
    /** The calls that retainedBytesForEachPart makes, in order. */
    const parts: seq<Part>
    /** The size at which an enclosing block reports this one. */
    const retainedSize: nat

    constructor (parts: seq<Part>, retainedSize: nat)
      ensures this.parts == parts && this.retainedSize == retainedSize
    {
      this.parts := parts;
      this.retainedSize := retainedSize;
    }
  }

  ghost function SizeOf(o: object): nat {
    if o is Block then (o as Block).retainedSize else if o is Buffer then (o as Buffer).size else 0
  }

  /** A block reports a shared part with that part's one size. */
  ghost predicate Consistent(b: Block?) {
    b == null || forall p :: p in b.parts && p.obj != b ==> p.size == SizeOf(p.obj)
  }

  ghost function SharedPart(p: Part, b: Block): multiset<object> {
    if p.obj == b then multiset{} else multiset{p.obj}
  }

  ghost function OwnPart(p: Part, b: Block): nat {
    if p.obj == b then p.size else 0
  }

  /** References to shared parts among `parts` of the block `b`. */
  ghost function Shared(parts: seq<Part>, b: Block): multiset<object> {
    if parts == [] then multiset{} else SharedPart(parts[0], b) + Shared(parts[1..], b)
  }

  /** Bytes among `parts` that the block `b` reports for itself. */
  ghost function Own(parts: seq<Part>, b: Block): nat {
    if parts == [] then 0 else OwnPart(parts[0], b) + Own(parts[1..], b)
  }

  lemma {:induction false} PartsSnoc(parts: seq<Part>, p: Part, b: Block)
    ensures Shared(parts + [p], b) == Shared(parts, b) + SharedPart(p, b)
    ensures Own(parts + [p], b) == Own(parts, b) + OwnPart(p, b)
  {
    if parts == [] {
      assert [p][1..] == [];
    } else {
      assert (parts + [p])[1..] == parts[1..] + [p];
      PartsSnoc(parts[1..], p, b);
    }
  }

  /** One more part: the parts before it grow by it, the parts from it on shrink by it. */
  lemma NextPart(parts: seq<Part>, k: nat, b: Block, refs: multiset<object>)
    requires k < |parts|
    ensures refs + Shared(parts[..k + 1], b) == refs + Shared(parts[..k], b) + SharedPart(parts[k], b)
    ensures Own(parts[..k + 1], b) == Own(parts[..k], b) + OwnPart(parts[k], b)
    ensures refs + Shared(parts[k..], b) == refs + Shared(parts[k + 1..], b) + SharedPart(parts[k], b)
    ensures Own(parts[k..], b) == Own(parts[k + 1..], b) + OwnPart(parts[k], b)
  {
    assert parts[..k + 1] == parts[..k] + [parts[k]];
    PartsSnoc(parts[..k], parts[k], b);
    assert parts[k..][1..] == parts[k + 1..];
  }

  ghost function RefsOf(b: Block?): multiset<object> {
    if b == null then multiset{} else Shared(b.parts, b)
  }

  ghost function OwnOf(b: Block?): nat {
    if b == null then 0 else Own(b.parts, b)
  }

  ghost function Refs(s: seq<Block?>): multiset<object> {
    if s == [] then multiset{} else RefsOf(s[0]) + Refs(s[1..])
  }

  ghost function Instances(s: seq<Block?>): nat {
    if s == [] then 0 else OwnOf(s[0]) + Instances(s[1..])
  }

  /** The bytes retained, counted from scratch: own bytes position by position, shared parts once each. */
  ghost function Total(own: nat, refs: multiset<object>): nat {
    own + Retained(refs, SizeOf)
  }

  lemma {:induction false} SumsConcat(s: seq<Block?>, t: seq<Block?>)
    ensures Refs(s + t) == Refs(s) + Refs(t)
    ensures Instances(s + t) == Instances(s) + Instances(t)
  {
    if s == [] {
      assert s + t == t;
    } else {
      assert (s + t)[1..] == s[1..] + t;
      SumsConcat(s[1..], t);
    }
  }

  lemma SumsUpdate(s: seq<Block?>, i: nat, value: Block?)
    requires i < |s|
    ensures Refs(s[i := value]) == Refs(s[i := null]) + RefsOf(value)
    ensures Instances(s[i := value]) == Instances(s[i := null]) + OwnOf(value)
  {
    assert s[i := value] == s[..i] + ([value] + s[i + 1..]);
    assert s[i := null] == s[..i] + ([null] + s[i + 1..]);
    SumsConcat(s[..i], [value] + s[i + 1..]);
    SumsConcat(s[..i], [null] + s[i + 1..]);
  }

  lemma {:induction false} SumsOfNulls(n: nat)
    ensures Refs(Repeat<Block?>(null, n)) == multiset{} && Instances(Repeat<Block?>(null, n)) == 0
  {
    if n == 0 {
    } else {
      assert Repeat<Block?>(null, n)[1..] == Repeat(null, n - 1);
      SumsOfNulls(n - 1);
    }
  }

  lemma GrownSums(s: seq<Block?>, length: nat)
    ensures Refs(Grown(s, length, null)) == Refs(s) && Instances(Grown(s, length, null)) == Instances(s)
  {
    var n: nat := if |s| > length then 0 else RequiredCapacity(length) - |s|;
    assert Grown(s, length, null) == s + Repeat(null, n);
    SumsConcat(s, Repeat(null, n));
    SumsOfNulls(n);
  }

  /** All positions but one: with any value there they complete the whole. */
  lemma Others(s: seq<Block?>, index: nat, current: Block?, value: Block?) returns (own: nat, refs: multiset<object>)
    requires index < |s| && s[index] == current
    ensures Refs(s) == refs + RefsOf(current) && Instances(s) == own + OwnOf(current)
    ensures Refs(s[index := value]) == refs + RefsOf(value) && Instances(s[index := value]) == own + OwnOf(value)
  {
    own, refs := Instances(s[index := null]), Refs(s[index := null]);
    assert s[index := current] == s;
    SumsUpdate(s, index, current);
    SumsUpdate(s, index, value);
  }

  ghost predicate AllConsistent(s: seq<Block?>) {
    forall b :: b in s ==> Consistent(b)
  }

  /** The counters agree with the references. */
  ghost predicate Balanced(counts: CountMap, total: int, own: nat, refs: multiset<object>) {
    Counts(counts, refs) && total == Total(own, refs)
  }

  /** The counters agree with the contents of the array. */
  ghost predicate InOrder(counts: CountMap, total: int, s: seq<Block?>) {
    AllConsistent(s) && Balanced(counts, total, Instances(s), Refs(s))
  }

  lemma StaysInOrder(s: seq<Block?>, index: nat, value: Block?, own: nat, refs: multiset<object>, counts: CountMap, total: int)
    requires index < |s| && AllConsistent(s) && Consistent(value)
    requires Refs(s[index := value]) == refs + RefsOf(value) && Instances(s[index := value]) == own + OwnOf(value)
    requires Balanced(counts, total, own + OwnOf(value), refs + RefsOf(value))
    ensures InOrder(counts, total, s[index := value])
  {
  }

  class BlockBigArray {
    const store: BigArray<Block?>
    const trackedObjects: ReferenceCountMap
    var sizeOfBlocks: int

    ghost predicate Valid()
      reads this, store, store.slots, store.segs, trackedObjects
    {
      && store.Valid()
      && store.initialValue == null
      && (forall i :: 0 <= i < |store.segs| ==> store.segs[i] as object !in {this, trackedObjects})
      && InOrder(trackedObjects.counts, sizeOfBlocks, store.Contents())
    }

    constructor ()
      ensures Valid() && fresh(store) && fresh(store.slots) && fresh(store.segs) && fresh(trackedObjects)
      ensures store.Contents() == Repeat(null, |store.Contents()|) && sizeOfBlocks == 0
    {
      store := new BigArray<Block?>(null);
      trackedObjects := new ReferenceCountMap();
      sizeOfBlocks := 0;
      new;
      SumsOfNulls(|store.Contents()|);
    }

    function Get(index: nat): (value: Block?)
      requires Valid() && index < store.capacity
      reads this, store, store.slots, store.segs, trackedObjects
      ensures value == store.Contents()[index]
    {
      store.Get(index)
    }

    method Set(index: nat, value: Block?)
      requires Valid() && index < store.capacity && Consistent(value)
      modifies `sizeOfBlocks, trackedObjects, store.segs
      ensures Valid() && store.Contents() == old(store.Contents())[index := value]
    {
      UpdateRetainedSize(index, value);
      store.Set(index, value);
    }

    /** Brings the counters to what they must be once `value` is stored at `index`. */
    method UpdateRetainedSize(index: nat, value: Block?)
      requires Valid() && index < store.capacity && Consistent(value)
      modifies `sizeOfBlocks, trackedObjects
      ensures InOrder(trackedObjects.counts, sizeOfBlocks, store.Contents()[index := value])
    {
      var currentValue := store.Get(index);
      ghost var s := store.Contents();
      ghost var own, refs := Others(s, index, currentValue, value);
      Exchange(currentValue, value, own, refs);
      StaysInOrder(s, index, value, own, refs, trackedObjects.counts, sizeOfBlocks);
      assert store.Contents() == s;
    }

    method Exchange(currentValue: Block?, value: Block?, ghost own: nat, ghost refs: multiset<object>)
      requires Consistent(currentValue) && Consistent(value)
      requires Balanced(trackedObjects.counts, sizeOfBlocks, own + OwnOf(currentValue), refs + RefsOf(currentValue))
      modifies `sizeOfBlocks, trackedObjects
      ensures Balanced(trackedObjects.counts, sizeOfBlocks, own + OwnOf(value), refs + RefsOf(value))
    {
      if currentValue != null {
        Release(currentValue, own, refs);
      } else {
        assert refs + RefsOf(currentValue) == refs;
      }
      if value != null {
        Retain(value, own, refs);
      } else {
        assert refs + RefsOf(value) == refs;
      }
    }

    /** The counters include the parts of `b` from `k` on. */
    ghost predicate Includes(b: Block, k: nat, own: nat, refs: multiset<object>)
      requires k <= |b.parts|
      reads this, trackedObjects
    {
      Balanced(trackedObjects.counts, sizeOfBlocks, own + Own(b.parts[k..], b), refs + Shared(b.parts[k..], b))
    }

    /** The callbacks of a block that leaves a position. */
    method Release(b: Block, ghost own: nat, ghost refs: multiset<object>)
      requires Consistent(b)
      requires Balanced(trackedObjects.counts, sizeOfBlocks, own + OwnOf(b), refs + RefsOf(b))
      modifies `sizeOfBlocks, trackedObjects
      ensures Balanced(trackedObjects.counts, sizeOfBlocks, own, refs)
    {
      var k := 0;
      assert b.parts[0..] == b.parts;
      while k < |b.parts|
        invariant k <= |b.parts| && Includes(b, k, own, refs)
      {
        ReleaseNext(b, k, own, refs);
        k := k + 1;
      }
      assert refs + Shared(b.parts[k..], b) == refs;
    }

    method ReleaseNext(b: Block, k: nat, ghost own: nat, ghost refs: multiset<object>)
      requires k < |b.parts| && Consistent(b) && Includes(b, k, own, refs)
      modifies `sizeOfBlocks, trackedObjects
      ensures Includes(b, k + 1, own, refs)
    {
      NextPart(b.parts, k, b, refs);
      ReleasePart(b, b.parts[k], own + Own(b.parts[k + 1..], b), refs + Shared(b.parts[k + 1..], b));
    }

    method ReleasePart(b: Block, part: Part, ghost own: nat, ghost refs: multiset<object>)
      requires part.obj != b ==> part.size == SizeOf(part.obj)
      requires Balanced(trackedObjects.counts, sizeOfBlocks, own + OwnPart(part, b), refs + SharedPart(part, b))
      modifies `sizeOfBlocks, trackedObjects
      ensures Balanced(trackedObjects.counts, sizeOfBlocks, own, refs)
    {
      if part.obj == b {
        sizeOfBlocks := sizeOfBlocks - part.size;
        assert refs + SharedPart(part, b) == refs;
        return;
      }
      DecrementCounts(trackedObjects.counts, refs, part.obj);
      RetainedAdd(refs, part.obj, SizeOf);
      var count := trackedObjects.DecrementAndGet(part.obj);
      if count == 0 {
        sizeOfBlocks := sizeOfBlocks - part.size;
      }
    }

    /** The callbacks of a block that enters a position. */
    method Retain(b: Block, ghost own: nat, ghost refs: multiset<object>)
      requires Consistent(b)
      requires Balanced(trackedObjects.counts, sizeOfBlocks, own, refs)
      modifies `sizeOfBlocks, trackedObjects
      ensures Balanced(trackedObjects.counts, sizeOfBlocks, own + OwnOf(b), refs + RefsOf(b))
    {
      var k := 0;
      ghost var mine, theirs := own, refs;
      while k < |b.parts|
        invariant k <= |b.parts|
        invariant mine == own + Own(b.parts[..k], b) && theirs == refs + Shared(b.parts[..k], b)
        invariant Balanced(trackedObjects.counts, sizeOfBlocks, mine, theirs)
      {
        NextPart(b.parts, k, b, refs);
        RetainPart(b, b.parts[k], mine, theirs);
        mine, theirs := mine + OwnPart(b.parts[k], b), theirs + SharedPart(b.parts[k], b);
        k := k + 1;
      }
      assert b.parts[..k] == b.parts;
    }

    method RetainPart(b: Block, part: Part, ghost own: nat, ghost refs: multiset<object>)
      requires part.obj != b ==> part.size == SizeOf(part.obj)
      requires Balanced(trackedObjects.counts, sizeOfBlocks, own, refs)
      modifies `sizeOfBlocks, trackedObjects
      ensures Balanced(trackedObjects.counts, sizeOfBlocks, own + OwnPart(part, b), refs + SharedPart(part, b))
    {
      if part.obj == b {
        sizeOfBlocks := sizeOfBlocks + part.size;
        assert refs + SharedPart(part, b) == refs;
        return;
      }
      IncrementCounts(trackedObjects.counts, refs, part.obj);
      RetainedAdd(refs, part.obj, SizeOf);
      var count := trackedObjects.IncrementAndGet(part.obj);
      if count == 1 {
        sizeOfBlocks := sizeOfBlocks + part.size;
      }
    }

    method EnsureCapacity(length: nat)
      requires Valid() && RequiredCapacity(length) < MAX_CAPACITY
      modifies store, store.slots
      ensures Valid() && length < store.capacity
      ensures store.Contents() == Grown(old(store.Contents()), length, null)
      ensures store.slots == old(store.slots) || fresh(store.slots)
      ensures old(store.segs) <= store.segs
      ensures forall i :: |old(store.segs)| <= i < |store.segs| ==> fresh(store.segs[i])
    {
      GrownSums(store.Contents(), length);
      store.EnsureCapacity(length);
    }
  }

  /** The places where a position's block reports the part `o`, by position and callback. */
  ghost function Reports(s: seq<Block?>, o: object): set<(nat, nat)> {
    set i: nat, k: nat | i < |s| && s[i] != null && k < |s[i].parts| && Reported(s[i], k, o) :: (i, k)
  }

  ghost predicate Reported(b: Block, k: nat, o: object)
    requires k < |b.parts|
  {
    b.parts[k].obj == o && o != b
  }

  /** The reports of the first `n` callbacks of block `b` at position `i`. */
  ghost function ReportsOf(i: nat, b: Block, n: nat, o: object): set<(nat, nat)>
    requires n <= |b.parts|
  {
    set k: nat | k < n && Reported(b, k, o) :: (i, k)
  }

  lemma ReportsOfNext(i: nat, b: Block, n: nat, o: object)
    requires n < |b.parts|
    ensures |ReportsOf(i, b, n + 1, o)| == |ReportsOf(i, b, n, o)| + SharedPart(b.parts[n], b)[o]
  {
    assert ReportsOf(i, b, n + 1, o) == ReportsOf(i, b, n, o) + if Reported(b, n, o) then {(i, n)} else {};
  }

  lemma {:induction false} SharedCountsReports(i: nat, b: Block, n: nat, o: object)
    requires n <= |b.parts|
    ensures Shared(b.parts[..n], b)[o] == |ReportsOf(i, b, n, o)|
  {
    if n == 0 {
      assert ReportsOf(i, b, n, o) == {};
    } else {
      SharedCountsReports(i, b, n - 1, o);
      ReportsOfNext(i, b, n - 1, o);
      assert b.parts[..n] == b.parts[..n - 1] + [b.parts[n - 1]];
      PartsSnoc(b.parts[..n - 1], b.parts[n - 1], b);
    }
  }

  lemma ReportsSnoc(s: seq<Block?>, b: Block?, o: object)
    ensures |Reports(s + [b], o)| == |Reports(s, o)| + RefsOf(b)[o]
  {
    if b == null {
      assert Reports(s + [b], o) == Reports(s, o);
    } else {
      var more := ReportsOf(|s|, b, |b.parts|, o);
      assert Reports(s + [b], o) == Reports(s, o) + more;
      assert Reports(s, o) !! more;
      SharedCountsReports(|s|, b, |b.parts|, o);
      assert b.parts[..|b.parts|] == b.parts;
    }
  }

  /** The count kept for an object is the number of reports of it as a part of another. */
  lemma {:induction false} RefsCountReports(s: seq<Block?>, o: object)
    ensures Refs(s)[o] == |Reports(s, o)|
  {
    if s == [] {
      assert Reports(s, o) == {};
    } else {
      var init, last := s[..|s| - 1], s[|s| - 1];
      RefsCountReports(init, o);
      ReportsSnoc(init, last, o);
      SumsConcat(init, [last]);
      assert [last][1..] == [];
      assert s == init + [last];
    }
  }

  ghost function SharedParts(s: seq<Block?>): set<object> {
    set i, k | 0 <= i < |s| && s[i] != null && 0 <= k < |s[i].parts| && s[i].parts[k].obj != s[i] :: s[i].parts[k].obj
  }

  /** Shared parts are the objects reported at all. */
  lemma SharedPartsReported(s: seq<Block?>, o: object)
    ensures o in SharedParts(s) <==> Reports(s, o) != {}
  {
    if o in SharedParts(s) {
      var i, k :| 0 <= i < |s| && s[i] != null && 0 <= k < |s[i].parts| && s[i].parts[k].obj != s[i] && s[i].parts[k].obj == o;
      assert Reported(s[i], k, o);
      assert (i, k) in Reports(s, o);
    }
  }

  /** What the running total means: own bytes at every position, and every shared part in use once. */
  lemma TotalMeaning(s: seq<Block?>)
    ensures Total(Instances(s), Refs(s)) == Instances(s) + Sum(SharedParts(s), SizeOf)
  {
    forall o ensures o in Distinct(Refs(s)) <==> o in SharedParts(s) {
      RefsCountReports(s, o);
      SharedPartsReported(s, o);
    }
    assert Distinct(Refs(s)) == SharedParts(s);
  }

  method Perform(a: BlockBigArray, change: Change<Block?>)
    requires a.Valid() && Possible(change, a.store.capacity) && (change.Assign? ==> Consistent(change.value))
    modifies a, a.trackedObjects, a.store, a.store.slots, a.store.segs
    ensures a.Valid() && a.store.Contents() == After(change, old(a.store.Contents()), null)
    ensures a.store.slots == old(a.store.slots) || fresh(a.store.slots)
    ensures old(a.store.segs) <= a.store.segs
    ensures forall i :: |old(a.store.segs)| <= i < |a.store.segs| ==> fresh(a.store.segs[i])
  {
    match change
    case Assign(i, v) => a.Set(i, v);
    case Reach(n) => a.EnsureCapacity(n);
  }

  lemma CountersMean(a: BlockBigArray)
    requires a.Valid()
    ensures var s := a.store.Contents();
            && a.sizeOfBlocks == Instances(s) + Sum(SharedParts(s), SizeOf)
            && (forall o :: Count(a.trackedObjects.counts, o) == |Reports(s, o)|)
  {
    var s := a.store.Contents();
    TotalMeaning(s);
    forall o ensures Count(a.trackedObjects.counts, o) == |Reports(s, o)| {
      RefsCountReports(s, o);
    }
  }

  /** After any run of calls the contents are those of the same run on one flat sequence, the total charges own bytes
      at every position and each shared part once, and every count is the number of reports of the object. */
  method PerformAll(a: BlockBigArray, changes: seq<Change<Block?>>)
    requires a.Valid() && AllPossible(changes, a.store.Contents(), null)
    requires forall i :: 0 <= i < |changes| && changes[i].Assign? ==> Consistent(changes[i].value)
    modifies a, a.trackedObjects, a.store, a.store.slots, a.store.segs
    ensures a.Valid() && a.store.Contents() == AfterAll(changes, old(a.store.Contents()), null)
    ensures var s := AfterAll(changes, old(a.store.Contents()), null);
            && a.sizeOfBlocks == Instances(s) + Sum(SharedParts(s), SizeOf)
            && (forall o :: Count(a.trackedObjects.counts, o) == |Reports(s, o)|)
    decreases |changes|
  {
    if changes == [] {
      CountersMean(a);
    } else {
      Perform(a, changes[0]);
      PerformAll(a, changes[1..]);
    }
  }
}
