/**
Counting references to shared objects, so that memory reachable in several ways is charged once.
Objects are keyed by identity; the hash collisions that the source tolerates are not modelled.
 */
module ReferenceCounts {

  type CountMap = map<object, int>

  function Count(counts: CountMap, key: object): int {
    if key in counts then counts[key] else 0
  }

  class ReferenceCountMap {
    var counts: CountMap

    constructor ()
      ensures counts == map[]
    {
      counts := map[];
    }

    method IncrementAndGet(key: object) returns (count: int)
      modifies this
      ensures count == Count(old(counts), key) + 1
      ensures counts == Incremented(old(counts), key)
    {
      var previousCount := Count(counts, key);
      counts := counts[key := previousCount + 1];
      count := previousCount + 1;
    }

    method DecrementAndGet(key: object) returns (count: int)
      modifies this
      ensures count == Count(old(counts), key) - 1
      ensures counts == Decremented(old(counts), key)
    {
      var previousCount := Count(counts, key);
      counts := counts[key := previousCount - 1];
      if previousCount == 1 {
        counts := counts - {key};
      }
      count := previousCount - 1;
    }
  }

  ghost function Incremented(counts: CountMap, key: object): CountMap {
    counts[key := Count(counts, key) + 1]
  }

  ghost function Decremented(counts: CountMap, key: object): CountMap {
    if Count(counts, key) == 1 then counts - {key} else counts[key := Count(counts, key) - 1]
  }

  ghost function Distinct(refs: multiset<object>): set<object> {
    set o | o in refs
  }

  /** The map counts exactly the references in `refs`, and holds no entry for an object without any. */
  ghost predicate Counts(counts: CountMap, refs: multiset<object>) {
    && counts.Keys == Distinct(refs)
    && (forall o :: o in counts ==> counts[o] == refs[o])
  }

  lemma IncrementCounts(counts: CountMap, refs: multiset<object>, key: object)
    requires Counts(counts, refs)
    ensures Counts(Incremented(counts, key), refs + multiset{key})
    ensures Count(Incremented(counts, key), key) == 1 <==> key !in refs
  {
  }

  lemma DecrementCounts(counts: CountMap, refs: multiset<object>, key: object)
    requires Counts(counts, refs + multiset{key})
    ensures Counts(Decremented(counts, key), refs)
    ensures Count(counts, key) - 1 == 0 <==> key !in refs
  {
  }

  /** The total size of a set of objects, each charged once. */
  ghost function Sum(objects: set<object>, size: object -> nat): nat {
    if objects == {} then 0 else
      var o :| o in objects;
      size(o) + Sum(objects - {o}, size)
  }

  lemma {:induction false} SumAdd(objects: set<object>, o: object, size: object -> nat)
    requires o !in objects
    ensures Sum(objects + {o}, size) == Sum(objects, size) + size(o)
  {
    var all := objects + {o};
    var p :| p in all && Sum(all, size) == size(p) + Sum(all - {p}, size);
    if p == o {
      assert all - {p} == objects;
    } else {
      var rest := objects - {p};
      assert all - {p} == rest + {o} && rest + {p} == objects;
      SumAdd(rest, o, size);
      SumAdd(rest, p, size);
    }
  }

  /** What the references retain, counted from scratch: every distinct object once. */
  ghost function Retained(refs: multiset<object>, size: object -> nat): nat {
    Sum(Distinct(refs), size)
  }

  lemma RetainedAdd(refs: multiset<object>, o: object, size: object -> nat)
    ensures Retained(refs + multiset{o}, size) == Retained(refs, size) + if o in refs then 0 else size(o)
  {
    var s, t := Distinct(refs), Distinct(refs + multiset{o});
    if o in refs {
      assert t == s;
    } else {
      assert t == s + {o};
      SumAdd(s, o, size);
    }
  }

  lemma {:induction false} SumUnion(a: set<object>, b: set<object>, size: object -> nat)
    requires a !! b
    ensures Sum(a + b, size) == Sum(a, size) + Sum(b, size)
  {
    if b == {} {
      assert a + b == a;
    } else {
      var o :| o in b;
      SumUnion(a, b - {o}, size);
      assert a + b == (a + (b - {o})) + {o} && b == (b - {o}) + {o};
      SumAdd(a + (b - {o}), o, size);
      SumAdd(b - {o}, o, size);
    }
  }

  lemma {:induction false} SumUniform(objects: set<object>, size: object -> nat, each: nat)
    requires forall o :: o in objects ==> size(o) == each
    ensures Sum(objects, size) == each * |objects|
  {
    if objects == {} {
    } else {
      var o :| o in objects;
      SumUniform(objects - {o}, size, each);
      assert objects == (objects - {o}) + {o};
      SumAdd(objects - {o}, o, size);
      assert |objects| == |objects - {o}| + 1;
    }
  }
}
