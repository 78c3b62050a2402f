/** When folding keeps every path apart, decided on the keys alone. */
module NestedKeys {
  import opened NestedFields
  import opened NestedPaths

  /** Parents at the same depth, the text of one inside the other's, and the longer one sorted after a dot: folding
      the shorter parent then picks up the other's children as well. */
  predicate Clash(a: string, b: string) {
    Dots(a) == Dots(b) && |a| < |b| && b[..|a|] == a && b[|a|] > '.'
  }

  /** No path is also a parent, and no two parents clash. */
  ghost predicate Apart(keys: set<string>) {
    && (forall k, l :: k in keys && l in keys ==> !Ancestor(k, l))
    && (forall k, l, a, b :: k in keys && l in keys && Ancestor(a, k) && Ancestor(b, l) ==> !Clash(a, b))
  }

  ghost predicate First(keys: set<string>, first: string) {
    first in keys && '.' in first && forall k :: k in keys ==> Proper(k) && (k == first || Before(first, k))
  }

  ghost function PickedKeys(keys: set<string>, first: string): set<string>
    requires '.' in first
  {
    set k | k in keys && PickedUp(k, Parent(first), SplitLength(first))
  }

  ghost function FoldedKeys(keys: set<string>, first: string): set<string>
    requires '.' in first
  {
    (keys - PickedKeys(keys, first)) + {Parent(first)}
  }

  /** The fold picks up only children of its parent and does not overwrite another entry. */
  ghost predicate Faultless(keys: set<string>, first: string)
    requires '.' in first
  {
    && Parent(first) !in keys
    && forall k :: k in PickedKeys(keys, first) ==> '.' in k && Parent(k) == Parent(first)
  }

  /** No key is deeper than the first. */
  lemma FirstIsDeepest(keys: set<string>, first: string, k: string)
    requires First(keys, first) && k in keys
    ensures Dots(k) <= Dots(first)
    ensures k in PickedKeys(keys, first) <==> Dots(k) == Dots(first) && Parent(first) <= k
    ensures Dots(k) == Dots(first) ==> '.' in k
  {
    ProperDepth(k);
    ProperDepth(first);
    DotsZero(k);
    DotsZero(first);
  }

  /** A picked key's own parent is at least as long as the parent that picks it up. */
  lemma PickedParent(keys: set<string>, first: string, k: string)
    requires First(keys, first) && k in PickedKeys(keys, first)
    ensures '.' in k && Parent(first) <= Parent(k)
    ensures Parent(k) != Parent(first) ==> |Parent(first)| < |Parent(k)| && Clash(Parent(first), Parent(k))
  {
    FirstIsDeepest(keys, first, k);
    var p, q := Parent(first), Parent(k);
    ParentFacts(first);
    ParentFacts(k);
    if |p| > |q| {
      DotsPrefix(q, p);
    } else if |p| < |q| {
      ProperDepth(k);
      ProperDepth(first);
      LongerParentClashes(p, q, first, k);
    }
  }

  lemma LongerParentClashes(p: string, q: string, first: string, k: string)
    requires Ancestor(p, first) && Ancestor(q, k) && p <= k && |p| < |q| && Dots(p) == Dots(q)
    requires LexLess(first, k)
    ensures Clash(p, q) && p <= q
  {
    DotsPrefix(p, q);
    LexAt(first, k, |p|);
  }

  lemma ApartMeansFaultless(keys: set<string>, first: string)
    requires First(keys, first) && Apart(keys)
    ensures Faultless(keys, first)
  {
    var p := Parent(first);
    ParentFacts(first);
    assert Ancestor(p, first);
    forall k | k in PickedKeys(keys, first) ensures '.' in k && Parent(k) == p {
      PickedParent(keys, first, k);
      ParentFacts(k);
      assert Ancestor(Parent(k), k);
    }
  }

  /** Any ancestor of a key left or of the new key is an ancestor of some old key. */
  lemma AncestorWasThere(keys: set<string>, first: string, a: string, k: string) returns (l: string)
    requires First(keys, first) && k in FoldedKeys(keys, first) && Ancestor(a, k)
    ensures l in keys && Ancestor(a, l)
  {
    l := if k in keys then k else first;
    AncestorOfParent(a, first);
  }

  lemma ApartStays(keys: set<string>, first: string)
    requires First(keys, first) && Apart(keys)
    ensures Apart(FoldedKeys(keys, first))
  {
    var next, p := FoldedKeys(keys, first), Parent(first);
    ApartMeansFaultless(keys, first);
    ParentFacts(first);
    forall k, l | k in next && l in next ensures !Ancestor(k, l) {
      if Ancestor(k, l) {
        AncestorDots(k, l);
        if k == p {
          FirstIsDeepest(keys, first, l);
        } else {
          var l' := AncestorWasThere(keys, first, k, l);
        }
      }
    }
    forall k, l, a, b | k in next && l in next && Ancestor(a, k) && Ancestor(b, l) ensures !Clash(a, b) {
      var k' := AncestorWasThere(keys, first, a, k);
      var l' := AncestorWasThere(keys, first, b, l);
    }
  }

  /** An ancestor of an old key is still an ancestor after a faultless fold, unless it is the parent just folded. */
  lemma AncestorStays(keys: set<string>, first: string, a: string, k: string) returns (l: string)
    requires First(keys, first) && Faultless(keys, first) && k in keys && Ancestor(a, k) && a != Parent(first)
    ensures l in FoldedKeys(keys, first) && Ancestor(a, l)
  {
    if k in PickedKeys(keys, first) {
      l := Parent(first);
      AncestorOfParent(a, k);
    } else {
      l := k;
    }
  }

  /** The parent just folded clashed with no other. */
  lemma FoldedParentIsClear(keys: set<string>, first: string, a: string, k: string)
    requires First(keys, first) && Faultless(keys, first) && k in keys && Ancestor(a, k)
    ensures !Clash(a, Parent(first)) && !Clash(Parent(first), a)
  {
    var p := Parent(first);
    ParentFacts(first);
    if Dots(a) == Dots(p) {
      AncestorDots(a, k);
      FirstIsDeepest(keys, first, k);
      assert a == Parent(k);
      if Clash(a, p) {
        ProperDepth(k);
        ProperDepth(first);
        assert first[..|a|] == k[..|a|] && k[|a|] == '.' && first[|a|] == p[|a|];
        LexAt(first, k, |a|);
      }
    }
  }

  lemma ApartWasThere(keys: set<string>, first: string)
    requires First(keys, first) && Faultless(keys, first) && Apart(FoldedKeys(keys, first))
    ensures Apart(keys)
  {
    var next, p := FoldedKeys(keys, first), Parent(first);
    forall k, l | k in keys && l in keys ensures !Ancestor(k, l) {
      if Ancestor(k, l) {
        AncestorDots(k, l);
        FirstIsDeepest(keys, first, k);
        FirstIsDeepest(keys, first, l);
        var l' := AncestorStays(keys, first, k, l);
      }
    }
    forall k, l, a, b | k in keys && l in keys && Ancestor(a, k) && Ancestor(b, l) ensures !Clash(a, b) {
      FoldedParentIsClear(keys, first, a, k);
      FoldedParentIsClear(keys, first, b, l);
      if a != p && b != p {
        var k' := AncestorStays(keys, first, a, k);
        var l' := AncestorStays(keys, first, b, l);
      }
    }
  }

  // ----- Top-level names

  function Root(path: string): string {
    if path == "" || path[0] == '.' then "" else [path[0]] + Root(path[1..])
  }

  ghost function Roots(keys: set<string>): set<string> {
    set k | k in keys :: Root(k)
  }

  /** Top-level names differ by more than case, from each other and from the columns already there. */
  ghost predicate Distinct(roots: set<string>, columns: seq<Entry>, fold: char -> char) {
    && (forall r, q :: r in roots && q in roots && r != q ==> !SameIgnoringCase(r, q, fold))
    && (forall r :: r in roots ==> IsNew(columns, r, fold))
  }

  lemma {:induction false} RootOfAncestor(a: string, path: string)
    requires Ancestor(a, path)
    ensures Root(path) == Root(a)
  {
    if a != "" && a[0] != '.' {
      assert path[0] == path[..|a|][0];
      assert path[1..][..|a| - 1] == path[..|a|][1..];
      RootOfAncestor(a[1..], path[1..]);
    } else if a != "" {
      assert path[0] == path[..|a|][0];
    }
  }

  lemma RootsStay(keys: set<string>, first: string)
    requires First(keys, first) && Faultless(keys, first)
    ensures Roots(FoldedKeys(keys, first)) == Roots(keys)
  {
    var next, p := FoldedKeys(keys, first), Parent(first);
    assert Ancestor(p, first);
    RootOfAncestor(p, first);
    forall k | k in keys ensures Root(k) in Roots(next) {
      if k in PickedKeys(keys, first) {
        assert Ancestor(p, k);
        RootOfAncestor(p, k);
        assert p in next;
      }
    }
    forall k | k in next ensures Root(k) in Roots(keys) {
      if k !in keys { assert k == p && first in keys; }
    }
  }
}
