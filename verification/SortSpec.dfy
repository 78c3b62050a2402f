/**
What it means to sort a range of a sequence, and the facts about rearranging a range
that the in-place sort is built from.
 */
module SortSpec {

  /** Negative, zero or positive, as a Java comparator answers. */
  type Comparator = (int, int) -> int

  /** The contract of a comparator: opposite answers when swapped, and transitivity.
      `Named` keeps the laws quiet until Flip or Chain names the elements to apply them to. */
  ghost predicate TotalPreorder(comp: Comparator) {
    && (forall x, y {:trigger Named(x), Named(y)} :: comp(x, y) < 0 <==> comp(y, x) > 0)
    && (forall x, y, z {:trigger Named(x), Named(y), Named(z)} ::
          comp(x, y) <= 0 && comp(y, z) <= 0 ==> comp(x, z) <= 0)
  }

  ghost predicate Named(x: int) {
    true
  }

  lemma Flip(comp: Comparator, x: int, y: int)
    requires TotalPreorder(comp)
    ensures comp(x, y) <= 0 <==> comp(y, x) >= 0
    ensures comp(x, y) == 0 <==> comp(y, x) == 0
    ensures comp(x, x) == 0
  {
    assert Named(x) && Named(y);
  }

  lemma Chain(comp: Comparator, x: int, y: int, z: int)
    requires TotalPreorder(comp) && comp(x, y) <= 0 && comp(y, z) <= 0
    ensures comp(x, z) <= 0
  {
    assert Named(x) && Named(y) && Named(z);
  }

  ghost predicate Sorted(s: seq<int>, from: int, to: int, comp: Comparator)
    requires 0 <= from && to <= |s|
  {
    forall i, j :: from <= i < j < to ==> comp(s[i], s[j]) <= 0
  }

  ghost predicate Below(s: seq<int>, from: int, to: int, v: int, comp: Comparator)
    requires 0 <= from && to <= |s|
  {
    forall k :: from <= k < to ==> comp(s[k], v) < 0
  }

  ghost predicate Alike(s: seq<int>, from: int, to: int, v: int, comp: Comparator)
    requires 0 <= from && to <= |s|
  {
    forall k :: from <= k < to ==> comp(s[k], v) == 0
  }

  ghost predicate Above(s: seq<int>, from: int, to: int, v: int, comp: Comparator)
    requires 0 <= from && to <= |s|
  {
    forall k :: from <= k < to ==> comp(s[k], v) > 0
  }

  /** `t` is `s` with the elements of `[from, to)` reordered and nothing else changed. */
  ghost predicate Rearranged<T>(s: seq<T>, t: seq<T>, from: int, to: int)
    requires 0 <= from <= to <= |s|
  {
    && |t| == |s|
    && multiset(t) == multiset(s)
    && (forall k :: 0 <= k < from || to <= k < |s| ==> t[k] == s[k])
  }

  lemma ElementsOfParts<T>(s: seq<T>, from: nat, to: nat)
    requires from <= to <= |s|
    ensures multiset(s) == multiset(s[..from]) + multiset(s[from..to]) + multiset(s[to..])
  {
    assert s == s[..from] + s[from..to] + s[to..];
  }

  lemma CancelBoth<T>(a: multiset<T>, x: multiset<T>, y: multiset<T>, b: multiset<T>)
    requires a + x + b == a + y + b
    ensures x == y
  {
    assert x == a + x + b - a - b;
    assert y == a + y + b - a - b;
  }

  /** So the range keeps its own elements. */
  lemma RangeKeepsElements<T>(s: seq<T>, t: seq<T>, from: nat, to: nat)
    requires from <= to <= |s| && Rearranged(s, t, from, to)
    ensures multiset(s[from..to]) == multiset(t[from..to])
  {
    ElementsOfParts(s, from, to);
    ElementsOfParts(t, from, to);
    assert s[..from] == t[..from] && s[to..] == t[to..];
    CancelBoth(multiset(s[..from]), multiset(s[from..to]), multiset(t[from..to]), multiset(s[to..]));
  }

  /** `t` is `s` with two elements exchanged. */
  ghost predicate SwapOf<T>(s: seq<T>, t: seq<T>, i: int, j: int)
    requires 0 <= i < |s| && 0 <= j < |s|
  {
    && |t| == |s| && t[i] == s[j] && t[j] == s[i]
    && (forall k :: 0 <= k < |s| && k != i && k != j ==> t[k] == s[k])
  }

  lemma SwapRearranges<T>(s: seq<T>, t: seq<T>, i: nat, j: nat, from: nat, to: nat)
    requires from <= i < to <= |s| && from <= j < to && SwapOf(s, t, i, j)
    ensures Rearranged(s, t, from, to)
  {
    assert t == s[i := s[j]][j := s[i]];
  }

  lemma RearrangedTrans<T>(s: seq<T>, t: seq<T>, u: seq<T>, from: nat, to: nat)
    requires from <= to <= |s|
    requires Rearranged(s, t, from, to) && Rearranged(t, u, from, to)
    ensures Rearranged(s, u, from, to)
  {
  }

  /** A rearrangement of a part is a rearrangement of any range around it. */
  lemma RearrangedWiden<T>(s: seq<T>, t: seq<T>, from: nat, to: nat, lo: nat, hi: nat)
    requires from <= lo <= hi <= to <= |s|
    requires Rearranged(s, t, lo, hi)
    ensures Rearranged(s, t, from, to)
  {
  }

  /** Every element of a rearranged range comes from that range. */
  lemma RearrangedFrom<T>(s: seq<T>, t: seq<T>, from: nat, to: nat, k: nat) returns (j: nat)
    requires from <= k < to <= |s|
    requires Rearranged(s, t, from, to)
    ensures from <= j < to && s[j] == t[k]
  {
    RangeKeepsElements(s, t, from, to);
    assert t[k] == t[from..to][k - from];
    assert t[k] in multiset(s[from..to]);
    var m :| 0 <= m < to - from && s[from..to][m] == t[k];
    j := from + m;
  }

  lemma BelowRearranged(s: seq<int>, t: seq<int>, from: nat, to: nat, v: int, comp: Comparator)
    requires from <= to <= |s| && Rearranged(s, t, from, to) && Below(s, from, to, v, comp)
    ensures Below(t, from, to, v, comp)
  {
    forall k | from <= k < to ensures comp(t[k], v) < 0 {
      var j := RearrangedFrom(s, t, from, to, k);
    }
  }

  lemma AboveRearranged(s: seq<int>, t: seq<int>, from: nat, to: nat, v: int, comp: Comparator)
    requires from <= to <= |s| && Rearranged(s, t, from, to) && Above(s, from, to, v, comp)
    ensures Above(t, from, to, v, comp)
  {
    forall k | from <= k < to ensures comp(t[k], v) > 0 {
      var j := RearrangedFrom(s, t, from, to, k);
    }
  }

  /** Sorted runs below, at and above a pivot make one sorted run. */
  lemma JoinSorted(s: seq<int>, from: nat, lt: nat, gt: nat, to: nat, v: int, comp: Comparator)
    requires TotalPreorder(comp) && from <= lt <= gt <= to <= |s|
    requires Sorted(s, from, lt, comp) && Below(s, from, lt, v, comp)
    requires Alike(s, lt, gt, v, comp)
    requires Sorted(s, gt, to, comp) && Above(s, gt, to, v, comp)
    ensures Sorted(s, from, to, comp)
  {
    forall i, j | from <= i < j < to ensures comp(s[i], s[j]) <= 0 {
      if i < gt && lt <= j {
        Flip(comp, v, s[j]);
        Chain(comp, s[i], v, s[j]);
      }
    }
  }
}
