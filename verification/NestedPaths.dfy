/** Facts about dotted paths: depth, parents, ancestors and the order in which the map keeps them. */
module NestedPaths {
  import opened NestedFields

  /** No empty part: no dot at either end and no two dots in a row. */
  predicate Proper(path: string) {
    && path != ""
    && path[0] != '.' && path[|path| - 1] != '.'
    && (forall i :: 0 <= i < |path| - 1 ==> path[i] != '.' || path[i + 1] != '.')
  }

  lemma {:induction false} DotsConcat(a: string, b: string)
    ensures Dots(a + b) == Dots(a) + Dots(b)
  {
    if a == "" {
      assert a + b == b;
    } else {
      assert (a + b)[1..] == a[1..] + b;
      DotsConcat(a[1..], b);
    }
  }

  lemma {:induction false} DotsZero(path: string)
    ensures Dots(path) == 0 <==> '.' !in path
  {
    if path == "" {
    } else {
      DotsZero(path[1..]);
      assert path == [path[0]] + path[1..];
    }
  }

  lemma DotsAt(path: string, i: nat)
    requires i < |path| && path[i] == '.'
    ensures Dots(path) == Dots(path[..i]) + 1 + Dots(path[i + 1..])
  {
    assert path == path[..i] + path[i..];
    DotsConcat(path[..i], path[i..]);
    assert path[i..][1..] == path[i + 1..];
  }

  /** On proper paths the split length is the number of parts. */
  lemma ProperDepth(path: string)
    requires Proper(path)
    ensures SplitLength(path) == Dots(path) + 1
  {
  }

  lemma ParentFacts(path: string)
    requires '.' in path
    ensures path == Parent(path) + "." + Name(path)
    ensures '.' !in Name(path) && Dots(path) == Dots(Parent(path)) + 1
    ensures Proper(path) ==> Proper(Parent(path))
  {
    DotsAt(path, LastDot(path));
    DotsZero(Name(path));
    if Proper(path) {
      ParentIsProper(path);
    }
  }

  lemma ParentIsProper(path: string)
    requires '.' in path && Proper(path)
    ensures Proper(Parent(path))
  {
  }

  /** A shorter prefix has fewer dots or the same. */
  lemma DotsPrefix(a: string, b: string)
    requires a <= b
    ensures Dots(a) <= Dots(b)
    ensures |a| < |b| && b[|a|] == '.' ==> Dots(a) < Dots(b)
  {
  }

  /** `a` is the text of `path` before one of its dots. */
  predicate Ancestor(a: string, path: string) {
    |a| < |path| && path[..|a|] == a && path[|a|] == '.'
  }

  /** The ancestors of a path are its parent and the parent's ancestors. */
  lemma AncestorOfParent(a: string, path: string)
    requires '.' in path
    ensures Ancestor(a, path) <==> a == Parent(path) || Ancestor(a, Parent(path))
  {
  }

  lemma AncestorDots(a: string, path: string)
    requires Ancestor(a, path)
    ensures Dots(a) < Dots(path)
    ensures Dots(path) == Dots(a) + 1 ==> '.' in path && a == Parent(path)
  {
    DotsAt(path, |a|);
    if Dots(path) == Dots(a) + 1 {
      DotsZero(path[|a| + 1..]);
      assert forall j :: |a| < j < |path| ==> path[j] == path[|a| + 1..][j - |a| - 1];
    }
  }

  // ----- The order

  lemma {:induction false} LexAt(a: string, b: string, n: nat)
    requires n < |a| && n < |b| && a[..n] == b[..n] && a[n] != b[n]
    ensures LexLess(a, b) <==> a[n] < b[n]
  {
    if n == 0 {
    } else {
      assert a[0] == a[..n][0] && b[0] == b[..n][0];
      assert a[1..][..n - 1] == a[..n][1..] && b[1..][..n - 1] == b[..n][1..];
      LexAt(a[1..], b[1..], n - 1);
    }
  }

  /** The order of texts: a beginning comes first, and else the first difference decides. */
  lemma {:induction false} LexMeans(a: string, b: string)
    ensures LexLess(a, b) <==> a < b || exists n: nat :: n < |a| && n < |b| && a[..n] == b[..n] && a[n] < b[n]
  {
    if a == "" || b == "" {
    } else if a[0] != b[0] {
      assert a[..0] == b[..0];
    } else {
      LexMeans(a[1..], b[1..]);
      assert a == [a[0]] + a[1..] && b == [b[0]] + b[1..];
      if n: nat :| n < |a[1..]| && n < |b[1..]| && a[1..][..n] == b[1..][..n] && a[1..][n] < b[1..][n] {
        assert a[..n + 1] == [a[0]] + a[1..][..n] && b[..n + 1] == [b[0]] + b[1..][..n];
      }
      if n: nat :| n < |a| && n < |b| && a[..n] == b[..n] && a[n] < b[n] {
        LexAt(a, b, n);
      }
    }
  }

  lemma {:induction false} LexTotal(a: string, b: string)
    ensures a == b || LexLess(a, b) || LexLess(b, a)
    ensures !(LexLess(a, b) && LexLess(b, a)) && !LexLess(a, a)
  {
    if a != "" && b != "" && a[0] == b[0] {
      LexTotal(a[1..], b[1..]);
      assert a == [a[0]] + a[1..] && b == [b[0]] + b[1..];
    }
    if a == "" {
    } else {
      LexTotal(a[1..], a[1..]);
    }
  }

  lemma {:induction false} LexTrans(a: string, b: string, c: string)
    requires LexLess(a, b) && LexLess(b, c)
    ensures LexLess(a, c)
  {
    if a != "" && a[0] == b[0] == c[0] {
      LexTrans(a[1..], b[1..], c[1..]);
    }
  }

  lemma BeforeTrans(a: string, b: string, c: string)
    requires Before(a, b) && Before(b, c)
    ensures Before(a, c)
  {
    if SplitLength(a) == SplitLength(b) == SplitLength(c) {
      LexTrans(a, b, c);
    }
  }

  lemma BeforeTotal(a: string, b: string)
    ensures a == b || Before(a, b) || Before(b, a)
    ensures !Before(a, a) && !(Before(a, b) && Before(b, a))
  {
    LexTotal(a, b);
    LexTotal(a, a);
  }

  // ----- The map

  lemma {:induction false} LeftSorted(entries: seq<Entry>, prefix: string, size: nat)
    requires Sorted(entries)
    ensures Sorted(Left(entries, prefix, size))
    ensures forall e :: e in Left(entries, prefix, size) <==> e in entries && !PickedUp(e.name, prefix, size)
    ensures forall e :: e in Picked(entries, prefix, size) <==> e in entries && PickedUp(e.name, prefix, size)
  {
    if entries == [] {
    } else {
      LeftSorted(entries[1..], prefix, size);
      assert forall e :: e in entries <==> e == entries[0] || e in entries[1..];
      var rest := Left(entries[1..], prefix, size);
      forall j | 0 <= j < |rest| ensures Before(entries[0].name, rest[j].name) {
        assert rest[j] in entries[1..];
        var k :| 0 <= k < |entries[1..]| && entries[1..][k] == rest[j];
      }
    }
  }

  /** Putting replaces an entry of the same name or adds one, and keeps the order. */
  lemma {:induction false} PutSorted(entries: seq<Entry>, entry: Entry)
    requires Sorted(entries)
    ensures Sorted(Put(entries, entry))
    ensures forall e :: e in Put(entries, entry) <==> e == entry || (e in entries && e.name != entry.name)
  {
    if entries == [] {
    } else if Before(entry.name, entries[0].name) {
      forall j | 0 <= j < |entries| ensures Before(entry.name, entries[j].name) && entries[j].name != entry.name {
        if j > 0 { BeforeTrans(entry.name, entries[0].name, entries[j].name); }
        BeforeTotal(entry.name, entries[j].name);
      }
    } else {
      var rest := entries[1..];
      assert forall e :: e in entries <==> e == entries[0] || e in rest;
      if entries[0].name == entry.name {
        forall e | e in rest ensures e.name != entry.name {
          var k :| 0 <= k < |rest| && rest[k] == e;
          BeforeTotal(entry.name, entries[k + 1].name);
        }
      } else {
        PutSorted(rest, entry);
        BeforeTotal(entry.name, entries[0].name);
        forall e | e in Put(rest, entry) ensures Before(entries[0].name, e.name) {
          if e != entry {
            var k :| 0 <= k < |rest| && rest[k] == e;
            assert entries[k + 1] == e;
          }
        }
      }
    }
  }
}
