/**
Folding loses nothing exactly when the keys are apart. Any fault shortens or drops some path, so the total length of
the flattened paths, which a faultless run keeps, tells the two apart.
 */
module NestedFieldsTheorems {
  import opened NestedFields
  import opened NestedPaths
  import opened NestedKeys

  // ----- Flattening back

  /** The full paths below a name, with their scalar types. */
  function Flatten(path: string, ty: Type): seq<(string, string)>
    decreases ty, 1
  {
    match ty
    case Scalar(name) => [(path, name)]
    case RowType(fields) => FlattenFields(path, fields)
  }

  function FlattenFields(path: string, fields: seq<Entry>): seq<(string, string)>
    decreases fields, 0
  {
    if fields == [] then []
    else Flatten(path + "." + fields[0].name, fields[0].ty) + FlattenFields(path, fields[1..])
  }

  function FlattenAll(entries: seq<Entry>): seq<(string, string)> {
    if entries == [] then [] else Flatten(entries[0].name, entries[0].ty) + FlattenAll(entries[1..])
  }

  lemma {:induction false} FlattenConcat(a: seq<Entry>, b: seq<Entry>)
    ensures FlattenAll(a + b) == FlattenAll(a) + FlattenAll(b)
  {
    if a == [] {
      assert a + b == b;
    } else {
      assert (a + b)[1..] == a[1..] + b;
      FlattenConcat(a[1..], b);
    }
  }

  /** Some scalar sits below every part of the type. */
  predicate Solid(ty: Type) {
    ty.Scalar? || (ty.fields != [] && forall i :: 0 <= i < |ty.fields| ==> Solid(ty.fields[i].ty))
  }

  function Weight(flat: seq<(string, string)>): nat {
    if flat == [] then 0 else |flat[0].0| + 1 + Weight(flat[1..])
  }

  lemma {:induction false} WeightConcat(a: seq<(string, string)>, b: seq<(string, string)>)
    ensures Weight(a + b) == Weight(a) + Weight(b)
  {
    if a == [] {
      assert a + b == b;
    } else {
      assert (a + b)[1..] == a[1..] + b;
      WeightConcat(a[1..], b);
    }
  }

  lemma RemoveAt(b: seq<(string, string)>, i: nat) returns (c: seq<(string, string)>)
    requires i < |b|
    ensures multiset(b) == multiset(c) + multiset{b[i]} && |c| == |b| - 1
    ensures Weight(b) == Weight(c) + |b[i].0| + 1
  {
    c := b[..i] + b[i + 1..];
    assert b == b[..i] + ([b[i]] + b[i + 1..]);
    WeightConcat(b[..i], [b[i]] + b[i + 1..]);
    WeightConcat(b[..i], b[i + 1..]);
  }

  lemma {:induction false} WeightOfMultiset(a: seq<(string, string)>, b: seq<(string, string)>)
    requires multiset(a) == multiset(b)
    ensures Weight(a) == Weight(b)
  {
    if a == [] {
      assert |multiset(b)| == 0;
    } else {
      assert a[0] in multiset(b);
      var i :| 0 <= i < |b| && b[i] == a[0];
      var c := RemoveAt(b, i);
      assert a == [a[0]] + a[1..];
      assert multiset(a[1..]) == multiset(a) - multiset{a[0]} == multiset(c);
      WeightOfMultiset(a[1..], c);
    }
  }

  /** Moving a type under a shorter name shortens its paths, and by something if it has any. */
  lemma {:induction false} Shorten(a: string, b: string, ty: Type)
    requires |a| <= |b|
    ensures Weight(Flatten(a, ty)) <= Weight(Flatten(b, ty))
    ensures |a| < |b| && Solid(ty) ==> Weight(Flatten(a, ty)) < Weight(Flatten(b, ty))
    ensures Solid(ty) ==> Weight(Flatten(a, ty)) > 0
    decreases ty, 1
  {
    if ty.RowType? {
      ShortenFields(a, b, ty.fields);
    }
  }

  lemma {:induction false} ShortenFields(a: string, b: string, fields: seq<Entry>)
    requires |a| <= |b|
    ensures Weight(FlattenFields(a, fields)) <= Weight(FlattenFields(b, fields))
    ensures fields != [] && (forall i :: 0 <= i < |fields| ==> Solid(fields[i].ty)) ==>
              && Weight(FlattenFields(a, fields)) > 0
              && (|a| < |b| ==> Weight(FlattenFields(a, fields)) < Weight(FlattenFields(b, fields)))
    decreases fields, 0
  {
    if fields == [] {
    } else {
      var f := fields[0];
      Shorten(a + "." + f.name, b + "." + f.name, f.ty);
      ShortenFields(a, b, fields[1..]);
      WeightConcat(Flatten(a + "." + f.name, f.ty), FlattenFields(a, fields[1..]));
      WeightConcat(Flatten(b + "." + f.name, f.ty), FlattenFields(b, fields[1..]));
    }
  }

  // ----- One fold

  /** What every map the worklist sees is like. */
  ghost predicate Tidy(entries: seq<Entry>) {
    Sorted(entries) && forall e :: e in entries ==> Proper(e.name) && Solid(e.ty)
  }

  ghost function Names(entries: seq<Entry>): set<string> {
    set e | e in entries :: e.name
  }

  lemma FirstOfTidy(entries: seq<Entry>)
    requires Tidy(entries) && entries != [] && '.' in entries[0].name
    ensures First(Names(entries), entries[0].name)
  {
  }

  /** Picking up splits the flattened paths in two. */
  lemma {:induction false} PickSplits(entries: seq<Entry>, prefix: string, size: nat)
    ensures var left, picked := FlattenAll(Left(entries, prefix, size)), FlattenAll(Picked(entries, prefix, size));
            && multiset(FlattenAll(entries)) == multiset(left) + multiset(picked)
            && Weight(FlattenAll(entries)) == Weight(left) + Weight(picked)
  {
    if entries == [] {
    } else {
      var e := entries[0];
      PickSplits(entries[1..], prefix, size);
      var f := Flatten(e.name, e.ty);
      WeightConcat(f, FlattenAll(entries[1..]));
      WeightConcat(f, FlattenAll(Left(entries[1..], prefix, size)));
      WeightConcat(f, FlattenAll(Picked(entries[1..], prefix, size)));
    }
  }

  /** Picked up by their own parent, the paths are unchanged. */
  lemma {:induction false} RowOfChildren(prefix: string, picked: seq<Entry>)
    requires forall e :: e in picked ==> '.' in e.name && Parent(e.name) == prefix
    ensures FlattenFields(prefix, AsFields(picked)) == FlattenAll(picked)
  {
    if picked == [] {
    } else {
      ParentFacts(picked[0].name);
      RowOfChildren(prefix, picked[1..]);
      assert AsFields(picked)[1..] == AsFields(picked[1..]);
    }
  }

  /** Picked up by another, shorter parent, some path gets shorter. */
  lemma {:induction false} RowOfOthers(prefix: string, picked: seq<Entry>)
    requires forall e :: e in picked ==> '.' in e.name && |prefix| <= |Parent(e.name)| && Solid(e.ty)
    ensures Weight(FlattenFields(prefix, AsFields(picked))) <= Weight(FlattenAll(picked))
    ensures (exists e :: e in picked && |prefix| < |Parent(e.name)|) ==>
              Weight(FlattenFields(prefix, AsFields(picked))) < Weight(FlattenAll(picked))
  {
    if picked == [] {
    } else {
      var e := picked[0];
      ParentFacts(e.name);
      var moved := prefix + "." + Name(e.name);
      Shorten(moved, e.name, e.ty);
      RowOfOthers(prefix, picked[1..]);
      assert AsFields(picked)[1..] == AsFields(picked[1..]);
      WeightConcat(Flatten(moved, e.ty), FlattenFields(prefix, AsFields(picked[1..])));
      WeightConcat(Flatten(e.name, e.ty), FlattenAll(picked[1..]));
      assert forall d :: d in picked <==> d == e || d in picked[1..];
    }
  }

  /** A new name adds its paths; a name already there loses its old ones. */
  lemma {:induction false} PutFlattens(entries: seq<Entry>, entry: Entry)
    requires Tidy(entries)
    ensures entry.name !in Names(entries) ==>
              multiset(FlattenAll(Put(entries, entry))) == multiset(FlattenAll(entries)) + multiset(Flatten(entry.name, entry.ty))
    ensures Weight(FlattenAll(Put(entries, entry))) <= Weight(FlattenAll(entries)) + Weight(Flatten(entry.name, entry.ty))
    ensures entry.name in Names(entries) ==>
              Weight(FlattenAll(Put(entries, entry))) < Weight(FlattenAll(entries)) + Weight(Flatten(entry.name, entry.ty))
  {
    var f := Flatten(entry.name, entry.ty);
    if entries == [] || Before(entry.name, entries[0].name) {
      WeightConcat(f, FlattenAll(entries));
      NotBehind(entries, entry.name);
    } else {
      var e, rest := entries[0], entries[1..];
      assert entries == [e] + rest;
      WeightConcat(Flatten(e.name, e.ty), FlattenAll(rest));
      Shorten(e.name, e.name, e.ty);
      assert Names(entries) == {e.name} + Names(rest);
      if e.name == entry.name {
        WeightConcat(f, FlattenAll(rest));
      } else {
        PutFlattens(rest, entry);
        WeightConcat(Flatten(e.name, e.ty), FlattenAll(Put(rest, entry)));
      }
    }
  }

  lemma NotBehind(entries: seq<Entry>, name: string)
    requires Sorted(entries) && (entries == [] || Before(name, entries[0].name))
    ensures name !in Names(entries)
  {
    forall i | 0 <= i < |entries| ensures entries[i].name != name {
      if i > 0 { BeforeTrans(name, entries[0].name, entries[i].name); }
      BeforeTotal(name, entries[i].name);
    }
  }

  /** The parts of a fold. */
  ghost function Prefix(entries: seq<Entry>): string
    requires entries != [] && '.' in entries[0].name
  {
    Parent(entries[0].name)
  }

  ghost function Kept(entries: seq<Entry>): seq<Entry>
    requires entries != [] && '.' in entries[0].name
  {
    Left(entries, Prefix(entries), SplitLength(entries[0].name))
  }

  ghost function PickedEntries(entries: seq<Entry>): seq<Entry>
    requires entries != [] && '.' in entries[0].name
  {
    Picked(entries, Prefix(entries), SplitLength(entries[0].name))
  }

  lemma KeptAndPicked(entries: seq<Entry>)
    requires Tidy(entries) && entries != [] && '.' in entries[0].name
    ensures Tidy(Kept(entries)) && Names(Kept(entries)) == Names(entries) - PickedKeys(Names(entries), entries[0].name)
    ensures Names(PickedEntries(entries)) == PickedKeys(Names(entries), entries[0].name)
    ensures entries[0] in PickedEntries(entries)
    ensures forall e :: e in PickedEntries(entries) ==>
              '.' in e.name && |Prefix(entries)| <= |Parent(e.name)| && Solid(e.ty)
              && (|Prefix(entries)| == |Parent(e.name)| ==> Parent(e.name) == Prefix(entries))
  {
    var first := entries[0].name;
    LeftSorted(entries, Prefix(entries), SplitLength(first));
    FirstOfTidy(entries);
    assert entries[0] in entries;
    forall e | e in PickedEntries(entries)
      ensures '.' in e.name && Prefix(entries) <= Parent(e.name)
    {
      assert e.name in PickedKeys(Names(entries), first);
      PickedParent(Names(entries), first, e.name);
    }
  }

  lemma FoldIsTidy(entries: seq<Entry>)
    requires Tidy(entries) && entries != [] && '.' in entries[0].name
    ensures Tidy(Fold(entries)) && Names(Fold(entries)) == FoldedKeys(Names(entries), entries[0].name)
  {
    KeptAndPicked(entries);
    var row := Entry(Prefix(entries), RowType(AsFields(PickedEntries(entries))));
    PutSorted(Kept(entries), row);
    assert entries[0] in entries;
    ParentFacts(entries[0].name);
    forall i | 0 <= i < |row.ty.fields| ensures Solid(row.ty.fields[i].ty) {
      assert PickedEntries(entries)[i] in PickedEntries(entries);
    }
    assert row in Fold(entries);
  }

  lemma PrefixNotPicked(entries: seq<Entry>)
    requires Tidy(entries) && entries != [] && '.' in entries[0].name
    ensures Prefix(entries) in Names(Kept(entries)) <==> Prefix(entries) in Names(entries)
  {
    KeptAndPicked(entries);
    FirstOfTidy(entries);
    ParentFacts(entries[0].name);
    if Prefix(entries) in Names(entries) {
      FirstIsDeepest(Names(entries), entries[0].name, Prefix(entries));
    }
  }

  /** A faultless fold keeps every path and type. */
  lemma FoldKeeps(entries: seq<Entry>)
    requires Tidy(entries) && entries != [] && '.' in entries[0].name && Faultless(Names(entries), entries[0].name)
    ensures multiset(FlattenAll(Fold(entries))) == multiset(FlattenAll(entries))
  {
    KeptAndPicked(entries);
    PrefixNotPicked(entries);
    var prefix, picked := Prefix(entries), PickedEntries(entries);
    forall e | e in picked ensures Parent(e.name) == prefix { assert e.name in Names(picked); }
    RowOfChildren(prefix, picked);
    PickSplits(entries, prefix, SplitLength(entries[0].name));
    PutFlattens(Kept(entries), Entry(prefix, RowType(AsFields(picked))));
  }

  /** Picked up by a shorter parent or put over another entry, something is lost. */
  lemma RowLoses(entries: seq<Entry>)
    requires Tidy(entries) && entries != [] && '.' in entries[0].name && !Faultless(Names(entries), entries[0].name)
    requires Prefix(entries) !in Names(entries)
    ensures Weight(FlattenFields(Prefix(entries), AsFields(PickedEntries(entries)))) < Weight(FlattenAll(PickedEntries(entries)))
  {
    KeptAndPicked(entries);
    var prefix, picked := Prefix(entries), PickedEntries(entries);
    var k :| k in Names(picked) && !('.' in k && Parent(k) == prefix);
    var e :| e in picked && e.name == k;
    RowOfOthers(prefix, picked);
  }

  lemma FoldLoses(entries: seq<Entry>)
    requires Tidy(entries) && entries != [] && '.' in entries[0].name && !Faultless(Names(entries), entries[0].name)
    ensures Weight(FlattenAll(Fold(entries))) < Weight(FlattenAll(entries))
  {
    KeptAndPicked(entries);
    PrefixNotPicked(entries);
    var prefix, picked := Prefix(entries), PickedEntries(entries);
    if prefix !in Names(entries) {
      RowLoses(entries);
    } else {
      RowOfOthers(prefix, picked);
    }
    PickSplits(entries, prefix, SplitLength(entries[0].name));
    PutFlattens(Kept(entries), Entry(prefix, RowType(AsFields(picked))));
  }

  // ----- The whole worklist

  /** The condition on the input under which nothing is lost. */
  ghost predicate Lossless(keys: set<string>, columns: seq<Entry>, fold: char -> char) {
    Apart(keys) && Distinct(Roots(keys), columns, fold)
  }

  /** A fold without fault neither creates nor removes trouble ahead. */
  lemma LosslessAcrossFold(keys: set<string>, first: string, columns: seq<Entry>, fold: char -> char)
    requires First(keys, first)
    ensures Lossless(keys, columns, fold) <==>
              Faultless(keys, first) && Lossless(FoldedKeys(keys, first), columns, fold)
  {
    if Apart(keys) {
      ApartMeansFaultless(keys, first);
      ApartStays(keys, first);
      RootsStay(keys, first);
    } else if Faultless(keys, first) {
      if Apart(FoldedKeys(keys, first)) {
        ApartWasThere(keys, first);
      }
    }
  }

  lemma {:induction false} RootOfPlain(path: string)
    requires '.' !in path
    ensures Root(path) == path
  {
    if path == "" {
    } else {
      RootOfPlain(path[1..]);
    }
  }

  lemma PlainKeys(keys: set<string>)
    requires forall k :: k in keys ==> '.' !in k
    ensures Apart(keys) && Roots(keys) == keys
  {
    forall k | k in keys ensures Root(k) == k && k in Roots(keys) {
      RootOfPlain(k);
      assert Root(k) == k;
    }
  }

  /** Once the first key is a plain name, so are all. */
  lemma AllPlain(entries: seq<Entry>, k: string)
    requires Tidy(entries) && entries != [] && '.' !in entries[0].name && k in Names(entries)
    ensures '.' !in k
  {
    var e :| e in entries && e.name == k;
    var i :| 0 <= i < |entries| && entries[i] == e;
    ProperDepth(k);
    DotsZero(k);
  }

  lemma NamesOfRest(entries: seq<Entry>)
    requires Sorted(entries) && entries != []
    ensures Names(entries) == {entries[0].name} + Names(entries[1..]) && entries[0].name !in Names(entries[1..])
  {
    var e, rest := entries[0], entries[1..];
    assert entries == [e] + rest;
    forall i | 0 <= i < |rest| ensures rest[i].name != e.name { BeforeTotal(e.name, entries[i + 1].name); }
  }

  /** Taking a plain name off the map moves it to the columns, if its case lets it in. */
  lemma LosslessAcrossColumn(entries: seq<Entry>, columns: seq<Entry>, fold: char -> char)
    requires Tidy(entries) && entries != [] && '.' !in entries[0].name
    ensures Lossless(Names(entries), columns, fold) <==>
              && IsNew(columns, entries[0].name, fold)
              && Lossless(Names(entries[1..]), columns + [entries[0]], fold)
  {
    NamesOfRest(entries);
    forall k | k in Names(entries) ensures '.' !in k { AllPlain(entries, k); }
    PlainKeys(Names(entries));
    PlainKeys(Names(entries[1..]));
    DistinctAcross(columns, entries[0], Names(entries[1..]), fold);
  }

  lemma DistinctAcross(columns: seq<Entry>, e: Entry, names: set<string>, fold: char -> char)
    requires e.name !in names
    ensures Distinct({e.name} + names, columns, fold) <==>
              IsNew(columns, e.name, fold) && Distinct(names, columns + [e], fold)
  {
    NewAfter(columns, e, names, fold);
    var all := {e.name} + names;
    if IsNew(columns, e.name, fold) && Distinct(names, columns + [e], fold) {
      forall r, q | r in all && q in all && r != q ensures !SameIgnoringCase(r, q, fold) {
        if r in names && q in names {
        } else if r == e.name {
          assert IsNew(columns + [e], q, fold);
        } else {
          assert IsNew(columns + [e], r, fold);
        }
      }
      forall r | r in all ensures IsNew(columns, r, fold) {
        if r in names { assert IsNew(columns + [e], r, fold); }
      }
    }
    if Distinct(all, columns, fold) {
      assert e.name in all;
      forall r | r in names ensures IsNew(columns + [e], r, fold) {
        assert r in all && !SameIgnoringCase(e.name, r, fold);
      }
    }
  }

  lemma NewAfter(columns: seq<Entry>, e: Entry, names: set<string>, fold: char -> char)
    ensures forall k :: k in names ==>
              (IsNew(columns + [e], k, fold) <==> IsNew(columns, k, fold) && !SameIgnoringCase(e.name, k, fold))
    ensures forall k :: k in names ==> (SameIgnoringCase(e.name, k, fold) <==> SameIgnoringCase(k, e.name, fold))
  {
    forall k | k in names
      ensures IsNew(columns + [e], k, fold) <==> IsNew(columns, k, fold) && !SameIgnoringCase(e.name, k, fold)
    {
      var all := columns + [e];
      assert all[|columns|] == e;
      assert forall i :: 0 <= i < |columns| ==> all[i] == columns[i];
    }
  }

  /** All of `given` is in `result`, or something of its length is missing. */
  ghost predicate Keeps(result: seq<(string, string)>, given: seq<(string, string)>, lossless: bool) {
    if lossless then multiset(result) == multiset(given) else Weight(result) < Weight(given)
  }

  lemma KeepsTrans(a: seq<(string, string)>, b: seq<(string, string)>, c: seq<(string, string)>, first: bool, second: bool)
    requires Keeps(b, c, first) && Keeps(a, b, second)
    ensures Keeps(a, c, first && second)
  {
    if first { WeightOfMultiset(b, c); }
    if second { WeightOfMultiset(a, b); }
  }

  /** Every run keeps all paths when the input is lossless, and loses some length when it is not. */
  lemma {:induction false} ProcessEffect(entries: seq<Entry>, columns: seq<Entry>, fold: char -> char)
    requires Tidy(entries)
    ensures Keeps(FlattenAll(Process(entries, columns, fold)), FlattenAll(columns) + FlattenAll(entries),
                  Lossless(Names(entries), columns, fold))
    decreases Measure(entries)
  {
    if entries == [] {
      assert Names(entries) == {} && Roots({}) == {};
    } else if '.' in entries[0].name {
      FoldMeasure(entries);
      FoldIsTidy(entries);
      ProcessEffect(Fold(entries), columns, fold);
      FoldStep(entries, columns, fold, FlattenAll(Process(entries, columns, fold)));
    } else {
      ProcessEffect(entries[1..], AddColumn(columns, entries[0], fold), fold);
      ColumnStep(entries, columns, fold, FlattenAll(Process(entries, columns, fold)));
    }
  }

  lemma FoldStep(entries: seq<Entry>, columns: seq<Entry>, fold: char -> char, result: seq<(string, string)>)
    requires Tidy(entries) && entries != [] && '.' in entries[0].name
    requires Keeps(result, FlattenAll(columns) + FlattenAll(Fold(entries)), Lossless(Names(Fold(entries)), columns, fold))
    ensures Keeps(result, FlattenAll(columns) + FlattenAll(entries), Lossless(Names(entries), columns, fold))
  {
    FoldIsTidy(entries);
    FirstOfTidy(entries);
    LosslessAcrossFold(Names(entries), entries[0].name, columns, fold);
    FoldEffect(entries, columns);
    KeepsTrans(result, FlattenAll(columns) + FlattenAll(Fold(entries)), FlattenAll(columns) + FlattenAll(entries),
               Faultless(Names(entries), entries[0].name), Lossless(Names(Fold(entries)), columns, fold));
  }

  lemma ColumnStep(entries: seq<Entry>, columns: seq<Entry>, fold: char -> char, result: seq<(string, string)>)
    requires Tidy(entries) && entries != [] && '.' !in entries[0].name
    requires var columns' := AddColumn(columns, entries[0], fold);
             Keeps(result, FlattenAll(columns') + FlattenAll(entries[1..]), Lossless(Names(entries[1..]), columns', fold))
    ensures Keeps(result, FlattenAll(columns) + FlattenAll(entries), Lossless(Names(entries), columns, fold))
  {
    var columns' := AddColumn(columns, entries[0], fold);
    LosslessAcrossColumn(entries, columns, fold);
    assert entries[0] in entries;
    ColumnEffect(entries, columns, fold);
    KeepsTrans(result, FlattenAll(columns') + FlattenAll(entries[1..]), FlattenAll(columns) + FlattenAll(entries),
               IsNew(columns, entries[0].name, fold), Lossless(Names(entries[1..]), columns', fold));
  }

  lemma FoldEffect(entries: seq<Entry>, columns: seq<Entry>)
    requires Tidy(entries) && entries != [] && '.' in entries[0].name
    ensures Keeps(FlattenAll(columns) + FlattenAll(Fold(entries)), FlattenAll(columns) + FlattenAll(entries),
                  Faultless(Names(entries), entries[0].name))
  {
    if Faultless(Names(entries), entries[0].name) {
      FoldKeeps(entries);
    } else {
      FoldLoses(entries);
      WeightConcat(FlattenAll(columns), FlattenAll(Fold(entries)));
      WeightConcat(FlattenAll(columns), FlattenAll(entries));
    }
  }

  lemma ColumnEffect(entries: seq<Entry>, columns: seq<Entry>, fold: char -> char)
    requires entries != [] && Solid(entries[0].ty)
    ensures Keeps(FlattenAll(AddColumn(columns, entries[0], fold)) + FlattenAll(entries[1..]),
                  FlattenAll(columns) + FlattenAll(entries), IsNew(columns, entries[0].name, fold))
  {
    var e, rest := entries[0], entries[1..];
    if IsNew(columns, e.name, fold) {
      FlattenConcat(columns, [e]);
      assert FlattenAll([e]) == Flatten(e.name, e.ty) by { assert [e][1..] == []; }
    } else {
      WeightConcat(FlattenAll(columns), FlattenAll(entries));
      WeightConcat(FlattenAll(columns), FlattenAll(rest));
      WeightConcat(Flatten(e.name, e.ty), FlattenAll(rest));
      Shorten(e.name, e.name, e.ty);
    }
  }

  /** The columns that come out hold exactly the paths and types that went in if and only if no path is also a parent,
      no two parents at one depth clash, and no two top-level names differ by case alone. */
  lemma RoundTripIffLossless(entries: seq<Entry>, columns: seq<Entry>, fold: char -> char)
    requires Sorted(entries) && forall e :: e in entries ==> Proper(e.name) && e.ty.Scalar?
    ensures multiset(FlattenAll(Process(entries, columns, fold))) == multiset(FlattenAll(columns)) + multiset(FlattenAll(entries))
            <==> Lossless(Names(entries), columns, fold)
  {
    ProcessEffect(entries, columns, fold);
    var result, given := FlattenAll(Process(entries, columns, fold)), FlattenAll(columns) + FlattenAll(entries);
    if multiset(result) == multiset(given) {
      WeightOfMultiset(result, given);
    }
  }

  // ----- Inputs that lose paths

  ghost predicate RoundTrips(entries: seq<Entry>, fold: char -> char) {
    multiset(FlattenAll(Process(entries, [], fold))) == multiset(FlattenAll(entries))
  }

  lemma TwoPaths(p: string, q: string, fold: char -> char)
    requires Proper(p) && Proper(q) && Before(p, q) && !Lossless({p, q}, [], fold)
    ensures !RoundTrips([Entry(p, Scalar("long")), Entry(q, Scalar("long"))], fold)
  {
    var d, e := Entry(p, Scalar("long")), Entry(q, Scalar("long"));
    assert d in [d, e] && e in [d, e];
    assert Names([d, e]) == {p, q};
    RoundTripIffLossless([d, e], [], fold);
  }

  lemma DotsOfTwo(a: string, b: string)
    requires '.' !in a && '.' !in b
    ensures Dots(a + "." + b) == 1 && Dots(a) == 0
  {
    assert a + "." + b == a + ("." + b);
    DotsConcat(a, "." + b);
    assert ("." + b)[1..] == b;
    DotsZero(a);
    DotsZero(b);
  }

  lemma JoinIsProper(a: string, b: string)
    requires a != "" && b != "" && '.' !in a && '.' !in b
    ensures Proper(a + "." + b) && Ancestor(a, a + "." + b)
  {
  }

  lemma ProperOfTwo(a: string, b: string)
    requires a != "" && b != "" && '.' !in a && '.' !in b
    ensures Proper(a + "." + b) && SplitLength(a + "." + b) == 2
    ensures Ancestor(a, a + "." + b) && Root(a + "." + b) == a
  {
    JoinIsProper(a, b);
    DotsOfTwo(a, b);
    ProperDepth(a + "." + b);
    RootOfAncestor(a, a + "." + b);
    RootOfPlain(a);
  }

  /** Two top-level names that differ by case: the second column is dropped. */
  lemma CaseCollisionLosesColumn(fold: char -> char)
    requires fold('A') == fold('a')
    ensures !RoundTrips([Entry("A.x", Scalar("long")), Entry("a.x", Scalar("long"))], fold)
  {
    var p, q := "A.x", "a.x";
    ProperOfTwo("A", "x");
    ProperOfTwo("a", "x");
    assert "A" + "." + "x" == p && "a" + "." + "x" == q;
    LexAt(p, q, 0);
    assert p in {p, q} && q in {p, q};
    assert Root(p) in Roots({p, q}) && Root(q) in Roots({p, q});
    assert SameIgnoringCase("A", "a", fold);
    TwoPaths(p, q, fold);
  }

  /** A parent's text inside another's: the child of "ab" ends up under "a". */
  lemma SiblingPrefixLosesPath(fold: char -> char)
    ensures !RoundTrips([Entry("a.x", Scalar("long")), Entry("ab.y", Scalar("long"))], fold)
  {
    var p, q := "a.x", "ab.y";
    ProperOfTwo("a", "x");
    ProperOfTwo("ab", "y");
    DotsOfTwo("a", "x");
    DotsOfTwo("ab", "y");
    assert "a" + "." + "x" == p && "ab" + "." + "y" == q;
    LexAt(p, q, 1);
    assert p in {p, q} && q in {p, q};
    assert Clash("a", "ab");
    TwoPaths(p, q, fold);
  }
}
