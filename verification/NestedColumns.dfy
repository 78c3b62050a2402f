/** In what order columns and the fields of rows come out of folding, and which columns. */
module NestedColumns {
  import opened NestedFields
  import opened NestedPaths
  import opened NestedKeys
  import opened NestedFieldsTheorems

  ghost predicate InTextOrder(entries: seq<Entry>) {
    forall i, j :: 0 <= i < j < |entries| ==> LexLess(entries[i].name, entries[j].name)
  }

  // ----- The fields of rows

  lemma {:induction false} PickedSorted(entries: seq<Entry>, prefix: string, size: nat)
    requires Sorted(entries)
    ensures Sorted(Picked(entries, prefix, size))
    ensures forall e :: e in Picked(entries, prefix, size) ==> e in entries && SplitLength(e.name) == size
  {
    if entries == [] {
    } else {
      PickedSorted(entries[1..], prefix, size);
      var rest := Picked(entries[1..], prefix, size);
      forall j | 0 <= j < |rest| ensures Before(entries[0].name, rest[j].name) {
        assert rest[j] in entries[1..];
        var k :| 0 <= k < |entries[1..]| && entries[1..][k] == rest[j];
      }
    }
  }

  /** A row's fields come in the text order of the paths picked up for it. */
  lemma PickedInTextOrder(entries: seq<Entry>, prefix: string, size: nat)
    requires Sorted(entries)
    ensures InTextOrder(Picked(entries, prefix, size))
  {
    PickedSorted(entries, prefix, size);
    var picked := Picked(entries, prefix, size);
    forall i, j | 0 <= i < j < |picked| ensures LexLess(picked[i].name, picked[j].name) {
      assert picked[i] in picked && picked[j] in picked;
      assert Before(picked[i].name, picked[j].name);
    }
  }

  lemma {:induction false} LexAfterPrefix(p: string, a: string, b: string)
    ensures LexLess(p + a, p + b) <==> LexLess(a, b)
  {
    if p == "" {
      assert p + a == a && p + b == b;
    } else {
      assert (p + a)[1..] == p[1..] + a && (p + b)[1..] == p[1..] + b;
      LexAfterPrefix(p[1..], a, b);
    }
  }

  /** Below a common parent, paths are ordered by their last names. */
  lemma NamesInTextOrder(prefix: string, picked: seq<Entry>)
    requires InTextOrder(picked) && forall e :: e in picked ==> '.' in e.name && Parent(e.name) == prefix
    ensures InTextOrder(AsFields(picked))
  {
    forall i, j | 0 <= i < j < |picked| ensures LexLess(Name(picked[i].name), Name(picked[j].name)) {
      assert picked[i] in picked && picked[j] in picked;
      ParentFacts(picked[i].name);
      ParentFacts(picked[j].name);
      LexAfterPrefix(prefix + ".", Name(picked[i].name), Name(picked[j].name));
    }
  }

  /** At every depth, the fields of a row are in text order. */
  ghost predicate RowsInOrder(ty: Type) {
    ty.Scalar? || (InTextOrder(ty.fields) && forall i :: 0 <= i < |ty.fields| ==> RowsInOrder(ty.fields[i].ty))
  }

  ghost predicate AllInOrder(entries: seq<Entry>) {
    forall e :: e in entries ==> RowsInOrder(e.ty)
  }

  lemma FoldInOrder(entries: seq<Entry>)
    requires Tidy(entries) && entries != [] && '.' in entries[0].name && Faultless(Names(entries), entries[0].name)
    requires AllInOrder(entries)
    ensures AllInOrder(Fold(entries))
  {
    KeptAndPicked(entries);
    var prefix, picked, size := Prefix(entries), PickedEntries(entries), SplitLength(entries[0].name);
    LeftSorted(entries, prefix, size);
    PickedInTextOrder(entries, prefix, size);
    forall e | e in picked ensures '.' in e.name && Parent(e.name) == prefix { assert e.name in Names(picked); }
    NamesInTextOrder(prefix, picked);
    var row := Entry(prefix, RowType(AsFields(picked)));
    forall i | 0 <= i < |row.ty.fields| ensures RowsInOrder(row.ty.fields[i].ty) { assert picked[i] in picked; }
    PutSorted(Kept(entries), row);
  }

  /** When no keys clash, every row that comes out has its fields in text order, at every depth. */
  lemma {:induction false} FieldsInOrder(entries: seq<Entry>, columns: seq<Entry>, fold: char -> char)
    requires Tidy(entries) && Apart(Names(entries)) && AllInOrder(entries) && AllInOrder(columns)
    ensures AllInOrder(Process(entries, columns, fold))
    decreases Measure(entries)
  {
    if entries == [] {
    } else if '.' in entries[0].name {
      FirstOfTidy(entries);
      ApartMeansFaultless(Names(entries), entries[0].name);
      ApartStays(Names(entries), entries[0].name);
      FoldMeasure(entries);
      FoldIsTidy(entries);
      FoldInOrder(entries);
      FieldsInOrder(Fold(entries), columns, fold);
    } else {
      forall k | k in Names(entries) ensures '.' !in k { AllPlain(entries, k); }
      NamesOfRest(entries);
      PlainKeys(Names(entries[1..]));
      assert entries[0] in entries;
      FieldsInOrder(entries[1..], AddColumn(columns, entries[0], fold), fold);
    }
  }

  // ----- The columns

  /** `e` is new beside the given columns, and the first among the names that differ from its own by case alone. */
  ghost predicate Leads(e: Entry, tops: seq<Entry>, columns: seq<Entry>, fold: char -> char) {
    && IsNew(columns, e.name, fold)
    && forall d :: d in tops && LexLess(d.name, e.name) ==> !SameIgnoringCase(d.name, e.name, fold)
  }

  /** The given columns, and after them in text order exactly those of `tops` that lead. */
  ghost predicate Extends(result: seq<Entry>, columns: seq<Entry>, tops: seq<Entry>, fold: char -> char) {
    && columns <= result
    && InTextOrder(result[|columns|..])
    && forall e :: e in result[|columns|..] <==> e in tops && Leads(e, tops, columns, fold)
  }

  lemma FirstComesFirst(e: Entry, rest: seq<Entry>, d: Entry)
    requires InTextOrder([e] + rest) && d in rest
    ensures LexLess(e.name, d.name) && !LexLess(d.name, e.name) && d != e
  {
    var all := [e] + rest;
    var k :| 0 <= k < |rest| && rest[k] == d;
    assert all[0] == e && all[k + 1] == d;
    LexTotal(e.name, d.name);
  }

  lemma FirstLeads(e: Entry, rest: seq<Entry>, columns: seq<Entry>, fold: char -> char)
    requires InTextOrder([e] + rest)
    ensures Leads(e, [e] + rest, columns, fold) <==> IsNew(columns, e.name, fold)
  {
    forall d | d in [e] + rest ensures !LexLess(d.name, e.name) {
      if d in rest {
        FirstComesFirst(e, rest, d);
      } else {
        LexTotal(e.name, e.name);
      }
    }
  }

  /** Whether a later name leads does not change when the first is moved to the columns, or left out for good reason. */
  lemma LaterLeads(e: Entry, rest: seq<Entry>, columns: seq<Entry>, fold: char -> char, d: Entry)
    requires InTextOrder([e] + rest) && d in rest
    ensures Leads(d, [e] + rest, columns, fold) <==> Leads(d, rest, AddColumn(columns, e, fold), fold)
  {
    FirstComesFirst(e, rest, d);
    assert forall c :: c in [e] + rest <==> c == e || c in rest;
    NewAfter(columns, e, {d.name}, fold);
    if !IsNew(columns, e.name, fold) && SameIgnoringCase(e.name, d.name, fold) {
      var i :| 0 <= i < |columns| && SameIgnoringCase(columns[i].name, e.name, fold);
      assert SameIgnoringCase(columns[i].name, d.name, fold);
    }
  }

  /** The columns added from the first name on. */
  lemma AddedFirst(e: Entry, columns: seq<Entry>, fold: char -> char, result: seq<Entry>)
    requires AddColumn(columns, e, fold) <= result
    ensures columns <= result
    ensures var added := result[|AddColumn(columns, e, fold)|..];
            result[|columns|..] == if IsNew(columns, e.name, fold) then [e] + added else added
  {
  }

  lemma OrderFromFirst(e: Entry, rest: seq<Entry>, added: seq<Entry>)
    requires InTextOrder([e] + rest) && InTextOrder(added) && forall d :: d in added ==> d in rest
    ensures InTextOrder([e] + added)
  {
    forall j | 0 <= j < |added| ensures LexLess(e.name, added[j].name) {
      assert added[j] in added;
      FirstComesFirst(e, rest, added[j]);
    }
  }

  lemma ExtendsByFirst(e: Entry, rest: seq<Entry>, columns: seq<Entry>, fold: char -> char, result: seq<Entry>)
    requires InTextOrder([e] + rest) && Extends(result, AddColumn(columns, e, fold), rest, fold)
    ensures Extends(result, columns, [e] + rest, fold)
  {
    AddedFirst(e, columns, fold, result);
    var added := result[|AddColumn(columns, e, fold)|..];
    OrderFromFirst(e, rest, added);
    FirstLeads(e, rest, columns, fold);
    forall d ensures d in result[|columns|..] <==> d in [e] + rest && Leads(d, [e] + rest, columns, fold) {
      if d in rest {
        FirstComesFirst(e, rest, d);
        LaterLeads(e, rest, columns, fold, d);
      }
    }
  }

  lemma {:induction false} PlainExtends(tops: seq<Entry>, columns: seq<Entry>, fold: char -> char)
    requires InTextOrder(tops) && forall e :: e in tops ==> '.' !in e.name
    ensures Extends(Process(tops, columns, fold), columns, tops, fold)
    decreases |tops|
  {
    if tops == [] {
    } else {
      assert tops[0] in tops;
      PlainExtends(tops[1..], AddColumn(columns, tops[0], fold), fold);
      assert tops == [tops[0]] + tops[1..];
      ExtendsByFirst(tops[0], tops[1..], columns, fold, Process(tops, columns, fold));
    }
  }

  lemma PlainInTextOrder(entries: seq<Entry>)
    requires Tidy(entries) && entries != [] && '.' !in entries[0].name
    ensures InTextOrder(entries) && forall e :: e in entries ==> '.' !in e.name
  {
    forall e | e in entries ensures '.' !in e.name { AllPlain(entries, e.name); }
    forall i, j | 0 <= i < j < |entries| ensures LexLess(entries[i].name, entries[j].name) {
      assert entries[i] in entries && entries[j] in entries;
      assert Before(entries[i].name, entries[j].name);
    }
  }

  /** The given columns stay in front. After them come, in text order of their names, the top-level entries that are new
      and first among names that differ by case alone. When no keys clash, the top-level names are the keys' roots. */
  lemma {:induction false} ColumnsInOrder(entries: seq<Entry>, columns: seq<Entry>, fold: char -> char) returns (tops: seq<Entry>)
    requires Tidy(entries)
    ensures Extends(Process(entries, columns, fold), columns, tops, fold)
    ensures InTextOrder(tops) && forall e :: e in tops ==> '.' !in e.name
    ensures Apart(Names(entries)) ==> Names(tops) == Roots(Names(entries))
    decreases Measure(entries)
  {
    if entries == [] {
      tops := [];
      assert Names(entries) == {} && Roots({}) == {};
    } else if '.' in entries[0].name {
      FoldMeasure(entries);
      FoldIsTidy(entries);
      tops := ColumnsInOrder(Fold(entries), columns, fold);
      if Apart(Names(entries)) {
        FirstOfTidy(entries);
        ApartMeansFaultless(Names(entries), entries[0].name);
        ApartStays(Names(entries), entries[0].name);
        RootsStay(Names(entries), entries[0].name);
      }
    } else {
      tops := entries;
      PlainInTextOrder(entries);
      PlainExtends(entries, columns, fold);
      PlainKeys(Names(entries));
    }
  }

  // ----- Split lengths

  /** Splitting at every dot. */
  function Parts(path: string): (parts: seq<string>)
    ensures parts != []
  {
    if path == "" then [""]
    else
      var init, c := Parts(path[..|path| - 1]), path[|path| - 1];
      if c == '.' then init + [""] else init[|init| - 1 := init[|init| - 1] + [c]]
  }

  function WithoutTrailingEmpty(parts: seq<string>): seq<string> {
    if parts != [] && parts[|parts| - 1] == "" then WithoutTrailingEmpty(parts[..|parts| - 1]) else parts
  }

  lemma {:induction false} PartsCount(path: string)
    ensures |Parts(path)| == Dots(path) + 1
  {
    if path == "" {
    } else {
      var init, c := path[..|path| - 1], path[|path| - 1];
      PartsCount(init);
      assert path == init + [c];
      DotsConcat(init, [c]);
      assert [c][1..] == "";
    }
  }

  /** For any text, the length is that of Java's split: a text without a dot is one part, and of any other text trailing
      empty parts are dropped. */
  lemma {:induction false} SplitLengthIs(path: string)
    ensures SplitLength(path) == if '.' in path then |WithoutTrailingEmpty(Parts(path))| else 1
  {
    if '.' in path {
      StrippedParts(path);
    }
  }

  lemma {:induction false} StrippedParts(path: string)
    ensures var stripped := StripTrailingDots(path);
            |WithoutTrailingEmpty(Parts(path))| == if stripped == "" then 0 else Dots(stripped) + 1
  {
    if path == "" {
      assert Parts(path)[..0] == [];
    } else {
      var init := path[..|path| - 1];
      if path[|path| - 1] == '.' {
        StrippedParts(init);
        assert Parts(path)[..|Parts(path)| - 1] == Parts(init);
      } else {
        PartsCount(path);
      }
    }
  }
}
