/**
Folding dotted field paths into nested row types, deepest paths first. The tree map of the source is a sequence of
entries in the order of its comparator.
 */
module NestedFields {

  datatype Type = Scalar(name: string) | RowType(fields: seq<Entry>)

  /** A key of the map with its type, a field of a row, or a column. */
  datatype Entry = Entry(name: string, ty: Type)

  // ----- Paths as text

  function LastDot(path: string): (i: nat)
    requires '.' in path
    ensures i < |path| && path[i] == '.'
    ensures forall j :: i < j < |path| ==> path[j] != '.'
  {
    var n := |path| - 1;
    if path[n] == '.' then n
    else
      assert path == path[..n] + [path[n]];
      LastDot(path[..n])
  }

  function Parent(path: string): string
    requires '.' in path
  {
    path[..LastDot(path)]
  }

  /** The text after the last dot, or all of it. */
  function Name(path: string): string {
    if '.' in path then path[LastDot(path) + 1..] else path
  }

  function Dots(path: string): nat {
    if path == "" then 0 else (if path[0] == '.' then 1 else 0) + Dots(path[1..])
  }

  function StripTrailingDots(path: string): string {
    if path != "" && path[|path| - 1] == '.' then StripTrailingDots(path[..|path| - 1]) else path
  }

  /** The length of Java's split at dots, which drops trailing empty parts. */
  function SplitLength(path: string): nat {
    if '.' !in path then 1
    else
      var stripped := StripTrailingDots(path);
      if stripped == "" then 0 else Dots(stripped) + 1
  }

  /** String.compareTo, less than zero. */
  predicate LexLess(a: string, b: string) {
    if b == "" then false
    else if a == "" then true
    else if a[0] != b[0] then a[0] < b[0]
    else LexLess(a[1..], b[1..])
  }

  /** The comparator: deeper paths first, then by text. */
  predicate Before(a: string, b: string) {
    if SplitLength(a) == SplitLength(b) then LexLess(a, b) else SplitLength(a) > SplitLength(b)
  }

  // ----- The map

  ghost predicate Sorted(entries: seq<Entry>) {
    forall i, j :: 0 <= i < j < |entries| ==> Before(entries[i].name, entries[j].name)
  }

  function Put(entries: seq<Entry>, entry: Entry): seq<Entry> {
    if entries == [] || Before(entry.name, entries[0].name) then [entry] + entries
    else if entries[0].name == entry.name then [entry] + entries[1..]
    else [entries[0]] + Put(entries[1..], entry)
  }

  /** The keys that the fold of `prefix` picks up: as deep as its first child, and starting with its text. */
  predicate PickedUp(name: string, prefix: string, size: nat) {
    SplitLength(name) == size && prefix <= name
  }

  function Picked(entries: seq<Entry>, prefix: string, size: nat): seq<Entry> {
    if entries == [] then []
    else if PickedUp(entries[0].name, prefix, size) then [entries[0]] + Picked(entries[1..], prefix, size)
    else Picked(entries[1..], prefix, size)
  }

  function Left(entries: seq<Entry>, prefix: string, size: nat): seq<Entry> {
    if entries == [] then []
    else if PickedUp(entries[0].name, prefix, size) then Left(entries[1..], prefix, size)
    else [entries[0]] + Left(entries[1..], prefix, size)
  }

  /** The fields of the new row: the picked entries under their last names. */
  function AsFields(picked: seq<Entry>): (fields: seq<Entry>)
    ensures |fields| == |picked|
    ensures forall i :: 0 <= i < |picked| ==> fields[i] == Entry(Name(picked[i].name), picked[i].ty)
  {
    if picked == [] then [] else [Entry(Name(picked[0].name), picked[0].ty)] + AsFields(picked[1..])
  }

  /** One fold: the first path's parent becomes a row of everything it picks up. */
  function Fold(entries: seq<Entry>): seq<Entry>
    requires entries != [] && '.' in entries[0].name
  {
    var prefix, size := Parent(entries[0].name), SplitLength(entries[0].name);
    Put(Left(entries, prefix, size), Entry(prefix, RowType(AsFields(Picked(entries, prefix, size)))))
  }

  // ----- Columns

  /** equalsIgnoreCase, for the character folding `fold` that Java applies on both sides. */
  predicate SameIgnoringCase(a: string, b: string, fold: char -> char) {
    |a| == |b| && forall i :: 0 <= i < |a| ==> fold(a[i]) == fold(b[i])
  }

  predicate IsNew(columns: seq<Entry>, name: string, fold: char -> char) {
    forall i :: 0 <= i < |columns| ==> !SameIgnoringCase(columns[i].name, name, fold)
  }

  function AddColumn(columns: seq<Entry>, column: Entry, fold: char -> char): seq<Entry> {
    if IsNew(columns, column.name, fold) then columns + [column] else columns
  }

  // ----- The worklist

  /** A slot for each key and one for each of its characters: every round gives some up. */
  function Measure(entries: seq<Entry>): nat {
    if entries == [] then 0 else |entries[0].name| + 1 + Measure(entries[1..])
  }

  lemma {:induction false} PutMeasure(entries: seq<Entry>, entry: Entry)
    ensures Measure(Put(entries, entry)) <= Measure(entries) + |entry.name| + 1
  {
    if !(entries == [] || Before(entry.name, entries[0].name)) && entries[0].name != entry.name {
      PutMeasure(entries[1..], entry);
    }
  }

  lemma {:induction false} LeftMeasure(entries: seq<Entry>, prefix: string, size: nat)
    ensures Measure(Left(entries, prefix, size)) <= Measure(entries)
  {
    if entries == [] {
    } else {
      LeftMeasure(entries[1..], prefix, size);
    }
  }

  /** Folding makes progress on any map at all, whatever dots its keys have. */
  lemma FoldMeasure(entries: seq<Entry>)
    requires entries != [] && '.' in entries[0].name
    ensures Measure(Fold(entries)) < Measure(entries)
  {
    var prefix, size := Parent(entries[0].name), SplitLength(entries[0].name);
    assert Left(entries, prefix, size) == Left(entries[1..], prefix, size);
    LeftMeasure(entries[1..], prefix, size);
    PutMeasure(Left(entries, prefix, size), Entry(prefix, RowType(AsFields(Picked(entries, prefix, size)))));
  }

  function Process(entries: seq<Entry>, columns: seq<Entry>, fold: char -> char): seq<Entry>
    decreases Measure(entries)
  {
    if entries == [] then columns
    else if '.' in entries[0].name then
      FoldMeasure(entries);
      Process(Fold(entries), columns, fold)
    else Process(entries[1..], AddColumn(columns, entries[0], fold), fold)
  }

  /** The worklist as the program runs it, with the iterator that removes what it picks up. */
  method ProcessNestedFields(fieldsMap: seq<Entry>, columns: seq<Entry>, fold: char -> char) returns (result: seq<Entry>)
    ensures result == Process(fieldsMap, columns, fold)
    ensures columns <= result
    decreases Measure(fieldsMap)
  {
    if fieldsMap == [] {
      return columns;
    }
    var field := fieldsMap[0].name;
    if '.' in field {
      var prefix, size := Parent(field), SplitLength(field);
      var kept, fields := PickUp(fieldsMap, prefix, size);
      FoldMeasure(fieldsMap);
      result := ProcessNestedFields(Put(kept, Entry(prefix, RowType(fields))), columns, fold);
    } else {
      result := ProcessNestedFields(fieldsMap[1..], AddColumn(columns, fieldsMap[0], fold), fold);
    }
  }

  method PickUp(fieldsMap: seq<Entry>, prefix: string, size: nat) returns (kept: seq<Entry>, fields: seq<Entry>)
    ensures kept == Left(fieldsMap, prefix, size)
    ensures fields == AsFields(Picked(fieldsMap, prefix, size))
  {
    kept, fields := [], [];
    var i := 0;
    while i < |fieldsMap|
      invariant i <= |fieldsMap|
      invariant kept + Left(fieldsMap[i..], prefix, size) == Left(fieldsMap, prefix, size)
      invariant fields + AsFields(Picked(fieldsMap[i..], prefix, size)) == AsFields(Picked(fieldsMap, prefix, size))
    {
      var entry := fieldsMap[i];
      PickUpStep(fieldsMap, i, prefix, size, kept, fields);
      if PickedUp(entry.name, prefix, size) {
        fields := fields + [Entry(Name(entry.name), entry.ty)];
      } else {
        kept := kept + [entry];
      }
      i := i + 1;
    }
  }

  lemma PickUpStep(entries: seq<Entry>, i: nat, prefix: string, size: nat, kept: seq<Entry>, fields: seq<Entry>)
    requires i < |entries|
    ensures var e := entries[i];
            var (k, f) := if PickedUp(e.name, prefix, size) then (kept, fields + [Entry(Name(e.name), e.ty)])
                          else (kept + [e], fields);
            && kept + Left(entries[i..], prefix, size) == k + Left(entries[i + 1..], prefix, size)
            && fields + AsFields(Picked(entries[i..], prefix, size)) == f + AsFields(Picked(entries[i + 1..], prefix, size))
  {
  }
}
