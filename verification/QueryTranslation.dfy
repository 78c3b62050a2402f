/**
Translating a tuple domain into a Boolean search query, and what both mean for a document whose fields hold one value
or none.
 */
module QueryTranslation {
  import opened Wrappers
  import opened Domains

  datatype Comparison = Gt | Gte | Lt | Lte

  datatype Query =
    | MatchAll
    | Exists(field: string)
    | Term(field: string, value: real)
    | Compare(field: string, comparison: Comparison, value: real)
    | Bool(must: seq<Query>, should: seq<Query>, mustNot: seq<Query>)

  const EMPTY_BOOL := Bool([], [], [])

  type Document = map<string, real>

  predicate Holds(c: Comparison, x: real, y: real) {
    match c
    case Gt => x > y
    case Gte => x >= y
    case Lt => x < y
    case Lte => x <= y
  }

  /** A Boolean query asks for all of `must`, none of `mustNot`, and, unless something is required, one of `should`. */
  predicate Matches(q: Query, doc: Document) {
    match q
    case MatchAll => true
    case Exists(field) => field in doc
    case Term(field, value) => field in doc && doc[field] == value
    case Compare(field, c, value) => field in doc && Holds(c, doc[field], value)
    case Bool(must, should, mustNot) =>
      && (forall i :: 0 <= i < |must| ==> Matches(must[i], doc))
      && (forall i :: 0 <= i < |mustNot| ==> !Matches(mustNot[i], doc))
      && (must == [] && should != [] ==> exists i :: 0 <= i < |should| && Matches(should[i], doc))
  }

  datatype Type = Bigint | Integer | Double | Boolean | Varchar | OtherType(orderable: bool)

  datatype Column = Column(name: string, path: string, columnType: Type)

  /** None for the tuple domain that admits no row. */
  type TupleDomain = Option<map<Column, Domain>>

  predicate HasValueConversion(t: Type) {
    !t.OtherType?
  }

  predicate Orderable(t: Type) {
    t.OtherType? ==> t.orderable
  }

  /** One end of a range as a clause, or none if unbounded. */
  function LowClause(field: string, m: Marker): seq<Query> {
    if m.value.None? then [] else [Compare(field, if m.bound.Above? then Gt else Gte, m.value.value)]
  }

  function HighClause(field: string, m: Marker): seq<Query> {
    if m.value.None? then [] else [Compare(field, if m.bound.Below? then Lt else Lte, m.value.value)]
  }

  function RangeQuery(field: string, r: Range): Query
    requires ValidRange(r)
  {
    if IsSingleValue(r) then Bool([Term(field, r.low.value.value)], [], [])
    else Bool(LowClause(field, r.low) + HighClause(field, r.high), [], [])
  }

  function TermQuery(field: string, ranges: seq<Range>): Query
    requires forall i :: 0 <= i < |ranges| ==> ValidRange(ranges[i])
  {
    Bool([], seq(|ranges|, i requires 0 <= i < |ranges| => RangeQuery(field, ranges[i])), [])
  }

  /** What one column contributes; None where the code throws. */
  function PredicateQuery(c: Column, d: Domain): Option<Query>
    requires Normal(d.ranges)
  {
    if !Orderable(c.columnType) then None
    else if NoValues(d) then Some(Bool([], [], [Exists(c.path)]))
    else if AllValues(d) then Some(Bool([Exists(c.path)], [], []))
    else if HasValueConversion(c.columnType) then Some(TermQuery(c.path, d.ranges))
    else None
  }

  /** What can be translated: any domain of a type whose values can be written down, and for other orderable types a
      domain that asks for no value or for any. */
  predicate Supported(t: Type, d: Domain) {
    match t
    case Bigint | Integer | Double | Boolean | Varchar => true
    case OtherType(orderable) => orderable && (d.ranges == [] || (|d.ranges| == 1 && IsAllRange(d.ranges[0])))
  }

  lemma PredicateSucceeds(c: Column, d: Domain)
    requires Normal(d.ranges)
    ensures PredicateQuery(c, d).Some? <==> Supported(c.columnType, d)
  {
  }

  ghost predicate WellFormed(t: TupleDomain) {
    t.Some? ==> forall c :: c in t.value ==> Normalised(t.value[c])
  }

  function ColumnQuery(c: Column, t: TupleDomain): Option<Query>
    requires t.Some? && c in t.value ==> Normal(t.value[c].ranges)
  {
    if t.Some? && c in t.value then
      var p := PredicateQuery(c, t.value[c]);
      if p.Some? then Some(Bool([], [p.value], [])) else None
    else Some(EMPTY_BOOL)
  }

  ghost predicate Translatable(columns: seq<Column>, t: TupleDomain)
    requires WellFormed(t)
  {
    forall i :: 0 <= i < |columns| ==> ColumnQuery(columns[i], t).Some?
  }

  /** Every requested column's own query is required. */
  function SearchQuery(columns: seq<Column>, t: TupleDomain): Query
    requires forall i :: 0 <= i < |columns| ==>
               (t.Some? && columns[i] in t.value ==> Normal(t.value[columns[i]].ranges)) && ColumnQuery(columns[i], t).Some?
  {
    if columns == [] then MatchAll
    else Bool(seq(|columns|, i requires 0 <= i < |columns| => ColumnQuery(columns[i], t).value), [], [])
  }

  /** A single all-embracing range would be all values, so the check against one never fires. */
  lemma NoAllRange(ranges: seq<Range>, i: nat)
    requires Normal(ranges) && i < |ranges| && !(|ranges| == 1 && IsAllRange(ranges[0]))
    ensures !IsAllRange(ranges[i])
  {
    if i + 1 < |ranges| {
      assert Apart(ranges[i].high, ranges[i + 1].low);
    } else if i > 0 {
      assert Apart(ranges[i - 1].high, ranges[i].low);
    }
  }

  method BuildRangeQuery(field: string, range: Range) returns (q: Query)
    requires ValidRange(range)
    ensures q == RangeQuery(field, range)
  {
    var must: seq<Query> := [];
    if IsSingleValue(range) {
      must := must + [Term(field, range.low.value.value)];
    } else {
      if range.low.value.Some? {
        must := must + [Compare(field, if range.low.bound.Above? then Gt else Gte, range.low.value.value)];
      }
      if range.high.value.Some? {
        must := must + [Compare(field, if range.high.bound.Below? then Lt else Lte, range.high.value.value)];
      }
      assert must == LowClause(field, range.low) + HighClause(field, range.high);
    }
    q := Bool(must, [], []);
  }

  /** The loop over the ranges of a domain. */
  method BuildTermQuery(field: string, d: Domain, t: Type) returns (q: Option<Query>)
    requires Normal(d.ranges) && !NoValues(d) && !AllValues(d)
    ensures q == if HasValueConversion(t) then Some(TermQuery(field, d.ranges)) else None
    ensures q.Some? <==> t in {Bigint, Integer, Double, Boolean, Varchar}
  {
    var should: seq<Query> := [];
    for i := 0 to |d.ranges|
      invariant |should| == i && (i > 0 ==> HasValueConversion(t))
      invariant forall j :: 0 <= j < i ==> should[j] == RangeQuery(field, d.ranges[j])
    {
      var range := d.ranges[i];
      NoAllRange(d.ranges, i);
      assert !IsAllRange(range);
      if !HasValueConversion(t) {
        return None;
      }
      var q := BuildRangeQuery(field, range);
      should := should + [q];
    }
    assert should == TermQuery(field, d.ranges).should;
    return Some(Bool([], should, []));
  }

  method BuildPredicate(c: Column, d: Domain) returns (q: Option<Query>)
    requires Normal(d.ranges)
    ensures q == PredicateQuery(c, d)
    ensures q.Some? <==> Supported(c.columnType, d)
  {
    if !Orderable(c.columnType) {
      return None;
    }
    if NoValues(d) {
      return Some(Bool([], [], [Exists(c.path)]));
    }
    if AllValues(d) {
      return Some(Bool([Exists(c.path)], [], []));
    }
    q := BuildTermQuery(c.path, d, c.columnType);
  }

  /** The loop over the requested columns. It succeeds exactly when every requested column with a domain is supported;
      the query then tests every requested column by its domain, and nothing else. */
  method BuildSearchQuery(columns: seq<Column>, t: TupleDomain) returns (q: Option<Query>)
    requires WellFormed(t)
    ensures q == if Translatable(columns, t) then Some(SearchQuery(columns, t)) else None
    ensures q.Some? <==>
              (t.Some? ==> forall c :: c in columns && c in t.value ==> Supported(c.columnType, t.value[c]))
    ensures q.Some? ==> forall doc :: Matches(q.value, doc) <==> forall c :: c in columns ==> ColumnTests(c, t, doc)
  {
    q := CollectColumns(columns, t);
    TranslatableIff(columns, t);
    if q.Some? {
      forall doc ensures Matches(q.value, doc) <==> forall c :: c in columns ==> ColumnTests(c, t, doc) {
        SearchMeaning(columns, t, doc);
      }
    }
  }

  lemma TranslatableIff(columns: seq<Column>, t: TupleDomain)
    requires WellFormed(t)
    ensures Translatable(columns, t) <==>
              (t.Some? ==> forall c :: c in columns && c in t.value ==> Supported(c.columnType, t.value[c]))
  {
    forall c | t.Some? && c in t.value ensures ColumnQuery(c, t).Some? <==> Supported(c.columnType, t.value[c]) {
      PredicateSucceeds(c, t.value[c]);
    }
    if Translatable(columns, t) && t.Some? {
      forall c | c in columns && c in t.value ensures Supported(c.columnType, t.value[c]) {
        var i :| 0 <= i < |columns| && columns[i] == c;
        assert ColumnQuery(columns[i], t).Some?;
      }
    }
  }

  method CollectColumns(columns: seq<Column>, t: TupleDomain) returns (q: Option<Query>)
    requires WellFormed(t)
    ensures q == if Translatable(columns, t) then Some(SearchQuery(columns, t)) else None
  {
    var must: seq<Query> := [];
    for i := 0 to |columns|
      invariant |must| == i
      invariant forall j :: 0 <= j < i ==> ColumnQuery(columns[j], t) == Some(must[j])
    {
      var column := columns[i];
      var should: seq<Query> := [];
      if t.Some? && column in t.value {
        var p := BuildPredicate(column, t.value[column]);
        if p.None? {
          assert ColumnQuery(column, t).None?;
          return None;
        }
        should := [p.value];
      }
      assert ColumnQuery(column, t) == Some(Bool([], should, []));
      must := must + [Bool([], should, [])];
    }
    if must != [] {
      assert must == SearchQuery(columns, t).must;
      return Some(Bool(must, [], []));
    }
    return Some(MatchAll);
  }

  // ----- What the translation means

  function Field(doc: Document, path: string): Option<real> {
    if path in doc then Some(doc[path]) else None
  }

  ghost predicate Satisfies(t: TupleDomain, doc: Document) {
    t.Some? && forall c :: c in t.value ==> Admits(t.value[c], Field(doc, c.path))
  }

  /** The domain a column's query really tests: a domain of ranges never admits a missing value. */
  predicate Tests(d: Domain, x: Option<real>) {
    if x.None? then NoValues(d) else InSome(d.ranges, x.value)
  }

  predicate ColumnTests(c: Column, t: TupleDomain, doc: Document) {
    t.Some? && c in t.value ==> Tests(t.value[c], Field(doc, c.path))
  }

  lemma RangeQueryMeaning(field: string, r: Range, doc: Document)
    requires ValidRange(r) && !IsAllRange(r)
    ensures Matches(RangeQuery(field, r), doc) <==> field in doc && InRange(r, doc[field])
  {
    var q := RangeQuery(field, r);
    if !IsSingleValue(r) {
      var low, high := LowClause(field, r.low), HighClause(field, r.high);
      assert q.must == low + high;
      assert Matches(q, doc) <==> (low == [] || Matches(low[0], doc)) && (high == [] || Matches(high[0], doc)) by {
        assert low != [] ==> q.must[0] == low[0];
        assert high != [] ==> q.must[|low|] == high[0];
      }
    } else {
      assert q.must[0] == Term(field, r.low.value.value);
    }
  }

  lemma PredicateMeaning(c: Column, d: Domain, doc: Document)
    requires Normalised(d) && PredicateQuery(c, d).Some?
    ensures Matches(PredicateQuery(c, d).value, doc) <==> Tests(d, Field(doc, c.path))
  {
    var q := PredicateQuery(c, d).value;
    if NoValues(d) {
      assert q.mustNot[0] == Exists(c.path);
    } else if AllValues(d) {
      assert q.must[0] == Exists(c.path);
      assert c.path in doc ==> InRange(d.ranges[0], doc[c.path]);
    } else {
      forall i | 0 <= i < |d.ranges|
        ensures Matches(q.should[i], doc) <==> c.path in doc && InRange(d.ranges[i], doc[c.path])
      {
        NoAllRange(d.ranges, i);
        RangeQueryMeaning(c.path, d.ranges[i], doc);
      }
    }
  }

  lemma ColumnMeaning(c: Column, t: TupleDomain, doc: Document)
    requires WellFormed(t) && ColumnQuery(c, t).Some?
    ensures Matches(ColumnQuery(c, t).value, doc) <==> ColumnTests(c, t, doc)
  {
    if t.Some? && c in t.value {
      PredicateMeaning(c, t.value[c], doc);
      var q := ColumnQuery(c, t).value;
      assert q.should[0] == PredicateQuery(c, t.value[c]).value;
    }
  }

  /** For every document: the query tests exactly the requested columns, each by what its query tests. */
  lemma SearchMeaning(columns: seq<Column>, t: TupleDomain, doc: Document)
    requires WellFormed(t) && Translatable(columns, t)
    ensures Matches(SearchQuery(columns, t), doc) <==>
              forall c :: c in columns ==> ColumnTests(c, t, doc)
  {
    if columns != [] {
      var q := SearchQuery(columns, t);
      forall i | 0 <= i < |columns| ensures Matches(q.must[i], doc) <==> ColumnTests(columns[i], t, doc) {
        ColumnMeaning(columns[i], t, doc);
      }
      if Matches(q, doc) {
        forall c | c in columns ensures ColumnTests(c, t, doc) {
          var i :| 0 <= i < |columns| && columns[i] == c;
          assert Matches(q.must[i], doc);
        }
      }
    }
  }

  // ----- When the translation is exact

  /** The values of each type, as a part of the line: some types have gaps. */
  type Values = Type -> iset<real>

  ghost predicate OfType(x: Option<real>, values: iset<real>) {
    x.Some? ==> x.value in values
  }

  /** The constrained fields of a document hold values of their columns' types. */
  ghost predicate WellTyped(doc: Document, t: TupleDomain, values: Values) {
    t.Some? ==> forall c :: c in t.value ==> OfType(Field(doc, c.path), values(c.columnType))
  }

  ghost predicate CanAdmit(d: Domain, values: iset<real>) {
    exists x :: OfType(x, values) && Admits(d, x)
  }

  ghost predicate CanPass(d: Domain, values: iset<real>) {
    exists x :: OfType(x, values) && Tests(d, x)
  }

  ghost predicate AdmitsAll(d: Domain, values: iset<real>) {
    forall x :: OfType(x, values) ==> Admits(d, x)
  }

  /** The query looks at a column as its domain asks: a requested column does not admit both values and a missing value,
      and a column that is not requested asks for nothing. */
  ghost predicate Respected(c: Column, d: Domain, columns: seq<Column>, values: Values) {
    if c in columns then !(d.nullAllowed && !NoValues(d)) else AdmitsAll(d, values(c.columnType))
  }

  /** Some domain admits nothing of its type, and some query of a requested column matches nothing of its type. */
  ghost predicate Hopeless(columns: seq<Column>, domains: map<Column, Domain>, values: Values) {
    && (exists c :: c in domains && c in columns && !CanPass(domains[c], values(c.columnType)))
    && (exists c :: c in domains && !CanAdmit(domains[c], values(c.columnType)))
  }

  /** What must hold of the input for the query to be exact. */
  ghost predicate Expressible(columns: seq<Column>, t: TupleDomain, values: Values) {
    && t.Some?
    && (Hopeless(columns, t.value, values) || forall c :: c in t.value ==> Respected(c, t.value[c], columns, values))
  }

  ghost predicate Exact(columns: seq<Column>, t: TupleDomain, values: Values)
    requires WellFormed(t) && Translatable(columns, t)
  {
    forall doc :: WellTyped(doc, t, values) ==> (Matches(SearchQuery(columns, t), doc) <==> Satisfies(t, doc))
  }

  ghost predicate DistinctPaths(t: TupleDomain) {
    t.Some? ==> forall c, d :: c in t.value && d in t.value && c.path == d.path ==> c == d
  }

  /** A document with a chosen value, or none, for every constrained column. */
  lemma DocumentOf(t: TupleDomain, pick: map<Column, Option<real>>) returns (doc: Document)
    requires t.Some? && DistinctPaths(t) && pick.Keys == t.value.Keys
    ensures forall c :: c in t.value ==> Field(doc, c.path) == pick[c]
  {
    doc := map c | c in pick && pick[c].Some? :: c.path := pick[c].value;
  }

  /** Something of its type for every column, admitted by its domain. */
  ghost function Admitted(domains: map<Column, Domain>, values: Values): (pick: map<Column, Option<real>>)
    requires forall c :: c in domains ==> CanAdmit(domains[c], values(c.columnType))
    ensures pick.Keys == domains.Keys
    ensures forall c :: c in domains ==> OfType(pick[c], values(c.columnType)) && Admits(domains[c], pick[c])
  {
    map c | c in domains :: SomeOf(domains[c], values(c.columnType))
  }

  ghost function SomeOf(d: Domain, values: iset<real>): (x: Option<real>)
    requires CanAdmit(d, values)
    ensures OfType(x, values) && Admits(d, x)
  {
    var x :| OfType(x, values) && Admits(d, x);
    x
  }

  /** Something of its type for every column, passing its query if the column is requested. */
  ghost function Passing(columns: seq<Column>, domains: map<Column, Domain>, values: Values): (pick: map<Column, Option<real>>)
    requires forall c :: c in domains && c in columns ==> CanPass(domains[c], values(c.columnType))
    ensures pick.Keys == domains.Keys
    ensures forall c :: c in domains ==> OfType(pick[c], values(c.columnType)) && (c in columns ==> Tests(domains[c], pick[c]))
  {
    map c | c in domains :: if c in columns then SomePassing(domains[c], values(c.columnType)) else None
  }

  ghost function SomePassing(d: Domain, values: iset<real>): (x: Option<real>)
    requires CanPass(d, values)
    ensures OfType(x, values) && Tests(d, x)
  {
    var x :| OfType(x, values) && Tests(d, x);
    x
  }

  /** Among documents of the columns' types, the query matches exactly those that satisfy the tuple domain if and only if
      the domain is not the empty one and either both match nothing, or every requested column does not admit both values
      and a missing value and every other column admits everything of its type. */
  lemma ExactIff(columns: seq<Column>, t: TupleDomain, values: Values)
    requires WellFormed(t) && Translatable(columns, t) && DistinctPaths(t)
    ensures Exact(columns, t, values) <==> Expressible(columns, t, values)
  {
    if Expressible(columns, t, values) {
      forall doc | WellTyped(doc, t, values) ensures Matches(SearchQuery(columns, t), doc) <==> Satisfies(t, doc) {
        SearchMeaning(columns, t, doc);
        if Hopeless(columns, t.value, values) {
          HopelessMatchesNothing(columns, t, values, doc);
        } else {
          RespectedIsExact(columns, t, values, doc);
        }
      }
    } else if t.None? {
      var doc: Document := map[];
      SearchMeaning(columns, t, doc);
      assert WellTyped(doc, t, values);
    } else {
      var doc := Misjudged(columns, t, values);
    }
  }

  lemma HopelessMatchesNothing(columns: seq<Column>, t: TupleDomain, values: Values, doc: Document)
    requires t.Some? && WellTyped(doc, t, values) && Hopeless(columns, t.value, values)
    ensures !Satisfies(t, doc) && exists c :: c in columns && !ColumnTests(c, t, doc)
  {
    var c :| c in t.value && c in columns && !CanPass(t.value[c], values(c.columnType));
    var d :| d in t.value && !CanAdmit(t.value[d], values(d.columnType));
    assert OfType(Field(doc, c.path), values(c.columnType)) && OfType(Field(doc, d.path), values(d.columnType));
    assert !ColumnTests(c, t, doc);
  }

  lemma RespectedIsExact(columns: seq<Column>, t: TupleDomain, values: Values, doc: Document)
    requires WellFormed(t) && t.Some? && WellTyped(doc, t, values)
    requires forall c :: c in t.value ==> Respected(c, t.value[c], columns, values)
    ensures Satisfies(t, doc) <==> forall c :: c in columns ==> ColumnTests(c, t, doc)
  {
    forall c | c in t.value
      ensures Admits(t.value[c], Field(doc, c.path)) <==> (c in columns ==> ColumnTests(c, t, doc))
    {
      assert Respected(c, t.value[c], columns, values);
      assert OfType(Field(doc, c.path), values(c.columnType));
    }
  }

  /** A well-typed document that the query judges wrongly. */
  lemma Misjudged(columns: seq<Column>, t: TupleDomain, values: Values) returns (doc: Document)
    requires WellFormed(t) && Translatable(columns, t) && DistinctPaths(t) && t.Some? && !Expressible(columns, t, values)
    ensures WellTyped(doc, t, values) && Matches(SearchQuery(columns, t), doc) != Satisfies(t, doc)
  {
    if c :| c in t.value && c in columns && !CanPass(t.value[c], values(c.columnType)) {
      doc := NeverMatched(columns, t, c, values);
    } else if c :| c in t.value && !CanAdmit(t.value[c], values(c.columnType)) {
      doc := NeverSatisfied(columns, t, c, values);
    } else {
      var c :| c in t.value && !Respected(c, t.value[c], columns, values);
      if c in columns {
        doc := MissingValue(columns, t, c, values);
      } else {
        doc := Unnoticed(columns, t, c, values);
      }
    }
  }

  /** A document that satisfies the domain, although one column's query matches nothing of its type. */
  lemma NeverMatched(columns: seq<Column>, t: TupleDomain, c: Column, values: Values) returns (doc: Document)
    requires WellFormed(t) && Translatable(columns, t) && DistinctPaths(t) && t.Some?
    requires c in t.value && c in columns && !CanPass(t.value[c], values(c.columnType))
    requires forall c :: c in t.value ==> CanAdmit(t.value[c], values(c.columnType))
    ensures WellTyped(doc, t, values) && !Matches(SearchQuery(columns, t), doc) && Satisfies(t, doc)
  {
    doc := DocumentOf(t, Admitted(t.value, values));
    SearchMeaning(columns, t, doc);
    assert OfType(Field(doc, c.path), values(c.columnType));
    assert !ColumnTests(c, t, doc);
  }

  /** A document that the query matches, although one domain admits nothing of its type. */
  lemma NeverSatisfied(columns: seq<Column>, t: TupleDomain, c: Column, values: Values) returns (doc: Document)
    requires WellFormed(t) && Translatable(columns, t) && DistinctPaths(t) && t.Some?
    requires c in t.value && !CanAdmit(t.value[c], values(c.columnType))
    requires forall c :: c in t.value && c in columns ==> CanPass(t.value[c], values(c.columnType))
    ensures WellTyped(doc, t, values) && Matches(SearchQuery(columns, t), doc) && !Satisfies(t, doc)
  {
    doc := DocumentOf(t, Passing(columns, t.value, values));
    SearchMeaning(columns, t, doc);
    assert OfType(Field(doc, c.path), values(c.columnType));
  }

  /** A missing value that the domain admits, although the query asks for a value. */
  lemma MissingValue(columns: seq<Column>, t: TupleDomain, c: Column, values: Values) returns (doc: Document)
    requires WellFormed(t) && Translatable(columns, t) && DistinctPaths(t) && t.Some?
    requires c in t.value && c in columns && t.value[c].nullAllowed && !NoValues(t.value[c])
    requires forall c :: c in t.value ==> CanAdmit(t.value[c], values(c.columnType))
    ensures WellTyped(doc, t, values) && !Matches(SearchQuery(columns, t), doc) && Satisfies(t, doc)
  {
    var pick := Admitted(t.value, values);
    doc := DocumentOf(t, pick[c := None]);
    SearchMeaning(columns, t, doc);
    assert !ColumnTests(c, t, doc);
  }

  /** A value that the domain rejects in a column that the query does not look at. */
  lemma Unnoticed(columns: seq<Column>, t: TupleDomain, c: Column, values: Values) returns (doc: Document)
    requires WellFormed(t) && Translatable(columns, t) && DistinctPaths(t) && t.Some?
    requires c in t.value && c !in columns && !AdmitsAll(t.value[c], values(c.columnType))
    requires forall c :: c in t.value && c in columns ==> CanPass(t.value[c], values(c.columnType))
    ensures WellTyped(doc, t, values) && Matches(SearchQuery(columns, t), doc) && !Satisfies(t, doc)
  {
    var x :| OfType(x, values(c.columnType)) && !Admits(t.value[c], x);
    doc := DocumentOf(t, Passing(columns, t.value, values)[c := x]);
    SearchMeaning(columns, t, doc);
    assert !Admits(t.value[c], Field(doc, c.path));
  }

  /** For types without gaps the condition reads off the domains: a domain that is not empty, constrains requested columns
      only, and nowhere admits both values and a missing value. */
  lemma ExactIffDense(columns: seq<Column>, t: TupleDomain, values: Values)
    requires WellFormed(t) && Translatable(columns, t) && DistinctPaths(t)
    requires forall c, x: real :: x in values(c)
    ensures Exact(columns, t, values) <==>
              && t.Some?
              && (forall c :: c in t.value ==> c in columns && !(t.value[c].nullAllowed && !NoValues(t.value[c])))
  {
    ExactIff(columns, t, values);
    if t.Some? {
      forall c | c in t.value
        ensures CanAdmit(t.value[c], values(c.columnType)) && !AdmitsAll(t.value[c], values(c.columnType))
      {
        assert OfType(SomeAdmitted(t.value[c]), values(c.columnType));
        var x := RejectsSomething(t.value[c]);
        assert OfType(x, values(c.columnType));
      }
    }
  }

  /** With gaps, separate ranges can leave out nothing: two ranges around the gap between one and two admit every whole
      number, so that a column that is not requested does no harm. */
  lemma GapsCanAdmitAll(wholes: iset<real>)
    requires forall x :: x in wholes <==> x.Floor as real == x
    ensures var low := Range(Marker(None, Above), Marker(Some(1.0), Exactly));
            var high := Range(Marker(Some(2.0), Exactly), Marker(None, Below));
            Normalised(Domain([low, high], true)) && AdmitsAll(Domain([low, high], true), wholes)
  {
    var low := Range(Marker(None, Above), Marker(Some(1.0), Exactly));
    var high := Range(Marker(Some(2.0), Exactly), Marker(None, Below));
    forall x | OfType(x, wholes) ensures Admits(Domain([low, high], true), x) {
      if x.Some? {
        assert x.value.Floor <= 1 || 2 <= x.value.Floor;
        assert InRange([low, high][0], x.value) || InRange([low, high][1], x.value);
      }
    }
  }
}
