/** Tuple domains: what a query asks of each column. Values are reals, standing for any ordered type. */
module Domains {
  import opened Wrappers

  datatype Bound = Below | Exactly | Above

  /** A place on the line; without a value it lies beyond all values. */
  datatype Marker = Marker(value: Option<real>, bound: Bound)

  datatype Range = Range(low: Marker, high: Marker)

  /** What the constructor of a range lets through. */
  predicate ValidRange(r: Range) {
    && (r.low.value.None? ==> r.low.bound.Above?) && (r.high.value.None? ==> r.high.bound.Below?)
    && !r.low.bound.Below? && !r.high.bound.Above?
    && (r.low.value.Some? && r.high.value.Some? ==>
          r.low.value.value < r.high.value.value
          || (r.low.value == r.high.value && r.low.bound.Exactly? && r.high.bound.Exactly?))
  }

  predicate IsAllRange(r: Range) {
    r.low.value.None? && r.high.value.None?
  }

  predicate IsSingleValue(r: Range) {
    r.low.bound.Exactly? && r.low == r.high
  }

  predicate InRange(r: Range, x: real) {
    && (r.low.value.None? || r.low.value.value < x || (r.low.value.value == x && r.low.bound.Exactly?))
    && (r.high.value.None? || x < r.high.value.value || (x == r.high.value.value && r.high.bound.Exactly?))
  }

  /** Ranges in increasing order, with values missing between neighbours. */
  predicate Normal(ranges: seq<Range>) {
    && (forall i :: 0 <= i < |ranges| ==> ValidRange(ranges[i]))
    && (forall i :: 0 <= i < |ranges| - 1 ==> Apart(ranges[i].high, ranges[i + 1].low))
  }

  predicate Apart(high: Marker, low: Marker) {
    && high.value.Some? && low.value.Some?
    && (high.value.value < low.value.value
        || (high.value == low.value && high.bound.Below? && low.bound.Above?))
  }

  datatype Domain = Domain(ranges: seq<Range>, nullAllowed: bool)

  predicate NoValues(d: Domain) {
    d.ranges == []
  }

  predicate AllValues(d: Domain) {
    |d.ranges| == 1 && IsAllRange(d.ranges[0])
  }

  predicate InSome(ranges: seq<Range>, x: real) {
    exists i :: 0 <= i < |ranges| && InRange(ranges[i], x)
  }

  /** Whether the domain admits a value, or a missing one. */
  predicate Admits(d: Domain, x: Option<real>) {
    if x.None? then d.nullAllowed else InSome(d.ranges, x.value)
  }

  /** Tuple domains keep only domains that admit something and reject something. */
  predicate Normalised(d: Domain) {
    Normal(d.ranges) && !(NoValues(d) && !d.nullAllowed) && !(AllValues(d) && d.nullAllowed)
  }

  /** A valid range is never empty. */
  function SomeValue(r: Range): (x: real)
    requires ValidRange(r)
    ensures InRange(r, x)
  {
    if r.low.value.None? then (if r.high.value.None? then 0.0 else r.high.value.value - 1.0)
    else if r.high.value.None? then r.low.value.value + 1.0
    else (r.low.value.value + r.high.value.value) / 2.0
  }

  /** A normalised domain admits something, and a value unless it admits none. */
  function SomeAdmitted(d: Domain): (x: Option<real>)
    requires Normalised(d)
    ensures Admits(d, x) && (x.None? ==> NoValues(d))
  {
    if NoValues(d) then None
    else
      var x := SomeValue(d.ranges[0]);
      assert InRange(d.ranges[0], x);
      Some(x)
  }

  /** Values below the lower end of a later range lie in no range from there on. */
  lemma {:induction false} NothingBelow(ranges: seq<Range>, k: nat, x: real)
    requires Normal(ranges) && k < |ranges| && ranges[k].low.value.Some?
    requires x < ranges[k].low.value.value || (x == ranges[k].low.value.value && ranges[k].low.bound.Above?)
    ensures forall i :: k <= i < |ranges| ==> !InRange(ranges[i], x)
    decreases |ranges| - k
  {
    if k + 1 < |ranges| {
      assert Apart(ranges[k].high, ranges[k + 1].low) && ValidRange(ranges[k]);
      NothingBelow(ranges, k + 1, x);
    }
  }

  /** A normalised domain rejects something. */
  lemma RejectsSomething(d: Domain) returns (x: Option<real>)
    requires Normalised(d)
    ensures !Admits(d, x)
  {
    if !d.nullAllowed {
      x := None;
    } else if NoValues(d) {
      x := Some(0.0);
    } else if d.ranges[0].low.value.Some? {
      x := Some(d.ranges[0].low.value.value - 1.0);
      NothingBelow(d.ranges, 0, x.value);
    } else if |d.ranges| == 1 {
      x := Some(d.ranges[0].high.value.value + 1.0);
    } else {
      var high, low := d.ranges[0].high, d.ranges[1].low;
      assert Apart(high, low);
      x := Some((high.value.value + low.value.value) / 2.0);
      NothingBelow(d.ranges, 1, x.value);
    }
  }
}
