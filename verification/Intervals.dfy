/** The text form of day-time and year-month intervals, and its limits at the ends of the integer ranges. */
module Intervals {
  import opened Wrappers
  import opened Decimals
  import opened JavaInt

  const LONG_MIN := -0x8000_0000_0000_0000
  const LONG_MAX := 0x7FFF_FFFF_FFFF_FFFF

  predicate IsLong(x: int) {
    LONG_MIN <= x <= LONG_MAX
  }

  predicate IsInt(x: int) {
    INT_MIN <= x <= INT_MAX
  }

  // ----- Matching

  function DigitPrefix(s: string): (k: nat)
    ensures k <= |s| && AllDigits(s[..k]) && (k < |s| ==> !IsDigit(s[k]))
    ensures forall i :: 0 <= i < k ==> IsDigit(s[i])
  {
    if s != "" && IsDigit(s[0]) then
      var k := DigitPrefix(s[1..]);
      assert s[..k + 1] == [s[0]] + s[1..][..k];
      k + 1
    else 0
  }

  /** One or more digits and then the character `c`; what follows is left over. */
  function Cut(s: string, c: char): Option<(string, string)> {
    var k := DigitPrefix(s);
    if 0 < k < |s| && s[k] == c then Some((s[..k], s[k + 1..])) else None
  }

  lemma PrefixOf(d: string, rest: string)
    requires AllDigits(d) && (rest == "" || !IsDigit(rest[0]))
    ensures DigitPrefix(d + rest) == |d|
  {
    var s := d + rest;
    var k := DigitPrefix(s);
    assert forall i :: 0 <= i < |d| ==> s[i] == d[i];
    assert rest != "" ==> s[|d|] == rest[0];
  }

  lemma CutOf(d: string, c: char, rest: string)
    requires AllDigits(d) && d != "" && !IsDigit(c)
    ensures Cut(d + [c] + rest, c) == Some((d, rest))
  {
    PrefixOf(d, [c] + rest);
    assert d + [c] + rest == d + ([c] + rest);
  }

  lemma CutIs(s: string, c: char)
    requires Cut(s, c).Some?
    ensures var (d, rest) := Cut(s, c).value; AllDigits(d) && d != "" && s == d + [c] + rest
  {
  }

  // ----- Day-time intervals

  const MILLIS_IN_SECOND := 1000
  const MILLIS_IN_MINUTE := 60 * MILLIS_IN_SECOND
  const MILLIS_IN_HOUR := 60 * MILLIS_IN_MINUTE
  const MILLIS_IN_DAY := 24 * MILLIS_IN_HOUR

  const LONG_MIN_VALUE := "-106751991167 07:12:55.808"

  function Total(day: int, hour: int, minute: int, second: int, millis: int): int {
    millis + day * MILLIS_IN_DAY + hour * MILLIS_IN_HOUR + minute * MILLIS_IN_MINUTE + second * MILLIS_IN_SECOND
  }

  /** addExact(value, multiplyExact(x, unit)). */
  function AddScaled(value: Option<int>, x: int, unit: int): Option<int> {
    if value.Some? && IsLong(x * unit) && IsLong(value.value + x * unit) then Some(value.value + x * unit) else None
  }

  function ToMillis(day: int, hour: int, minute: int, second: int, millis: int): Option<int> {
    AddScaled(AddScaled(AddScaled(AddScaled(Some(millis), day, MILLIS_IN_DAY), hour, MILLIS_IN_HOUR),
                        minute, MILLIS_IN_MINUTE), second, MILLIS_IN_SECOND)
  }

  /** Adding more of the same sign never comes back into range. */
  lemma AddScaledExact(total: int, x: int, unit: nat)
    requires unit > 0 && ((total >= 0 && x >= 0) || (total <= 0 && x <= 0))
    ensures var sum := total + x * unit;
            && AddScaled(if IsLong(total) then Some(total) else None, x, unit) == (if IsLong(sum) then Some(sum) else None)
            && (total >= 0 && x >= 0 ==> sum >= 0) && (total <= 0 && x <= 0 ==> sum <= 0)
  {
  }

  /** For parts that do not mix signs, the sum succeeds exactly when the true total fits. */
  lemma ToMillisExact(day: int, hour: int, minute: int, second: int, millis: int)
    requires IsLong(millis)
    requires (day >= 0 && hour >= 0 && minute >= 0 && second >= 0 && millis >= 0)
             || (day <= 0 && hour <= 0 && minute <= 0 && second <= 0 && millis <= 0)
    ensures var total := Total(day, hour, minute, second, millis);
            ToMillis(day, hour, minute, second, millis) == if IsLong(total) then Some(total) else None
  {
    AddScaledExact(millis, day, MILLIS_IN_DAY);
    AddScaledExact(millis + day * MILLIS_IN_DAY, hour, MILLIS_IN_HOUR);
    AddScaledExact(millis + day * MILLIS_IN_DAY + hour * MILLIS_IN_HOUR, minute, MILLIS_IN_MINUTE);
    AddScaledExact(millis + day * MILLIS_IN_DAY + hour * MILLIS_IN_HOUR + minute * MILLIS_IN_MINUTE,
                   second, MILLIS_IN_SECOND);
  }

  /** Of two terms with one sign the sum decides, of two with different signs the second alone. */
  predicate Addable(total: int, x: int) {
    if (total < 0) == (x < 0) then IsLong(total + x) else IsLong(x)
  }

  lemma AddScaledIff(total: int, x: int, unit: int)
    requires IsLong(total)
    ensures AddScaled(Some(total), x, unit) == if Addable(total, x * unit) then Some(total + x * unit) else None
    ensures Addable(total, x * unit) ==> IsLong(total + x * unit)
  {
  }

  /** For any parts: the sum is the true total, and succeeds exactly when every term can be added to the total before. */
  lemma ToMillisIff(day: int, hour: int, minute: int, second: int, millis: int)
    requires IsLong(millis)
    ensures var a := millis + day * MILLIS_IN_DAY;
            var b := a + hour * MILLIS_IN_HOUR;
            var c := b + minute * MILLIS_IN_MINUTE;
            ToMillis(day, hour, minute, second, millis)
            == if && Addable(millis, day * MILLIS_IN_DAY) && Addable(a, hour * MILLIS_IN_HOUR)
                  && Addable(b, minute * MILLIS_IN_MINUTE) && Addable(c, second * MILLIS_IN_SECOND)
               then Some(Total(day, hour, minute, second, millis)) else None
  {
    var a := millis + day * MILLIS_IN_DAY;
    var b := a + hour * MILLIS_IN_HOUR;
    var c := b + minute * MILLIS_IN_MINUTE;
    AddScaledIff(millis, day, MILLIS_IN_DAY);
    if IsLong(a) { AddScaledIff(a, hour, MILLIS_IN_HOUR); }
    if IsLong(b) { AddScaledIff(b, minute, MILLIS_IN_MINUTE); }
    if IsLong(c) { AddScaledIff(c, second, MILLIS_IN_SECOND); }
  }

  /** With mixed signs the total can fit while a partial sum does not. */
  lemma MixedSignsCanFail()
    ensures IsLong(Total(1, -24, 0, 0, LONG_MAX)) && ToMillis(1, -24, 0, 0, LONG_MAX).None?
  {
  }

  function PartsOf(n: nat): DayTime {
    DayTime(ToText(n / MILLIS_IN_DAY),
            Padded(n % MILLIS_IN_DAY / MILLIS_IN_HOUR, 2),
            Padded(n % MILLIS_IN_DAY % MILLIS_IN_HOUR / MILLIS_IN_MINUTE, 2),
            Padded(n % MILLIS_IN_DAY % MILLIS_IN_HOUR % MILLIS_IN_MINUTE / MILLIS_IN_SECOND, 2),
            Padded(n % MILLIS_IN_DAY % MILLIS_IN_HOUR % MILLIS_IN_MINUTE % MILLIS_IN_SECOND, 3))
  }

  function FormatMillis(m: int): string
    requires IsLong(m)
  {
    if m == LONG_MIN then LONG_MIN_VALUE
    else
      var sign := if m < 0 then "-" else "";
      var n := if m < 0 then -m else m;
      sign + Text(PartsOf(n), '.')
  }

  /** The five groups of the pattern. */
  datatype DayTime = DayTime(days: string, hours: string, minutes: string, seconds: string, millis: string)

  predicate Groups(g: DayTime) {
    && AllDigits(g.days) && g.days != "" && AllDigits(g.hours) && g.hours != "" && AllDigits(g.minutes) && g.minutes != ""
    && AllDigits(g.seconds) && g.seconds != "" && AllDigits(g.millis) && g.millis != ""
  }

  function Text(g: DayTime, dot: char): string {
    g.days + [' '] + (g.hours + [':'] + (g.minutes + [':'] + (g.seconds + [dot] + g.millis)))
  }

  /** What an unescaped dot in a pattern does not match. */
  predicate IsLineEnd(c: char) {
    c == '\n' || c == '\r' || c == '\U{0085}' || c == '\U{2028}' || c == '\U{2029}'
  }

  /** The end of the pattern, digits any-character digits, with the first digits taken greedily. */
  function CutAny(s: string): Option<(string, string)> {
    var k := DigitPrefix(s);
    if k == |s| then
      if |s| >= 3 then Some((s[..|s| - 2], s[|s| - 1..])) else None
    else if k > 0 && !IsLineEnd(s[k]) && k + 1 < |s| && AllDigits(s[k + 1..]) then Some((s[..k], s[k + 1..]))
    else None
  }

  function MatchDayTime(s: string): Option<DayTime> {
    var days := Cut(s, ' ');
    if days.None? then None
    else
      var hours := Cut(days.value.1, ':');
      if hours.None? then None
      else
        var minutes := Cut(hours.value.1, ':');
        if minutes.None? then None
        else
          var rest := CutAny(minutes.value.1);
          if rest.None? then None
          else Some(DayTime(days.value.0, hours.value.0, minutes.value.0, rest.value.0, rest.value.1))
  }

  function ParseMillis(text: string): Option<int> {
    if text == LONG_MIN_VALUE then Some(LONG_MIN)
    else if text != "" && text[0] == '-' then
      var m := ParseUnsigned(text[1..]);
      if m.Some? then Some(-m.value) else None
    else ParseUnsigned(text)
  }

  /** The groups as numbers, and their total; None where parsing or adding overflows. */
  function ParseUnsigned(text: string): Option<int> {
    var g := MatchDayTime(text);
    if g.None? then None
    else
      MatchIsSound(text);
      Value(g.value)
  }

  function Value(g: DayTime): Option<int>
    requires Groups(g)
  {
    var day, hour, minute, second, millis :=
      FromText(g.days), FromText(g.hours), FromText(g.minutes), FromText(g.seconds), FromText(g.millis);
    if IsLong(day) && IsLong(hour) && IsLong(minute) && IsLong(second) && IsLong(millis) then
      ToMillis(day, hour, minute, second, millis)
    else None
  }

  lemma MatchIsSound(s: string)
    ensures MatchDayTime(s).Some? ==>
              && Groups(MatchDayTime(s).value)
              && exists dot :: !IsLineEnd(dot) && s == Text(MatchDayTime(s).value, dot)
  {
    if MatchDayTime(s).Some? {
      CutIs(s, ' ');
      var r1 := Cut(s, ' ').value.1;
      CutIs(r1, ':');
      var r2 := Cut(r1, ':').value.1;
      CutIs(r2, ':');
      var r3 := Cut(r2, ':').value.1;
      var dot := CutAnyIs(r3);
      assert s == Text(MatchDayTime(s).value, dot);
    }
  }

  lemma CutAnyIs(s: string) returns (dot: char)
    requires CutAny(s).Some?
    ensures !IsLineEnd(dot)
    ensures var (a, b) := CutAny(s).value;
            AllDigits(a) && a != "" && AllDigits(b) && b != "" && s == a + [dot] + b
  {
    var k := DigitPrefix(s);
    if k == |s| {
      assert s == s[..k];
      dot := s[k - 2];
    } else {
      dot := s[k];
    }
    assert s == CutAny(s).value.0 + [dot] + CutAny(s).value.1;
  }

  /** The pattern matches every text of its shape, even with another digit in place of the dot; then the seconds take
      all they can. */
  lemma MatchIsComplete(g: DayTime, dot: char)
    requires Groups(g) && !IsLineEnd(dot)
    ensures var m := MatchDayTime(Text(g, dot));
            && m.Some? && m.value.days == g.days && m.value.hours == g.hours && m.value.minutes == g.minutes
            && |m.value.seconds| >= |g.seconds|
            && (!IsDigit(dot) ==> m.value == g)
  {
    var tail := g.seconds + [dot] + g.millis;
    CutOf(g.days, ' ', g.hours + [':'] + (g.minutes + [':'] + tail));
    CutOf(g.hours, ':', g.minutes + [':'] + tail);
    CutOf(g.minutes, ':', tail);
    CutAnyOf(g.seconds, dot, g.millis);
  }

  lemma CutAnyOf(a: string, dot: char, b: string)
    requires AllDigits(a) && a != "" && AllDigits(b) && b != "" && !IsLineEnd(dot)
    ensures var m := CutAny(a + [dot] + b); m.Some? && |m.value.0| >= |a| && (!IsDigit(dot) ==> m.value == (a, b))
  {
    var s := a + [dot] + b;
    if IsDigit(dot) {
      assert AllDigits(s);
      PrefixOf(s, "");
      assert s + "" == s;
    } else {
      PrefixOf(a, [dot] + b);
      assert s == a + ([dot] + b);
    }
  }

  /** A printed interval reads back as the same number of milliseconds, over the whole range of a long. */
  lemma MillisRoundTrip(m: int)
    requires IsLong(m)
    ensures ParseMillis(FormatMillis(m)) == Some(m)
  {
    if m != LONG_MIN {
      var n := if m < 0 then -m else m;
      var text := Text(PartsOf(n), '.');
      UnsignedRoundTrip(n);
      NotTheLiteral(text);
      if m < 0 {
        assert FormatMillis(m) == "-" + text;
        assert ("-" + text)[1..] == text;
      } else {
        assert FormatMillis(m) == text;
      }
    }
  }

  /** The text of `n` milliseconds: days as they come, hours, minutes, seconds and milliseconds within their bounds and
      with two, two, two and three digits. */
  ghost predicate Normalised(g: DayTime, n: nat) {
    && Groups(g) && Amount(g) == n
    && FromText(g.hours) < 24 && FromText(g.minutes) < 60 && FromText(g.seconds) < 60 && FromText(g.millis) < 1000
    && |g.hours| == 2 && |g.minutes| == 2 && |g.seconds| == 2 && |g.millis| == 3 && NoLeadingZero(g.days)
  }

  lemma PartsAreNormalised(n: nat)
    ensures Normalised(PartsOf(n), n)
  {
    var day, h := n / MILLIS_IN_DAY, n % MILLIS_IN_DAY;
    var hour, q := h / MILLIS_IN_HOUR, h % MILLIS_IN_HOUR;
    var minute, r := q / MILLIS_IN_MINUTE, q % MILLIS_IN_MINUTE;
    var second, millis := r / MILLIS_IN_SECOND, r % MILLIS_IN_SECOND;
    PartsTotal(n, day, h, hour, q, minute, r, second, millis);
    GroupsAreNormalised(n, day, hour, minute, second, millis);
  }

  lemma GroupsAreNormalised(n: nat, day: nat, hour: nat, minute: nat, second: nat, millis: nat)
    requires hour < 24 && minute < 60 && second < 60 && millis < 1000 && n == Total(day, hour, minute, second, millis)
    ensures Normalised(DayTime(ToText(day), Padded(hour, 2), Padded(minute, 2), Padded(second, 2), Padded(millis, 3)), n)
  {
    GroupOf(hour, 2);
    GroupOf(minute, 2);
    GroupOf(second, 2);
    GroupOf(millis, 3);
    TextReadsBack(day);
    TextShape(day);
  }

  lemma GroupOf(n: nat, width: nat)
    requires (width == 2 && n < 100) || (width == 3 && n < 1000)
    ensures FromText(Padded(n, width)) == n && |Padded(n, width)| == width
  {
    PaddedReadsBack(n, width);
    PaddedShape(n, width);
  }

  /** Within their bounds, the parts are determined by the total. */
  lemma PartsOnce(a: nat, b: nat, c: nat, d: nat, e: nat, a': nat, b': nat, c': nat, d': nat, e': nat)
    requires b < 24 && c < 60 && d < 60 && e < 1000 && b' < 24 && c' < 60 && d' < 60 && e' < 1000
    requires Total(a, b, c, d, e) == Total(a', b', c', d', e')
    ensures a == a' && b == b' && c == c' && d == d' && e == e'
  {
  }

  /** There is one such text. */
  lemma NormalisedOnce(g: DayTime, h: DayTime, n: nat)
    requires Normalised(g, n) && Normalised(h, n)
    ensures g == h
  {
    PartsOnce(FromText(g.days), FromText(g.hours), FromText(g.minutes), FromText(g.seconds), FromText(g.millis),
              FromText(h.days), FromText(h.hours), FromText(h.minutes), FromText(h.seconds), FromText(h.millis));
    OnlyText(g.days);
    OnlyText(h.days);
    SameDigits(g.hours, h.hours);
    SameDigits(g.minutes, h.minutes);
    SameDigits(g.seconds, h.seconds);
    SameDigits(g.millis, h.millis);
  }

  /** What is printed: a minus exactly for negative numbers, and the normalised text of the amount. */
  lemma MillisText(m: int) returns (g: DayTime)
    requires IsLong(m) && m != LONG_MIN
    ensures Normalised(g, if m < 0 then -m else m)
    ensures FormatMillis(m) == (if m < 0 then "-" else "") + Text(g, '.')
  {
    g := PartsOf(if m < 0 then -m else m);
    PartsAreNormalised(if m < 0 then -m else m);
  }

  ghost function Amount(g: DayTime): nat
    requires Groups(g)
  {
    Total(FromText(g.days), FromText(g.hours), FromText(g.minutes), FromText(g.seconds), FromText(g.millis))
  }

  /** A text with a minus stands for the opposite of the text without; the literal for the smallest long does not get in
      the way. */
  lemma {:induction false} SignIsRead(text: string, negative: string)
    requires text != "" && text[0] != '-' && negative == "-" + text
    ensures ParseMillis(text) == ParseUnsigned(text)
    ensures ParseUnsigned(text).Some? ==> ParseMillis(negative) == Some(-ParseUnsigned(text).value)
    ensures ParseUnsigned(text).None? && negative != LONG_MIN_VALUE ==> ParseMillis(negative).None?
  {
    assert LONG_MIN_VALUE[0] == '-';
    assert negative[1..] == text;
    if ParseUnsigned(text).Some? {
      NotTheLiteral(text);
    }
  }

  /** Any digits of the shape, in or out of bounds, stand for their total, if that fits. */
  lemma TextMeans(g: DayTime, dot: char)
    requires Groups(g) && !IsLineEnd(dot) && !IsDigit(dot)
    ensures ParseUnsigned(Text(g, dot)) == if IsLong(Amount(g)) then Some(Amount(g)) else None
  {
    MatchIsComplete(g, dot);
    GroupsMean(g);
  }

  lemma GroupsMean(g: DayTime)
    requires Groups(g)
    ensures Value(g) == if IsLong(Amount(g)) then Some(Amount(g)) else None
  {
    PartsMean(FromText(g.days), FromText(g.hours), FromText(g.minutes), FromText(g.seconds), FromText(g.millis));
  }

  lemma PartsMean(day: nat, hour: nat, minute: nat, second: nat, millis: nat)
    ensures var n := Total(day, hour, minute, second, millis);
            (if IsLong(day) && IsLong(hour) && IsLong(minute) && IsLong(second) && IsLong(millis)
             then ToMillis(day, hour, minute, second, millis) else None)
            == if IsLong(n) then Some(n) else None
  {
    if IsLong(millis) {
      ToMillisExact(day, hour, minute, second, millis);
    }
  }

  /** Nothing else is read. */
  lemma OnlyShapesAreRead(text: string) returns (g: DayTime, dot: char)
    requires ParseMillis(text).Some? && text != LONG_MIN_VALUE
    ensures Groups(g) && !IsLineEnd(dot) && (text == Text(g, dot) || text == "-" + Text(g, dot))
  {
    if text != "" && text[0] == '-' {
      g, dot := ShapeOf(text[1..]);
      assert text == "-" + text[1..];
    } else {
      g, dot := ShapeOf(text);
    }
  }

  lemma ShapeOf(text: string) returns (g: DayTime, dot: char)
    requires ParseUnsigned(text).Some?
    ensures Groups(g) && !IsLineEnd(dot) && text == Text(g, dot)
  {
    MatchIsSound(text);
    g := MatchDayTime(text).value;
    dot :| !IsLineEnd(dot) && text == Text(g, dot);
  }

  /** No other number prints as the literal for the smallest long. */
  lemma NotTheLiteral(text: string)
    requires ParseUnsigned(text).Some?
    ensures "-" + text != LONG_MIN_VALUE && text != LONG_MIN_VALUE && text[0] != '-'
  {
    LiteralReadsAsTooLarge();
    assert ("-" + text)[1..] == text;
    CutIs(text, ' ');
  }

  lemma UnsignedRoundTrip(n: nat)
    requires IsLong(n)
    ensures ParseUnsigned(Text(PartsOf(n), '.')) == Some(n)
  {
    MatchIsComplete(PartsOf(n), '.');
    PartsAddUp(n);
  }

  lemma PartsAddUp(n: nat)
    requires IsLong(n)
    ensures Value(PartsOf(n)) == Some(n)
  {
    var day, h := n / MILLIS_IN_DAY, n % MILLIS_IN_DAY;
    var hour, q := h / MILLIS_IN_HOUR, h % MILLIS_IN_HOUR;
    var minute, r := q / MILLIS_IN_MINUTE, q % MILLIS_IN_MINUTE;
    var second, millis := r / MILLIS_IN_SECOND, r % MILLIS_IN_SECOND;
    PartsTotal(n, day, h, hour, q, minute, r, second, millis);
    ToMillisExact(day, hour, minute, second, millis);
    ValueOf(day, hour, minute, second, millis);
  }

  lemma ValueOf(day: nat, hour: nat, minute: nat, second: nat, millis: nat)
    requires IsLong(day) && IsLong(hour) && IsLong(minute) && IsLong(second) && IsLong(millis)
    ensures Value(DayTime(ToText(day), Padded(hour, 2), Padded(minute, 2), Padded(second, 2), Padded(millis, 3)))
            == ToMillis(day, hour, minute, second, millis)
  {
    TextReadsBack(day);
    PaddedReadsBack(hour, 2);
    PaddedReadsBack(minute, 2);
    PaddedReadsBack(second, 2);
    PaddedReadsBack(millis, 3);
  }

  lemma PartsTotal(n: nat, day: nat, h: nat, hour: nat, q: nat, minute: nat, r: nat, second: nat, millis: nat)
    requires n == day * MILLIS_IN_DAY + h && h == hour * MILLIS_IN_HOUR + q
    requires q == minute * MILLIS_IN_MINUTE + r && r == second * MILLIS_IN_SECOND + millis
    ensures Total(day, hour, minute, second, millis) == n
    ensures day <= n && hour <= n && minute <= n && second <= n && millis <= n
  {
  }

  /** Read as any other text, the literal for the smallest long would overflow. */
  lemma LiteralReadsAsTooLarge()
    ensures ParseUnsigned(LONG_MIN_VALUE[1..]).None?
  {
    var g := DayTime("106751991167", "07", "12", "55", "808");
    assert LONG_MIN_VALUE[1..] == Text(g, '.');
    MatchIsComplete(g, '.');
    LiteralGroups();
    ToMillisExact(106751991167, 7, 12, 55, 808);
  }

  lemma LiteralGroups()
    ensures FromText("106751991167") == 106751991167 && FromText("07") == 7 && FromText("12") == 12
    ensures FromText("55") == 55 && FromText("808") == 808
  {
    FromAppend("", "1067");
    assert "" + "1067" == "1067";
    assert FromText("1067") == 1067;
    FromAppend("1067", "5199");
    assert "1067" + "5199" == "10675199";
    assert FromText("10675199") == 10675199;
    FromAppend("10675199", "1167");
    assert "10675199" + "1167" == "106751991167";
  }

  lemma FromAppend(s: string, t: string)
    requires AllDigits(s) && AllDigits(t) && |t| == 4
    ensures AllDigits(s + t)
    ensures FromText(s + t) == FromText(s) * 10000 + DigitValue(t[0]) * 1000 + DigitValue(t[1]) * 100 + DigitValue(t[2]) * 10 + DigitValue(t[3])
  {
    FromSnoc(s, t[0]);
    FromSnoc(s + [t[0]], t[1]);
    FromSnoc(s + [t[0]] + [t[1]], t[2]);
    FromSnoc(s + [t[0]] + [t[1]] + [t[2]], t[3]);
    assert s + t == s + [t[0]] + [t[1]] + [t[2]] + [t[3]];
  }

  lemma FromSnoc(s: string, c: char)
    requires AllDigits(s) && IsDigit(c)
    ensures AllDigits(s + [c]) && FromText(s + [c]) == FromText(s) * 10 + DigitValue(c)
  {
  }

  // ----- Year-month intervals

  const INT_MIN_VALUE := "-178956970-8"

  function ToMonths(year: int, months: int): Option<int> {
    if IsInt(year * 12) && IsInt(year * 12 + months) then Some(year * 12 + months) else None
  }

  /** The sum is the true total. For parts of one sign it succeeds exactly when the total fits, for parts of different
      signs exactly when the years alone do. */
  lemma ToMonthsExact(year: int, months: int)
    requires IsInt(months)
    ensures var fits := if (year < 0) == (months < 0) then IsInt(year * 12 + months) else IsInt(year * 12);
            ToMonths(year, months) == if fits then Some(year * 12 + months) else None
  {
  }

  function MonthsText(n: nat): string {
    ToText(n / 12) + ['-'] + ToText(n % 12)
  }

  function FormatMonths(m: int): string
    requires IsInt(m)
  {
    if m == INT_MIN then INT_MIN_VALUE
    else if m < 0 then "-" + MonthsText(-m)
    else MonthsText(m)
  }

  function ParseMonths(text: string): Option<int> {
    if text == INT_MIN_VALUE then Some(INT_MIN)
    else if text != "" && text[0] == '-' then
      var m := ParseUnsignedMonths(text[1..]);
      if m.Some? then Some(-m.value) else None
    else ParseUnsignedMonths(text)
  }

  function ParseUnsignedMonths(text: string): Option<int> {
    var years := Cut(text, '-');
    if years.None? || years.value.1 == "" || !AllDigits(years.value.1) then None
    else YearsAndMonths(years.value.0, years.value.1)
  }

  function YearsAndMonths(years: string, months: string): Option<int>
    requires AllDigits(years) && AllDigits(months)
  {
    var y, m := FromText(years), FromText(months);
    if IsInt(y) && IsInt(m) then ToMonths(y, m) else None
  }

  /** A printed interval reads back as the same number of months, over the whole range of an int. */
  lemma MonthsRoundTrip(m: int)
    requires IsInt(m)
    ensures ParseMonths(FormatMonths(m)) == Some(m)
  {
    if m != INT_MIN {
      var n := if m < 0 then -m else m;
      UnsignedMonthsRoundTrip(n);
      NotTheMonthsLiteral(MonthsText(n));
      assert ("-" + MonthsText(n))[1..] == MonthsText(n);
    }
  }

  lemma UnsignedMonthsRoundTrip(n: nat)
    requires IsInt(n)
    ensures ParseUnsignedMonths(MonthsText(n)) == Some(n)
  {
    CutOf(ToText(n / 12), '-', ToText(n % 12));
    TextReadsBack(n / 12);
    TextReadsBack(n % 12);
    ToMonthsExact(n / 12, n % 12);
  }

  /** The text of `n` months: years as they come and months below twelve, neither with leading zeros. */
  ghost predicate NormalisedMonths(years: string, months: string, n: nat) {
    && AllDigits(years) && years != "" && NoLeadingZero(years) && AllDigits(months) && months != "" && NoLeadingZero(months)
    && FromText(years) * 12 + FromText(months) == n && FromText(months) < 12
  }

  lemma MonthsAreNormalised(n: nat)
    ensures NormalisedMonths(ToText(n / 12), ToText(n % 12), n)
  {
    TextReadsBack(n / 12);
    TextReadsBack(n % 12);
    TextShape(n / 12);
    TextShape(n % 12);
  }

  /** There is one such text. */
  lemma {:induction false} NormalisedMonthsOnce(years: string, months: string, years': string, months': string, n: nat)
    requires NormalisedMonths(years, months, n) && NormalisedMonths(years', months', n)
    ensures years == years' && months == months'
  {
    OnlyText(years);
    OnlyText(months);
    OnlyText(years');
    OnlyText(months');
  }

  /** What is printed: a minus exactly for negative numbers, and the normalised text of the amount. */
  lemma MonthsTextIs(m: int) returns (years: string, months: string)
    requires IsInt(m) && m != INT_MIN
    ensures NormalisedMonths(years, months, if m < 0 then -m else m)
    ensures FormatMonths(m) == (if m < 0 then "-" else "") + (years + ['-'] + months)
  {
    var n := if m < 0 then -m else m;
    years, months := ToText(n / 12), ToText(n % 12);
    MonthsAreNormalised(n);
  }

  lemma {:induction false} MonthsSignIsRead(text: string, negative: string)
    requires text != "" && text[0] != '-' && negative == "-" + text
    ensures ParseMonths(text) == ParseUnsignedMonths(text)
    ensures ParseUnsignedMonths(text).Some? ==> ParseMonths(negative) == Some(-ParseUnsignedMonths(text).value)
    ensures ParseUnsignedMonths(text).None? && negative != INT_MIN_VALUE ==> ParseMonths(negative).None?
  {
    assert INT_MIN_VALUE[0] == '-';
    assert negative[1..] == text;
    if ParseUnsignedMonths(text).Some? {
      NotTheMonthsLiteral(text);
    }
  }

  /** Any digits around a minus stand for their total, if that fits. */
  lemma {:induction false} MonthsTextMeans(years: string, months: string)
    requires AllDigits(years) && years != "" && AllDigits(months) && months != ""
    ensures var n := FromText(years) * 12 + FromText(months);
            ParseUnsignedMonths(years + ['-'] + months) == if IsInt(n) then Some(n) else None
  {
    CutOf(years, '-', months);
    assert ParseUnsignedMonths(years + ['-'] + months) == YearsAndMonths(years, months);
    YearsAndMonthsMean(FromText(years), FromText(months));
  }

  lemma YearsAndMonthsMean(year: nat, months: nat)
    ensures (if IsInt(year) && IsInt(months) then ToMonths(year, months) else None)
            == if IsInt(year * 12 + months) then Some(year * 12 + months) else None
  {
  }

  lemma NotTheMonthsLiteral(text: string)
    requires ParseUnsignedMonths(text).Some?
    ensures "-" + text != INT_MIN_VALUE && text != INT_MIN_VALUE && text[0] != '-'
  {
    MonthsLiteralReadsAsTooLarge();
    assert ("-" + text)[1..] == text;
    CutIs(text, '-');
  }

  /** Read as any other text, the literal for the smallest int would overflow. */
  lemma MonthsLiteralReadsAsTooLarge()
    ensures ParseUnsignedMonths(INT_MIN_VALUE[1..]).None?
  {
    assert INT_MIN_VALUE[1..] == "178956970" + ['-'] + "8";
    CutOf("178956970", '-', "8");
    FromAppend("1", "7895");
    assert "1" + "7895" == "17895";
    assert FromText("17895") == 17895;
    FromAppend("17895", "6970");
    assert "17895" + "6970" == "178956970";
  }
}
