/** The two progress bars of the command line client. */
module ProgressBar {
  import opened Wrappers
  import opened JavaInt
  import opened Sequences

  function Max(a: int, b: int): int {
    if a >= b then a else b
  }

  function Min(a: int, b: int): int {
    if a <= b then a else b
  }

  function Ceil(dividend: int, divisor: int): int
    requires divisor != 0
  {
    Div(Wrap32(Wrap32(dividend + divisor) - 1), divisor)
  }

  datatype Lengths = Lengths(complete: int, running: int, pending: int) {
    function Sum(): int {
      Wrap32(Wrap32(complete + running) + pending)
    }
  }

  function NominalLength(width: int, part: int, total: int): int
    requires total != 0
  {
    Min(width, Ceil(Wrap32(part * width), total))
  }

  function PendingOf(complete: int, running: int, total: int): int {
    Max(0, Wrap32(Wrap32(total - complete) - running))
  }

  /** The nominal lengths, each rounded up. */
  function Nominal(width: int, complete: int, running: int, total: int): Lengths
    requires total != 0
  {
    Lengths(NominalLength(width, complete, total),
            Max(NominalLength(width, running, total), if running > 0 then 1 else 0),
            NominalLength(width, PendingOf(complete, running, total), total))
  }

  /** The three repairs: give up pending, then running, then complete columns. */
  function Repaired(width: int, complete: int, running: int, pending: int, nominal: Lengths): Lengths {
    GiveUpComplete(width, complete, GiveUpRunning(width, running, GiveUpPending(width, pending, nominal)))
  }

  function GiveUpPending(width: int, pending: int, l: Lengths): Lengths {
    if l.Sum() != width && pending > 0 then l.(pending := Max(0, Wrap32(Wrap32(width - l.complete) - l.running))) else l
  }

  function GiveUpRunning(width: int, running: int, l: Lengths): Lengths {
    if l.Sum() != width then
      l.(running := Max(if running > 0 then 1 else 0, Wrap32(Wrap32(width - l.complete) - l.pending)))
    else l
  }

  function GiveUpComplete(width: int, complete: int, l: Lengths): Lengths {
    if l.Sum() > width && complete > 0 then l.(complete := Max(0, Wrap32(Wrap32(width - l.running) - l.pending))) else l
  }

  /** None where the final check fires or a negative length is asked for. */
  function FormatProgressBar(width: int, complete: int, running: int, total: int): Option<string> {
    if total == 0 then
      if width < 0 then None else Some(Repeat(' ', width))
    else
      var l := Repaired(width, complete, running, PendingOf(complete, running, total), Nominal(width, complete, running, total));
      if l.Sum() != width || l.complete < 0 || l.running < 0 || l.pending < 0 then None
      else Some(Repeat('=', l.complete) + Repeat('>', l.running) + Repeat(' ', l.pending))
  }

  /** Without a total the bar is blank. */
  lemma BlankWithoutTotal(width: nat, complete: int, running: int)
    ensures var bar := FormatProgressBar(width, complete, running, 0);
            bar.Some? && |bar.value| == width && forall c :: c in bar.value ==> c == ' '
  {
  }

  /** Arguments the bar is asked for: counts that an int holds, and a total. */
  predicate Counted(width: int, complete: int, running: int, total: int) {
    0 <= width < INT_MAX && 0 <= complete <= INT_MAX && 0 <= running <= INT_MAX && 0 < total <= INT_MAX
  }

  /** The guards on which drawing depends: the share of complete columns has not wrapped around to a negative number, nor
      has that of pending columns in a way that hides it from the repairs, and there is a column to show what runs. */
  predicate Drawable(width: int, complete: int, running: int, total: int)
    requires total != 0
  {
    var nominal := Nominal(width, complete, running, total);
    && nominal.complete >= 0
    && !(nominal.pending < 0 && nominal.Sum() == width)
    && (width > 0 || running == 0)
  }

  /** No product overflows, nor does the number of pending parts. */
  predicate Fits(width: int, complete: int, running: int, total: int) {
    && complete + running - total <= INT_MAX
    && complete * width + total <= INT_MAX && running * width + total <= INT_MAX
    && Max(0, total - complete - running) * width + total <= INT_MAX
  }

  lemma DivUnique(x: int, d: int, q: int, r: int)
    requires 0 <= r < d && x == q * d + r
    ensures x / d == q && x % d == r
  {
    var k := q - x / d;
    assert k * d == x % d - r;
    assert k >= 1 ==> k * d >= d;
    assert k <= -1 ==> k * d <= -d;
  }

  /** The wrapped number is the only int that differs from it by a multiple of the range. */
  lemma WrapIs(x: int, y: int)
    requires INT_MIN <= x <= INT_MAX && (x - y) % 0x1_0000_0000 == 0
    ensures Wrap32(y) == x
  {
  }

  lemma WrapTwice(x: int, y: int)
    ensures Wrap32(Wrap32(x) + y) == Wrap32(x + y)
  {
    WrapIs(Wrap32(Wrap32(x) + y), x + y);
  }

  /** A share lies at most at the width, and no part has no share. */
  lemma NominalBounds(width: nat, part: nat, total: nat)
    requires Counted(width, part, 0, total)
    ensures INT_MIN <= NominalLength(width, part, total) <= width
    ensures part == 0 ==> NominalLength(width, part, total) == 0
    ensures width == 0 ==> NominalLength(width, part, total) == 0
  {
    if part == 0 || width == 0 {
      assert part * width == 0;
      DivUnique(total - 1, total, 0, total - 1);
    }
    QuotientIsSmaller(Wrap32(Wrap32(Wrap32(part * width) + total) - 1), total);
  }

  lemma QuotientIsSmaller(x: int, d: int)
    requires d > 0 && INT_MIN <= x <= INT_MAX
    ensures INT_MIN <= Div(x, d) <= INT_MAX
  {
    QuotientBounds(Abs(x), d, 0);
  }

  lemma SmallerProduct(a: nat, b: nat, c: nat)
    requires a <= b
    ensures a * c <= b * c
  {
  }

  lemma QuotientBounds(n: nat, d: nat, w: nat)
    requires d > 0
    ensures n / d <= n && (n >= w * d ==> n / d >= w)
  {
    var q := n / d;
    assert q * d <= n < (q + 1) * d;
    SmallerProduct(1, d, q);
    if q < w {
      SmallerProduct(q + 1, w, d);
    }
  }

  /** What holds of the lengths as long as the complete columns do. */
  ghost predicate Sensible(width: nat, complete: nat, running: nat, pending: nat, l: Lengths) {
    && width < INT_MAX
    && 0 <= l.complete <= width && INT_MIN <= l.pending <= width && 0 <= l.running <= Max(width, 1)
    && (complete == 0 ==> l.complete == 0) && (pending == 0 ==> l.pending == 0)
    && (l.running > 0 <==> running > 0)
  }

  lemma NominalIsSensible(width: nat, complete: nat, running: nat, total: nat)
    requires Counted(width, complete, running, total)
    ensures var l, pending := Nominal(width, complete, running, total), PendingOf(complete, running, total);
            && (l.complete >= 0 ==> Sensible(width, complete, running, pending, l))
            && l.complete <= width && INT_MIN <= l.complete && (width == 0 ==> l.complete == 0)
            && 0 <= l.running <= Max(width, 1)
  {
    NominalBounds(width, complete, total);
    NominalBounds(width, running, total);
    NominalBounds(width, PendingOf(complete, running, total), total);
  }

  /** Wrapping never makes the lengths look like the width when they do not add up to it. */
  lemma SumIsWidth(width: nat, l: Lengths)
    requires width < INT_MAX && 0 <= l.complete <= width && INT_MIN <= l.pending <= width && 0 <= l.running <= Max(width, 1)
    ensures l.Sum() == width <==> l.complete + l.running + l.pending == width
  {
    WrapTwice(l.complete + l.running, l.pending);
    if l.Sum() == width {
      assert (width - (l.complete + l.running + l.pending)) % 0x1_0000_0000 == 0;
    }
  }

  /** The first repair fills the bar or leaves no pending column. */
  lemma PendingRepair(width: nat, complete: nat, running: nat, pending: nat, l: Lengths)
    requires Sensible(width, complete, running, pending, l) && !(l.pending < 0 && l.Sum() == width)
    ensures var a := GiveUpPending(width, pending, l);
            && 0 <= a.pending <= width && a == l.(pending := a.pending) && (pending == 0 ==> a.pending == 0)
            && (l.complete + l.running + a.pending == width || a.pending == 0)
            && a.pending == (if pending > 0 then Max(0, width - l.complete - l.running) else 0)
  {
    SumIsWidth(width, l);
  }

  /** The second fills it or leaves one running column beside a full run of complete ones. */
  lemma RunningRepair(width: nat, running: nat, a: Lengths)
    requires width < INT_MAX && 0 <= a.complete <= width && 0 <= a.pending <= width && 0 <= a.running <= Max(width, 1)
    requires (a.running > 0 <==> running > 0) && (a.complete + a.running + a.pending == width || a.pending == 0)
    ensures var b := GiveUpRunning(width, running, a);
            && b == a.(running := b.running) && b.running >= 0 && (running > 0 ==> b.running > 0)
            && (b.complete + b.running + b.pending == width
                || (b.pending == 0 && b.running == 1 && b.complete == width && running > 0))
            && (running == 0 && a.complete + a.pending == width ==> b.running == 0)
            && (running == 0 ==> b.running == width - b.complete - b.pending)
  {
    SumIsWidth(width, a);
  }

  /** The third takes the column that runs from the complete ones, if there is one. */
  lemma CompleteRepair(width: nat, complete: nat, b: Lengths)
    requires width < INT_MAX && 0 <= b.complete <= width && 0 <= b.pending && 0 <= b.running
    requires complete == 0 ==> b.complete == 0
    requires b.complete + b.running + b.pending == width || (b.pending == 0 && b.running == 1 && b.complete == width)
    ensures var l := GiveUpComplete(width, complete, b);
            && l == b.(complete := l.complete) && 0 <= l.complete <= b.complete
            && l.Sum() == l.complete + l.running + l.pending
            && (l.Sum() == width <==> width > 0 || b.running + b.pending == 0)
            && (b.complete + b.running + b.pending == width ==> l == b)
  {
  }

  /** Whatever the rounding did, the repairs make the lengths add up to the width, unless something runs and there is
      no column to show it in. */
  lemma RepairsAddUp(width: nat, complete: nat, running: nat, pending: nat, nominal: Lengths)
    requires Sensible(width, complete, running, pending, nominal) && !(nominal.pending < 0 && nominal.Sum() == width)
    ensures var l := Repaired(width, complete, running, pending, nominal);
            && (l.Sum() == width <==> width > 0 || running == 0)
            && 0 <= l.complete && 0 <= l.running && 0 <= l.pending && l.Sum() == l.complete + l.running + l.pending
            && (running > 0 ==> l.running > 0)
            && (l.complete > 0 ==> complete > 0) && (l.pending > 0 ==> pending > 0)
            && (running == 0 && (pending == 0 ==> nominal.complete == width) ==> l.running == 0)
  {
    PendingRepair(width, complete, running, pending, nominal);
    var a := GiveUpPending(width, pending, nominal);
    RunningRepair(width, running, a);
    var b := GiveUpRunning(width, running, a);
    CompleteRepair(width, complete, b);
  }

  /** What the repairs leave of the nominal lengths: the complete columns, less one if that one is needed to show what
      runs; of the pending ones what the others leave over; and the rest for what runs. */
  function Settled(width: int, running: int, pending: int, complete: int, run: int): Lengths {
    var shown := if running > 0 then 1 else 0;
    var c := Min(complete, width - shown);
    var p := if pending > 0 then Max(0, width - complete - run) else 0;
    Lengths(c, width - c - p, p)
  }

  lemma RepairsSettle(width: nat, complete: nat, running: nat, pending: nat, nominal: Lengths)
    requires Sensible(width, complete, running, pending, nominal) && !(nominal.pending < 0 && nominal.Sum() == width)
    requires width > 0 || running == 0
    ensures Repaired(width, complete, running, pending, nominal)
            == Settled(width, running, pending, nominal.complete, nominal.running)
  {
    PendingRepair(width, complete, running, pending, nominal);
    var a := GiveUpPending(width, pending, nominal);
    RunningRepair(width, running, a);
    var b := GiveUpRunning(width, running, a);
    CompleteRepair(width, complete, b);
    RepairsAddUp(width, complete, running, pending, nominal);
  }

  /** A negative share of complete columns survives all repairs. */
  lemma NegativeStays(width: nat, complete: nat, running: nat, pending: nat, nominal: Lengths)
    requires 0 < width < INT_MAX && INT_MIN <= nominal.complete < 0 && 0 <= nominal.running <= width
    requires pending == 0 ==> nominal.pending == 0
    ensures var l := Repaired(width, complete, running, pending, nominal); l.Sum() != width || l.complete < 0
  {
    var a := GiveUpPending(width, pending, nominal);
    FilledByPending(width, nominal);
    if a.Sum() != width {
      NegativeAlone(width, complete, running, a);
    }
  }

  lemma NegativeAlone(width: nat, complete: nat, running: nat, a: Lengths)
    requires 0 < width < INT_MAX && INT_MIN <= a.complete < 0 && a.pending == 0 && a.Sum() != width
    ensures var l := GiveUpComplete(width, complete, GiveUpRunning(width, running, a)); l.Sum() != width || l.complete < 0
  {
    FilledByRunning(width, a);
  }

  /** A length that makes up for the others makes the wrapped sum the width. */
  lemma MakesUp(width: nat, x: int, y: int)
    requires width <= INT_MAX
    ensures Wrap32(x + y + Wrap32(Wrap32(width - x) - y)) == width
  {
    WrapTwice(width - x, -y);
    WrapTwice(width - x - y, x + y);
  }

  lemma FilledByPending(width: nat, l: Lengths)
    requires width <= INT_MAX
    ensures l.(pending := Wrap32(Wrap32(width - l.complete) - l.running)).Sum() == width
  {
    MakesUp(width, l.complete, l.running);
    WrapTwice(l.complete + l.running, Wrap32(Wrap32(width - l.complete) - l.running));
  }

  lemma FilledByRunning(width: nat, l: Lengths)
    requires width <= INT_MAX
    ensures l.(running := Wrap32(Wrap32(width - l.complete) - l.pending)).Sum() == width
  {
    MakesUp(width, l.complete, l.pending);
    WrapTwice(l.complete + Wrap32(Wrap32(width - l.complete) - l.pending), l.pending);
  }

  /** The bar is drawn exactly when the guards hold. It then fills its width and shows a column for what runs, and
      complete and pending columns appear only with their causes. */
  lemma BarIsDrawn(width: nat, complete: nat, running: nat, total: nat)
    requires Counted(width, complete, running, total)
    ensures var bar := FormatProgressBar(width, complete, running, total);
            && (bar.Some? <==> Drawable(width, complete, running, total))
            && (bar.Some? ==> |bar.value| == width
                              && (running > 0 ==> '>' in bar.value)
                              && ('=' in bar.value ==> complete > 0)
                              && (' ' in bar.value ==> PendingOf(complete, running, total) > 0))
  {
    NominalIsSensible(width, complete, running, total);
    var pending, nominal := PendingOf(complete, running, total), Nominal(width, complete, running, total);
    var l := Repaired(width, complete, running, pending, nominal);
    if nominal.complete < 0 {
      NominalBounds(width, pending, total);
      NegativeStays(width, complete, running, pending, nominal);
    } else if nominal.pending < 0 && nominal.Sum() == width {
      assert l == nominal;
    } else {
      RepairsAddUp(width, complete, running, pending, nominal);
      DrawnBar(l.complete, l.running, l.pending);
    }
  }

  /** The least number of columns that hold the part's share of the width, but never more than the width. */
  ghost predicate Share(columns: int, width: nat, part: nat, total: nat) {
    && 0 <= columns <= width
    && (columns < width ==> part * width <= columns * total)
    && (columns > 0 ==> (columns - 1) * total < part * width)
  }

  lemma ShareOnce(c: int, d: int, width: nat, part: nat, total: nat)
    requires Share(c, width, part, total) && Share(d, width, part, total)
    ensures c == d
  {
    if c < d {
      SmallerProduct(c, d - 1, total);
    } else if d < c {
      SmallerProduct(d, c - 1, total);
    }
  }

  lemma RoundedUp(x: nat, d: nat, q: nat)
    requires d > 0 && q == (x + d - 1) / d
    ensures x <= q * d && (q > 0 ==> (q - 1) * d < x)
  {
    var r := (x + d - 1) % d;
    assert x + d - 1 == q * d + r;
    assert (q - 1) * d == q * d - d;
  }

  lemma CappedIsShare(width: nat, part: nat, total: nat, q: nat)
    requires total > 0 && part * width >= 0 && q == (part * width + total - 1) / total
    ensures Share(Min(width, q), width, part, total)
  {
    RoundedUp(part * width, total, q);
    if width < q {
      if width > 0 { SmallerProduct(width - 1, q - 1, total); }
    }
  }

  lemma NominalIsRoundedUp(width: nat, part: nat, total: nat)
    requires Counted(width, part, 0, total) && part * width + total <= INT_MAX
    ensures part * width >= 0 && NominalLength(width, part, total) == Min(width, (part * width + total - 1) / total)
  {
    SmallerProduct(0, part, width);
  }

  /** Rounded up, a share is everything once the part is the whole. */
  lemma ShareFits(width: nat, part: nat, total: nat)
    requires Counted(width, part, 0, total) && part * width + total <= INT_MAX
    ensures Share(NominalLength(width, part, total), width, part, total)
    ensures part >= total ==> NominalLength(width, part, total) == width
  {
    NominalIsRoundedUp(width, part, total);
    CappedIsShare(width, part, total, (part * width + total - 1) / total);
    if part >= total {
      SmallerProduct(total, part, width);
      QuotientBounds(part * width + total - 1, total, width);
    }
  }

  /** Without overflow the final check fires exactly when something runs and the bar has no width; a running column appears
      exactly when something runs, and a blank one only if something is pending. */
  lemma BarWithoutOverflow(width: nat, complete: nat, running: nat, total: nat)
    requires Counted(width, complete, running, total) && Fits(width, complete, running, total)
    ensures var bar := FormatProgressBar(width, complete, running, total);
            && (bar.None? <==> width == 0 && running > 0)
            && (bar.Some? ==> ('>' in bar.value <==> running > 0) && (' ' in bar.value ==> complete + running < total))
  {
    var pending, nominal := PendingOf(complete, running, total), Nominal(width, complete, running, total);
    assert pending == Max(0, total - complete - running);
    ShareFits(width, complete, total);
    ShareFits(width, pending, total);
    BarIsDrawn(width, complete, running, total);
    NominalIsSensible(width, complete, running, total);
    RepairsAddUp(width, complete, running, pending, nominal);
    var l := Repaired(width, complete, running, pending, nominal);
    DrawnBar(l.complete, l.running, l.pending);
  }

  lemma NominalIs(width: nat, complete: nat, running: nat, total: nat, c: nat, r: nat)
    requires Counted(width, complete, running, total) && Fits(width, complete, running, total)
    requires Share(c, width, complete, total) && Share(r, width, running, total)
    ensures var nominal := Nominal(width, complete, running, total);
            && nominal.complete == c && nominal.running == (if running > 0 then Max(r, 1) else r) && nominal.pending >= 0
            && PendingOf(complete, running, total) == Max(0, total - complete - running)
  {
    ShareFits(width, complete, total);
    ShareFits(width, running, total);
    ShareFits(width, PendingOf(complete, running, total), total);
    ShareOnce(c, NominalLength(width, complete, total), width, complete, total);
    ShareOnce(r, NominalLength(width, running, total), width, running, total);
  }

  /** The bar that is drawn if no product overflows, for the shares `c` of complete and `r` of running parts: complete
      columns, then running ones, then blanks, in settled numbers. */
  lemma BarShows(width: nat, complete: nat, running: nat, total: nat, c: nat, r: nat)
    requires Counted(width, complete, running, total) && Fits(width, complete, running, total) && (width > 0 || running == 0)
    requires Share(c, width, complete, total) && Share(r, width, running, total)
    ensures var l := Settled(width, running, total - complete - running, c, if running > 0 then Max(r, 1) else r);
            && l.complete >= 0 && l.running >= 0 && l.pending >= 0
            && FormatProgressBar(width, complete, running, total)
               == Some(Repeat('=', l.complete) + Repeat('>', l.running) + Repeat(' ', l.pending))
  {
    var pending, nominal := PendingOf(complete, running, total), Nominal(width, complete, running, total);
    NominalIs(width, complete, running, total, c, r);
    NominalIsSensible(width, complete, running, total);
    RepairsAddUp(width, complete, running, pending, nominal);
    RepairsSettle(width, complete, running, pending, nominal);
  }

  /** A product that overflows: forty million parts with thirty million complete cannot be drawn in a hundred columns. */
  lemma OverflowFails()
    ensures FormatProgressBar(100, 30_000_000, 0, 40_000_000).None?
  {
    OverflowingShare();
    BarIsDrawn(100, 30_000_000, 0, 40_000_000);
  }

  lemma OverflowingShare()
    ensures Nominal(100, 30_000_000, 0, 40_000_000).complete == -31
  {
    WrapIs(-1_294_967_296, 3_000_000_000);
    DivUnique(1_254_967_297, 40_000_000, 31, 14_967_297);
    assert Ceil(-1_294_967_296, 40_000_000) == -31;
  }

  lemma DrawnBar(complete: nat, running: nat, pending: nat)
    ensures var bar := Repeat('=', complete) + Repeat('>', running) + Repeat(' ', pending);
            && |bar| == complete + running + pending
            && ('=' in bar <==> complete > 0) && ('>' in bar <==> running > 0) && (' ' in bar <==> pending > 0)
  {
    var bar := Repeat('=', complete) + Repeat('>', running) + Repeat(' ', pending);
    assert complete > 0 ==> bar[0] == '=';
    assert running > 0 ==> bar[complete] == '>';
    assert pending > 0 ==> bar[complete + running] == ' ';
  }

  // ----- The bar without a known total

  const MARKER_WIDTH := 3

  /** Where the marker starts. */
  function Lower(width: int, tick: int): int
    requires width != MARKER_WIDTH
  {
    var range := width - MARKER_WIDTH;
    var lower := Rem(tick, range);
    if Rem(Div(tick, range), 2) == 1 then range - lower else lower
  }

  /** None where the division or a negative length throws. */
  function FormatIndeterminate(width: int, tick: int): Option<string> {
    if width == MARKER_WIDTH then None
    else
      var lower := Lower(width, tick);
      if lower < 0 || width - (lower + MARKER_WIDTH) < 0 then None
      else Some(Repeat(' ', lower) + "<" + Repeat('=', MARKER_WIDTH - 2) + ">" + Repeat(' ', width - (lower + MARKER_WIDTH)))
  }

  /** The bar is drawn, and fills its width, exactly when it is wider than the marker and the tick is not negative or
      falls on a turning point. */
  lemma IndeterminateIsDrawn(width: nat, tick: int)
    ensures FormatIndeterminate(width, tick).Some? <==>
              width > MARKER_WIDTH && (tick >= 0 || Rem(tick, width - MARKER_WIDTH) == 0)
    ensures FormatIndeterminate(width, tick).Some? ==> |FormatIndeterminate(width, tick).value| == width
  {
  }

  /** Back and forth between 0 and `range`, one step at a time. */
  function Wave(tick: nat, range: nat): nat
    requires range > 0
  {
    var phase := tick % (2 * range);
    if phase <= range then phase else 2 * range - phase
  }

  lemma TwoTurns(half: nat, range: nat)
    ensures (2 * half) * range == half * (2 * range) && (2 * half + 1) * range == half * (2 * range) + range
  {
  }

  lemma WaveIs(tick: nat, range: nat)
    requires range > 0
    ensures Wave(tick, range) == if tick / range % 2 == 1 then range - tick % range else tick % range
  {
    var q, r := tick / range, tick % range;
    var half := q / 2;
    assert tick == q * range + r;
    TwoTurns(half, range);
    if q % 2 == 1 {
      assert q == 2 * half + 1;
      DivUnique(tick, 2 * range, half, range + r);
    } else {
      assert q == 2 * half;
      DivUnique(tick, 2 * range, half, r);
    }
  }

  /** The marker is drawn where the wave is, between blanks that fill the width. */
  lemma MarkerIsDrawn(width: nat, tick: nat)
    requires width > MARKER_WIDTH
    ensures var lower := Wave(tick, width - MARKER_WIDTH);
            && lower + MARKER_WIDTH <= width
            && FormatIndeterminate(width, tick)
               == Some(Repeat(' ', lower) + "<=>" + Repeat(' ', width - MARKER_WIDTH - lower))
  {
    var range: nat := width - MARKER_WIDTH;
    WaveIs(tick, range);
    LowerOf(width, tick);
    var lower: nat := Wave(tick, range);
    assert "<" + Repeat('=', MARKER_WIDTH - 2) + ">" == "<=>";
    assert Repeat(' ', lower) + "<" + Repeat('=', MARKER_WIDTH - 2) + ">" == Repeat(' ', lower) + "<=>";
  }

  lemma NextTick(tick: nat, range: nat)
    requires range > 0
    ensures if tick % range + 1 < range then (tick + 1) / range == tick / range && (tick + 1) % range == tick % range + 1
            else (tick + 1) / range == tick / range + 1 && (tick + 1) % range == 0
  {
    var q, r := tick / range, tick % range;
    assert tick == q * range + r;
    if r + 1 < range {
      DivUnique(tick + 1, range, q, r + 1);
    } else {
      assert (q + 1) * range == q * range + range;
      DivUnique(tick + 1, range, q + 1, 0);
    }
  }

  /** From tick to tick the marker moves by exactly one column, also where it turns. */
  lemma MovesOneColumn(width: nat, tick: nat)
    requires width > MARKER_WIDTH
    ensures var step := Lower(width, tick + 1) - Lower(width, tick); step == 1 || step == -1
  {
    var range := width - MARKER_WIDTH;
    NextTick(tick, range);
    LowerOf(width, tick);
    LowerOf(width, tick + 1);
  }

  lemma LowerOf(width: nat, tick: nat)
    requires width > MARKER_WIDTH
    ensures var range := width - MARKER_WIDTH;
            Lower(width, tick) == if tick / range % 2 == 1 then range - tick % range else tick % range
  {
    var range: nat := width - MARKER_WIDTH;
    QuotientBounds(tick, range, 0);
    var turns: nat := tick / range;
    assert Div(tick, range) == turns && Rem(turns, 2) == turns % 2;
  }
}
