/** Safety, delivery and termination of every run of the statement client. */
module StatementClientTheorems {
  import opened Wrappers
  import opened OutputHandler
  import opened Sequences
  import opened StatementClient

  /** The rows of the first `n` pages. */
  function RowsUpTo(pages: seq<Option<seq<Row>>>, n: nat): seq<Row>
    requires n <= |pages|
  {
    if n == 0 then [] else RowsUpTo(pages, n - 1) + if pages[n - 1].Some? then pages[n - 1].value else []
  }

  function AllRows(cfg: Config): seq<Row> {
    RowsUpTo(cfg.pages, |cfg.pages|)
  }

  function HandedPages(s: Sys): nat {
    s.current + if s.handed then 1 else 0
  }

  /** Fetching the next page: the retry loop of advance(). */
  predicate Fetching(pc: Pc) {
    pc.AbortCheck? || pc.TimeoutCheck? || pc.Sleep? || pc.Send? || pc.Receive?
  }

  // ----- The invariants of all runs

  /** Which pages have been dealt with at which step. */
  ghost predicate PageInv(cfg: Config, s: Sys) {
    && s.current < |cfg.pages|
    && (Fetching(s.pc) ==> s.handed && HasNext(cfg, s))
    && (s.pc.AdvanceCheck? || s.pc.ReadUri? || s.pc.FinishCas? ==> s.handed)
    && (s.pc.FinishCas? ==> !HasNext(cfg, s))
    && (s.pc.InterruptCas? || s.pc.InterruptDelete? ==> s.handed)
    && (s.state.Running? && (s.pc.LoopCheck? || s.pc.ReadData? || s.pc.RenderCheck?) ==> !s.handed)
    && (s.state.Finished? ==> s.handed && !HasNext(cfg, s))
    && (s.pc.RenderCheck? ==> s.phase.Initial?)
    && (s.pc.CloseHandler? ==> s.phase.Rows?)
  }

  /** Exactly the rows of the pages dealt with have entered the handler, in order and each once. */
  ghost predicate RowInv(cfg: Config, s: Sys)
    requires s.current < |cfg.pages|
  {
    && GoodBatches(s.out)
    && Entered(s.out) == RowsUpTo(cfg.pages, HandedPages(s))
    && (s.phase.Initial? ==> s.out == Output([], []))
    && (s.pc.Done? ==> s.out.buffer == [])
  }

  /** One abort at most, so one DELETE at most, and at most one fetch begun after it. */
  ghost predicate AbortInv(s: Sys) {
    && s.closing + s.deletes + (if s.pc.InterruptDelete? then 1 else 0) <= (if s.state.ClientAborted? then 1 else 0)
    && s.fetchesAfterAbort <= (if s.state.ClientAborted? then 1 else 0)
    && (s.fetchesAfterAbort == 1 ==> !(s.pc.TimeoutCheck? || s.pc.Sleep? || s.pc.Send?))
  }

  /** The back-off slept before attempt `n` is sent: 100 ms, 200 ms, ... after each earlier one. */
  function SleptBefore(n: nat): int {
    50 * (n - 1) * n * NANOS_PER_MILLI
  }

  lemma NextSleep(n: nat)
    ensures SleptBefore(n + 1) == SleptBefore(n) + BackOff(n)
  {
  }

  /** The time since the first attempt covers all the back-off so far, and no sleep began after the timeout. */
  ghost predicate RetryInv(cfg: Config, s: Sys) {
    && s.start <= s.clock
    && (s.pc.AbortCheck? || s.pc.TimeoutCheck? || s.pc.Sleep? || s.pc.Receive? ==> s.clock - s.start >= SleptBefore(s.attempts))
    && (s.pc.Send? ==> s.clock - s.start >= SleptBefore(s.attempts + 1))
    && (s.pc.Sleep? || s.pc.Send? ==> SleptBefore(s.attempts) <= cfg.requestTimeoutNanos)
    && (s.pc.AbortCheck? || s.pc.TimeoutCheck? || s.pc.Receive? ==>
          s.attempts == 0 || SleptBefore(s.attempts - 1) <= cfg.requestTimeoutNanos)
  }

  /** An abort while there is a next page has its DELETE sent or still to come. */
  ghost predicate DeleteInv(cfg: Config, s: Sys) {
    s.state.ClientAborted? && HasNext(cfg, s) ==>
      s.closing + s.deletes + (if s.pc.InterruptDelete? then 1 else 0) == 1
  }

  /** The draining thread does not leave a running client. */
  ghost predicate EndInv(s: Sys) {
    s.pc.CloseHandler? || s.pc.Done? ==> !s.state.Running?
  }

  ghost predicate Inv(cfg: Config, s: Sys) {
    PageInv(cfg, s) && RowInv(cfg, s) && AbortInv(s) && RetryInv(cfg, s) && DeleteInv(cfg, s) && EndInv(s)
  }

  lemma PageStep(cfg: Config, s: Sys, a: Action)
    requires PageInv(cfg, s)
    ensures PageInv(cfg, Apply(cfg, s, a))
  {
  }

  /** Only reading a page and closing the handler touch the output or the pages dealt with. */
  lemma QuietStep(cfg: Config, s: Sys, a: Action)
    requires PageInv(cfg, s) && !(a.Drain? && (s.pc.ReadData? || s.pc.CloseHandler?))
    ensures var t := Apply(cfg, s, a);
            && t.out == s.out && HandedPages(t) == HandedPages(s) && (s.phase.Rows? ==> t.phase.Rows?)
            && (t.pc.Done? ==> s.pc.Done? || s.phase.Initial?)
  {
  }

  lemma ReadStep(cfg: Config, s: Sys, c: Choice)
    requires PageInv(cfg, s) && RowInv(cfg, s) && s.pc.ReadData?
    ensures RowInv(cfg, DrainStep(cfg, s, c))
  {
    if s.phase.Rows? && s.state.Running? {
      PageEnters(s.out, cfg.pages[s.current], c.tooOld);
    }
  }

  lemma RowStep(cfg: Config, s: Sys, a: Action)
    requires PageInv(cfg, s) && RowInv(cfg, s)
    ensures RowInv(cfg, Apply(cfg, s, a))
  {
    if a.Drain? && s.pc.ReadData? {
      ReadStep(cfg, s, a.choice);
    } else if a.Drain? && s.pc.CloseHandler? {
      FlushKeepsRows(s.out);
    } else {
      QuietStep(cfg, s, a);
    }
  }

  lemma AbortStep(cfg: Config, s: Sys, a: Action)
    requires PageInv(cfg, s) && AbortInv(s)
    ensures AbortInv(Apply(cfg, s, a))
  {
  }

  lemma RetryStep(cfg: Config, s: Sys, a: Action)
    requires PageInv(cfg, s) && RetryInv(cfg, s)
    ensures RetryInv(cfg, Apply(cfg, s, a))
  {
    NextSleep(s.attempts);
  }

  lemma DeleteStep(cfg: Config, s: Sys, a: Action)
    requires PageInv(cfg, s) && AbortInv(s) && DeleteInv(cfg, s)
    ensures DeleteInv(cfg, Apply(cfg, s, a))
  {
  }

  lemma EndStep(cfg: Config, s: Sys, a: Action)
    requires s.current < |cfg.pages| && EndInv(s)
    ensures EndInv(Apply(cfg, s, a))
  {
  }

  // ----- Whole runs

  lemma StepKeepsInv(cfg: Config, s: Sys, a: Action)
    requires Inv(cfg, s)
    ensures Inv(cfg, Apply(cfg, s, a))
  {
    PageStep(cfg, s, a);
    RowStep(cfg, s, a);
    AbortStep(cfg, s, a);
    RetryStep(cfg, s, a);
    DeleteStep(cfg, s, a);
    EndStep(cfg, s, a);
  }

  lemma {:induction false} RunKeepsInv(cfg: Config, s: Sys, actions: seq<Action>)
    requires Inv(cfg, s)
    ensures Inv(cfg, Run(cfg, s, actions))
    decreases |actions|
  {
    if actions == [] {
    } else {
      StepKeepsInv(cfg, s, actions[0]);
      RunKeepsInv(cfg, Apply(cfg, s, actions[0]), actions[1..]);
    }
  }

  lemma {:induction false} RowsPrefix(pages: seq<Option<seq<Row>>>, m: nat, n: nat)
    requires m <= n <= |pages|
    ensures RowsUpTo(pages, m) <= RowsUpTo(pages, n)
    decreases n - m
  {
    if m < n {
      RowsPrefix(pages, m, n - 1);
    }
  }

  /** Whatever fails, is retried, aborted or interrupted, and whenever the buffer is flushed: what has been printed
      is always a prefix of the query's rows, in non-empty batches of at most 10,000; the thread ends only when the
      client has left RUNNING, with an empty buffer; and a run that ends finished has printed all rows. */
  lemma Delivery(cfg: Config, actions: seq<Action>)
    requires |cfg.pages| > 0
    ensures var t := Run(cfg, InitialSys(), actions);
            && Concat(t.out.printed) <= AllRows(cfg)
            && (t.pc.Done? ==> !t.state.Running? && t.out.buffer == [])
            && (t.pc.Done? && t.state.Finished? ==> Concat(t.out.printed) == AllRows(cfg))
            && (forall i :: 0 <= i < |t.out.printed| ==> 0 < |t.out.printed[i]| <= 10_000)
  {
    RunKeepsInv(cfg, InitialSys(), actions);
    var t := Run(cfg, InitialSys(), actions);
    RowsPrefix(cfg.pages, HandedPages(t), |cfg.pages|);
    assert Concat(t.out.printed) <= Entered(t.out);
  }

  /** Once the client has left RUNNING, no later step changes its state. */
  lemma {:induction false} LeavesRunningOnce(cfg: Config, s: Sys, actions: seq<Action>)
    requires s.current < |cfg.pages| && !s.state.Running?
    ensures Run(cfg, s, actions).state == s.state
    decreases |actions|
  {
    if actions == [] {
    } else {
      LeavesRunningOnce(cfg, Apply(cfg, s, actions[0]), actions[1..]);
    }
  }

  /** Any close() leaves the client not running, for good. */
  lemma {:induction false} CloseEnds(cfg: Config, s: Sys, actions: seq<Action>)
    requires s.current < |cfg.pages| && CloserCas in actions
    ensures !Run(cfg, s, actions).state.Running?
    decreases |actions|
  {
    var next := Apply(cfg, s, actions[0]);
    if actions[0].CloserCas? {
      LeavesRunningOnce(cfg, next, actions[1..]);
    } else {
      CloseEnds(cfg, next, actions[1..]);
    }
  }

  /** All closers together send at most one DELETE, and only when the client was aborted; once an abort is through and
      there is a next page, it has been sent. After an abort at most one more fetch begins, and a finished client holds
      the last page. */
  lemma AbortIsSafe(cfg: Config, actions: seq<Action>)
    requires |cfg.pages| > 0
    ensures var t := Run(cfg, InitialSys(), actions);
            && t.deletes <= 1 && t.fetchesAfterAbort <= 1
            && (t.deletes == 1 ==> t.state.ClientAborted?)
            && (t.state.ClientAborted? && t.closing == 0 && !t.pc.InterruptDelete? && HasNext(cfg, t) ==> t.deletes == 1)
            && (t.state.Finished? ==> !HasNext(cfg, t))
  {
    RunKeepsInv(cfg, InitialSys(), actions);
  }

  /** Attempt `n` of a fetch is made only while the back-off before attempt `n - 1` still fits the timeout. */
  lemma AttemptsAreBounded(cfg: Config, actions: seq<Action>)
    requires |cfg.pages| > 0
    ensures var t := Run(cfg, InitialSys(), actions);
            t.pc.Receive? && t.attempts >= 2 ==>
              50 * (t.attempts - 2) * (t.attempts - 1) * NANOS_PER_MILLI <= cfg.requestTimeoutNanos
  {
    RunKeepsInv(cfg, InitialSys(), actions);
  }

  // ----- Termination

  /** More attempts than any one fetch can make. */
  function AttemptLimit(cfg: Config): nat {
    cfg.requestTimeoutNanos + 3
  }

  lemma AttemptsBelowLimit(cfg: Config, s: Sys)
    requires RetryInv(cfg, s) && Fetching(s.pc)
    ensures s.attempts < AttemptLimit(cfg)
  {
    var n: int := if s.pc.Sleep? || s.pc.Send? then s.attempts else s.attempts - 1;
    if n >= 2 {
      assert SleptBefore(n) == 50 * NANOS_PER_MILLI * ((n - 1) * n);
      assert (n - 1) * n >= n;
    }
  }

  function PageBudget(cfg: Config): nat {
    5 * AttemptLimit(cfg) + 20
  }

  /** How many more steps the draining thread can take before it needs a new page. */
  function StepsLeft(cfg: Config, s: Sys): int {
    var whole := 5 * AttemptLimit(cfg);
    var tries := 5 * (AttemptLimit(cfg) - s.attempts);
    var running := s.state.Running?;
    match s.pc
    case LoopCheck => if running then whole + (if s.phase.Initial? then 16 else 13) else if s.phase.Initial? then 4 else 2
    case ReadData => if running then whole + (if s.phase.Initial? then 15 else 12) else 2
    case RenderCheck => if running then whole + 14 else 3
    case AdvanceCheck => if running then whole + 11 else 5
    case ReadUri => if running then whole + 10 else 2
    case FinishCas => 9
    case AbortCheck => tries + 9
    case TimeoutCheck => tries + 8
    case Sleep => tries + 7
    case Send => tries + 6
    case Receive => tries + 10
    case InterruptCas => 5
    case InterruptDelete => 4
    case ErrorCas => 3
    case CloseHandler => 1
    case Done => 0
  }

  function Rank(cfg: Config, s: Sys): int {
    (|cfg.pages| - 1 - s.current) * PageBudget(cfg) + StepsLeft(cfg, s)
  }

  lemma StepsLeftBounds(cfg: Config, s: Sys)
    requires RetryInv(cfg, s)
    ensures 0 <= StepsLeft(cfg, s) < PageBudget(cfg) && (StepsLeft(cfg, s) == 0 ==> s.pc.Done?)
  {
    if Fetching(s.pc) {
      AttemptsBelowLimit(cfg, s);
    }
  }

  /** Every step of the draining thread uses up a step or brings in a page. */
  lemma StepsLeftDrops(cfg: Config, s: Sys, c: Choice)
    requires PageInv(cfg, s) && !s.pc.Done? && (s.pc.Receive? ==> c.response != Accepted)
    requires Fetching(s.pc) ==> s.attempts < AttemptLimit(cfg)
    ensures DrainStep(cfg, s, c).current == s.current
    ensures StepsLeft(cfg, DrainStep(cfg, s, c)) < StepsLeft(cfg, s)
  {
  }

  lemma RankDrops(cfg: Config, s: Sys, c: Choice)
    requires Inv(cfg, s) && !s.pc.Done?
    ensures Rank(cfg, DrainStep(cfg, s, c)) < Rank(cfg, s)
  {
    if s.pc.Receive? && c.response.Accepted? {
      PageBringsBudget(cfg, s, c);
    } else {
      if Fetching(s.pc) {
        AttemptsBelowLimit(cfg, s);
      }
      StepsLeftDrops(cfg, s, c);
    }
  }

  lemma PageBringsBudget(cfg: Config, s: Sys, c: Choice)
    requires Inv(cfg, s) && s.pc.Receive? && c.response.Accepted?
    ensures Rank(cfg, DrainStep(cfg, s, c)) < Rank(cfg, s)
  {
    var t := DrainStep(cfg, s, c);
    AttemptsBelowLimit(cfg, s);
    assert StepsLeft(cfg, t) < PageBudget(cfg) <= StepsLeft(cfg, s) + PageBudget(cfg);
    var n, b := |cfg.pages| - 1 - s.current, PageBudget(cfg);
    assert n * b == (n - 1) * b + b;
  }

  lemma RankIsPositive(cfg: Config, s: Sys)
    requires Inv(cfg, s)
    ensures Rank(cfg, s) >= 0 && (Rank(cfg, s) == 0 ==> s.pc.Done?)
  {
    StepsLeftBounds(cfg, s);
    NonNegativeProduct(|cfg.pages| - 1 - s.current, PageBudget(cfg));
  }

  lemma NonNegativeProduct(m: nat, n: nat)
    ensures m * n >= 0
  {
  }

  /** Nothing that other threads or the clock do gives the draining thread more to do. */
  lemma OthersKeepRank(cfg: Config, s: Sys, a: Action)
    requires s.current < |cfg.pages| && !a.Drain?
    ensures Rank(cfg, Apply(cfg, s, a)) <= Rank(cfg, s) && Apply(cfg, s, a).pc == s.pc
  {
  }

  /** The steps that the draining thread takes in a run. */
  function Drains(actions: seq<Action>): nat {
    if actions == [] then 0 else (if actions[0].Drain? then 1 else 0) + Drains(actions[1..])
  }

  /** No failures, closers or clock can keep the draining thread busy for ever: given as many steps as its rank, it is
      done. */
  lemma {:induction false} DrainTerminates(cfg: Config, s: Sys, actions: seq<Action>)
    requires Inv(cfg, s) && (s.pc.Done? || Drains(actions) >= Rank(cfg, s))
    ensures Run(cfg, s, actions).pc.Done?
    decreases |actions|
  {
    if actions == [] {
      RankIsPositive(cfg, s);
    } else {
      var a := actions[0];
      StepKeepsInv(cfg, s, a);
      if !a.Drain? {
        OthersKeepRank(cfg, s, a);
      } else if !s.pc.Done? {
        RankDrops(cfg, s, a.choice);
      }
      DrainTerminates(cfg, Apply(cfg, s, a), actions[1..]);
    }
  }

  // ----- Runs without trouble

  /** What a step must not meet: a closer, an interrupted sleep, a refusal, a failed query or a timeout. Fetches may be
      answered with unavailable or fail, as often as the timeout allows. */
  predicate CalmStep(cfg: Config, s: Sys, a: Action) {
    && !a.CloserCas?
    && (a.Drain? && s.pc.Sleep? ==> !a.choice.interrupted)
    && (a.Drain? && s.pc.Receive? ==> !a.choice.response.Refused?)
    && (a.Drain? && s.pc.RenderCheck? ==> !a.choice.queryFailed)
    && (a.Drain? && s.pc.TimeoutCheck? && s.attempts > 0 ==> s.clock - s.start <= cfg.requestTimeoutNanos)
  }

  predicate Calm(cfg: Config, s: Sys, actions: seq<Action>)
    requires s.current < |cfg.pages|
    decreases |actions|
  {
    actions == [] || (CalmStep(cfg, s, actions[0]) && Calm(cfg, Apply(cfg, s, actions[0]), actions[1..]))
  }

  /** The client runs until it is finished, and the draining thread ends after that. */
  ghost predicate CalmInv(s: Sys) {
    && (s.state.Running? || s.state.Finished?)
    && !(s.pc.ErrorCas? || s.pc.InterruptCas? || s.pc.InterruptDelete?)
    && (s.pc.ReadData? || s.pc.AdvanceCheck? || s.pc.ReadUri? || s.pc.FinishCas? || Fetching(s.pc) ==> s.state.Running?)
    && (s.pc.CloseHandler? || s.pc.Done? ==> s.state.Finished? && s.phase.Rows?)
  }

  lemma CalmKeeps(cfg: Config, s: Sys, a: Action)
    requires PageInv(cfg, s) && CalmInv(s) && CalmStep(cfg, s, a)
    ensures CalmInv(Apply(cfg, s, a))
  {
  }

  lemma {:induction false} CalmRun(cfg: Config, s: Sys, actions: seq<Action>)
    requires Inv(cfg, s) && CalmInv(s) && Calm(cfg, s, actions)
    ensures CalmInv(Run(cfg, s, actions))
    decreases |actions|
  {
    if actions == [] {
    } else {
      CalmKeeps(cfg, s, actions[0]);
      StepKeepsInv(cfg, s, actions[0]);
      CalmRun(cfg, Apply(cfg, s, actions[0]), actions[1..]);
    }
  }

  /** Without trouble every row is printed: after enough steps the thread is done, the client is finished, the result was
      rendered even if it is empty, and the printer has received all rows of all pages. */
  lemma CompleteDelivery(cfg: Config, actions: seq<Action>)
    requires |cfg.pages| > 0 && Calm(cfg, InitialSys(), actions) && Drains(actions) >= |cfg.pages| * PageBudget(cfg)
    ensures var t := Run(cfg, InitialSys(), actions);
            t.pc.Done? && t.state.Finished? && t.phase.Rows? && Concat(t.out.printed) == AllRows(cfg)
  {
    var n, b := |cfg.pages|, PageBudget(cfg);
    assert n * b == (n - 1) * b + b;
    CalmRun(cfg, InitialSys(), actions);
    DrainTerminates(cfg, InitialSys(), actions);
    Delivery(cfg, actions);
  }

  /** Nothing but time and steps whose fetches are accepted. */
  predicate Smooth(a: Action) {
    match a
    case Drain(c) => c.response.Accepted? && !c.interrupted && !c.queryFailed
    case Tick(_) => true
    case _ => false
  }

  /** Such runs are calm whatever the timeout. */
  lemma {:induction false} SmoothIsCalm(cfg: Config, s: Sys, actions: seq<Action>)
    requires PageInv(cfg, s) && (s.pc.AbortCheck? || s.pc.TimeoutCheck? ==> s.attempts == 0)
    requires forall i :: 0 <= i < |actions| ==> Smooth(actions[i])
    ensures Calm(cfg, s, actions)
    decreases |actions|
  {
    if actions == [] {
    } else {
      assert Smooth(actions[0]);
      PageStep(cfg, s, actions[0]);
      SmoothIsCalm(cfg, Apply(cfg, s, actions[0]), actions[1..]);
    }
  }

  /** A query that failed without any data is not rendered. */
  lemma {:induction false} FailureIsNotRendered(cfg: Config, s: Sys, actions: seq<Action>)
    requires s.current < |cfg.pages| && s.phase.Initial? && (s.pc.RenderCheck? ==> !s.state.Running?)
    requires forall i :: 0 <= i < |cfg.pages| ==> cfg.pages[i].None?
    requires forall i :: 0 <= i < |actions| && actions[i].Drain? ==> actions[i].choice.queryFailed
    ensures Run(cfg, s, actions).phase.Initial?
    decreases |actions|
  {
    if actions == [] {
    } else {
      assert actions[0].Drain? ==> actions[0].choice.queryFailed;
      FailureIsNotRendered(cfg, Apply(cfg, s, actions[0]), actions[1..]);
    }
  }

  // ----- Blame

  /** Without a closer and an interrupt the client is never aborted. */
  lemma {:induction false} AbortsAreAskedFor(cfg: Config, s: Sys, actions: seq<Action>)
    requires s.current < |cfg.pages| && !s.state.ClientAborted? && !s.pc.InterruptCas? && !s.pc.InterruptDelete?
    requires forall i :: 0 <= i < |actions| ==> !actions[i].CloserCas? && (actions[i].Drain? ==> !actions[i].choice.interrupted)
    ensures !Run(cfg, s, actions).state.ClientAborted?
    decreases |actions|
  {
    if actions == [] {
    } else {
      assert !actions[0].CloserCas?;
      AbortsAreAskedFor(cfg, Apply(cfg, s, actions[0]), actions[1..]);
    }
  }

  /** A fetch that was refused, timed out or interrupted. */
  predicate GivenUp(s: Sys) {
    (s.pc.ErrorCas? || s.pc.InterruptCas? || s.pc.InterruptDelete?) && !s.state.Finished?
  }

  /** After that no run finishes and no page comes in. */
  lemma {:induction false} GivenUpNeverFinishes(cfg: Config, s: Sys, actions: seq<Action>)
    requires s.current < |cfg.pages|
    requires GivenUp(s) || ((s.state.ClientError? || s.state.ClientAborted?) && !Fetching(s.pc))
    ensures !Run(cfg, s, actions).state.Finished? && Run(cfg, s, actions).current == s.current
    decreases |actions|
  {
    if actions == [] {
    } else {
      GivenUpNeverFinishes(cfg, Apply(cfg, s, actions[0]), actions[1..]);
    }
  }

  /** A refusal, a timeout and an interrupted sleep give the fetch up; so a run that meets one never finishes. */
  lemma RefusalGivesUp(cfg: Config, s: Sys, c: Choice)
    requires PageInv(cfg, s)
    requires || (s.pc.Receive? && c.response.Refused?) || (s.pc.Sleep? && c.interrupted)
             || (s.pc.TimeoutCheck? && s.attempts > 0 && s.clock - s.start > cfg.requestTimeoutNanos)
    ensures GivenUp(DrainStep(cfg, s, c))
  {
  }

  /** An interrupted sleep of a running client closes it: nobody can get in between but another closer. */
  lemma {:induction false} InterruptAborts(cfg: Config, s: Sys, actions: seq<Action>)
    requires s.current < |cfg.pages| && s.pc.InterruptCas? && (s.state.Running? || s.state.ClientAborted?)
    ensures Drains(actions) > 0 ==> Run(cfg, s, actions).state.ClientAborted?
    decreases |actions|
  {
    if actions == [] {
    } else {
      var next := Apply(cfg, s, actions[0]);
      if actions[0].Drain? {
        LeavesRunningOnce(cfg, next, actions[1..]);
      } else {
        InterruptAborts(cfg, next, actions[1..]);
      }
    }
  }

  // ----- The schedule of retries

  predicate Punctual(a: Action) {
    match a
    case Drain(c) => c.oversleep == 0
    case Tick(n) => n == 0
    case _ => true
  }

  /** The time since the first attempt: `now` around an attempt, `next` once its back-off is over. */
  ghost predicate Elapsed(s: Sys, now: int, next: int) {
    && (s.pc.AbortCheck? || s.pc.TimeoutCheck? || s.pc.Sleep? || s.pc.Receive? ==> s.clock - s.start == now)
    && (s.pc.Send? ==> s.clock - s.start == next)
  }

  ghost predicate OnSchedule(s: Sys) {
    Elapsed(s, SleptBefore(s.attempts), SleptBefore(s.attempts + 1))
  }

  /** A fetch begins where a URI is read, and nowhere else. */
  lemma FetchBegins(cfg: Config, s: Sys, c: Choice)
    requires s.current < |cfg.pages| && !Fetching(s.pc)
    ensures var t := DrainStep(cfg, s, c);
            Fetching(t.pc) ==> s.pc.ReadUri? && t.pc.AbortCheck? && t.attempts == 0 && t.clock == t.start
  {
  }

  lemma FetchGoesOn(cfg: Config, s: Sys, c: Choice, now: int, next: int)
    requires s.current < |cfg.pages| && Fetching(s.pc) && Elapsed(s, now, next) && next == now + BackOff(s.attempts)
    requires c.oversleep == 0
    ensures var t := DrainStep(cfg, s, c);
            if s.pc.Send? then t.attempts == s.attempts + 1 && t.pc.Receive? && t.clock - t.start == next
            else t.attempts == s.attempts && Elapsed(t, now, next)
  {
  }

  lemma PunctualStep(cfg: Config, s: Sys, a: Action)
    requires s.current < |cfg.pages| && OnSchedule(s) && Punctual(a)
    ensures OnSchedule(Apply(cfg, s, a))
  {
    NextSleep(s.attempts);
    if a.Drain? {
      if Fetching(s.pc) {
        FetchGoesOn(cfg, s, a.choice, SleptBefore(s.attempts), SleptBefore(s.attempts + 1));
      } else {
        FetchBegins(cfg, s, a.choice);
      }
    }
  }

  /** If only the back-off takes time, attempt `n` goes out exactly when 100, 200, ..., (n - 1) * 100 ms have been slept. */
  lemma {:induction false} RetriesOnSchedule(cfg: Config, s: Sys, actions: seq<Action>)
    requires s.current < |cfg.pages| && OnSchedule(s) && forall i :: 0 <= i < |actions| ==> Punctual(actions[i])
    ensures var t := Run(cfg, s, actions);
            t.pc.Receive? ==> t.clock - t.start == 50 * (t.attempts - 1) * t.attempts * NANOS_PER_MILLI
    ensures OnSchedule(Run(cfg, s, actions))
    decreases |actions|
  {
    if actions == [] {
    } else {
      assert Punctual(actions[0]);
      PunctualStep(cfg, s, actions[0]);
      RetriesOnSchedule(cfg, Apply(cfg, s, actions[0]), actions[1..]);
    }
  }
}
