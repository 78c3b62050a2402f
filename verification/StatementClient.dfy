/**
The statement client and the thread that drains it, as a step machine. One thread advances the client page by
page and hands rows to the output handler; any other threads may close the client at any moment; the server is a
chain of pages; responses, interrupts, the clock and the age of the buffer are free choices of a run.
 */
module StatementClient {
  import opened Wrappers
  import opened OutputHandler

  const NANOS_PER_MILLI := 1_000_000

  /** The pages of a query, linked by their next URIs; the last page has none. */
  datatype Config = Config(pages: seq<Option<seq<Row>>>, requestTimeoutNanos: nat)

  datatype State = Running | ClientError | ClientAborted | Finished

  /** Where the client is being drained from: while waiting for the first data, or for the rows themselves. */
  datatype Phase = Initial | Rows

  /** The next atomic step of the draining thread. */
  datatype Pc =
    | LoopCheck       // isRunning() of the draining loop
    | ReadData        // currentData(), which throws unless running
    | RenderCheck     // whether there is a result to render
    | AdvanceCheck    // isRunning() on entry to advance()
    | ReadUri         // currentStatusInfo(), which throws unless running
    | FinishCas       // RUNNING -> FINISHED
    | AbortCheck      // head of the retry loop
    | TimeoutCheck
    | Sleep
    | Send
    | Receive
    | ErrorCas        // RUNNING -> CLIENT_ERROR, then throw
    | InterruptCas    // close() by the interrupted thread itself
    | InterruptDelete
    | CloseHandler    // the handler's close(), on every way out of the row loop
    | Done

  datatype Response = Accepted | Unavailable | Refused | Failed

  /** The outside world's say in one step of the draining thread. */
  datatype Choice = Choice(tooOld: bool, response: Response, interrupted: bool, oversleep: nat, queryFailed: bool)

  datatype Action =
    | Drain(choice: Choice)  // the draining thread takes its next step
    | CloserCas              // some thread calls close()
    | CloserDelete           // a thread whose close() won goes on to delete the query
    | Tick(nanos: nat)       // time passes

  datatype Sys = Sys(
    state: State,
    current: nat,            // the page last received
    phase: Phase,
    pc: Pc,
    handed: bool,            // the current page has been dealt with
    attempts: nat,
    start: nat,
    clock: nat,
    out: Output,
    closing: nat,            // threads between a won close() and its DELETE
    deletes: nat,
    fetchesAfterAbort: nat)

  predicate HasNext(cfg: Config, s: Sys) {
    s.current + 1 < |cfg.pages|
  }

  function InitialSys(): Sys {
    Sys(Running, 0, Initial, LoopCheck, false, 0, 0, 0, Output([], []), 0, 0, 0)
  }

  /** compareAndSet from RUNNING. */
  function Cas(state: State, target: State): State {
    if state.Running? then target else state
  }

  /** Leaving by an exception: the row loop closes its handler on the way out. */
  function Throw(s: Sys): Sys {
    s.(pc := if s.phase.Rows? then CloseHandler else Done)
  }

  /** The back-off before the next attempt. */
  function BackOff(attempts: nat): nat {
    attempts * 100 * NANOS_PER_MILLI
  }

  /** One atomic step of the draining thread. */
  function DrainStep(cfg: Config, s: Sys, c: Choice): Sys
    requires s.current < |cfg.pages|
  {
    match s.pc
    case LoopCheck =>
      if s.state.Running? then s.(pc := ReadData)
      else s.(pc := if s.phase.Initial? then RenderCheck else CloseHandler)
    case ReadData =>
      if !s.state.Running? then Throw(s)
      else if s.phase.Rows? then
        s.(out := ProcessPage(s.out, cfg.pages[s.current], c.tooOld), handed := true, pc := AdvanceCheck)
      else if cfg.pages[s.current].None? then s.(handed := true, pc := AdvanceCheck)
      else s.(pc := RenderCheck)
    case RenderCheck =>
      if s.state.Running? || (s.state.Finished? && !c.queryFailed) then s.(phase := Rows, pc := LoopCheck)
      else s.(pc := Done)
    case AdvanceCheck => s.(pc := if s.state.Running? then ReadUri else LoopCheck)
    case ReadUri =>
      if !s.state.Running? then Throw(s)
      else if HasNext(cfg, s) then s.(pc := AbortCheck, start := s.clock, attempts := 0)
      else s.(pc := FinishCas)
    case FinishCas => s.(state := Cas(s.state, Finished), pc := LoopCheck)
    case AbortCheck => s.(pc := if s.state.ClientAborted? then LoopCheck else TimeoutCheck)
    case TimeoutCheck =>
      if s.attempts > 0 && s.clock - s.start > cfg.requestTimeoutNanos then s.(pc := ErrorCas)
      else s.(pc := if s.attempts > 0 then Sleep else Send)
    case Sleep =>
      if c.interrupted then s.(clock := s.clock + c.oversleep, pc := InterruptCas)
      else s.(clock := s.clock + BackOff(s.attempts) + c.oversleep, pc := Send)
    case Send =>
      s.(attempts := s.attempts + 1, pc := Receive,
         fetchesAfterAbort := s.fetchesAfterAbort + if s.state.ClientAborted? then 1 else 0)
    case Receive =>
      (match c.response
       case Accepted => if HasNext(cfg, s) then s.(current := s.current + 1, handed := false, pc := LoopCheck) else s
       case Refused => s.(pc := ErrorCas)
       case Unavailable => s.(pc := AbortCheck)
       case Failed => s.(pc := AbortCheck))
    case ErrorCas => Throw(s.(state := Cas(s.state, ClientError)))
    case InterruptCas =>
      if s.state.Running? then s.(state := ClientAborted, pc := InterruptDelete) else s.(pc := ErrorCas)
    case InterruptDelete => s.(deletes := s.deletes + (if HasNext(cfg, s) then 1 else 0), pc := ErrorCas)
    case CloseHandler => s.(out := Flush(s.out), pc := Done)
    case Done => s
  }

  function Apply(cfg: Config, s: Sys, a: Action): (t: Sys)
    requires s.current < |cfg.pages|
    ensures t.current < |cfg.pages|
  {
    match a
    case Drain(c) => DrainStep(cfg, s, c)
    case CloserCas => if s.state.Running? then s.(state := ClientAborted, closing := s.closing + 1) else s
    case CloserDelete =>
      if s.closing == 0 then s
      else s.(closing := s.closing - 1, deletes := s.deletes + if HasNext(cfg, s) then 1 else 0)
    case Tick(n) => s.(clock := s.clock + n)
  }

  function Run(cfg: Config, s: Sys, actions: seq<Action>): (t: Sys)
    requires s.current < |cfg.pages|
    ensures t.current < |cfg.pages|
    decreases |actions|
  {
    if actions == [] then s else Run(cfg, Apply(cfg, s, actions[0]), actions[1..])
  }
}
