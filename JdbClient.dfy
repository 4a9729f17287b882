/**
 The bookkeeping of a jdb debugging session: the client registers a
 callback under a fresh token for every command it writes to the jdb
 process, keeps a slot for the one synchronous command being waited on,
 and remembers when the process last showed any activity.

 The process, the clock (`Environment.TickCount`) and the other threads
 that deliver the process's output are not part of the model: every event
 carries the tick at which it happens, every write to the process is
 appended to `sent`, and the blocking wait of `SendCommand` is driven by a
 schedule of what happens while it blocks.
 */
module JdbClient {
  import opened Text

  /** The number of distinct tokens */
  const TokenSpace: int := 0x1_0000_0000

  /** What a token is registered with: the callback of a synchronous
      `SendCommand`, a callback of the caller's, or nothing (null). */
  datatype Handler = SyncResponse | Delegate(id: nat)

  /** `MiResultRecord` is not part of this model; only its presence matters. */
  datatype ResultRecord = ResultRecord(text: string)

  /** The exceptions the client lets escape */
  datatype Error =
    | DuplicateToken   // `Dictionary.Add` of a token already registered
    | Timeout          // `SendCommand` gave up waiting
    | NotImplemented   // `Attach`, `Detach`, `Stop`, `Terminate`

  /** The fields of the client:
      `active` is whether the jdb process exists (`m_jdbClientInstance != null`),
      `token` the next command token, `callbacks` the token table,
      `wait` the slot of the synchronous wait (`None` for null, otherwise
      whether the event is set), `lastTimestamp` the tick of the last activity,
      `sent` every command written to the process. */
  datatype Session = Session(
    active: bool,
    token: uint32,
    callbacks: map<uint32, Option<Handler>>,
    wait: Option<bool>,
    lastTimestamp: int32,
    sent: seq<string>)

  /** The session after a call, and the exception the call threw, if any */
  datatype Outcome = Outcome(session: Session, thrown: Option<Error>)

  /** The constructor: no process, token 1 (0 stands for an invalid token) */
  function Init(): Session {
    Session(false, 1, map[], None, 0, [])
  }

  /** `++m_sessionCommandToken` on a `uint`: wraps from 2^32 - 1 to 0 */
  function NextToken(t: uint32): (r: uint32)
    ensures r as int == (t as int + 1) % TokenSpace
  {
    ((t as int + 1) % TokenSpace) as uint32
  }

  // ---------------------------------------------------------------------------
  // The transitions
  // ---------------------------------------------------------------------------

  /** `SendAsyncCommand`: without a process nothing happens; otherwise the
      handler is added under the current token (throwing if the token is
      taken), the counter moves on and the command is written unchanged. */
  function AfterSendAsync(s: Session, command: string, handler: Option<Handler>): Outcome {
    if !s.active then Outcome(s, None)
    else if s.token in s.callbacks then Outcome(s, Some(DuplicateToken))
    else Outcome(s.(callbacks := s.callbacks[s.token := handler], token := NextToken(s.token), sent := s.sent + [command]), None)
  }

  /** `Continue`: the command `cont`, without a handler */
  function AfterContinue(s: Session): Outcome {
    AfterSendAsync(s, "cont", None)
  }

  /** `Start`: the process exists and its start is the last activity */
  function Started(s: Session, now: int32): Session {
    s.(active := true, lastTimestamp := now)
  }

  /** The text of a stdout line the client answers with `cont` */
  const ExceptionMarker: string := "Exception occurred:"

  /** `ProcessStdout`: records the activity; a line reporting an exception
      is answered with `Continue`, whose exception is caught and dropped. */
  function AfterStdout(s: Session, now: int32, data: string): Session {
    var touched := s.(lastTimestamp := now);
    if data != [] && Contains(data, ExceptionMarker) then AfterContinue(touched).session else touched
  }

  /** `ProcessStderr`: records the activity only */
  function AfterStderr(s: Session, now: int32, data: string): Session {
    s.(lastTimestamp := now)
  }

  /** `ProcessExited`: records the activity and sets the pending wait, if any */
  function AfterExited(s: Session, now: int32): Session {
    s.(lastTimestamp := now, wait := if s.wait.Some? then Some(true) else None)
  }

  /** `Dispose`: sends `quit` (a no-op without a process), then drops the
      process and the wait slot; an exception from the send escapes first. */
  function Disposed(s: Session): Outcome {
    var quit := AfterSendAsync(s, "quit", None);
    if quit.thrown.Some? then quit
    else Outcome(quit.session.(active := false, wait := None), None)
  }

  // ---------------------------------------------------------------------------
  // Events from the process, and the synchronous command
  // ---------------------------------------------------------------------------

  /** A callback the process's reader threads make, at a given tick */
  datatype Event =
    | StdoutLine(at: int32, data: string)
    | StderrLine(at: int32, data: string)
    | ProcessExit(at: int32)

  function AfterEvent(s: Session, e: Event): Session {
    match e
    case StdoutLine(at, data) => AfterStdout(s, at, data)
    case StderrLine(at, data) => AfterStderr(s, at, data)
    case ProcessExit(at) => AfterExited(s, at)
  }

  function AfterEvents(s: Session, events: seq<Event>): Session
    decreases |events|
  {
    if events == [] then s else AfterEvents(AfterEvent(s, events[0]), events[1..])
  }

  /** One `WaitOne`: the events delivered while it blocks, and the tick read
      when it returns without the event set. */
  datatype WaitStep = WaitStep(events: seq<Event>, clock: int32)

  /** What `SendCommand` ends with. `Unfinished` means the schedule ran out
      while the command was still waiting. */
  datatype CommandResult = Answered(record: Option<ResultRecord>) | Failed(error: Error) | Unfinished

  datatype CommandOutcome = CommandOutcome(session: Session, result: CommandResult)

  /** C# `int` arithmetic, which wraps */
  function Wrap32(x: int): (r: int32)
    ensures (r as int - x) % TokenSpace == 0
  {
    ((x + 0x8000_0000) % TokenSpace - 0x8000_0000) as int32
  }

  /** `timeoutFromCurrentTick`: `(timeout + last) - now` in `int` arithmetic */
  function TimeLeft(timeout: int32, last: int32, now: int32): int32 {
    Wrap32(Wrap32(timeout as int + last as int) as int - now as int)
  }

  /** The sliding deadline of `SendCommand` has passed */
  predicate DeadlinePassed(timeout: int32, last: int32, now: int32) {
    TimeLeft(timeout, last, now) <= 0
  }

  /** `SendCommand`: without a process it returns null at once. Otherwise a
      fresh unset wait is installed and the command sent with the
      synchronous handler; then it waits while time is left. */
  function AfterSendCommand(s: Session, command: string, timeout: int32, now: int32, schedule: seq<WaitStep>): CommandOutcome {
    if !s.active then CommandOutcome(s, Answered(None))
    else
      var sent := AfterSendAsync(s.(wait := Some(false)), command, Some(SyncResponse));
      if sent.thrown.Some? then CommandOutcome(sent.session, Failed(sent.thrown.value))
      else AwaitResponse(sent.session, timeout, TimeLeft(timeout, sent.session.lastTimestamp, now), schedule)
  }

  /** The waiting loop of `SendCommand`: with no time left it throws (the
      wait slot stays installed); a set event ends the wait, clears the slot
      and returns the result slot, which nothing ever fills; otherwise the
      time left is recomputed from the last activity. */
  function AwaitResponse(s: Session, timeout: int32, left: int32, schedule: seq<WaitStep>): CommandOutcome
    decreases |schedule|
  {
    if left <= 0 then CommandOutcome(s, Failed(Timeout))
    else if schedule == [] then CommandOutcome(s, Unfinished)
    else
      var woken := AfterEvents(s, schedule[0].events);
      if woken.wait == Some(true) then CommandOutcome(woken.(wait := None), Answered(None))
      else AwaitResponse(woken, timeout, TimeLeft(timeout, woken.lastTimestamp, schedule[0].clock), schedule[1..])
  }

  // ---------------------------------------------------------------------------
  // Token allocation: tokens are handed out 1, 2, ..., 2^32 - 1, 0 and only
  // then collide
  // ---------------------------------------------------------------------------

  /** The tokens in use after `m` registrations from a fresh client */
  predicate InUse(k: uint32, m: nat) {
    (1 <= k as int <= m) || (k == 0 && m == TokenSpace)
  }

  /** The token table of a client that has registered `|callbacks|` commands */
  predicate Registered(s: Session) {
    && |s.callbacks| <= TokenSpace
    && s.token as int == (|s.callbacks| + 1) % TokenSpace
    && forall k: uint32 :: k in s.callbacks <==> InUse(k, |s.callbacks|)
  }

  lemma InitRegistered()
    ensures Registered(Init())
  {
  }

  /** A send with a process collides exactly when all 2^32 tokens are
      taken; otherwise it takes the next one. */
  lemma SendAsyncRegistered(s: Session, command: string, handler: Option<Handler>)
    requires Registered(s)
    ensures Registered(AfterSendAsync(s, command, handler).session)
    ensures s.active ==> (AfterSendAsync(s, command, handler).thrown.Some? <==> |s.callbacks| == TokenSpace)
  {
    var m := |s.callbacks|;
    if m == TokenSpace {
      assert InUse(1, m);
    } else if s.active {
      assert !InUse(s.token, m);
      var c := s.callbacks[s.token := handler];
      assert |c| == m + 1;
      forall k: uint32
        ensures k in c <==> InUse(k, m + 1)
      {
      }
    }
  }

  /** Until the counter is about to wrap, every registered token lies
      strictly between 0 and the counter, so `Dictionary.Add` cannot collide. */
  lemma TokensBelowCounter(s: Session)
    requires Registered(s) && |s.callbacks| < TokenSpace - 1
    ensures 1 <= s.token
    ensures forall k | k in s.callbacks :: 1 <= k < s.token
    ensures s.token !in s.callbacks
  {
  }

  lemma EventRegistered(s: Session, e: Event)
    requires Registered(s)
    ensures Registered(AfterEvent(s, e))
  {
    if e.StdoutLine? {
      SendAsyncRegistered(s.(lastTimestamp := e.at), "cont", None);
    }
  }

  lemma {:induction false} EventsRegistered(s: Session, events: seq<Event>)
    requires Registered(s)
    ensures Registered(AfterEvents(s, events))
    decreases |events|
  {
    if events != [] {
      EventRegistered(s, events[0]);
      EventsRegistered(AfterEvent(s, events[0]), events[1..]);
    }
  }

  lemma {:induction false} AwaitRegistered(s: Session, timeout: int32, left: int32, schedule: seq<WaitStep>)
    requires Registered(s)
    ensures Registered(AwaitResponse(s, timeout, left, schedule).session)
    decreases |schedule|
  {
    if left > 0 && schedule != [] {
      EventsRegistered(s, schedule[0].events);
      var woken := AfterEvents(s, schedule[0].events);
      if woken.wait != Some(true) {
        AwaitRegistered(woken, timeout, TimeLeft(timeout, woken.lastTimestamp, schedule[0].clock), schedule[1..]);
      }
    }
  }

  /** Every public operation of the client, with its arguments */
  datatype Call =
    | StartCall(now: int32)
    | SendAsyncCall(command: string, handler: Option<Handler>)
    | ContinueCall
    | StdoutCall(now: int32, data: string)
    | StderrCall(now: int32, data: string)
    | ExitedCall(now: int32)
    | DisposeCall
    | SendCommandCall(command: string, timeout: int32, now: int32, schedule: seq<WaitStep>)

  function Apply(s: Session, call: Call): Session {
    match call
    case StartCall(now) => Started(s, now)
    case SendAsyncCall(command, handler) => AfterSendAsync(s, command, handler).session
    case ContinueCall => AfterContinue(s).session
    case StdoutCall(now, data) => AfterStdout(s, now, data)
    case StderrCall(now, data) => AfterStderr(s, now, data)
    case ExitedCall(now) => AfterExited(s, now)
    case DisposeCall => Disposed(s).session
    case SendCommandCall(command, timeout, now, schedule) => AfterSendCommand(s, command, timeout, now, schedule).session
  }

  /** The client after a sequence of calls */
  function Run(s: Session, calls: seq<Call>): Session
    decreases |calls|
  {
    if calls == [] then s else Run(Apply(s, calls[0]), calls[1..])
  }

  lemma CallRegistered(s: Session, call: Call)
    requires Registered(s)
    ensures Registered(Apply(s, call))
  {
    match call
    case SendAsyncCall(command, handler) => SendAsyncRegistered(s, command, handler);
    case ContinueCall => SendAsyncRegistered(s, "cont", None);
    case StdoutCall(now, data) => EventRegistered(s, StdoutLine(now, data));
    case DisposeCall => SendAsyncRegistered(s, "quit", None);
    case SendCommandCall(command, timeout, now, schedule) =>
      if s.active {
        var armed := s.(wait := Some(false));
        SendAsyncRegistered(armed, command, Some(SyncResponse));
        var sent := AfterSendAsync(armed, command, Some(SyncResponse));
        if sent.thrown.None? {
          AwaitRegistered(sent.session, timeout, TimeLeft(timeout, sent.session.lastTimestamp, now), schedule);
        }
      }
    case _ =>
  }

  lemma {:induction false} RunRegistered(s: Session, calls: seq<Call>)
    requires Registered(s)
    ensures Registered(Run(s, calls))
    decreases |calls|
  {
    if calls != [] {
      CallRegistered(s, calls[0]);
      RunRegistered(Apply(s, calls[0]), calls[1..]);
    }
  }

  /** In every state a client reaches, a send with a process throws the
      duplicate-key exception exactly when all 2^32 tokens are in use,
      that is, once the counter has wrapped round to a used token. */
  lemma CollisionIffWrapped(calls: seq<Call>, command: string, handler: Option<Handler>)
    ensures var s := Run(Init(), calls);
      s.active ==> (AfterSendAsync(s, command, handler).thrown.Some? <==> |s.callbacks| == TokenSpace)
  {
    RunRegistered(Init(), calls);
    SendAsyncRegistered(Run(Init(), calls), command, handler);
  }

  // ---------------------------------------------------------------------------
  // Guards, the written commands and the events
  // ---------------------------------------------------------------------------

  /** Without a process, sends and commands change nothing: no token is
      used, nothing is registered or written, and no wait is installed. */
  lemma InactiveIsNoOp(s: Session, command: string, handler: Option<Handler>, timeout: int32, now: int32, schedule: seq<WaitStep>)
    requires !s.active
    ensures AfterSendAsync(s, command, handler) == Outcome(s, None)
    ensures AfterContinue(s) == Outcome(s, None)
    ensures AfterSendCommand(s, command, timeout, now, schedule) == CommandOutcome(s, Answered(None))
  {
  }

  /** A send that succeeds writes the command itself, with no token in it,
      and registers exactly one handler under the old counter value. */
  lemma SendIsVerbatim(s: Session, command: string, handler: Option<Handler>)
    requires s.active && s.token !in s.callbacks
    ensures var r := AfterSendAsync(s, command, handler);
      && r.thrown == None
      && r.session.sent == s.sent + [command]
      && r.session.callbacks == s.callbacks[s.token := handler]
      && r.session.token as int == (s.token as int + 1) % TokenSpace
      && r.session.wait == s.wait && r.session.lastTimestamp == s.lastTimestamp
  {
  }

  /** A line that contains the marker is not empty. */
  lemma {:induction false} ContainsNonEmpty(s: string, part: string)
    requires part != [] && Contains(s, part)
    ensures s != []
  {
  }

  /** A stdout line reporting an exception sends exactly one `cont`, using
      one token, and leaves the wait slot alone. */
  lemma ExceptionLineSendsCont(s: Session, now: int32, data: string)
    requires s.active && s.token !in s.callbacks && Contains(data, ExceptionMarker)
    ensures var r := AfterStdout(s, now, data);
      && r.sent == s.sent + ["cont"]
      && r.callbacks == s.callbacks[s.token := None]
      && r.wait == s.wait
      && r.lastTimestamp == now
  {
    ContainsNonEmpty(data, ExceptionMarker);
  }

  /** Other stdout lines, and every stderr line, only record the activity. */
  lemma QuietLinesOnlyTouchClock(s: Session, now: int32, data: string)
    requires !Contains(data, ExceptionMarker)
    ensures AfterStdout(s, now, data) == s.(lastTimestamp := now)
    ensures AfterStderr(s, now, data) == s.(lastTimestamp := now)
  {
  }

  /** The exit of the process sets a pending wait and nothing else. */
  lemma ExitSignalsWait(s: Session, now: int32)
    requires s.wait.Some?
    ensures AfterExited(s, now) == s.(lastTimestamp := now, wait := Some(true))
  {
  }

  /** Events never remove the wait slot, and once set it stays set. */
  lemma {:induction false} EventsKeepWait(s: Session, events: seq<Event>)
    requires s.wait.Some?
    ensures AfterEvents(s, events).wait.Some?
    ensures s.wait == Some(true) ==> AfterEvents(s, events).wait == Some(true)
    decreases |events|
  {
    if events != [] {
      var e := events[0];
      if e.StdoutLine? {
        assert AfterEvent(s, e).wait == s.wait;
      }
      EventsKeepWait(AfterEvent(s, e), events[1..]);
    }
  }

  /** A wait during which the process exits is set when it returns. */
  lemma {:induction false} ExitInEventsSignals(s: Session, events: seq<Event>, i: nat)
    requires s.wait.Some? && i < |events| && events[i].ProcessExit?
    ensures AfterEvents(s, events).wait == Some(true)
    decreases |events|
  {
    var next := AfterEvent(s, events[0]);
    if i == 0 {
      EventsKeepWait(next, events[1..]);
    } else {
      if events[0].StdoutLine? {
        assert next.wait == s.wait;
      }
      ExitInEventsSignals(next, events[1..], i - 1);
    }
  }

  /** If the process exits while `SendCommand` waits, the command returns,
      clears the wait slot, and its result is null. */
  lemma ExitAnswersCommand(s: Session, timeout: int32, left: int32, step: WaitStep, rest: seq<WaitStep>, i: nat)
    requires s.wait.Some? && left > 0 && i < |step.events| && step.events[i].ProcessExit?
    ensures AwaitResponse(s, timeout, left, [step] + rest) == CommandOutcome(AfterEvents(s, step.events).(wait := None), Answered(None))
  {
    ExitInEventsSignals(s, step.events, i);
  }

  /** The result record of `SendCommand` is always null: nothing in the
      client ever calls a registered handler. A timeout leaves the unset
      wait slot behind. */
  lemma {:induction false} AwaitResults(s: Session, timeout: int32, left: int32, schedule: seq<WaitStep>)
    requires s.wait == Some(false)
    ensures var r := AwaitResponse(s, timeout, left, schedule);
      && (r.result.Answered? ==> r.result.record == None && r.session.wait == None)
      && (r.result.Failed? ==> r.result.error == Timeout && r.session.wait == Some(false))
    decreases |schedule|
  {
    if left > 0 && schedule != [] {
      var woken := AfterEvents(s, schedule[0].events);
      EventsKeepWait(s, schedule[0].events);
      if woken.wait != Some(true) {
        assert woken.wait.Some?;
        assert !woken.wait.value;
        assert woken.wait == Some(false);
        AwaitResults(woken, timeout, TimeLeft(timeout, woken.lastTimestamp, schedule[0].clock), schedule[1..]);
      }
    }
  }

  /** `SendCommand` never returns a record; when it times out the wait slot
      stays installed. */
  lemma SendCommandResults(s: Session, command: string, timeout: int32, now: int32, schedule: seq<WaitStep>)
    ensures var r := AfterSendCommand(s, command, timeout, now, schedule);
      && (r.result.Answered? ==> r.result.record == None)
      && (r.result == Failed(Timeout) ==> r.session.wait == Some(false))
  {
    if s.active {
      var sent := AfterSendAsync(s.(wait := Some(false)), command, Some(SyncResponse));
      if sent.thrown.None? {
        AwaitResults(sent.session, timeout, TimeLeft(timeout, sent.session.lastTimestamp, now), schedule);
      }
    }
  }

  // ---------------------------------------------------------------------------
  // The sliding deadline
  // ---------------------------------------------------------------------------

  /** Numbers congruent modulo 2^32 wrap to the same `int`. */
  lemma WrapCongruent(x: int, y: int)
    requires (x - y) % TokenSpace == 0
    ensures Wrap32(x) == Wrap32(y)
  {
    var k := (x - y) / TokenSpace;
    assert x == y + k * TokenSpace;
    ModuloShift(y + 0x8000_0000, k);
  }

  lemma ModuloShift(a: int, k: int)
    ensures (a + k * TokenSpace) % TokenSpace == a % TokenSpace
  {
  }

  /** A value that fits is left alone. */
  lemma WrapIdentity(x: int)
    requires -0x8000_0000 <= x < 0x8000_0000
    ensures Wrap32(x) as int == x
  {
  }

  /** The deadline is measured from the last activity, and survives the
      wrap of the tick counter: when `elapsed` ticks have passed since the
      last activity (less than 2^31 beyond the timeout), the deadline has
      passed exactly when `elapsed` has reached the timeout. */
  lemma DeadlineAfterElapsed(timeout: int32, last: int32, elapsed: nat)
    requires timeout >= 0 && elapsed <= timeout as int + 0x8000_0000
    ensures DeadlinePassed(timeout, last, Wrap32(last as int + elapsed)) <==> elapsed >= timeout as int
  {
    var now := Wrap32(last as int + elapsed);
    var inner := Wrap32(timeout as int + last as int);
    var x := inner as int - now as int;
    assert (x - (timeout as int - elapsed)) % TokenSpace == 0 by {
      var a := inner as int - (timeout as int + last as int);
      var b := now as int - (last as int + elapsed);
      assert a % TokenSpace == 0 && b % TokenSpace == 0;
      assert x - (timeout as int - elapsed) == a - b;
      DifferenceOfMultiples(a, b);
    }
    WrapCongruent(x, timeout as int - elapsed);
    WrapIdentity(timeout as int - elapsed);
  }

  lemma DifferenceOfMultiples(a: int, b: int)
    requires a % TokenSpace == 0 && b % TokenSpace == 0
    ensures (a - b) % TokenSpace == 0
  {
    var i := a / TokenSpace;
    var j := b / TokenSpace;
    assert a == i * TokenSpace && b == j * TokenSpace;
    assert a - b == (i - j) * TokenSpace;
  }

  /** A client quiet for longer than the timeout throws at once: the
      command is written and registered, the wait slot is left installed,
      and no amount of later activity is waited for. */
  lemma IdleSessionTimesOut(s: Session, command: string, timeout: int32, now: int32, schedule: seq<WaitStep>)
    requires s.active && s.token !in s.callbacks
    requires DeadlinePassed(timeout, s.lastTimestamp, now)
    ensures var r := AfterSendCommand(s, command, timeout, now, schedule);
      && r.result == Failed(Timeout)
      && r.session.sent == s.sent + [command]
      && r.session.wait == Some(false)
  {
  }

  /** The tick of the last of a batch of events */
  function LastTick(events: seq<Event>): int32
    requires events != []
  {
    events[|events| - 1].at
  }

  /** Every event is activity: after a batch, the last activity is the
      batch's last event. */
  lemma {:induction false} EventsStampActivity(s: Session, events: seq<Event>)
    requires events != []
    ensures AfterEvents(s, events).lastTimestamp == LastTick(events)
    decreases |events|
  {
    var next := AfterEvent(s, events[0]);
    if |events| == 1 {
      assert AfterEvents(next, events[1..]) == next;
    } else {
      EventsStampActivity(next, events[1..]);
      assert LastTick(events[1..]) == LastTick(events);
    }
  }

  /** Activity pushes the deadline back: if each wake-up of the wait comes
      with output from the process and the clock read then is fewer than
      `timeout` ticks after the last of that output (`elapsed[i]` ticks,
      across a wrap of the tick counter too), the command never times out. */
  lemma {:induction false} ActivityKeepsWaiting(s: Session, timeout: int32, left: int32, schedule: seq<WaitStep>, elapsed: seq<nat>)
    requires left > 0 && |elapsed| == |schedule|
    requires forall i | 0 <= i < |schedule| ::
      && schedule[i].events != []
      && elapsed[i] < timeout as int
      && schedule[i].clock == Wrap32(LastTick(schedule[i].events) as int + elapsed[i])
    ensures AwaitResponse(s, timeout, left, schedule).result != Failed(Timeout)
    decreases |schedule|
  {
    if schedule != [] {
      var step := schedule[0];
      var woken := AfterEvents(s, step.events);
      if woken.wait != Some(true) {
        EventsStampActivity(s, step.events);
        DeadlineAfterElapsed(timeout, LastTick(step.events), elapsed[0]);
        ActivityKeepsWaiting(woken, timeout, TimeLeft(timeout, woken.lastTimestamp, step.clock), schedule[1..], elapsed[1..]);
      }
    }
  }

  /** Conversely, the wait only times out on a clock reading `timeout` or
      more ticks past the last activity: `i` is the wake-up at which the
      deadline, measured from the activity recorded by then, had passed. */
  lemma {:induction false} TimeoutMeansDeadlinePassed(s: Session, timeout: int32, left: int32, schedule: seq<WaitStep>) returns (i: nat)
    requires AwaitResponse(s, timeout, left, schedule).result == Failed(Timeout)
    ensures var r := AwaitResponse(s, timeout, left, schedule);
      left <= 0 || (i < |schedule| && DeadlinePassed(timeout, r.session.lastTimestamp, schedule[i].clock))
    decreases |schedule|
  {
    i := 0;
    if left > 0 {
      var step := schedule[0];
      var woken := AfterEvents(s, step.events);
      var j := TimeoutMeansDeadlinePassed(woken, timeout, TimeLeft(timeout, woken.lastTimestamp, step.clock), schedule[1..]);
      i := if TimeLeft(timeout, woken.lastTimestamp, step.clock) <= 0 then 0 else j + 1;
    }
  }

  /** For the whole of `SendCommand`: a client last active fewer than
      `timeout` ticks before the command, and kept busy as above, never
      times out. */
  lemma ActivityKeepsCommandWaiting(s: Session, command: string, timeout: int32, now: int32, schedule: seq<WaitStep>, idle: nat, elapsed: seq<nat>)
    requires idle < timeout as int && now == Wrap32(s.lastTimestamp as int + idle)
    requires |elapsed| == |schedule|
    requires forall i | 0 <= i < |schedule| ::
      && schedule[i].events != []
      && elapsed[i] < timeout as int
      && schedule[i].clock == Wrap32(LastTick(schedule[i].events) as int + elapsed[i])
    ensures AfterSendCommand(s, command, timeout, now, schedule).result != Failed(Timeout)
  {
    if s.active {
      var sent := AfterSendAsync(s.(wait := Some(false)), command, Some(SyncResponse));
      if sent.thrown.None? {
        DeadlineAfterElapsed(timeout, s.lastTimestamp, idle);
        ActivityKeepsWaiting(sent.session, timeout, TimeLeft(timeout, sent.session.lastTimestamp, now), schedule, elapsed);
      }
    }
  }

  // ---------------------------------------------------------------------------
  // Dispose
  // ---------------------------------------------------------------------------

  /** After a `Dispose` that did not throw there is no process and no wait;
      further sends are no-ops and a second `Dispose` changes nothing. */
  lemma DisposeIdempotent(s: Session, command: string, handler: Option<Handler>)
    requires Disposed(s).thrown.None?
    ensures var d := Disposed(s).session;
      && !d.active && d.wait == None
      && AfterSendAsync(d, command, handler) == Outcome(d, None)
      && Disposed(d) == Outcome(d, None)
  {
  }

  /** `Dispose` on a client that was never started sends nothing. */
  lemma DisposeBeforeStart()
    ensures Disposed(Init()) == Outcome(Init(), None)
  {
  }

  /** `Dispose` on a running client sends `quit` last. */
  lemma DisposeSendsQuit(s: Session)
    requires s.active && s.token !in s.callbacks
    ensures Disposed(s).thrown == None
    ensures Disposed(s).session.sent == s.sent + ["quit"]
  {
  }

  // ---------------------------------------------------------------------------
  // The client
  // ---------------------------------------------------------------------------

  /** `JdbClient`: its fields, changed in place by the calls */
  class JdbClient {
    var active: bool
    var token: uint32
    var callbacks: map<uint32, Option<Handler>>
    var wait: Option<bool>
    var lastTimestamp: int32
    var sent: seq<string>

    function State(): Session
      reads this
    {
      Session(active, token, callbacks, wait, lastTimestamp, sent)
    }

    constructor ()
      ensures State() == Init()
    {
      active := false;
      token := 1;
      callbacks := map[];
      wait := None;
      lastTimestamp := 0;
      sent := [];
    }

    method Dispose() returns (thrown: Option<Error>)
      modifies this
      ensures Outcome(State(), thrown) == Disposed(old(State()))
    {
      thrown := SendAsyncCommand("quit", None);
      if thrown.Some? {
        return;
      }
      active := false;
      wait := None;
    }

    /** `Start`: the process plumbing is left out; the process exists from here on. */
    method Start(now: int32) returns (started: bool)
      modifies this
      ensures State() == Started(old(State()), now)
      ensures started
    {
      lastTimestamp := now;
      active := true;
      started := true;
    }

    method Attach() returns (thrown: Error)
      ensures thrown == NotImplemented
    {
      thrown := NotImplemented;
    }

    method Detach() returns (thrown: Error)
      ensures thrown == NotImplemented
    {
      thrown := NotImplemented;
    }

    method Stop() returns (thrown: Error)
      ensures thrown == NotImplemented
    {
      thrown := NotImplemented;
    }

    method Terminate() returns (thrown: Error)
      ensures thrown == NotImplemented
    {
      thrown := NotImplemented;
    }

    method Continue() returns (thrown: Option<Error>)
      modifies this
      ensures Outcome(State(), thrown) == AfterContinue(old(State()))
    {
      thrown := SendAsyncCommand("cont", None);
    }

    /** `SendCommand`, the wait driven by `schedule` (see `AwaitResponse`) */
    method SendCommand(command: string, timeout: int32, now: int32, schedule: seq<WaitStep>) returns (result: CommandResult)
      modifies this
      ensures CommandOutcome(State(), result) == AfterSendCommand(old(State()), command, timeout, now, schedule)
    {
      if !active {
        return Answered(None);
      }
      wait := Some(false);
      var thrown := SendAsyncCommand(command, Some(SyncResponse));
      if thrown.Some? {
        return Failed(thrown.value);
      }
      ghost var goal := AwaitResponse(State(), timeout, TimeLeft(timeout, lastTimestamp, now), schedule);
      var left := TimeLeft(timeout, lastTimestamp, now);
      var signalled := false;
      var i := 0;
      while !signalled && left > 0
        invariant 0 <= i <= |schedule|
        invariant !signalled ==> AwaitResponse(State(), timeout, left, schedule[i..]) == goal
        invariant signalled ==> CommandOutcome(State().(wait := None), Answered(None)) == goal
        decreases |schedule| - i, !signalled
      {
        if i == |schedule| {
          return Unfinished;
        }
        DeliverAll(schedule[i].events);
        signalled := wait == Some(true);
        if !signalled {
          left := TimeLeft(timeout, lastTimestamp, schedule[i].clock);
        }
        i := i + 1;
      }
      if !signalled {
        return Failed(Timeout);
      }
      wait := None;
      return Answered(None);
    }

    method SendAsyncCommand(command: string, handler: Option<Handler>) returns (thrown: Option<Error>)
      modifies this
      ensures Outcome(State(), thrown) == AfterSendAsync(old(State()), command, handler)
    {
      thrown := None;
      if !active {
        return;
      }
      if token in callbacks {
        return Some(DuplicateToken);
      }
      callbacks := callbacks[token := handler];
      token := NextToken(token);
      sent := sent + [command];
    }

    method ProcessStdout(now: int32, data: string)
      modifies this
      ensures State() == AfterStdout(old(State()), now, data)
    {
      lastTimestamp := now;
      if data != [] && Contains(data, ExceptionMarker) {
        var ignored := Continue();
      }
    }

    method ProcessStderr(now: int32, data: string)
      modifies this
      ensures State() == AfterStderr(old(State()), now, data)
    {
      lastTimestamp := now;
    }

    method ProcessExited(now: int32)
      modifies this
      ensures State() == AfterExited(old(State()), now)
    {
      lastTimestamp := now;
      if wait.Some? {
        wait := Some(true);
      }
    }

    /** The reader threads' callbacks made while `SendCommand` blocks */
    method DeliverAll(events: seq<Event>)
      modifies this
      ensures State() == AfterEvents(old(State()), events)
    {
      var i := 0;
      while i < |events|
        invariant 0 <= i <= |events|
        invariant AfterEvents(State(), events[i..]) == AfterEvents(old(State()), events)
      {
        match events[i] {
          case StdoutLine(at, data) => ProcessStdout(at, data);
          case StderrLine(at, data) => ProcessStderr(at, data);
          case ProcessExit(at) => ProcessExited(at);
        }
        i := i + 1;
      }
    }
  }
}
