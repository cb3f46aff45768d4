/**
 * The poll loop of the bridge worker (`poll_loop`): heartbeat cadence,
 * polling with the current session id, the backoff controller, session-id
 * adoption, execute-and-report, and the choice of sleep. The transport is
 * an oracle: each iteration is handed the clock reading, the decoded poll
 * reply (None when the request failed) and the child process a command
 * would run as. Every request the worker sends and every sleep it takes is
 * recorded, in order, in `log`.
 */
module PollLoop {

  import opened Wrappers
  import opened Executor

  /** Minimum spacing of heartbeats, in seconds (the test is strictly greater). */
  const HeartbeatPeriod: int := 60
  /** Consecutive failures tolerated before the backoff starts doubling. */
  const ErrorThreshold: nat := 10
  /** Largest backoff, in seconds. */
  const BackoffCap: int := 60
  /** Pause after an error inside an iteration, in seconds. */
  const LoopErrorPause: int := 5

  /** A poll reply, as decoded from the JSON body. */
  datatype Reply =
    | Obj(sessionId: Option<string>, command: Option<string>, commandId: Option<string>)
      // a JSON value that is neither an object nor null: `result.get` raises
    | NotObject
      // `api_request` raises before its `try` (building the request fails, as
      // for a backend URL without a scheme): nothing is sent, the error handler runs
    | RequestRaised

  /** Python truthiness of an optional string field. */
  predicate Truthy(v: Option<string>) {
    v.Some? && v.value != ""
  }

  /** What the worker does that the outside world can see. */
  datatype Event =
    | Heartbeat(at: int)                                // a bridge-status request
    | Poll(session: Option<string>, reply: Option<Reply>) // a bridge-poll request and its reply
    | Stream(commandId: string, chunk: string)          // a bridge-stream request
    | Report(commandId: string, exitCode: int, output: string) // a bridge-result request
    | ErrorReport                                       // a self-reported loop error
    | Sleep(seconds: int)

  /** One iteration's inputs: clock, poll reply, child process, and whether a signal arrives. */
  datatype Tick = Tick(now: int, reply: Option<Reply>, child: ChildRun, signal: bool)

  function Min(a: int, b: int): int {
    if a <= b then a else b
  }

  // ---- backoff controller ---------------------------------------------------

  /**
   * The backoff after a failed poll that made the counter `errors`: kept up
   * to the threshold, then doubled up to the cap.
   */
  function BackoffAfterFailure(backoff: int, errors: nat): (b: int)
    ensures errors <= ErrorThreshold ==> b == backoff
    ensures errors > ErrorThreshold ==> b <= BackoffCap && (b == 2 * backoff || b == BackoffCap)
    ensures 1 <= backoff <= BackoffCap ==> 1 <= b <= BackoffCap
  {
    if errors > ErrorThreshold then Min(backoff * 2, BackoffCap) else backoff
  }

  /** The backoff after `errors` consecutive failures since the last reset. */
  function BackoffFor(errors: nat): (b: int)
    ensures 1 <= b <= BackoffCap
  {
    if errors <= ErrorThreshold then 1 else BackoffAfterFailure(BackoffFor(errors - 1), errors)
  }

  function Pow2(n: nat): (p: nat)
    ensures p >= 1
  {
    if n == 0 then 1 else 2 * Pow2(n - 1)
  }

  /** Closed form: 1 for up to ten failures, then doubling from 2, capped at 60. */
  lemma {:induction false} BackoffClosedForm(errors: nat)
    ensures BackoffFor(errors) == if errors <= ErrorThreshold then 1 else Min(Pow2(errors - ErrorThreshold), BackoffCap)
  {
    if errors > ErrorThreshold + 1 {
      BackoffClosedForm(errors - 1);
    }
  }

  /** The sleeps of `n` consecutive failed polls after a reset. */
  function FailureSleeps(n: nat): (s: seq<int>)
    ensures |s| == n
    ensures forall i :: 0 <= i < n ==> s[i] == BackoffFor(i + 1)
  {
    if n == 0 then [] else FailureSleeps(n - 1) + [BackoffFor(n)]
  }

  /** Eleven failures in a row sleep ten times one second, then two. */
  lemma ElevenFailures()
    ensures FailureSleeps(11) == [1, 1, 1, 1, 1, 1, 1, 1, 1, 1, 2]
  {
    var s := FailureSleeps(11);
    forall i | 0 <= i < 11
      ensures s[i] == [1, 1, 1, 1, 1, 1, 1, 1, 1, 1, 2][i]
    {
      BackoffClosedForm(i + 1);
    }
  }

  // ---- heartbeat cadence ----------------------------------------------------

  /**
   * `now - last_heartbeat > 60`. As `last_heartbeat` starts at 0 and the
   * clock reads seconds since the epoch, the first pass of a run is due.
   */
  function HeartbeatDue(last: int, now: int): (d: bool)
    ensures d <==> now >= last + HeartbeatPeriod + 1
    ensures last == 0 && now > HeartbeatPeriod ==> d
  {
    now - last > HeartbeatPeriod
  }

  /** The times of the heartbeats among `evs`, in order. */
  function HeartbeatTimes(evs: seq<Event>): seq<int> {
    if evs == [] then []
    else HeartbeatTimes(evs[..|evs| - 1]) + (if evs[|evs| - 1].Heartbeat? then [evs[|evs| - 1].at] else [])
  }

  lemma {:induction false} HeartbeatTimesAppend(a: seq<Event>, b: seq<Event>)
    ensures HeartbeatTimes(a + b) == HeartbeatTimes(a) + HeartbeatTimes(b)
    decreases |b|
  {
    if b != [] {
      HeartbeatTimesAppend(a, b[..|b| - 1]);
      assert (a + b)[..|a + b| - 1] == a + b[..|b| - 1];
    } else {
      assert a + b == a;
    }
  }

  /** Consecutive heartbeats are more than a period apart. */
  predicate Spaced(ts: seq<int>) {
    forall i :: 0 <= i < |ts| - 1 ==> ts[i + 1] - ts[i] > HeartbeatPeriod
  }

  /** Hence any two heartbeats are: `j - i` periods and more. */
  lemma {:induction false} SpacedPairwise(ts: seq<int>, i: nat, j: nat)
    requires Spaced(ts) && i < j < |ts|
    ensures ts[j] - ts[i] > HeartbeatPeriod * (j - i)
    decreases j - i
  {
    if i + 1 < j {
      SpacedPairwise(ts, i, j - 1);
    }
  }

  /** The heartbeats since `last_heartbeat` was reset, and its value. */
  predicate HeartbeatInv(ts: seq<int>, last: int) {
    && Spaced(ts)
    && (ts == [] ==> last == 0)
    && (ts != [] ==> ts[|ts| - 1] == last)
  }

  // ---- session id --------------------------------------------------------------

  /** `session_id` after a poll reply: overwritten only by a truthy id. */
  function AdoptReply(current: Option<string>, reply: Option<Reply>): (r: Option<string>)
    ensures reply.Some? && reply.value.Obj? && Truthy(reply.value.sessionId) ==> r == reply.value.sessionId
    ensures !(reply.Some? && reply.value.Obj? && Truthy(reply.value.sessionId)) ==> r == current
    ensures current.Some? ==> r.Some?
  {
    if reply.Some? && reply.value.Obj? && Truthy(reply.value.sessionId) then reply.value.sessionId
    else current
  }

  /** `session_id` after the events `evs`, starting from None at process start. */
  function SessionAfter(evs: seq<Event>): (r: Option<string>)
    ensures r.Some? ==> r.value != ""
  {
    if evs == [] then None
    else
      var prev := SessionAfter(evs[..|evs| - 1]);
      var e := evs[|evs| - 1];
      if e.Poll? then AdoptReply(prev, e.reply) else prev
  }

  lemma SessionAfterAppend(a: seq<Event>, e: Event)
    ensures SessionAfter(a + [e]) == if e.Poll? then AdoptReply(SessionAfter(a), e.reply) else SessionAfter(a)
  {
    assert (a + [e])[..|a|] == a;
  }

  /** Once assigned, the session id is never dropped. */
  lemma {:induction false} SessionStaysAssigned(a: seq<Event>, b: seq<Event>)
    requires SessionAfter(a).Some?
    ensures SessionAfter(a + b).Some?
    decreases |b|
  {
    if b != [] {
      SessionStaysAssigned(a, b[..|b| - 1]);
      assert (a + b)[..|a + b| - 1] == a + b[..|b| - 1];
    } else {
      assert a + b == a;
    }
  }

  /** Every poll request carries the session id adopted from the replies before it. */
  predicate PollsCarryLatestSession(evs: seq<Event>) {
    forall i :: 0 <= i < |evs| && evs[i].Poll? ==> evs[i].session == SessionAfter(evs[..i])
  }

  // ---- command handling -----------------------------------------------------------

  /** The backend answered: the poll was sent and did not fail or raise. */
  predicate Answered(reply: Option<Reply>) {
    reply.Some? && !reply.value.RequestRaised?
  }

  /** A reply carries work: both `command` and `command_id` are truthy. */
  function HasWork(reply: Option<Reply>): (w: bool)
    ensures w <==> (reply.Some? && reply.value.Obj?
      && reply.value.command.Some? && reply.value.command.value != ""
      && reply.value.commandId.Some? && reply.value.commandId.value != "")
  {
    reply.Some? && reply.value.Obj? && Truthy(reply.value.command) && Truthy(reply.value.commandId)
  }

  /** One bridge-stream request per streamed line, in order. */
  function StreamEvents(id: string, chunks: seq<string>): (evs: seq<Event>)
    ensures |evs| == |chunks|
    ensures forall i :: 0 <= i < |chunks| ==> evs[i] == Stream(id, chunks[i])
  {
    if chunks == [] then []
    else StreamEvents(id, chunks[..|chunks| - 1]) + [Stream(id, chunks[|chunks| - 1])]
  }

  /** What the executor hands the worker for a command: its result and the lines it streamed. */
  datatype Outcome = Outcome(result: ExecResult, streamed: seq<string>)

  /** The outcome of `execute_command(cmd, stream_callback)` when the command runs as `child`. */
  function Executed(cmd: string, child: ChildRun): Outcome {
    Outcome(ExecSpec(cmd, child), StreamedSpec(cmd, child, true))
  }

  /** The streams and the one report for command `cmd`, run as `child`. */
  function WorkEvents(id: string, cmd: string, child: ChildRun): seq<Event> {
    var o := Executed(cmd, child);
    StreamEvents(id, o.streamed) + [Report(id, o.result.exitCode, o.result.output)]
  }

  /** The number of bridge-result requests among `evs`. */
  function CountReports(evs: seq<Event>): nat {
    if evs == [] then 0
    else CountReports(evs[..|evs| - 1]) + (if evs[|evs| - 1].Report? then 1 else 0)
  }

  /** The number of bridge-poll requests among `evs`. */
  function CountPolls(evs: seq<Event>): nat {
    if evs == [] then 0
    else CountPolls(evs[..|evs| - 1]) + (if evs[|evs| - 1].Poll? then 1 else 0)
  }

  lemma {:induction false} CountsAppend(a: seq<Event>, b: seq<Event>)
    ensures CountReports(a + b) == CountReports(a) + CountReports(b)
    ensures CountPolls(a + b) == CountPolls(a) + CountPolls(b)
    decreases |b|
  {
    if b != [] {
      CountsAppend(a, b[..|b| - 1]);
      assert (a + b)[..|a + b| - 1] == a + b[..|b| - 1];
    } else {
      assert a + b == a;
    }
  }

  lemma {:induction false} StreamsAreNotReports(id: string, chunks: seq<string>)
    ensures CountReports(StreamEvents(id, chunks)) == 0
    ensures CountPolls(StreamEvents(id, chunks)) == 0
    decreases |chunks|
  {
    if chunks != [] {
      StreamsAreNotReports(id, chunks[..|chunks| - 1]);
      assert StreamEvents(id, chunks)[..|chunks| - 1] == StreamEvents(id, chunks[..|chunks| - 1]);
    }
  }

  /**
   * What follows the poll request in one iteration, the command (if any)
   * run as `child`: after a failure, sleep the backoff; after a reply
   * that is not an object, the loop-error path; after an object, the work
   * (when there is any) and the `poll_interval` sleep.
   */
  function AfterPoll(reply: Option<Reply>, child: ChildRun, failureSleep: int,
                     canReport: bool, pollInterval: int): (evs: seq<Event>)
    ensures reply.None? ==> evs == [Sleep(failureSleep)]
    ensures reply.Some? && !reply.value.Obj? ==> evs == LoopError(canReport)
  {
    match reply
    case None => [Sleep(failureSleep)]
    case Some(NotObject) => LoopError(canReport)
    case Some(RequestRaised) => LoopError(canReport)
    case Some(Obj(_, command, commandId)) =>
      (if Truthy(command) && Truthy(commandId) then WorkEvents(commandId.value, command.value, child) else [])
      + IntervalSleep(canReport, pollInterval)
  }

  /** The iteration is the work the reply carries, then the pause that ends it. */
  lemma AfterPollSplits(reply: Option<Reply>, child: ChildRun, failureSleep: int, canReport: bool, pollInterval: int)
    ensures AfterPoll(reply, child, failureSleep, canReport, pollInterval) == Work(reply, child) + Pause(reply, failureSleep, canReport, pollInterval)
  {
    if !HasWork(reply) {
      assert Work(reply, child) + Pause(reply, failureSleep, canReport, pollInterval) == Pause(reply, failureSleep, canReport, pollInterval);
    }
  }

  /** The streams and the report of the command a reply carries, if it carries one. */
  function Work(reply: Option<Reply>, child: ChildRun): seq<Event> {
    if HasWork(reply) then WorkEvents(reply.value.commandId.value, reply.value.command.value, child) else []
  }

  /**
   * How an iteration ends: after a failed poll, sleep the backoff; after a
   * reply that is not an object, the loop-error path (`result.get` raises);
   * after an object, sleep `poll_interval`.
   */
  function Pause(reply: Option<Reply>, failureSleep: int, canReport: bool, pollInterval: int): seq<Event> {
    match reply
    case None => [Sleep(failureSleep)]
    case Some(NotObject) => LoopError(canReport)
    case Some(RequestRaised) => LoopError(canReport)
    case Some(Obj(_, _, _)) => IntervalSleep(canReport, pollInterval)
  }

  /** The loop's error handler: `report_error` (when it can send), then a 5-second pause. */
  function LoopError(canReport: bool): seq<Event> {
    (if canReport then [ErrorReport] else []) + [Sleep(LoopErrorPause)]
  }

  /** `time.sleep(poll_interval)`, which raises for a negative interval and so takes the error path. */
  function IntervalSleep(canReport: bool, pollInterval: int): seq<Event> {
    if pollInterval >= 0 then [Sleep(pollInterval)] else LoopError(canReport)
  }

  /** Exactly one report per iteration with work and none otherwise, and no poll. */
  lemma ReportExactlyOnce(reply: Option<Reply>, child: ChildRun, failureSleep: int,
                          canReport: bool, pollInterval: int)
    ensures CountReports(AfterPoll(reply, child, failureSleep, canReport, pollInterval)) == (if HasWork(reply) then 1 else 0)
    ensures CountPolls(AfterPoll(reply, child, failureSleep, canReport, pollInterval)) == 0
  {
    AfterPollSplits(reply, child, failureSleep, canReport, pollInterval);
    WorkShape(reply, child);
    PauseShape(reply, failureSleep, canReport, pollInterval);
    CountsAppend(Work(reply, child), Pause(reply, failureSleep, canReport, pollInterval));
  }

  /** `suffix` is the tail end of `evs`. */
  predicate EndsWith(evs: seq<Event>, suffix: seq<Event>) {
    |suffix| <= |evs| && evs[|evs| - |suffix|..] == suffix
  }

  /**
   * The iteration always ends with a sleep: the backoff after a failed poll,
   * `poll_interval` after an object when the interval is not negative, and
   * otherwise the error handler's events (the self-report when the worker
   * can send one, then the 5-second pause).
   */
  lemma EndsWithSleep(reply: Option<Reply>, child: ChildRun, failureSleep: int,
                      canReport: bool, pollInterval: int)
    ensures var evs := AfterPoll(reply, child, failureSleep, canReport, pollInterval);
      && |evs| >= 1 && evs[|evs| - 1].Sleep?
      && (reply.None? ==> evs[|evs| - 1] == Sleep(failureSleep))
      && (reply.Some? && reply.value.Obj? && pollInterval >= 0 ==> evs[|evs| - 1] == Sleep(pollInterval))
      && (reply.Some? && (!reply.value.Obj? || pollInterval < 0) ==>
            EndsWith(evs, LoopError(canReport)) && evs[|evs| - 1] == Sleep(LoopErrorPause))
  {
    AfterPollSplits(reply, child, failureSleep, canReport, pollInterval);
    PauseShape(reply, failureSleep, canReport, pollInterval);
    EndsLikeTail(Work(reply, child), Pause(reply, failureSleep, canReport, pollInterval));
  }

  /** A command's events: nothing without work; with work, one report, last, and no poll or heartbeat. */
  lemma WorkShape(reply: Option<Reply>, child: ChildRun)
    ensures var work := Work(reply, child);
      && (!HasWork(reply) ==> work == [])
      && (HasWork(reply) ==> |work| >= 1 && work[|work| - 1].Report?)
      && CountReports(work) == (if HasWork(reply) then 1 else 0) && CountPolls(work) == 0
      && NoPolls(work) && NoHeartbeats(work)
  {
    if HasWork(reply) {
      var o := Executed(reply.value.command.value, child);
      StreamsThenReport(reply.value.commandId.value, o.streamed, o.result.exitCode, o.result.output);
    }
  }

  lemma StreamsThenReport(id: string, chunks: seq<string>, exitCode: int, output: string)
    ensures var work := StreamEvents(id, chunks) + [Report(id, exitCode, output)];
      && |work| >= 1 && work[|work| - 1].Report?
      && CountReports(work) == 1 && CountPolls(work) == 0
      && NoPolls(work) && NoHeartbeats(work)
  {
    var streams := StreamEvents(id, chunks);
    StreamsAreNotReports(id, chunks);
    var rep: seq<Event> := [Report(id, exitCode, output)];
    assert rep[..0] == [];
    CountsAppend(streams, rep);
    QuietConcat(streams, rep);
  }

  /** How the pause is made up, and that it holds no report, poll or heartbeat. */
  lemma PauseShape(reply: Option<Reply>, failureSleep: int, canReport: bool, pollInterval: int)
    ensures var evs := Pause(reply, failureSleep, canReport, pollInterval);
      && |evs| >= 1 && evs[|evs| - 1].Sleep?
      && (reply.None? ==> evs == [Sleep(failureSleep)])
      && (reply.Some? && reply.value.Obj? && pollInterval >= 0 ==> evs == [Sleep(pollInterval)])
      && (reply.Some? && (!reply.value.Obj? || pollInterval < 0) ==>
            evs == LoopError(canReport) && evs[|evs| - 1] == Sleep(LoopErrorPause))
      && CountReports(evs) == 0 && CountPolls(evs) == 0
      && NoPolls(evs) && NoHeartbeats(evs)
  {
    match reply
    case None =>
      assert [Sleep(failureSleep)][..0] == [];
    case Some(NotObject) =>
      LoopErrorCounts(canReport);
    case Some(RequestRaised) =>
      LoopErrorCounts(canReport);
    case Some(Obj(_, _, _)) =>
      IntervalSleepCounts(canReport, pollInterval);
  }

  /** Appending to a prefix keeps the tail at the end. */
  lemma EndsLikeTail(pre: seq<Event>, tail: seq<Event>)
    requires |tail| >= 1
    ensures EndsWith(pre + tail, tail) && (pre + tail)[|pre + tail| - 1] == tail[|tail| - 1]
  {
    assert (pre + tail)[|pre|..] == tail;
  }

  /**
   * With work, the iteration first streams each line the executor handed to
   * the callback, then sends the one report, carrying the command id and the
   * executor's exit code and output.
   */
  lemma WorkIsStreamedThenReported(reply: Option<Reply>, child: ChildRun, failureSleep: int,
                                   canReport: bool, pollInterval: int)
    requires HasWork(reply)
    ensures var evs := AfterPoll(reply, child, failureSleep, canReport, pollInterval);
      var id := reply.value.commandId.value;
      var o := Executed(reply.value.command.value, child);
      && |evs| > |o.streamed|
      && evs[..|o.streamed|] == StreamEvents(id, o.streamed)
      && evs[|o.streamed|] == Report(id, o.result.exitCode, o.result.output)
  {
    var id := reply.value.commandId.value;
    var o := Executed(reply.value.command.value, child);
    var streams := StreamEvents(id, o.streamed);
    var report := Report(id, o.result.exitCode, o.result.output);
    AfterPollSplits(reply, child, failureSleep, canReport, pollInterval);
    assert Work(reply, child) == streams + [report];
    InsideAppend(streams, report, Pause(reply, failureSleep, canReport, pollInterval));
  }

  lemma InsideAppend(a: seq<Event>, e: Event, b: seq<Event>)
    ensures |a + [e] + b| > |a| && (a + [e] + b)[..|a|] == a && (a + [e] + b)[|a|] == e
  {
  }

  lemma LoopErrorCounts(canReport: bool)
    ensures CountReports(LoopError(canReport)) == 0 && CountPolls(LoopError(canReport)) == 0
    ensures NoPolls(LoopError(canReport)) && NoHeartbeats(LoopError(canReport))
  {
    var pre: seq<Event> := if canReport then [ErrorReport] else [];
    CountsAppend(pre, [Sleep(LoopErrorPause)]);
    assert pre == [] || pre[..0] == [];
    assert [Sleep(LoopErrorPause)][..0] == [];
  }

  lemma IntervalSleepCounts(canReport: bool, pollInterval: int)
    ensures CountReports(IntervalSleep(canReport, pollInterval)) == 0
    ensures CountPolls(IntervalSleep(canReport, pollInterval)) == 0
    ensures NoPolls(IntervalSleep(canReport, pollInterval)) && NoHeartbeats(IntervalSleep(canReport, pollInterval))
  {
    if pollInterval >= 0 {
      assert [Sleep(pollInterval)][..0] == [];
    } else {
      LoopErrorCounts(canReport);
    }
  }

  /**
   * The worker's invariant on its state: the backoff matches the failure
   * count, the heartbeats of the current run are spaced and the latest is
   * `last`, the session id is the one the replies gave, and every poll
   * carried the session id held when it was sent.
   */
  ghost predicate Consistent(log: seq<Event>, start: nat, last: int, backoff: int, errors: nat, session: Option<string>) {
    && start <= |log|
    && backoff == BackoffFor(errors)
    && HeartbeatInv(HeartbeatTimes(log[start..]), last)
    && session == SessionAfter(log)
    && PollsCarryLatestSession(log)
  }

  // ---- one pass, and a run, as functions of the loop's state ----------------------

  /** The values the loop carries from one pass to the next. */
  datatype LoopState = LoopState(backoff: int, errors: nat, lastHeartbeat: int, session: Option<string>)

  /** Where `poll_loop` starts: its locals reset, the global session id kept. */
  function RunStart(session: Option<string>): LoopState {
    LoopState(1, 0, 0, session)
  }

  /** The state after one pass with tick `t`. */
  function Step(s: LoopState, t: Tick): LoopState {
    var errors := if t.reply.None? then s.errors + 1 else if Answered(t.reply) then 0 else s.errors;
    LoopState(
      if t.reply.None? then BackoffAfterFailure(s.backoff, errors) else if Answered(t.reply) then 1 else s.backoff,
      errors,
      if HeartbeatDue(s.lastHeartbeat, t.now) then t.now else s.lastHeartbeat,
      AdoptReply(s.session, t.reply))
  }

  /** The events of one pass: the heartbeat when due, the poll, and what follows it. */
  function PassEvents(s: LoopState, t: Tick, canReport: bool, pollInterval: int): seq<Event> {
    (if HeartbeatDue(s.lastHeartbeat, t.now) then [Heartbeat(t.now)] else [])
    + [Poll(s.session, t.reply)]
    + AfterPoll(t.reply, t.child, Step(s, t).backoff, canReport, pollInterval)
  }

  /** A log extended by the heartbeat when due, the poll and what follows it has gained `PassEvents`. */
  lemma PassLogged(log0: seq<Event>, s: LoopState, t: Tick, canReport: bool, pollInterval: int,
                   backoff: int, log: seq<Event>)
    requires backoff == Step(s, t).backoff
    requires log == log0
      + (if HeartbeatDue(s.lastHeartbeat, t.now) then [Heartbeat(t.now)] else [])
      + [Poll(s.session, t.reply)]
      + AfterPoll(t.reply, t.child, backoff, canReport, pollInterval)
    ensures log == log0 + PassEvents(s, t, canReport, pollInterval)
  {
    var hb: seq<Event> := if HeartbeatDue(s.lastHeartbeat, t.now) then [Heartbeat(t.now)] else [];
    var poll: seq<Event> := [Poll(s.session, t.reply)];
    var rest := AfterPoll(t.reply, t.child, backoff, canReport, pollInterval);
    AppendAssoc(log0 + hb, poll, rest);
    AppendAssoc(hb, poll, rest);
    AppendAssoc(log0, hb, poll + rest);
  }

  /** The values a pass leaves behind are those `Step` gives. */
  lemma StepOf(s: LoopState, t: Tick, s1: LoopState)
    requires s1.lastHeartbeat == if HeartbeatDue(s.lastHeartbeat, t.now) then t.now else s.lastHeartbeat
    requires s1.session == AdoptReply(s.session, t.reply)
    requires t.reply.None? ==> s1.errors == s.errors + 1 && s1.backoff == BackoffAfterFailure(s.backoff, s1.errors)
    requires Answered(t.reply) ==> s1.errors == 0 && s1.backoff == 1
    requires t.reply == Some(RequestRaised) ==> s1.errors == s.errors && s1.backoff == s.backoff
    ensures s1 == Step(s, t)
  {
  }

  /** Concatenation regrouped, stated once so that large contexts need not rediscover it. */
  lemma AppendAssoc(a: seq<Event>, b: seq<Event>, c: seq<Event>)
    ensures a + b + c == a + (b + c)
  {
  }

  /** The state after a pass for each of `ticks`, in order. */
  function RunState(s: LoopState, ticks: seq<Tick>): LoopState {
    if ticks == [] then s else Step(RunState(s, ticks[..|ticks| - 1]), ticks[|ticks| - 1])
  }

  /** The events of a pass for each of `ticks`, in order. */
  function RunEvents(s: LoopState, ticks: seq<Tick>, canReport: bool, pollInterval: int): seq<Event> {
    if ticks == [] then []
    else
      RunEvents(s, ticks[..|ticks| - 1], canReport, pollInterval)
      + PassEvents(RunState(s, ticks[..|ticks| - 1]), ticks[|ticks| - 1], canReport, pollInterval)
  }

  lemma RunOneMore(s: LoopState, script: seq<Tick>, passes: nat, canReport: bool, pollInterval: int)
    requires passes < |script|
    ensures RunState(s, script[..passes + 1]) == Step(RunState(s, script[..passes]), script[passes])
    ensures RunEvents(s, script[..passes + 1], canReport, pollInterval) ==
      RunEvents(s, script[..passes], canReport, pollInterval)
      + PassEvents(RunState(s, script[..passes]), script[passes], canReport, pollInterval)
  {
    assert script[..passes + 1][..passes] == script[..passes];
  }

  /** The number of ticks whose reply carries work. */
  function WorkCount(ticks: seq<Tick>): nat {
    if ticks == [] then 0
    else WorkCount(ticks[..|ticks| - 1]) + (if HasWork(ticks[|ticks| - 1].reply) then 1 else 0)
  }

  /** The lengths of the sleeps among `evs`, in order. */
  function Sleeps(evs: seq<Event>): seq<int> {
    if evs == [] then []
    else Sleeps(evs[..|evs| - 1]) + (if evs[|evs| - 1].Sleep? then [evs[|evs| - 1].seconds] else [])
  }

  lemma {:induction false} SleepsAppend(a: seq<Event>, b: seq<Event>)
    ensures Sleeps(a + b) == Sleeps(a) + Sleeps(b)
    decreases |b|
  {
    if b != [] {
      SleepsAppend(a, b[..|b| - 1]);
      assert (a + b)[..|a + b| - 1] == a + b[..|b| - 1];
    } else {
      assert a + b == a;
    }
  }

  /** A pass polls once, and reports exactly when its reply carries work. */
  lemma PassCounts(s: LoopState, t: Tick, canReport: bool, pollInterval: int)
    ensures CountPolls(PassEvents(s, t, canReport, pollInterval)) == 1
    ensures CountReports(PassEvents(s, t, canReport, pollInterval)) == if HasWork(t.reply) then 1 else 0
  {
    var rest := AfterPoll(t.reply, t.child, Step(s, t).backoff, canReport, pollInterval);
    ReportExactlyOnce(t.reply, t.child, Step(s, t).backoff, canReport, pollInterval);
    HeadCounts(HeartbeatDue(s.lastHeartbeat, t.now), t.now, s.session, t.reply, rest);
  }

  /** The heartbeat and the poll that open a pass add one poll and no report. */
  lemma HeadCounts(due: bool, now: int, session: Option<string>, reply: Option<Reply>, rest: seq<Event>)
    ensures var evs := (if due then [Heartbeat(now)] else []) + [Poll(session, reply)] + rest;
      CountPolls(evs) == CountPolls(rest) + 1 && CountReports(evs) == CountReports(rest)
  {
    var hb: seq<Event> := if due then [Heartbeat(now)] else [];
    var poll: seq<Event> := [Poll(session, reply)];
    assert hb == [] || hb[..0] == [];
    assert poll[..0] == [];
    CountsAppend(hb, poll);
    CountsAppend(hb + poll, rest);
  }

  /** Over a run, one poll per pass and one report per pass whose reply carries work. */
  lemma {:induction false} RunCounts(s: LoopState, ticks: seq<Tick>, canReport: bool, pollInterval: int)
    ensures CountPolls(RunEvents(s, ticks, canReport, pollInterval)) == |ticks|
    ensures CountReports(RunEvents(s, ticks, canReport, pollInterval)) == WorkCount(ticks)
    decreases |ticks|
  {
    if ticks != [] {
      var init := ticks[..|ticks| - 1];
      RunCounts(s, init, canReport, pollInterval);
      PassCounts(RunState(s, init), ticks[|ticks| - 1], canReport, pollInterval);
      CountsAppend(RunEvents(s, init, canReport, pollInterval),
                   PassEvents(RunState(s, init), ticks[|ticks| - 1], canReport, pollInterval));
    }
  }

  /** A log extended by a run has one more report per pass with work. */
  lemma RunLogged(log0: seq<Event>, log: seq<Event>, s: LoopState, ticks: seq<Tick>, canReport: bool, pollInterval: int)
    requires log == log0 + RunEvents(s, ticks, canReport, pollInterval)
    ensures CountReports(log) == CountReports(log0) + WorkCount(ticks)
    ensures log[|log0|..] == RunEvents(s, ticks, canReport, pollInterval)
  {
    RunCounts(s, ticks, canReport, pollInterval);
    CountsAppend(log0, RunEvents(s, ticks, canReport, pollInterval));
  }

  /** A pass whose poll failed sleeps once, for the new backoff. */
  lemma FailedPassSleeps(s: LoopState, t: Tick, canReport: bool, pollInterval: int)
    requires t.reply.None?
    ensures Sleeps(PassEvents(s, t, canReport, pollInterval)) == [Step(s, t).backoff]
  {
    var hb: seq<Event> := if HeartbeatDue(s.lastHeartbeat, t.now) then [Heartbeat(t.now)] else [];
    var poll: seq<Event> := [Poll(s.session, t.reply)];
    var sleep: seq<Event> := [Sleep(Step(s, t).backoff)];
    assert PassEvents(s, t, canReport, pollInterval) == hb + poll + sleep;
    assert hb == [] || hb[..0] == [];
    assert poll[..0] == [];
    assert sleep[..0] == [];
    SleepsAppend(hb, poll);
    SleepsAppend(hb + poll, sleep);
  }

  /**
   * A pass whose poll request raised before it was sent leaves the error
   * count, the backoff and the session id as they were, reports no result,
   * and sleeps only the error handler's 5 seconds.
   */
  lemma RaisedPassPauses(s: LoopState, t: Tick, canReport: bool, pollInterval: int)
    requires t.reply == Some(RequestRaised)
    ensures Step(s, t).errors == s.errors && Step(s, t).backoff == s.backoff && Step(s, t).session == s.session
    ensures Sleeps(PassEvents(s, t, canReport, pollInterval)) == [LoopErrorPause]
    ensures CountReports(PassEvents(s, t, canReport, pollInterval)) == 0
  {
    var hb: seq<Event> := if HeartbeatDue(s.lastHeartbeat, t.now) then [Heartbeat(t.now)] else [];
    var poll: seq<Event> := [Poll(s.session, t.reply)];
    var err: seq<Event> := if canReport then [ErrorReport] else [];
    var pause: seq<Event> := [Sleep(LoopErrorPause)];
    assert PassEvents(s, t, canReport, pollInterval) == hb + poll + (err + pause);
    assert hb == [] || hb[..0] == [];
    assert poll[..0] == [];
    assert err == [] || err[..0] == [];
    assert pause[..0] == [];
    SleepsAppend(hb, poll);
    SleepsAppend(err, pause);
    SleepsAppend(hb + poll, err + pause);
    PassCounts(s, t, canReport, pollInterval);
  }

  /**
   * A run whose polls all fail sleeps exactly `FailureSleeps(n)` in its
   * n passes: 1 second ten times, then doubling up to 60.
   */
  lemma {:induction false} FailedRunSleeps(session: Option<string>, ticks: seq<Tick>, canReport: bool, pollInterval: int)
    requires forall j :: 0 <= j < |ticks| ==> ticks[j].reply.None?
    ensures Sleeps(RunEvents(RunStart(session), ticks, canReport, pollInterval)) == FailureSleeps(|ticks|)
    decreases |ticks|
  {
    if ticks != [] {
      var n := |ticks| - 1;
      var init := ticks[..n];
      assert forall j :: 0 <= j < |init| ==> init[j] == ticks[j];
      FailedRunSleeps(session, init, canReport, pollInterval);
      FailedRunState(session, ticks);
      var s := RunState(RunStart(session), init);
      FailedPassSleeps(s, ticks[n], canReport, pollInterval);
      SleepsAppend(RunEvents(RunStart(session), init, canReport, pollInterval), PassEvents(s, ticks[n], canReport, pollInterval));
    }
  }

  /** ... and after n such passes the counter is n and the backoff `BackoffFor(n)`. */
  lemma {:induction false} FailedRunState(session: Option<string>, ticks: seq<Tick>)
    requires forall j :: 0 <= j < |ticks| ==> ticks[j].reply.None?
    ensures RunState(RunStart(session), ticks).errors == |ticks|
    ensures RunState(RunStart(session), ticks).backoff == BackoffFor(|ticks|)
    decreases |ticks|
  {
    if ticks != [] {
      var init := ticks[..|ticks| - 1];
      assert forall j :: 0 <= j < |init| ==> init[j] == ticks[j];
      FailedRunState(session, init);
    }
  }

  /** The worker's state: `poll_loop`'s locals and the process-wide globals. */
  class Worker {
    const apiKey: string
    const backend: string
    const pollInterval: int

    var backoff: int
    var consecutiveErrors: nat
    var lastHeartbeat: int
    var sessionId: Option<string>
    var running: bool
    /** Everything sent and every sleep taken since the process started. */
    var log: seq<Event>
    /** Where in `log` the current `poll_loop` call began. */
    ghost var runStart: nat

    ghost predicate Valid()
      reads this
    {
      Consistent(log, runStart, lastHeartbeat, backoff, consecutiveErrors, sessionId)
    }

    /** The part of the state that carries from one pass to the next. */
    function State(): LoopState
      reads this
    {
      LoopState(backoff, consecutiveErrors, lastHeartbeat, sessionId)
    }

    /** Process start: `running` is true and there is no session id yet. */
    constructor (apiKey: string, backend: string, pollInterval: int)
      ensures Valid()
      ensures this.apiKey == apiKey && this.backend == backend && this.pollInterval == pollInterval
      ensures running && sessionId.None? && log == []
      ensures backoff == 1 && consecutiveErrors == 0 && lastHeartbeat == 0
    {
      this.apiKey := apiKey;
      this.backend := backend;
      this.pollInterval := pollInterval;
      backoff := 1;
      consecutiveErrors := 0;
      lastHeartbeat := 0;
      sessionId := None;
      running := true;
      log := [];
      runStart := 0;
    }

    /**
     * In a valid state, any two heartbeats of the current run are more than
     * a period apart per heartbeat between them, and the latest is `lastHeartbeat`.
     */
    lemma HeartbeatsApart(i: nat, j: nat)
      requires Valid()
      requires i < j < |HeartbeatTimes(log[runStart..])|
      ensures HeartbeatTimes(log[runStart..])[j] - HeartbeatTimes(log[runStart..])[i] > HeartbeatPeriod * (j - i)
      ensures HeartbeatTimes(log[runStart..])[j] <= lastHeartbeat - HeartbeatPeriod * (|HeartbeatTimes(log[runStart..])| - 1 - j)
    {
      var ts := HeartbeatTimes(log[runStart..]);
      SpacedPairwise(ts, i, j);
      if j < |ts| - 1 {
        SpacedPairwise(ts, j, |ts| - 1);
      }
    }

    /** `report_error` sends only when both a key and a backend are set. */
    predicate CanReport() {
      apiKey != "" && backend != ""
    }

    /** The signal handler: clear `running`; the loop notices at its next check. */
    method Interrupt()
      requires Valid()
      modifies this
      ensures Valid()
      ensures !running
      ensures log == old(log) && sessionId == old(sessionId) && backoff == old(backoff)
      ensures consecutiveErrors == old(consecutiveErrors) && lastHeartbeat == old(lastHeartbeat)
      ensures runStart == old(runStart)
    {
      running := false;
    }

    /**
     * The part of the loop body after the poll request: update the backoff
     * controller, adopt a session id, run and report a command when there is
     * one, and choose the sleep. Returns the events this sends, the new
     * counters and the new session id.
     */
    method Respond(reply: Option<Reply>, child: ChildRun, backoff0: int, errors0: nat, session0: Option<string>)
      returns (rest: seq<Event>, backoff1: int, errors1: nat, session1: Option<string>)
      requires WellFormed(child)
      ensures rest == AfterPoll(reply, child, backoff1, CanReport(), pollInterval)
      ensures session1 == AdoptReply(session0, reply)
      ensures reply.None? ==> errors1 == errors0 + 1 && backoff1 == BackoffAfterFailure(backoff0, errors1)
      ensures Answered(reply) ==> errors1 == 0 && backoff1 == 1
      ensures reply == Some(RequestRaised) ==> errors1 == errors0 && backoff1 == backoff0
    {
      backoff1, errors1, session1 := backoff0, errors0, session0;
      match reply {
        case None =>
          errors1 := errors1 + 1;
          if errors1 > ErrorThreshold {
            backoff1 := Min(backoff1 * 2, BackoffCap);
          }
          rest := [Sleep(backoff1)];
        case Some(RequestRaised) =>
          // the counters are untouched: the error handler reports and pauses
          rest := if apiKey != "" && backend != "" then [ErrorReport] else [];
          rest := rest + [Sleep(LoopErrorPause)];
        case Some(NotObject) =>
          errors1 := 0;
          backoff1 := 1;
          // `result.get` raises: the loop's error handler reports and pauses
          rest := if apiKey != "" && backend != "" then [ErrorReport] else [];
          rest := rest + [Sleep(LoopErrorPause)];
        case Some(Obj(sid, command, commandId)) =>
          errors1 := 0;
          backoff1 := 1;
          if Truthy(sid) {
            session1 := sid;
          }
          var work: seq<Event> := [];
          if Truthy(command) && Truthy(commandId) {
            var res, streamed, _ := Execute(command.value, child, true);
            work := StreamEvents(commandId.value, streamed) + [Report(commandId.value, res.exitCode, res.output)];
          }
          var pause: seq<Event>;
          if pollInterval >= 0 {
            pause := [Sleep(pollInterval)];
          } else {
            // `time.sleep` raises on a negative length: the error handler runs
            pause := (if apiKey != "" && backend != "" then [ErrorReport] else []) + [Sleep(LoopErrorPause)];
          }
          rest := work + pause;
      }
    }

    /** The heartbeat step: send one when due; failures are swallowed, the time of the attempt is kept. */
    method HeartbeatIfDue(now: int)
      requires Valid()
      modifies this
      ensures Valid()
      ensures lastHeartbeat == if HeartbeatDue(old(lastHeartbeat), now) then now else old(lastHeartbeat)
      ensures log == old(log) + (if HeartbeatDue(old(lastHeartbeat), now) then [Heartbeat(now)] else [])
      ensures running == old(running) && runStart == old(runStart) && sessionId == old(sessionId)
      ensures backoff == old(backoff) && consecutiveErrors == old(consecutiveErrors)
      ensures CountPolls(log) == CountPolls(old(log))
    {
      if HeartbeatDue(lastHeartbeat, now) {
        HeartbeatKeepsInvariants(log, runStart, lastHeartbeat, now);
        log := log + [Heartbeat(now)];
        lastHeartbeat := now;
      }
    }

    /** The poll request, carrying the current session id, and what follows it. */
    method PollAndRespond(t: Tick)
      requires Valid() && WellFormed(t.child)
      modifies this
      ensures Valid()
      ensures running == old(running) && runStart == old(runStart) && lastHeartbeat == old(lastHeartbeat)
      ensures sessionId == AdoptReply(old(sessionId), t.reply)
      ensures t.reply.None? ==>
        consecutiveErrors == old(consecutiveErrors) + 1 &&
        backoff == BackoffAfterFailure(old(backoff), consecutiveErrors)
      ensures Answered(t.reply) ==> consecutiveErrors == 0 && backoff == 1
      ensures t.reply == Some(RequestRaised) ==>
        consecutiveErrors == old(consecutiveErrors) && backoff == old(backoff)
      ensures log == old(log) + [Poll(old(sessionId), t.reply)] + AfterPoll(t.reply, t.child, backoff, CanReport(), pollInterval)
      ensures CountPolls(log) == CountPolls(old(log)) + 1
    {
      var poll := Poll(sessionId, t.reply);
      var rest, b, e, s := Respond(t.reply, t.child, backoff, consecutiveErrors, sessionId);
      AfterPollIsQuiet(t.reply, t.child, b, CanReport(), pollInterval);
      PollKeepsInvariants(log, runStart, lastHeartbeat, backoff, consecutiveErrors, t.reply, rest, b, e, s);
      backoff, consecutiveErrors, sessionId := b, e, s;
      log := log + [poll] + rest;
    }

    /** One pass of the loop body. */
    method Iterate(t: Tick)
      requires Valid() && WellFormed(t.child)
      modifies this
      ensures Valid()
      ensures running == old(running) && runStart == old(runStart)
      ensures lastHeartbeat == if HeartbeatDue(old(lastHeartbeat), t.now) then t.now else old(lastHeartbeat)
      ensures sessionId == AdoptReply(old(sessionId), t.reply)
      ensures t.reply.None? ==>
        consecutiveErrors == old(consecutiveErrors) + 1 &&
        backoff == BackoffAfterFailure(old(backoff), consecutiveErrors)
      ensures Answered(t.reply) ==> consecutiveErrors == 0 && backoff == 1
      ensures t.reply == Some(RequestRaised) ==>
        consecutiveErrors == old(consecutiveErrors) && backoff == old(backoff)
      ensures log == old(log)
        + (if HeartbeatDue(old(lastHeartbeat), t.now) then [Heartbeat(t.now)] else [])
        + [Poll(old(sessionId), t.reply)]
        + AfterPoll(t.reply, t.child, backoff, CanReport(), pollInterval)
      ensures CountPolls(log) == CountPolls(old(log)) + 1
    {
      HeartbeatIfDue(t.now);
      PollAndRespond(t);
    }

    /** One pass, then the signal (if the tick carries one) clears `running`. */
    method Pass(t: Tick)
      requires Valid() && WellFormed(t.child)
      modifies this
      ensures Valid()
      ensures running == (old(running) && !t.signal) && runStart == old(runStart)
      ensures State() == Step(old(State()), t)
      ensures log == old(log) + PassEvents(old(State()), t, CanReport(), pollInterval)
      ensures CountPolls(log) == CountPolls(old(log)) + 1
      ensures old(sessionId).Some? ==> sessionId.Some?
    {
      ghost var s0, log0 := State(), log;
      Iterate(t);
      PassLogged(log0, s0, t, CanReport(), pollInterval, backoff, log);
      StepOf(s0, t, State());
      if t.signal {
        Interrupt();
      }
    }

    /**
     * The loop's invariant after `passes` passes of a run that began with
     * `running` equal to `wasRunning`, `polls0` polls, session id `session0`
     * and log `log0`.
     */
    ghost predicate LoopInv(script: seq<Tick>, passes: nat, wasRunning: bool, polls0: nat,
                            session0: Option<string>, log0: seq<Event>)
      reads this
    {
      && passes <= |script|
      && Valid()
      && CountPolls(log) == polls0 + passes
      && (!wasRunning ==> passes == 0 && log == log0 && !running)
      && (wasRunning ==> forall j :: 0 <= j < passes - 1 ==> !script[j].signal)
      && (running <==> wasRunning && (passes == 0 || !script[passes - 1].signal))
      && (session0.Some? ==> sessionId.Some?)
      && State() == RunState(RunStart(session0), script[..passes])
      && log == log0 + RunEvents(RunStart(session0), script[..passes], CanReport(), pollInterval)
    }

    /** One more pass of a run keeps the loop's invariant. */
    method RunPass(script: seq<Tick>, passes: nat, ghost wasRunning: bool, ghost polls0: nat,
                   ghost session0: Option<string>, ghost log0: seq<Event>)
      requires LoopInv(script, passes, wasRunning, polls0, session0, log0)
      requires running && passes < |script| && WellFormed(script[passes].child)
      modifies this
      ensures LoopInv(script, passes + 1, wasRunning, polls0, session0, log0)
    {
      ghost var init := RunStart(session0);
      ghost var done := RunEvents(init, script[..passes], CanReport(), pollInterval);
      ghost var pass := PassEvents(State(), script[passes], CanReport(), pollInterval);
      RunOneMore(init, script, passes, CanReport(), pollInterval);
      Pass(script[passes]);
      AppendAssoc(log0, done, pass);
    }

    /** The `while running` loop of `poll_loop`, one tick per pass. */
    method RunPasses(script: seq<Tick>, ghost wasRunning: bool, ghost polls0: nat,
                     ghost session0: Option<string>, ghost log0: seq<Event>) returns (passes: nat)
      requires LoopInv(script, 0, wasRunning, polls0, session0, log0)
      requires forall i :: 0 <= i < |script| ==> WellFormed(script[i].child)
      modifies this
      ensures LoopInv(script, passes, wasRunning, polls0, session0, log0)
      ensures !(running && passes < |script|)
    {
      passes := 0;
      while running && passes < |script|
        invariant LoopInv(script, passes, wasRunning, polls0, session0, log0)
      {
        RunPass(script, passes, wasRunning, polls0, session0, log0);
        passes := passes + 1;
      }
    }

    /** The locals `poll_loop` starts from: backoff 1, no errors, no heartbeat yet. */
    method Reset()
      requires Valid()
      modifies this
      ensures Valid()
      ensures backoff == 1 && consecutiveErrors == 0 && lastHeartbeat == 0 && runStart == |log|
      ensures log == old(log) && running == old(running) && sessionId == old(sessionId)
    {
      backoff := 1;
      consecutiveErrors := 0;
      lastHeartbeat := 0;
      runStart := |log|;
      assert log[runStart..] == [];
    }

    /** Resetting the locals starts a run: no pass yet, from the state `RunStart` names. */
    method StartRun(script: seq<Tick>)
      requires Valid()
      modifies this
      ensures LoopInv(script, 0, old(running), old(CountPolls(log)), old(sessionId), old(log))
    {
      Reset();
      assert log == old(log) + RunEvents(RunStart(old(sessionId)), script[..0], CanReport(), pollInterval);
    }

    /**
     * `poll_loop`: reset the loop's locals (the globals `session_id` and
     * `running` survive), then iterate while `running`, one tick per pass;
     * a tick's signal clears `running` once its pass is complete. The
     * script bounds the number of passes.
     */
    method RunPollLoop(script: seq<Tick>) returns (passes: nat)
      requires Valid()
      requires forall i :: 0 <= i < |script| ==> WellFormed(script[i].child)
      modifies this
      ensures Valid()
      ensures passes <= |script|
      ensures CountPolls(log) == old(CountPolls(log)) + passes
      ensures !old(running) ==> passes == 0 && log == old(log)
      ensures old(running) ==> forall j :: 0 <= j < passes - 1 ==> !script[j].signal
      ensures running <==> old(running) && passes == |script| && (passes == 0 || !script[passes - 1].signal)
      ensures old(running) && passes < |script| ==> passes >= 1 && script[passes - 1].signal
      ensures old(sessionId).Some? ==> sessionId.Some?
      ensures State() == RunState(RunStart(old(sessionId)), script[..passes])
      ensures log == old(log) + RunEvents(RunStart(old(sessionId)), script[..passes], CanReport(), pollInterval)
      ensures CountReports(log) == old(CountReports(log)) + WorkCount(script[..passes])
      ensures (forall j :: 0 <= j < passes ==> script[j].reply.None?) ==>
        Sleeps(log[|old(log)|..]) == FailureSleeps(passes)
    {
      ghost var log0 := log;
      StartRun(script);
      passes := RunPasses(script, old(running), old(CountPolls(log)), old(sessionId), log0);
      RunLogged(log0, log, RunStart(old(sessionId)), script[..passes], CanReport(), pollInterval);
      if forall j :: 0 <= j < passes ==> script[j].reply.None? {
        FailedRunSleeps(old(sessionId), script[..passes], CanReport(), pollInterval);
      }
    }
  }

  predicate NoPolls(evs: seq<Event>) {
    forall i :: 0 <= i < |evs| ==> !evs[i].Poll?
  }

  predicate NoHeartbeats(evs: seq<Event>) {
    forall i :: 0 <= i < |evs| ==> !evs[i].Heartbeat?
  }

  /** After the poll request an iteration sends no further poll and no heartbeat. */
  lemma AfterPollIsQuiet(reply: Option<Reply>, child: ChildRun, failureSleep: int,
                         canReport: bool, pollInterval: int)
    ensures NoPolls(AfterPoll(reply, child, failureSleep, canReport, pollInterval))
    ensures NoHeartbeats(AfterPoll(reply, child, failureSleep, canReport, pollInterval))
  {
    AfterPollSplits(reply, child, failureSleep, canReport, pollInterval);
    WorkShape(reply, child);
    PauseShape(reply, failureSleep, canReport, pollInterval);
    QuietConcat(Work(reply, child), Pause(reply, failureSleep, canReport, pollInterval));
  }

  lemma QuietConcat(a: seq<Event>, b: seq<Event>)
    requires NoPolls(a) && NoHeartbeats(a) && NoPolls(b) && NoHeartbeats(b)
    ensures NoPolls(a + b) && NoHeartbeats(a + b)
  {
    forall i | 0 <= i < |a + b|
      ensures !(a + b)[i].Poll? && !(a + b)[i].Heartbeat?
    {
      if i < |a| {
        assert (a + b)[i] == a[i];
      } else {
        assert (a + b)[i] == b[i - |a|];
      }
    }
  }

  lemma {:induction false} HeartbeatTimesQuiet(evs: seq<Event>)
    requires NoHeartbeats(evs)
    ensures HeartbeatTimes(evs) == []
    decreases |evs|
  {
    if evs != [] {
      HeartbeatTimesQuiet(evs[..|evs| - 1]);
    }
  }

  lemma {:induction false} CountPollsQuiet(evs: seq<Event>)
    requires NoPolls(evs)
    ensures CountPolls(evs) == 0
    decreases |evs|
  {
    if evs != [] {
      CountPollsQuiet(evs[..|evs| - 1]);
    }
  }

  lemma {:induction false} SessionAfterNoPolls(a: seq<Event>, b: seq<Event>)
    requires NoPolls(b)
    ensures SessionAfter(a + b) == SessionAfter(a)
    decreases |b|
  {
    if b != [] {
      SessionAfterNoPolls(a, b[..|b| - 1]);
      assert (a + b)[..|a + b| - 1] == a + b[..|b| - 1];
    } else {
      assert a + b == a;
    }
  }

  lemma PrefixesKeepSessions(a: seq<Event>, b: seq<Event>)
    requires PollsCarryLatestSession(a) && NoPolls(b)
    ensures PollsCarryLatestSession(a + b)
  {
    forall i | 0 <= i < |a + b| && (a + b)[i].Poll?
      ensures (a + b)[i].session == SessionAfter((a + b)[..i])
    {
      assert i < |a|;
      assert (a + b)[..i] == a[..i];
    }
  }

  lemma PollPreservesSessions(a: seq<Event>, e: Event)
    requires PollsCarryLatestSession(a) && e.Poll? && e.session == SessionAfter(a)
    ensures PollsCarryLatestSession(a + [e])
  {
    forall i | 0 <= i < |a + [e]| && (a + [e])[i].Poll?
      ensures (a + [e])[i].session == SessionAfter((a + [e])[..i])
    {
      if i < |a| {
        assert (a + [e])[..i] == a[..i];
      } else {
        assert (a + [e])[..i] == a;
      }
    }
  }

  /** A heartbeat sent when due keeps the heartbeats of the run spaced. */
  lemma HeartbeatStep(ts: seq<int>, last: int, now: int)
    requires HeartbeatInv(ts, last)
    ensures HeartbeatDue(last, now) ==> HeartbeatInv(ts + [now], now)
  {
    if HeartbeatDue(last, now) {
      var ts' := ts + [now];
      forall i | 0 <= i < |ts'| - 1
        ensures ts'[i + 1] - ts'[i] > HeartbeatPeriod
      {
        if i + 1 < |ts| {
          assert ts'[i + 1] == ts[i + 1] && ts'[i] == ts[i];
        }
      }
    }
  }

  /** A heartbeat sent when due keeps the heartbeats of the run spaced; it is not a poll. */
  lemma HeartbeatKeepsInvariants(log0: seq<Event>, start: nat, last0: int, now: int)
    requires start <= |log0|
    requires HeartbeatInv(HeartbeatTimes(log0[start..]), last0)
    requires PollsCarryLatestSession(log0)
    requires HeartbeatDue(last0, now)
    ensures var log1 := log0 + [Heartbeat(now)];
      && HeartbeatInv(HeartbeatTimes(log1[start..]), now)
      && PollsCarryLatestSession(log1)
      && SessionAfter(log1) == SessionAfter(log0)
      && CountPolls(log1) == CountPolls(log0)
  {
    var hb := [Heartbeat(now)];
    var log1 := log0 + hb;
    assert log1[start..] == log0[start..] + hb;
    HeartbeatTimesAppend(log0[start..], hb);
    assert HeartbeatTimes(hb) == [now] by {
      assert hb[..0] == [];
    }
    HeartbeatStep(HeartbeatTimes(log0[start..]), last0, now);
    assert NoPolls(hb);
    SessionAfterNoPolls(log0, hb);
    PrefixesKeepSessions(log0, hb);
    CountPollsQuiet(hb);
    CountsAppend(log0, hb);
  }

  /** Events without heartbeats leave the heartbeat times of the run as they were. */
  lemma PollKeepsHeartbeats(log0: seq<Event>, start: nat, last0: int, tail: seq<Event>)
    requires start <= |log0|
    requires HeartbeatInv(HeartbeatTimes(log0[start..]), last0)
    requires NoHeartbeats(tail)
    ensures HeartbeatInv(HeartbeatTimes((log0 + tail)[start..]), last0)
  {
    assert (log0 + tail)[start..] == log0[start..] + tail;
    HeartbeatTimesQuiet(tail);
    HeartbeatTimesAppend(log0[start..], tail);
  }

  /** A poll carrying the current session id, then no polls: sessions stay consistent. */
  lemma PollKeepsSessions(log0: seq<Event>, reply: Option<Reply>, rest: seq<Event>)
    requires PollsCarryLatestSession(log0)
    requires NoPolls(rest)
    ensures var log1 := log0 + [Poll(SessionAfter(log0), reply)] + rest;
      && PollsCarryLatestSession(log1)
      && SessionAfter(log1) == AdoptReply(SessionAfter(log0), reply)
  {
    var p := Poll(SessionAfter(log0), reply);
    SessionAfterAppend(log0, p);
    PollPreservesSessions(log0, p);
    SessionAfterNoPolls(log0 + [p], rest);
    PrefixesKeepSessions(log0 + [p], rest);
  }

  /** One poll followed by no polls adds exactly one poll. */
  lemma PollCountsOne(log0: seq<Event>, p: Event, rest: seq<Event>)
    requires p.Poll? && NoPolls(rest)
    ensures CountPolls(log0 + [p] + rest) == CountPolls(log0) + 1
  {
    CountPollsQuiet(rest);
    assert [p][..0] == [];
    CountsAppend(log0, [p]);
    CountsAppend(log0 + [p], rest);
  }

  /**
   * A poll request carrying the current session id, followed by events that
   * are neither polls nor heartbeats, keeps every invariant of the log and
   * adds exactly one poll.
   */
  lemma PollKeepsInvariants(log0: seq<Event>, start: nat, last0: int, backoff0: int, errors0: nat,
                            reply: Option<Reply>, rest: seq<Event>, backoff1: int, errors1: nat, session1: Option<string>)
    requires Consistent(log0, start, last0, backoff0, errors0, SessionAfter(log0))
    requires NoPolls(rest) && NoHeartbeats(rest)
    requires session1 == AdoptReply(SessionAfter(log0), reply)
    requires reply.None? ==> errors1 == errors0 + 1 && backoff1 == BackoffAfterFailure(backoff0, errors1)
    requires Answered(reply) ==> errors1 == 0 && backoff1 == 1
    requires reply == Some(RequestRaised) ==> errors1 == errors0 && backoff1 == backoff0
    ensures Consistent(log0 + [Poll(SessionAfter(log0), reply)] + rest, start, last0, backoff1, errors1, session1)
    ensures CountPolls(log0 + [Poll(SessionAfter(log0), reply)] + rest) == CountPolls(log0) + 1
  {
    var p := Poll(SessionAfter(log0), reply);
    var log1 := log0 + [p] + rest;
    assert HeartbeatInv(HeartbeatTimes(log1[start..]), last0) by {
      var tail := [p] + rest;
      AppendAssoc(log0, [p], rest);
      assert NoHeartbeats(tail);
      PollKeepsHeartbeats(log0, start, last0, tail);
    }
    assert PollsCarryLatestSession(log1) && SessionAfter(log1) == session1 by {
      PollKeepsSessions(log0, reply, rest);
    }
    assert CountPolls(log1) == CountPolls(log0) + 1 by {
      PollCountsOne(log0, p, rest);
    }
    assert backoff1 == BackoffFor(errors1);
  }
}
