/**
 * The command executor of the bridge worker (`execute_command`). The child
 * process is abstracted by what the worker can observe of it: whether the
 * launch raised, the lines its merged stdout/stderr yields in order, the
 * return code it reports (on its own or after being killed) and whether the
 * 300-second wait expires.
 */
module Executor {

  import opened Wrappers
  import opened SafetyFilter

  /** Cap on the buffered output, in characters (`MAX_OUTPUT_CHARS`). */
  const MaxOutputChars: nat := 50000

  /** Appended as the last buffered element once the cap is passed. */
  const TruncationMarker: string := "\n... [output truncated] ..."

  const BlockedMessage: string := "\U{1F6AB} Command blocked: potentially dangerous operation."
  const TimeoutMessage: string := "\U{23F1} Command timed out (5 min limit)."
  const ErrorPrefix: string := "\U{274C} Execution error: "

  /** Exit code of a blocked command. */
  const BlockedExitCode: int := 1
  /** Exit code of a timed-out command and of an internal error. */
  const FailureExitCode: int := -1

  /** What the worker observes of one child process. */
  datatype ChildRun = ChildRun(
    launchError: Option<string>,  // the text of the exception the launch raised, if any
    lines: seq<string>,           // the lines `readline` yields, in order, up to end of file
    readError: Option<string>,    // the text of the exception `readline` raises after the last of `lines`, if any
    exitCode: int,                // return code when the child ends by itself
    killedExitCode: int,          // return code after the worker kills it
    timedOut: bool)               // the 300-second wait expires

  /** `readline` yields non-empty lines; the empty string means end of file. */
  predicate WellFormed(child: ChildRun) {
    forall i :: 0 <= i < |child.lines| ==> child.lines[i] != ""
  }

  datatype ExecResult = ExecResult(exitCode: int, output: string)

  /** `sum(len(l) for l in ls)`: zero exactly for empty lines only, and at least each line's length. */
  function TotalLength(ls: seq<string>): (n: nat)
    ensures n == 0 <==> forall i :: 0 <= i < |ls| ==> ls[i] == ""
    ensures forall i :: 0 <= i < |ls| ==> |ls[i]| <= n
  {
    if ls == [] then 0 else TotalLength(ls[..|ls| - 1]) + |ls[|ls| - 1]|
  }

  /** `"".join(ls)`: as long as all the lines together, and ending with the last line. */
  function Join(ls: seq<string>): (r: string)
    ensures |r| == TotalLength(ls)
    ensures ls != [] ==> |ls[|ls| - 1]| <= |r| && r[|r| - |ls[|ls| - 1]|..] == ls[|ls| - 1]
  {
    if ls == [] then "" else Join(ls[..|ls| - 1]) + ls[|ls| - 1]
  }

  lemma {:induction false} TotalLengthMonotone(ls: seq<string>, j: nat, k: nat)
    requires j <= k <= |ls|
    ensures TotalLength(ls[..j]) <= TotalLength(ls[..k])
    decreases k - j
  {
    if j < k {
      TotalLengthMonotone(ls, j, k - 1);
      assert ls[..k][..k - 1] == ls[..k - 1];
    }
  }

  /**
   * How many lines the read loop consumes, given that the first `i` lines
   * were read without passing the cap.
   */
  function LinesReadFrom(lines: seq<string>, i: nat): (k: nat)
    requires i <= |lines|
    ensures i <= k <= |lines|
    decreases |lines| - i
  {
    if i == |lines| then i
    else if TotalLength(lines[..i + 1]) > MaxOutputChars then i + 1
    else LinesReadFrom(lines, i + 1)
  }

  /** How many lines the read loop consumes. */
  function ReadCount(lines: seq<string>): (k: nat)
    ensures k <= |lines|
  {
    LinesReadFrom(lines, 0)
  }

  /** The read loop stopped because the cap was passed. */
  predicate Truncates(lines: seq<string>)
  {
    TotalLength(lines[..ReadCount(lines)]) > MaxOutputChars
  }

  /** `output_lines` when the loop ends. */
  function Buffered(lines: seq<string>): (b: seq<string>)
    ensures |b| == ReadCount(lines) + (if Truncates(lines) then 1 else 0)
    ensures b[..ReadCount(lines)] == lines[..ReadCount(lines)]
    ensures Truncates(lines) ==> b[|b| - 1] == TruncationMarker
    ensures !Truncates(lines) ==> b == lines
  {
    ReadCountBounds(lines);
    assert lines[..|lines|] == lines;
    lines[..ReadCount(lines)] + (if Truncates(lines) then [TruncationMarker] else [])
  }

  /**
   * `readline` raises instead of signalling end of file. It is reached only
   * when the loop was not cut short by the cap, after every line was
   * buffered and streamed.
   */
  predicate ReadFails(child: ChildRun) {
    child.readError.Some? && !Truncates(child.lines)
  }

  /**
   * The result `execute_command` returns: the blocked message; exit code -1
   * when the launch or a read raises or the wait times out; otherwise the
   * buffered output with the child's own exit code, or the exit code after
   * the kill when the cap was passed.
   */
  function ExecSpec(cmd: string, child: ChildRun): (r: ExecResult)
    ensures IsDangerous(cmd) ==> r == ExecResult(BlockedExitCode, BlockedMessage)
    ensures !IsDangerous(cmd) && (child.launchError.Some? || ReadFails(child) || child.timedOut) ==>
      r.exitCode == FailureExitCode
    ensures !IsDangerous(cmd) && child.launchError.Some? ==> r.output == ErrorPrefix + child.launchError.value
    ensures !IsDangerous(cmd) && child.launchError.None? && ReadFails(child) ==> r.output == ErrorPrefix + child.readError.value
    ensures !IsDangerous(cmd) && child.launchError.None? && !ReadFails(child) && child.timedOut ==> r.output == TimeoutMessage
    ensures !IsDangerous(cmd) && child.launchError.None? && !ReadFails(child) && !child.timedOut ==>
      && r.output == Join(Buffered(child.lines))
      && r.exitCode == (if TotalLength(child.lines) > MaxOutputChars then child.killedExitCode else child.exitCode)
  {
    ReadCountBounds(child.lines);
    if IsDangerous(cmd) then ExecResult(BlockedExitCode, BlockedMessage)
    else if child.launchError.Some? then ExecResult(FailureExitCode, ErrorPrefix + child.launchError.value)
    else if ReadFails(child) then ExecResult(FailureExitCode, ErrorPrefix + child.readError.value)
    else if child.timedOut then ExecResult(FailureExitCode, TimeoutMessage)
    else ExecResult(if Truncates(child.lines) then child.killedExitCode else child.exitCode,
                    Join(Buffered(child.lines)))
  }

  /** The lines handed to the stream callback, in the order of the calls. */
  function StreamedSpec(cmd: string, child: ChildRun, hasCallback: bool): (s: seq<string>)
    ensures |s| <= |child.lines| && s == child.lines[..|s|]
    ensures IsDangerous(cmd) || child.launchError.Some? || !hasCallback ==> s == []
    ensures hasCallback && !IsDangerous(cmd) && child.launchError.None? ==>
      |s| == ReadCount(child.lines) && (TotalLength(child.lines) <= MaxOutputChars ==> s == child.lines)
  {
    ReadCountBounds(child.lines);
    assert child.lines[..|child.lines|] == child.lines;
    if IsDangerous(cmd) || child.launchError.Some? || !hasCallback then []
    else child.lines[..ReadCount(child.lines)]
  }

  /**
   * The read loop: `k` lines are consumed; every prefix shorter than `k`
   * stays within the cap; the loop stops early exactly when the `k`-th line
   * pushes the total past the cap.
   */
  lemma {:induction false} LinesReadFromBounds(lines: seq<string>, i: nat)
    requires i <= |lines|
    requires TotalLength(lines[..i]) <= MaxOutputChars
    ensures var k := LinesReadFrom(lines, i);
      && i <= k <= |lines|
      && (forall j :: 0 <= j < k ==> TotalLength(lines[..j]) <= MaxOutputChars)
      && (k < |lines| ==> TotalLength(lines[..k]) > MaxOutputChars)
      && (TotalLength(lines[..k]) > MaxOutputChars ==> k >= 1 && TotalLength(lines[..k - 1]) <= MaxOutputChars)
    decreases |lines| - i
  {
    if i < |lines| {
      if TotalLength(lines[..i + 1]) <= MaxOutputChars {
        LinesReadFromBounds(lines, i + 1);
      }
      forall j | 0 <= j <= i
        ensures TotalLength(lines[..j]) <= MaxOutputChars
      {
        TotalLengthMonotone(lines, j, i);
      }
    } else {
      forall j | 0 <= j <= i
        ensures TotalLength(lines[..j]) <= MaxOutputChars
      {
        TotalLengthMonotone(lines, j, i);
      }
    }
  }

  /** The loop truncates exactly when all the lines together pass the cap. */
  lemma ReadCountBounds(lines: seq<string>)
    ensures ReadCount(lines) <= |lines|
    ensures forall j :: 0 <= j < ReadCount(lines) ==> TotalLength(lines[..j]) <= MaxOutputChars
    ensures Truncates(lines) <==> TotalLength(lines) > MaxOutputChars
    ensures !Truncates(lines) ==> ReadCount(lines) == |lines|
    ensures Truncates(lines) ==>
      ReadCount(lines) >= 1 && TotalLength(lines[..ReadCount(lines) - 1]) <= MaxOutputChars
  {
    LinesReadFromBounds(lines, 0);
    var k := ReadCount(lines);
    assert lines[..|lines|] == lines;
    TotalLengthMonotone(lines, k, |lines|);
  }

  /**
   * The read loop of `execute_command`: append each line, hand it to the
   * stream callback (when there is one), then stop with the marker once the
   * buffered total passes the cap.
   */
  method ReadOutput(lines: seq<string>, hasCallback: bool, failsAtEnd: bool)
    returns (outputLines: seq<string>, streamed: seq<string>, truncated: bool, failed: bool)
    ensures outputLines == Buffered(lines)
    ensures truncated <==> Truncates(lines)
    ensures failed <==> failsAtEnd && !Truncates(lines)
    ensures streamed == if hasCallback then lines[..ReadCount(lines)] else []
  {
    outputLines := [];
    streamed := [];
    truncated := false;
    failed := false;
    var i := 0;
    while i < |lines|
      invariant 0 <= i <= |lines|
      invariant outputLines == lines[..i]
      invariant streamed == if hasCallback then lines[..i] else []
      invariant LinesReadFrom(lines, i) == ReadCount(lines)
      invariant TotalLength(lines[..i]) <= MaxOutputChars
    {
      var line := lines[i];
      outputLines := outputLines + [line];
      assert outputLines == lines[..i + 1];
      if hasCallback {
        streamed := streamed + [line];
      }
      var total := TotalLength(outputLines);
      i := i + 1;
      if total > MaxOutputChars {
        outputLines := outputLines + [TruncationMarker];
        truncated := true;
        assert LinesReadFrom(lines, i - 1) == i;
        break;
      }
    }
    if !truncated {
      // the `readline` after the last line raises instead of returning ""
      failed := failsAtEnd;
    }
    ReadCountBounds(lines);
    assert i == ReadCount(lines);
  }

  /**
   * Runs one command. Out-parameters: the result, the lines passed to the
   * stream callback in call order (when `hasCallback`), and whether a child
   * process exists (the command passed the filter and the launch did not raise).
   */
  method Execute(cmd: string, child: ChildRun, hasCallback: bool)
    returns (res: ExecResult, streamed: seq<string>, launched: bool)
    requires WellFormed(child)
    ensures res == ExecSpec(cmd, child)
    ensures streamed == StreamedSpec(cmd, child, hasCallback)
    ensures launched <==> !IsDangerous(cmd) && child.launchError.None?
    ensures IsDangerous(cmd) ==> res == ExecResult(BlockedExitCode, BlockedMessage) && streamed == []
  {
    if IsDangerous(cmd) {
      return ExecResult(BlockedExitCode, BlockedMessage), [], false;
    }
    if child.launchError.Some? {
      return ExecResult(FailureExitCode, ErrorPrefix + child.launchError.value), [], false;
    }
    launched := true;
    var outputLines, truncated, failed;
    outputLines, streamed, truncated, failed := ReadOutput(child.lines, hasCallback, child.readError.Some?);
    ReadCountBounds(child.lines);
    if failed {
      res := ExecResult(FailureExitCode, ErrorPrefix + child.readError.value);
    } else if child.timedOut {
      res := ExecResult(FailureExitCode, TimeoutMessage);
    } else {
      res := ExecResult(if truncated then child.killedExitCode else child.exitCode, Join(outputLines));
    }
  }

  /**
   * Without truncation the output is every line, in order, and the stream
   * callback saw every line exactly once, in the same order.
   */
  lemma UntruncatedOutputIsConcatenation(cmd: string, child: ChildRun, hasCallback: bool)
    requires !IsDangerous(cmd) && child.launchError.None? && child.readError.None? && !child.timedOut
    requires TotalLength(child.lines) <= MaxOutputChars
    ensures ExecSpec(cmd, child) == ExecResult(child.exitCode, Join(child.lines))
    ensures StreamedSpec(cmd, child, hasCallback) == if hasCallback then child.lines else []
  {
    ReadCountBounds(child.lines);
    assert child.lines[..|child.lines|] == child.lines;
    assert Buffered(child.lines) == child.lines;
  }

  /**
   * A read that raises after the child printed its lines: every line was
   * already streamed, and the result is the execution error with code -1.
   */
  lemma ReadErrorAfterStreaming(cmd: string, child: ChildRun, e: string)
    requires !IsDangerous(cmd) && child.launchError.None? && child.readError == Some(e)
    requires TotalLength(child.lines) <= MaxOutputChars
    ensures ExecSpec(cmd, child) == ExecResult(FailureExitCode, ErrorPrefix + e)
    ensures StreamedSpec(cmd, child, true) == child.lines
  {
    ReadCountBounds(child.lines);
  }

  lemma JoinLast(ls: seq<string>, s: string)
    ensures Join(ls + [s]) == Join(ls) + s
  {
    assert (ls + [s])[..|ls|] == ls;
  }

  /**
   * With truncation the loop read `k` lines: the first `k - 1` stay within
   * the cap, the `k`-th passes it, the marker comes last, the child was
   * killed, and the output exceeds the cap by at most that line and the marker.
   */
  lemma TruncatedOutputShape(cmd: string, child: ChildRun, hasCallback: bool)
    requires !IsDangerous(cmd) && child.launchError.None? && !child.timedOut
    requires TotalLength(child.lines) > MaxOutputChars
    ensures var k := ReadCount(child.lines);
      var r := ExecSpec(cmd, child);
      && 1 <= k <= |child.lines|
      && TotalLength(child.lines[..k - 1]) <= MaxOutputChars < TotalLength(child.lines[..k])
      && r.exitCode == child.killedExitCode
      && r.output == Join(child.lines[..k]) + TruncationMarker
      && |r.output| <= MaxOutputChars + |child.lines[k - 1]| + |TruncationMarker|
      && StreamedSpec(cmd, child, hasCallback) == (if hasCallback then child.lines[..k] else [])
  {
    var lines := child.lines;
    ReadCountBounds(lines);
    var k := ReadCount(lines);
    JoinLast(lines[..k], TruncationMarker);
    assert lines[..k][..k - 1] == lines[..k - 1];
  }

  /**
   * The stream callback only ever sees lines the child produced, as a
   * prefix of its output, and each of them is also in the buffered output
   * at the same position; so the truncation marker is never streamed.
   */
  lemma StreamedIsPrefix(cmd: string, child: ChildRun, hasCallback: bool)
    ensures var s := StreamedSpec(cmd, child, hasCallback);
      && s == child.lines[..|s|]
      && (hasCallback && !IsDangerous(cmd) && child.launchError.None? ==>
            |s| <= |Buffered(child.lines)| && Buffered(child.lines)[..|s|] == s)
  {
    var s := StreamedSpec(cmd, child, hasCallback);
    if hasCallback && !IsDangerous(cmd) && child.launchError.None? {
      var k := ReadCount(child.lines);
      assert Buffered(child.lines)[..k] == child.lines[..k];
    }
  }

  /** The worked example: `echo hi` printing one line returns that line and code 0. */
  lemma EchoScenario(cmd: string, child: ChildRun)
    requires cmd == "echo hi"
    requires child == ChildRun(None, ["hi\n"], None, 0, -9, false)
    ensures ExecSpec(cmd, child) == ExecResult(0, "hi\n")
    ensures StreamedSpec(cmd, child, true) == ["hi\n"]
  {
    AllowsEcho(cmd);
    assert TotalLength(child.lines) == 3 by {
      assert child.lines[..0] == [];
    }
    UntruncatedOutputIsConcatenation(cmd, child, true);
    assert Join(child.lines) == "hi\n" by {
      assert child.lines[..0] == [];
    }
  }
}
