# Priority Living bridge worker, modelled in Dafny

This project models the bridge worker of the Priority Living command-line tool. The worker:
- polls a backend for shell commands;
- refuses dangerous ones;
- runs the others with a capped output buffer, streaming each line as it is read;
- reports each result, and backs off when the backend cannot be reached.

The model also covers:
- the start-up of `pl bridge start`, which checks the bridge key, looks up the worker's settings, and restarts the poll loop;
- the local configuration manager: defaults, merging, typed `set`, and masking of the bridge key.

The modules follow the program's structure:

- `Text`: the Python string operations the core relies on:
  - `str.lower`, `str.strip` and the substring test `in`;
  - `int()` and the rendering of integers;
  - the slices `s[:n]` and `s[-n:]`.
- `SafetyFilter`: `is_dangerous` and the nine blocked patterns.
- `Executor`: `execute_command`.
  - The child process is an input `ChildRun`: its output lines, its exit code, the exit code after a kill, whether `wait` timed out, and whether it could not be started.
  - The stream callback is modelled as the sequence of lines passed to it.
- `PollLoop`: `poll_loop` as the class `Worker`.
  - The fields are the loop's counters and the process-wide globals `running` and `session_id`.
  - `log` holds every request sent and every sleep taken: heartbeat, poll, stream chunk, result, error report, sleep.
  - Each pass of the loop consumes one `Tick`: the clock reading, the outcome of the poll (no reply, a reply that is not an object, an object, or a request that raised before it was sent), the child run, and whether a signal arrived.
- `Bridge`: `handle_bridge`, with the key gate, the settings, and the restart supervisor over a sequence of loop endings.
- `ConfigManager`: `load_config`, `config show`, `config set` and `config get`, over the file contents as an input.

Where the code is more specific than its design notes, the model follows the code:
- A heartbeat is sent when strictly more than 60 seconds have passed (`> 60`).
- A blocked command is reported with exit code 1.
- The supervisor uses only the `--auto-restart` flag; the configuration's `auto_restart` entry is never read by `handle_bridge`.
- The configuration's `poll_interval` is used only when `--poll-interval 0` is given, because the option defaults to 3.
- The settings are looked up with `cfg.get(key, fallback)`, which yields the stored entry even when it is empty; see "Findings".
- A negative `poll_interval` makes `time.sleep` raise after every object reply, so each such iteration takes the loop's error path.
- `api_request` builds its request before its `try`. A backend URL that cannot be parsed (an empty one, or one without a scheme) therefore makes every poll raise. The loop's error handler then runs with the counters untouched; the model calls this poll outcome `RequestRaised`.
- `poll_loop` returns only after `running` is cleared, since the signal handlers replace `KeyboardInterrupt`. So the supervisor's 5-second restart after a return is never taken (`Bridge.OnlyCrashesRestart`).

## Model

| member | source | states |
|---|---|---|
| Text.Lower | priority_living/bridge.py:71 | same length; each character lower-cased (ASCII letters moved by 32, others kept) |
| Text.LowerIdempotent | priority_living/bridge.py:71 | lower-casing twice is lower-casing once |
| Text.SameUpToCaseLower | priority_living/config_manager.py:61 | two strings equal up to letter case lower-case to the same string |
| Text.Strip | priority_living/bridge.py:71 | the result is a slice of the input starting after the leading whitespace; it neither starts nor ends with whitespace, and only whitespace follows it |
| Text.ContainsStripped | priority_living/bridge.py:71-72 | for a pattern without surrounding whitespace, stripping the text neither adds nor removes an occurrence |
| Text.IntToString | priority_living/config_manager.py:51 | non-empty; begins with `-` exactly for a negative number |
| Text.ParseInt | priority_living/config_manager.py:59 | a value exactly for an optional sign followed by one or more digits; negative only with a minus sign |
| Text.NatToStringRoundTrip | priority_living/config_manager.py:59 | the digits of a natural number parse back to it |
| Text.IntToStringRoundTrip | priority_living/config_manager.py:59 | `int(str(n)) == n` for every integer |
| Text.Take | priority_living/config_manager.py:67 | `s[:n]`: the first `min(n, len(s))` characters |
| Text.TakeLast | priority_living/config_manager.py:50 | `s[-n:]`: the last `min(n, len(s))` characters |
| SafetyFilter.AnyContained | priority_living/bridge.py:72 | true exactly when some pattern occurs in the text |
| SafetyFilter.PatternsAreTrimmed | priority_living/bridge.py:27-30 | every blocked pattern is non-empty and neither starts nor ends with whitespace |
| SafetyFilter.PatternsAreLower | priority_living/bridge.py:27-30 | every blocked pattern is already lower case |
| SafetyFilter.IsDangerous | priority_living/bridge.py:70-72 | dangerous exactly when some blocked pattern occurs in the lower-cased command (the strip cannot change the answer) |
| SafetyFilter.CaseNeverUnblocks | priority_living/bridge.py:70-72 | two commands equal up to letter case are judged alike |
| SafetyFilter.ContextNeverUnblocks | priority_living/bridge.py:70-72 | text added before or after a dangerous command keeps it dangerous |
| SafetyFilter.ContainsLowerIffEmbeds | priority_living/bridge.py:71-72 | a lower-case pattern occurs in the lower-cased text exactly when some slice of the text equals it up to case |
| SafetyFilter.DangerousIffEmbedsPattern | priority_living/bridge.py:70-72 | dangerous exactly when some slice of the command equals a blocked pattern up to case |
| SafetyFilter.EveryPatternBlocked | priority_living/bridge.py:27-30 | each of the nine deny-list entries, in any letter case, is a blocked command on its own |
| SafetyFilter.BlocksRecursiveRootDelete | priority_living/bridge.py:28 | `rm -rf /` is blocked |
| SafetyFilter.BlocksEmbeddedShutdown | priority_living/bridge.py:70-72 | `sudo Shutdown -h now` is blocked |
| SafetyFilter.AllowsEcho | priority_living/bridge.py:70-72 | `echo hi` is not blocked |
| Executor.TotalLength | priority_living/bridge.py:90 | zero exactly when every line is empty; at least the length of each line |
| Executor.Join | priority_living/bridge.py:96 | as long as all the lines together, and ending with the last line |
| Executor.TotalLengthMonotone | priority_living/bridge.py:90-91 | the total only grows as lines are read |
| Executor.LinesReadFrom | priority_living/bridge.py:86-94 | the loop, resumed after `i` lines, consumes at least `i` lines and at most all of them |
| Executor.LinesReadFromBounds | priority_living/bridge.py:86-94 | the read loop stops after the first line that pushes the total past the cap, or at end of output |
| Executor.ReadCountBounds | priority_living/bridge.py:86-94 | every shorter prefix stays within the cap; the loop is cut short exactly when the whole output exceeds the cap |
| Executor.Buffered | priority_living/bridge.py:85-94 | the lines read, then the truncation marker exactly when the cap was passed; every line when it was not |
| Executor.ReadOutput | priority_living/bridge.py:85-94 | the buffered lines are the lines read plus the marker when truncated; truncated exactly when the cap is passed; streamed lines are the lines read, in order |
| Executor.ExecSpec | priority_living/bridge.py:75-101 | the blocked message with code 1; code -1 with the error text when the launch or a read raises, or with the timeout message; otherwise the joined buffer with the child's own exit code, or the killed process's when the output passed the cap |
| Executor.StreamedSpec | priority_living/bridge.py:86-89 | a prefix of the child's lines; nothing for a blocked command, a failed launch or no callback; otherwise exactly the lines read, which is every line within the cap |
| Executor.Execute | priority_living/bridge.py:75-101 | the result is `ExecSpec` and the streamed lines `StreamedSpec`; a process exists exactly when the command passed the filter and the launch did not raise; a blocked command streams nothing |
| Executor.UntruncatedOutputIsConcatenation | priority_living/bridge.py:95-96 | output within the cap is returned whole, with the child's exit code |
| Executor.ReadErrorAfterStreaming | priority_living/bridge.py:86-101 | a read that raises after the child printed its lines yields code -1 and the error text, every line having been streamed |
| Executor.JoinLast | priority_living/bridge.py:96 | joining one more line appends it |
| Executor.TruncatedOutputShape | priority_living/bridge.py:90-96 | truncated output is the lines read plus the marker; its length is bounded by the cap plus the last line and the marker; the exit code is the killed process's |
| Executor.StreamedIsPrefix | priority_living/bridge.py:86-89 | the streamed lines are a prefix of the child's output |
| Executor.EchoScenario | priority_living/bridge.py:75-96 | `echo hi` printing one line yields exit code 0 and that line, streamed once |
| PollLoop.BackoffFor | priority_living/bridge.py:185-191 | the backoff always lies between 1 and 60 seconds |
| PollLoop.BackoffAfterFailure | priority_living/bridge.py:185-188 | up to ten consecutive errors the backoff stays; beyond, it doubles up to 60; it stays within 1 and 60 |
| PollLoop.BackoffClosedForm | priority_living/bridge.py:185-191 | after n consecutive failures the backoff is 1 up to ten failures, then `min(2^(n-10), 60)` |
| PollLoop.FailureSleeps | priority_living/bridge.py:185-190 | the sleeps after successive failures, each the backoff of that failure count |
| PollLoop.ElevenFailures | priority_living/bridge.py:185-190 | ten 1-second sleeps, then 2 seconds at the eleventh failure |
| PollLoop.HeartbeatDue | priority_living/bridge.py:170-171 | due exactly when at least 61 seconds have passed; the first pass of a run is due |
| PollLoop.SpacedPairwise | priority_living/bridge.py:170-173 | heartbeats spaced per pair are spaced over any distance |
| PollLoop.HeartbeatStep | priority_living/bridge.py:170-173 | sending a due heartbeat keeps the spacing invariant |
| PollLoop.AdoptReply | priority_living/bridge.py:196-197 | the session id becomes the reply's exactly when the reply is an object with a truthy `session_id`; otherwise it is kept; a held id is never dropped |
| PollLoop.SessionAfter | priority_living/bridge.py:196-197 | a held session id is never empty |
| PollLoop.SessionStaysAssigned | priority_living/bridge.py:196-197 | once a session id is held, later traffic never clears it |
| PollLoop.PollPreservesSessions | priority_living/bridge.py:175-197 | every poll carries the session id adopted from the replies before it |
| PollLoop.HasWork | priority_living/bridge.py:199-202 | work exactly when the reply is an object whose `command` and `command_id` are present and non-empty |
| PollLoop.WorkEvents | priority_living/bridge.py:205-223 | the work of one command: a stream request per line the executor streamed, then the one result with its exit code and output |
| PollLoop.StreamEvents | priority_living/bridge.py:205-212 | one stream chunk per line, in order, all under the command id |
| PollLoop.StreamsAreNotReports | priority_living/bridge.py:205-223 | stream chunks are neither results nor polls |
| PollLoop.AfterPoll | priority_living/bridge.py:185-235 | after a failed poll, one sleep of the backoff; after a reply that is not an object, or a request that raised before it was sent, the loop-error path (the self-report when the worker can send, then 5 s) |
| PollLoop.AfterPollSplits | priority_living/bridge.py:199-235 | an iteration is the work the reply carries followed by the pause that ends it |
| PollLoop.LoopError | priority_living/bridge.py:232-235 | the error handler: the self-report when the worker can send one, then the 5-second pause |
| PollLoop.IntervalSleep | priority_living/bridge.py:228-235 | `time.sleep(poll_interval)`, which raises for a negative interval and so runs the error handler instead |
| PollLoop.WorkIsStreamedThenReported | priority_living/bridge.py:202-223 | with work, each line the executor handed to the callback is streamed under the command id, in order, and then the one result carries that id and the executor's exit code and output |
| PollLoop.ReportExactlyOnce | priority_living/bridge.py:185-228 | after the poll, an iteration sends exactly one result when the reply carries work and none otherwise, and no further poll |
| PollLoop.EndsWithSleep | priority_living/bridge.py:185-235 | an iteration always ends with a sleep: the backoff after a failed poll, `poll_interval` after an object when it is not negative; otherwise it ends with the loop-error events and the 5-second pause |
| PollLoop.AfterPollIsQuiet | priority_living/bridge.py:185-235 | after the poll request an iteration sends no further poll and no heartbeat |
| PollLoop.PassCounts | priority_living/bridge.py:167-235 | one pass polls exactly once, and sends one result exactly when its reply carries work |
| PollLoop.RunCounts | priority_living/bridge.py:167-235 | over a run, the polls are as many as the passes and the results as many as the passes with work |
| PollLoop.RunLogged | priority_living/bridge.py:167-235 | a log extended by a run gains exactly the run's events and one result per pass with work |
| PollLoop.FailedRunState | priority_living/bridge.py:156-191 | after n failed polls from the start of a run the error count is n and the backoff is `BackoffFor(n)` |
| PollLoop.FailedRunSleeps | priority_living/bridge.py:156-191 | n passes with no reply from the start of a run sleep exactly `FailureSleeps(n)` |
| PollLoop.Step | priority_living/bridge.py:156-197 | the values one pass leaves behind: the error count and backoff after a failed poll, reset after an answer, kept after a request that raised; the new heartbeat time and session id |
| PollLoop.PassEvents | priority_living/bridge.py:167-235 | what one pass sends and sleeps: the heartbeat when due, the poll carrying the session id, then `AfterPoll` |
| PollLoop.RunState | priority_living/bridge.py:167-235 | the state after a pass for each tick in turn |
| PollLoop.RunEvents | priority_living/bridge.py:167-235 | the events of a pass for each tick in turn, each pass starting from the state the previous ones left |
| PollLoop.RaisedPassPauses | priority_living/bridge.py:45-58 | a pass whose request raised before it was sent keeps the error count, the backoff and the session id, sends no result, and sleeps only 5 s |
| PollLoop.Worker.constructor | priority_living/bridge.py:32-33 | at process start `running` is set and there is no session id |
| PollLoop.Worker.HeartbeatsApart | priority_living/bridge.py:170-173 | in any valid state, heartbeats of the current run are more than 60 s apart per step, and the latest is `last_heartbeat` |
| PollLoop.Worker.Reset | priority_living/bridge.py:156-159 | entering the loop sets the backoff to 1, the error count and `last_heartbeat` to 0, and leaves the log, `running` and the session id as they were |
| PollLoop.Worker.Interrupt | priority_living/bridge.py:36-39 | the signal handler clears `running` and changes nothing else |
| PollLoop.Worker.Respond | priority_living/bridge.py:185-235 | the events after a poll reply are `AfterPoll`; a failure counts up and sets the backoff, an answer resets both, a request that raised leaves both; session adoption |
| PollLoop.Worker.HeartbeatIfDue | priority_living/bridge.py:170-173 | a heartbeat is logged and `last_heartbeat` moved exactly when it is due |
| PollLoop.Worker.PollAndRespond | priority_living/bridge.py:175-235 | one poll carrying the current session id, then what the reply calls for; an answer resets the error count and backoff, a request that raised leaves them |
| PollLoop.Worker.Iterate | priority_living/bridge.py:167-228 | one pass: the heartbeat when due, the poll, and what follows, with the new counters and session id |
| PollLoop.Worker.Pass | priority_living/bridge.py:167-235 | one pass: the new state is `Step` of the old one, the log gains `PassEvents`, one more poll; a signal then clears `running` |
| PollLoop.Worker.StartRun | priority_living/bridge.py:155-159 | entering `poll_loop` starts a run: no pass yet, the state is `RunStart` of the session id, and the log is unchanged |
| PollLoop.Worker.RunPass | priority_living/bridge.py:167-235 | one more pass of a running loop keeps the run invariant: state `RunState`, log extended by `RunEvents`, one poll per pass, `running` cleared only by a signal |
| PollLoop.Worker.RunPasses | priority_living/bridge.py:167-235 | the `while running` loop keeps the run invariant and stops when `running` is cleared or the ticks run out |
| PollLoop.Worker.RunPollLoop | priority_living/bridge.py:154-235 | the counters are reset; the final state is `RunState` and the log gains `RunEvents` of the passes made; one poll per pass and one result per pass with work; from `None` replies only, the sleeps are `FailureSleeps(passes)`; the loop stops after the pass in which a signal arrived, never runs when not running, and a session id survives the run |
| Bridge.CheckKey | priority_living/bridge.py:245-251 | an accepted key starts with `pb_`; `--key` wins over the configured key; a given `--key` is accepted exactly when it has the prefix |
| Bridge.KeyRequiredIff | priority_living/bridge.py:245-248 | "key required" exactly when neither `--key` nor the configuration supplies a non-empty key |
| Bridge.ConfiguredKeyAcceptedIff | priority_living/bridge.py:245-251 | without `--key`, the configured key is accepted exactly when it is text with the prefix |
| Bridge.FreshInstallNeedsKey | priority_living/bridge.py:245-248 | with no key configured and no `--key`, start-up fails with "key required" |
| Bridge.ChosenKey | priority_living/bridge.py:245 | `--key` when given and non-empty, else the configured `bridge_key` when present, else nothing |
| Bridge.GetAsWritten | priority_living/bridge.py:254-256 | the stored value for a present key, the fallback only for an absent one |
| Bridge.FallbackUnreachableAsWritten | priority_living/bridge.py:254-256 | as written, an unset backend URL, anonymous key or machine name comes out empty, never the fallback |
| Bridge.Setting | priority_living/bridge.py:254-256 | corrected lookup: the configured value if non-empty, else the fallback |
| Bridge.SettingHonoursFallback | priority_living/bridge.py:254-256 | with the corrected lookup, an unset entry yields the fallback and a user's non-empty entry wins |
| Bridge.PollIntervalChoice | priority_living/bridge.py:257 | a non-zero `--poll-interval` is used as is |
| Bridge.ConfigPollIntervalShadowed | priority_living/bridge.py:257 | with the option's default 3, the configured `poll_interval` is ignored |
| Bridge.ZeroPollIntervalUsesConfig | priority_living/bridge.py:257 | under `--poll-interval 0` the configured value is used, and the built-in 3 only when the user file does not set it |
| Bridge.HostName | priority_living/bridge.py:34 | `platform.node() or "unknown"`: never empty, and the host name when there is one |
| Bridge.StartupGate | priority_living/bridge.py:244-257 | unknown action exactly for an action other than `start`; a failed key check exits with status 1; a launch carries the accepted key, the `--auto-restart` flag, the chosen poll interval, and the backend, anonymous key and machine name looked up as written (the stored entry whenever there is one) |
| Bridge.StartupDropsDefaultsAsWritten | priority_living/bridge.py:253-256 | as written, when the user file does not set them, the worker is handed empty strings for the backend, the anonymous key and (without `--name`) the machine name |
| Bridge.StartupGateCorrected | priority_living/bridge.py:253-256 | the corrected start-up agrees with the written one on whether it launches and on key, poll interval and flag, and uses the configured value only when it is non-empty, else the fallback |
| Bridge.CorrectedStartupUsesDefaults | priority_living/bridge.py:253-256 | with the corrected lookup, a fresh installation reaches the built-in backend, the built-in anonymous key and the host name |
| Bridge.RestartPause | priority_living/bridge.py:261-272 | a restart needs `--auto-restart`; a crash is always restarted under it, after 10 s; a return after 5 s |
| Bridge.StopIndex | priority_living/bridge.py:259-272 | the first loop ending after which the supervisor stops; every earlier one is followed by a restart |
| Bridge.NoAutoRestartStopsFirst | priority_living/bridge.py:262-270 | without `--auto-restart` the poll loop runs once |
| Bridge.AutoRestartStopsOnlyOnSignal | priority_living/bridge.py:262-272 | with `--auto-restart` the supervisor stops only after a return with `running` cleared |
| Bridge.OnlyCrashesRestart | priority_living/bridge.py:259-272 | as `poll_loop` returns only after `running` is cleared, every restart follows a crash, after 10 s, and a stop under `--auto-restart` follows a return |
| Bridge.Supervise | priority_living/bridge.py:259-272 | the runs started and the pauses between them follow the stop index of the loop endings |
| Bridge.HandleBridge | priority_living/bridge.py:240-274 | no poll loop runs unless the key passed the gate; a failed key check exits with status 1; otherwise the supervision as above |
| ConfigManager.LoadConfig | priority_living/config_manager.py:21-32 | defaults when the file is missing or unreadable; otherwise every default key plus the user's keys, the user's values winning |
| ConfigManager.DefaultConfig | priority_living/config_manager.py:10-18 | the seven default entries: empty key, backend, anonymous key and machine name; the models directory; `poll_interval` 3; `auto_restart` true |
| ConfigManager.LoadedHasDefaults | priority_living/config_manager.py:21-32 | every default key is present after loading |
| ConfigManager.SaveLoadRoundTrip | priority_living/config_manager.py:21-39 | loading a saved configuration gives it back |
| ConfigManager.ParseFlag | priority_living/config_manager.py:61 | true exactly when the value is `true`, `1` or `yes` in any letter case |
| ConfigManager.TypedValue | priority_living/config_manager.py:58-63 | a failed conversion exactly for a non-integer `poll_interval`; an integer that parses from the text for `poll_interval`; the flag for `auto_restart`; the raw text otherwise |
| ConfigManager.FlagIgnoresCase | priority_living/config_manager.py:61 | the boolean spelling is recognised whatever its letter case |
| ConfigManager.FlagExamples | priority_living/config_manager.py:61 | `Yes` and `1` are true; `on` and `false` are not |
| ConfigManager.SetEcho | priority_living/config_manager.py:65-67 | the value as given, except `bridge_key`: its first six characters and `...`, or `***` when it is six or shorter |
| ConfigManager.ConfigSet | priority_living/config_manager.py:55-68 | fails exactly for a non-integer `poll_interval`; otherwise only the named key changes, holding an integer, a boolean or the raw text by key |
| ConfigManager.MaskKey | priority_living/config_manager.py:50 | a key longer than ten characters shows its first six, `...` and its last four; a shorter one shows `***` |
| ConfigManager.MaskHidesKey | priority_living/config_manager.py:50 | the mask is at most 13 characters and shows only the first six and the last four; it equals the key only for `***` or a 13-character key with `...` in the middle |
| ConfigManager.SetEchoHidesKey | priority_living/config_manager.py:65-67 | the echo after setting the key shows at most its first six characters |
| ConfigManager.DisplayValue | priority_living/config_manager.py:47-51 | a non-empty `bridge_key` is masked, and raises exactly when it is not text; every other value is shown as it is |
| ConfigManager.ConfigGet | priority_living/config_manager.py:70-75 | a stored key is shown as `DisplayValue` shows it; an absent one as `[not set]` |
| ConfigManager.ConfigShow | priority_living/config_manager.py:43-53 | every stored key is shown as `DisplayValue` shows it; it raises exactly when displaying `bridge_key` does |
| ConfigManager.GetAbsentKey | priority_living/config_manager.py:72 | `get` of a key that is neither set nor a default shows `[not set]` |
| ConfigManager.ShowAgreesWithGet | priority_living/config_manager.py:43-75 | `show` and `get` display every key alike; a non-empty key is shown masked |
| ConfigManager.SetThenGetPollInterval | priority_living/config_manager.py:55-75 | setting `poll_interval` to a rendered integer stores that integer, and `get` shows it back |
| ConfigManager.SetThenGetBridgeKey | priority_living/config_manager.py:55-75 | a key set and read back is shown masked |

## Left out

- The HTTP transport (`api_request`, URLs, headers, JSON encoding) is not modelled: each request is an event in the worker's log, and each poll reply is an input. In particular, whether a poll raises before it is sent is part of that input and is not derived from the backend URL.
- The heartbeat's payload (GPU probing, disk space, installed models, versions) is not modelled; only the time it was sent.
- Process spawning, the shell, `kill` and `wait` are not modelled: their observable results are the fields of `ChildRun`.
- The error texts of exceptions are not modelled; the texts of a launch error and of a read error are inputs.
- Signals are not modelled as asynchronous: they become a flag on each tick, which clears `running` after that pass.
- `KeyboardInterrupt` inside the loop is not modelled.
- Clocks and sleeps are not modelled as real time: the clock is an integer reading per tick, and a sleep is an event.
- Printed status lines and the banner are not modelled.
- `report_error`'s payload and transport are not modelled; only whether it sends (key and backend non-empty).
- Reading and writing the configuration file are not modelled: the file is an input, and what `set` saves is the returned configuration.
- JSON values other than strings, integers and booleans (floats, null, lists, objects) are not modelled.
- Poll replies: the fields `session_id`, `command` and `command_id` of a poll reply are optional strings. A number or another JSON type there (for example a numeric `command_id`, or `0`, which is falsy) is not modelled.
- The worker's `poll_interval` is an integer. A configured value of another type (text, a boolean) reaching `time.sleep` is not modelled.
- `config show`'s printing order, and the lines it prints before a non-string `bridge_key` makes it raise, are not modelled.
- `diagnostics`, `models`, `agents` and the argument parser are not modelled; they are outside this core.
- With no sub-action, `pl bridge` has no `--key` option defined on its arguments, so reading it raises; `Bridge.StartupGate` takes the `start` options as given.
- Text.Lower: lower-cases ASCII letters only; Python's Unicode case mapping is not modelled.
- Text.ParseInt: accepts only an optional sign followed by ASCII digits; Python's `int()` also accepts surrounding whitespace, underscores and non-ASCII digits. It also places no limit on the number of digits, whereas CPython 3.11 and later raise `ValueError` when converting between `str` and `int` beyond 4300 digits. `Text.IntToStringRoundTrip` is therefore stated for every integer.
- PollLoop.Worker.RunPollLoop: the endless `while running` loop is bounded by the finite script of ticks.
- Bridge.Supervise: the endless restart loop is bounded by the finite sequence of loop endings.

## Findings

| source | as written | input that shows it | evidently intended | confidence | as-written member | corrected member |
|---|---|---|---|---|---|---|
| priority_living/bridge.py:253-256 | `cfg.get(key, fallback)` on a configuration from `load_config`, which always holds `backend_url`, `anon_key` and `machine_name` (empty by default) | no configuration file, then `pl bridge start --key pb_x`: the backend URL and anonymous key are empty, and the machine name is empty instead of the host name; with the empty backend every poll then raises before it is sent, so every pass takes the loop-error path and sleeps 5 s, with no backoff and the counters unchanged (`PollLoop.RaisedPassPauses`) | fall back to the built-in backend, anonymous key and host name when the entry is empty | not executed; high | Bridge.StartupDropsDefaultsAsWritten | Bridge.CorrectedStartupUsesDefaults |
