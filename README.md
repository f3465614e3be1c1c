# Codrex bridge core, modelled in Dafny

Codrex is a small web server that runs on a Windows host. It drives `tmux`
sessions inside WSL. Every shell command goes through one executor,
`run_wsl_bash`. On Windows it starts `wsl.exe` without a console window. When
the child is killed by a console interrupt (exit code `0xC000013A`,
STATUS_CONTROL_C_EXIT), the executor sleeps and tries again. On top of the
executor sit these parts:

- the tmux helpers: list panes, create, close and health;
- a classifier that reads a pane's screen text as error, waiting, running or idle;
- the request guards: access token, redirect target, and the desktop and
  compact mode switches;
- a Server-Sent Events encoder (`event:` / `data:` framing from section 9.2 of
  the WHATWG HTML Living Standard) that carries compact JSON;
- the legacy desktop forms: tap, click and key injection.

`app/server.py` is not part of this model. The behaviour modelled here is the
behaviour that `tests/test_run_wsl_bash.py` fixes by assertion. Every row of the
"## Model" table cites the test lines that pin it. Where the tests leave a choice open, the
model picks one and "## Left out" names it.

Modules, one file each:

- `wrappers.dfy`: `Option` and `Result`.
- `text.dfy`: the string operations the bridge relies on. These are Python's
  `rstrip`, `split` / `join` on one character, `in` on strings, and `int()` /
  `str()` on integers.
- `executor.dfy`: the retry loop. `WslHost` is a class holding the results
  still to come from the subprocess, the commands issued so far, and the number
  of sleeps. `RunWslBash` is a method with a loop, proved against the
  specification function `Execute`. Also here: the Windows creation flags and
  the `wsl.exe` resolution.
- `tmux.dfy`: pane listing, session create and close, and health.
- `progress.dfy`: the progress-state classifier.
- `guards.dfy`: access token, safe redirect, mode switches, and the legacy
  login form.
- `utf8.dfy`: UTF-8 encoding and decoding of the event stream.
- `json.dfy`: `json.dumps` with `ensure_ascii` and compact separators, for flat
  objects of booleans and integers, with a reference decoder for its strings.
- `sse.dfy`: `_sse_event_bytes`, with a reader for the event-stream format
  that reads a frame back.
- `desktop.dfy`: coordinate scaling, the tap and click forms, and key routing.

## Model

| member | source | states |
|---|---|---|
| Executor.CreationFlags | tests/test_run_wsl_bash.py:126-149 | on Windows the child gets CREATE_NEW_PROCESS_GROUP and CREATE_NO_WINDOW (`0x200 \| 0x08000000`) and nothing else, DETACHED_PROCESS in particular not; elsewhere no flags |
| Executor.AttemptsFrom | tests/test_run_wsl_bash.py:155-177 | from attempt k, between k+1 and the maximum number of attempts are made |
| Executor.AttemptsFromSpec | tests/test_run_wsl_bash.py:155-177 | every attempt before the last one was interrupted; the last one is not interrupted unless the attempt budget ran out |
| Executor.AttemptsUsedSpec | tests/test_run_wsl_bash.py:155-177 | between 1 and 3 attempts; all but the last were interrupted; stopping early means the last was not interrupted |
| Executor.Execute | tests/test_run_wsl_bash.py:137-177 | between 1 and 3 attempts, exactly the count the retry rule gives; every attempt before the last was interrupted; the result is the last attempt's exit code and stderr with its stdout right-stripped; the interrupt exit code is reported only after all attempts are used |
| Executor.NoRetryOnOrdinaryExit | tests/test_run_wsl_bash.py:137-153 | an ordinary first exit gives one attempt; the result is that run's exit code and stderr, with its stdout right-stripped |
| Executor.RetryAfterInterrupt | tests/test_run_wsl_bash.py:155-177 | an interrupt then an ordinary exit gives two attempts and the second run's result |
| Executor.WslHost.Run | tests/test_run_wsl_bash.py:162-163 | a run consumes the next scripted result and records the command |
| Executor.WslHost.Sleep | tests/test_run_wsl_bash.py:170-174 | a sleep only increments the sleep count |
| Executor.RunWslBash | tests/test_run_wsl_bash.py:155-177 | the loop returns `Execute` of the script; it consumes exactly `attempts` results, issues the command `attempts` times and sleeps `attempts - 1` times |
| Executor.InterruptedThenReady | tests/test_run_wsl_bash.py:155-177 | exit codes [3221225786, 0] give 2 runs, 1 sleep, exit code 0, stdout `ready`, attempts 2 |
| Executor.FirstRunSucceeds | tests/test_run_wsl_bash.py:137-153 | an exit of 0 with stdout `ok\n` gives 1 run, no sleep, stdout `ok`, attempts 1 |
| Executor.WslExecutable | tests/test_run_wsl_bash.py:268-288 | off Windows the configured value; on Windows the configured path if it exists, else `<SystemRoot>\System32\wsl.exe` if that exists; never any other path |
| Executor.WslExecutableExists | tests/test_run_wsl_bash.py:274-283 | when either candidate exists on Windows, the one chosen exists |
| Text.TrimRight | tests/test_run_wsl_bash.py:152 | the result is a prefix of the input; what is cut is all whitespace; the result does not end in whitespace |
| Text.TrimRightIdempotent | tests/test_run_wsl_bash.py:152 | stripping twice is stripping once |
| Tmux.ParsePaneLine | tests/test_run_wsl_bash.py:191-203 | a line is a pane exactly when, after `\t` escapes become tabs, it has 7 tab-separated fields, and the pane holds those fields in order |
| Tmux.ParsePanes | tests/test_run_wsl_bash.py:181-203 | no more panes than output lines |
| Tmux.ParsePanesAppend | tests/test_run_wsl_bash.py:181-203 | parsing is line by line: the panes of two blocks of lines are the panes of each, in order |
| Tmux.MalformedLineSkipped | tests/test_run_wsl_bash.py:181-203 | a line without 7 fields contributes nothing and does not disturb the others |
| Tmux.ParsedPanesComeFromLines | tests/test_run_wsl_bash.py:181-203 | every pane listed is the parse of some output line |
| Tmux.PaneLineRoundTrip | tests/test_run_wsl_bash.py:191-203 | a pane printed with escaped-tab separators parses back to itself |
| Tmux.ListPanesRoundTrip | tests/test_run_wsl_bash.py:181-203 | the listing of the printed lines of any panes is those panes, ok |
| Tmux.PanesOfLines | tests/test_run_wsl_bash.py:181-203 | parsing the printed lines of any panes gives back those panes |
| Tmux.ListPanes | tests/test_run_wsl_bash.py:181-203 | the listing is ok, and empty stdout gives no panes |
| Tmux.ListPanesEscapedSample | tests/test_run_wsl_bash.py:191-203 | `codex\t0\t0\t%1\t1\tbash\t/home/megha` gives one pane, session `codex`, pane id `%1` |
| Tmux.SamplePaneLine | tests/test_run_wsl_bash.py:191-203 | that pane prints as exactly that line |
| Tmux.ValidNameAvoids | tests/test_run_wsl_bash.py:229-231 | a valid session name holds no space or other character outside the safe set |
| Tmux.CreateCommand | tests/test_run_wsl_bash.py:207-227 | the command is the words `tmux new-session -d`, then `-s` and the name when one is given, joined by spaces |
| Tmux.CreateCommandWords | tests/test_run_wsl_bash.py:207-227 | a valid name cannot change the command's shape: its words are the fixed words then the name |
| Tmux.CreateSession | tests/test_run_wsl_bash.py:207-231 | an invalid name is an error and runs nothing; otherwise exactly one `tmux new-session -d [-s name]` is run and the name is echoed |
| Tmux.CreateNamedSample | tests/test_run_wsl_bash.py:207-216 | `codex` runs exactly `tmux new-session -d -s codex`, and a 0 exit gives ok with name `codex` |
| Tmux.CreateBareSample | tests/test_run_wsl_bash.py:218-227 | no name runs exactly `tmux new-session -d`, and a 0 exit gives ok with no name |
| Tmux.CreateInvalidSample | tests/test_run_wsl_bash.py:229-231 | `bad name` is rejected and nothing is run |
| Tmux.ClassifyClose | tests/test_run_wsl_bash.py:246-264 | `can't find session` gives not_found before `failed to connect to server` gives tmux_server_not_running; no error exactly when the exit is 0 and neither is present; not_found exactly when `can't find session` occurs, tmux_server_not_running exactly when only `failed to connect to server` does; any other failure is a generic failure carrying stderr |
| Tmux.CloseCommand | tests/test_run_wsl_bash.py:235-244 | the command is the words `tmux kill-session -t` and the name, joined by spaces |
| Tmux.CloseCommandWords | tests/test_run_wsl_bash.py:235-244 | the close command's words are `tmux kill-session -t` and the name |
| Tmux.CloseSession | tests/test_run_wsl_bash.py:235-264 | an invalid name runs nothing; otherwise one `tmux kill-session -t name` runs, the session is echoed, and ok holds exactly when the classification finds no error |
| Tmux.ClassifyNotFoundSample | tests/test_run_wsl_bash.py:246-254 | `can't find session: codex` is not_found |
| Tmux.ClassifyNoServerSample | tests/test_run_wsl_bash.py:256-264 | `failed to connect to server` is tmux_server_not_running |
| Tmux.ClassifyCleanSample | tests/test_run_wsl_bash.py:235-244 | exit 0 with empty stderr is no error |
| Tmux.CloseSessionSamples | tests/test_run_wsl_bash.py:235-264 | closing `codex` runs `tmux kill-session -t codex` and yields ok, not_found or tmux_server_not_running as stderr says |
| Tmux.CountNonBlank | tests/test_run_wsl_bash.py:314-323 | the count of non-blank lines is at most the number of lines |
| Tmux.TmuxHealth | tests/test_run_wsl_bash.py:314-355 | tmux_error exactly for a failure without `failed to connect to server`, no_server exactly for one with it; ok unless tmux_error; count positive exactly in state ok; on success, count is the non-blank lines |
| Tmux.CountNonBlankAppend | tests/test_run_wsl_bash.py:314-323 | the count of non-blank lines adds up over blocks of lines |
| Tmux.SessionLinesCount | tests/test_run_wsl_bash.py:314-323 | newline-terminated valid session names count as one each |
| Tmux.HealthCountsSessions | tests/test_run_wsl_bash.py:314-334 | any list of valid session names, one per line, gives ok with that count, or empty when there are none |
| Tmux.HealthTwoSessions | tests/test_run_wsl_bash.py:314-323 | `codex\ncodex_trial\n` gives ok, state ok, count 2 |
| Tmux.HealthNoSessions | tests/test_run_wsl_bash.py:325-334 | empty stdout gives ok, state empty, count 0 |
| Tmux.HealthFailures | tests/test_run_wsl_bash.py:336-355 | `failed to connect to server` gives ok, no_server, 0; another failure gives not ok, tmux_error |
| Progress.InferProgressState | tests/test_run_wsl_bash.py:359-369 | error exactly when an error marker occurs; waiting exactly when no error marker and a prompt marker occur; otherwise running exactly when a non-empty command is reported and the screen shows no idle marker, idle otherwise |
| Progress.ErrorSticks | tests/test_run_wsl_bash.py:359-360 | text classified as error stays error with anything added around it and any command |
| Progress.WaitingOutranksCommand | tests/test_run_wsl_bash.py:362-366 | a waiting prompt stays waiting whatever command is reported |
| Progress.CommandDecidesOnlyRunning | tests/test_run_wsl_bash.py:365-369 | the command never changes error or waiting; between running and idle it decides only while the screen shows no idle marker |
| Progress.ReadyMarkerMeansIdle | tests/test_run_wsl_bash.py:365-369 | a screen showing the idle marker, with no error or prompt anywhere around it, is idle whatever command is reported |
| Progress.ErrorSample | tests/test_run_wsl_bash.py:359-360 | `Traceback: failed to open file` is error |
| Progress.WaitingSample | tests/test_run_wsl_bash.py:362-363 | `Please approve this command (y/n)` is waiting |
| Progress.RunningSample | tests/test_run_wsl_bash.py:365-366 | empty text with command `codex` is running |
| Progress.IdleSample | tests/test_run_wsl_bash.py:368-369 | `ready` with no command is idle |
| Progress.ReadyWithCommandSample | tests/test_run_wsl_bash.py:368-369 | `ready` with command `codex` is still idle |
| Guards.IsValidAuthToken | tests/test_run_wsl_bash.py:371-376 | every token passes when authentication is not required; otherwise a token passes exactly when a token is configured and it equals it; the empty token never passes then |
| Guards.AuthTokenSamples | tests/test_run_wsl_bash.py:371-376 | with secret `secret`: `secret` passes, `wrong` and the empty token fail |
| Guards.SafeNextPath | tests/test_run_wsl_bash.py:463-467 | the result is always a local path; the input is kept exactly when it is local; otherwise the result is `/` |
| Guards.SafeNextPathIdempotent | tests/test_run_wsl_bash.py:463-467 | guarding twice is guarding once |
| Guards.SafeNextPathSamples | tests/test_run_wsl_bash.py:463-467 | `/` and `/diag/status` are kept; `https://evil.example` and `//evil.example` become `/` |
| Guards.ParseFlag | tests/test_run_wsl_bash.py:380-410 | a value is on exactly when truthy, off exactly when falsy, unrecognised otherwise |
| Guards.FlagIn | tests/test_run_wsl_bash.py:380-396 | a map gives a switch only for a key it holds, and then gives that value's switch |
| Guards.DesktopEnabled | tests/test_run_wsl_bash.py:380-396 | desktop mode is off exactly when the query holds a falsy `desktop` value, or the query does not decide and the cookie holds a falsy value |
| Guards.DesktopPrecedence | tests/test_run_wsl_bash.py:380-396 | a recognised query value decides; else a recognised cookie decides; else desktop mode is on |
| Guards.DesktopQueryOverridesCookie | tests/test_run_wsl_bash.py:391-396 | when the query decides, the cookies do not matter |
| Guards.DesktopSamples | tests/test_run_wsl_bash.py:380-396 | no switches gives on; cookie `0` gives off; query `on` over cookie `off` gives on |
| Guards.CompactFlag | tests/test_run_wsl_bash.py:399-410 | a compact value is on exactly when truthy or `mobile`, off exactly when falsy |
| Guards.CompactEnabled | tests/test_run_wsl_bash.py:399-410 | compact is on exactly when the query holds a truthy `compact` value or `mobile`, or the query does not decide and the compact cookie holds one |
| Guards.CompactPrecedence | tests/test_run_wsl_bash.py:399-410 | a recognised query value decides; else a recognised cookie decides; else compact is off |
| Guards.CompactSamples | tests/test_run_wsl_bash.py:399-410 | no query gives off; `compact=1` and `compact=mobile` give on; a query `0` overrides a cookie `1` |
| Guards.LegacyAuthLogin | tests/test_run_wsl_bash.py:525-538 | a failing token gives exactly a 401, not-ok page with error `unauthorized`; a passing one redirects to `next` when `next` is a local path and to `/` otherwise |
| Guards.LegacyAuthLoginSample | tests/test_run_wsl_bash.py:525-538 | token `wrong` against `secret` gives 401, not ok, `unauthorized` |
| Utf8.EncodeChar | tests/test_run_wsl_bash.py:446-449 | one to four bytes; one byte exactly for ASCII, and then that code; otherwise every byte is 0x80 or above |
| Utf8.DecodeEncodeChar | tests/test_run_wsl_bash.py:446-449 | decoding a character's bytes gives the character back and uses up exactly its bytes |
| Utf8.DecodeEncode | tests/test_run_wsl_bash.py:446-449 | `s.encode("utf-8").decode("utf-8") == s` for every string |
| Utf8.EncodeAppend | tests/test_run_wsl_bash.py:446-449 | encoding a concatenation is concatenating the encodings |
| Utf8.AsciiByteIn | tests/test_run_wsl_bash.py:456-459 | an ASCII byte occurs in the encoding exactly when its character occurs in the text |
| Json.Hex4RoundTrip | tests/test_run_wsl_bash.py:446-454 | the four hex digits of a `\u` escape read back as the code unit |
| Json.EscapeChar | tests/test_run_wsl_bash.py:446-454 | the escape of any character is printable ASCII; it is the character itself exactly for printable ASCII other than quote and backslash |
| Json.EscapeString | tests/test_run_wsl_bash.py:446-454 | an escaped string is printable ASCII and no shorter than the input |
| Json.Quote | tests/test_run_wsl_bash.py:446-454 | a quoted string is printable ASCII between double quotes |
| Json.UnescapeChar | tests/test_run_wsl_bash.py:446-454 | decoding the escape of any character, short, `\uXXXX` or surrogate pair, gives the character back |
| Json.UnescapeEscape | tests/test_run_wsl_bash.py:446-454 | decoding the escape of any string gives the string back |
| Json.ObjectText | tests/test_run_wsl_bash.py:446-454 | the object text is wrapped in braces |
| Json.ObjectContainsMember | tests/test_run_wsl_bash.py:446-454 | every member of the payload appears in the object as `"key":value` |
| Json.ValueTextRoundTrip | tests/test_run_wsl_bash.py:446-454 | the text written for an integer reads back as that integer |
| Json.ObjectAvoidsNewline | tests/test_run_wsl_bash.py:446-454 | compact JSON holds no line feed or carriage return, so it fits on one `data:` line |
| Sse.SanitizeName | tests/test_run_wsl_bash.py:456-459 | same length; each CR or LF becomes a space and every other character is kept |
| Sse.SanitizeNameClean | tests/test_run_wsl_bash.py:456-459 | a sanitized name holds no CR or LF, and sanitizing again changes nothing |
| Sse.SanitizeNamePlain | tests/test_run_wsl_bash.py:446-449 | a name without CR or LF is kept as it is |
| Sse.EventText | tests/test_run_wsl_bash.py:446-454 | every event starts with `event: <sanitized name>\n`, contains `\ndata: ` and ends with `\n\n` |
| Sse.EventBytes | tests/test_run_wsl_bash.py:446-459 | the event's bytes decode as UTF-8 back to its text |
| Sse.StreamLinesWithoutCR | tests/test_run_wsl_bash.py:446-459 | without carriage returns, stream lines are the split on line feeds |
| Sse.FieldOfLine | tests/test_run_wsl_bash.py:446-459 | `field: value` reads back as that field and value |
| Sse.EventLines | tests/test_run_wsl_bash.py:446-459 | an event is exactly the lines `event: <name>`, `data: <json>` and a blank line, and holds no CR |
| Sse.EventRoundTrip | tests/test_run_wsl_bash.py:446-459 | an event-stream reader reads an encoded event back as its sanitized type (or `message`) and its JSON data |
| Sse.EventLineHasNoBreakByte | tests/test_run_wsl_bash.py:456-459 | the encoded event line holds no 0x0A or 0x0D byte, whatever the name |
| Sse.EventHoldsMember | tests/test_run_wsl_bash.py:446-454 | every payload member appears in the event as `"key":value` |
| Sse.SampleObject | tests/test_run_wsl_bash.py:446-454 | `{"ok": True, "x": 1}` is written `{"ok":true,"x":1}` |
| Sse.ScreenEventSample | tests/test_run_wsl_bash.py:446-452 | the `screen` event starts with `event: screen\n`, contains `\ndata: `, ends with `\n\n` |
| Sse.ScreenEventMembers | tests/test_run_wsl_bash.py:446-454 | the `screen` event holds `"ok":true` and `"x":1` |
| Sse.SanitizedNameSample | tests/test_run_wsl_bash.py:456-459 | `bad\nev\rname` is sanitized to `bad ev name` |
| Sse.SanitizedEventSample | tests/test_run_wsl_bash.py:456-459 | its event holds `event: bad ev name\n` |
| Desktop.TruncDiv | tests/test_run_wsl_bash.py:489-510 | Python's `int()` of a quotient: the floor for non-negative dividends, and symmetric for negative ones |
| Desktop.ScaleCoord | tests/test_run_wsl_bash.py:489-510 | for a non-negative exact position the result is the largest r with r·rendered ≤ v·full; for a negative one, minus the same for its magnitude (truncation toward zero) |
| Desktop.ScaleCoordBounds | tests/test_run_wsl_bash.py:489-510 | the scaled coordinate is the largest r with r·rendered ≤ v·full; a point inside the rendering lands inside the monitor |
| Desktop.ScaleCoordOdd | tests/test_run_wsl_bash.py:489-510 | scaling truncates toward zero: negating the input negates the output |
| Desktop.ScaleCoordMonotone | tests/test_run_wsl_bash.py:489-510 | scaling keeps the order of non-negative coordinates |
| Desktop.ScaleCoordSameSize | tests/test_run_wsl_bash.py:489-510 | a rendering the size of the monitor leaves coordinates unchanged |
| Desktop.TapPoint | tests/test_run_wsl_bash.py:469-510 | without a positive rendering width and height the tap is clicked as given; with them, each coordinate is scaled by monitor size over rendering size, truncated toward zero; a tap inside the rendering clicks inside the monitor |
| Desktop.LegacyDesktopTap | tests/test_run_wsl_bash.py:469-510 | exactly one click, at the tap point, with the given button and double flag, and a 200 page carrying the click's success |
| Desktop.TapSamples | tests/test_run_wsl_bash.py:469-510 | (44,55) unscaled clicks (44,55) with double false and status 200; (210,118) on 420×236 over 1920×1080 clicks (960,540) |
| Desktop.ClickCoords | tests/test_run_wsl_bash.py:512-523 | x and y given apart is not-paired; neither given is no coordinates; both given are both parsed, or not-integers |
| Desktop.LegacyDesktopClick | tests/test_run_wsl_bash.py:512-523 | a coordinate error gives a 400 not-ok page with its detail and no click; otherwise exactly one click with the parsed coordinates and a 200 page |
| Desktop.ClickCoordsRoundTrip | tests/test_run_wsl_bash.py:512-523 | any pair of integers written out is read back as that pair |
| Desktop.ClickUnpairedSample | tests/test_run_wsl_bash.py:512-523 | x `120` with y empty gives no click and a 400 not-ok page whose detail contains `provided together` |
| Desktop.DesktopSendKey | tests/test_run_wsl_bash.py:425-442 | a key is accepted exactly when it is in the native or combo table; native keys inject one virtual key (mode native), combos one combo (mode native_combo), exit code 0; any other key is an unsupported-key error |
| Desktop.KeyTablesDisjoint | tests/test_run_wsl_bash.py:425-442 | no key name is both native and a combo, so routing is unambiguous |
| Desktop.ComboShape | tests/test_run_wsl_bash.py:433-438 | every combo is one modifier (Shift, Ctrl or Alt) followed by one non-modifier key |
| Desktop.SendKeySamples | tests/test_run_wsl_bash.py:425-442 | `backspace` injects VK 0x08 natively; `ctrl+a` injects the combo 0x11, 0x41; `capslock` is rejected |

## Left out

- `app/server.py` is not part of this model. Where the tests leave a choice
  open, the model picks one:
  - at most 3 attempts;
  - session names of letters, digits, `_` and `-`;
  - the error markers `Traceback` and `failed to open`, the prompt marker
    `(y/n)`, and the idle marker `ready`, which keeps a screen idle whatever
    command is reported. Every marker matches anywhere in the text, inside a
    word too, as Python's `in` does: `already` under a running command reads
    as idle;
  - the truthy values `1 true yes on` and the falsy values `0 false no off`;
  - the key tables;
  - the detail `x and y must be integers`;
  - the compact cookie name `codex_compact_mode`, and `mobile` being accepted
    in that cookie as in the query.
- `Text.TrimRight` removes every character Python's `str.isspace` accepts, as
  `rstrip()` with no argument does, not only trailing line feeds.
- `Json.ObjectText` writes JSON as `json.dumps` with `ensure_ascii` on and the
  compact separators `,` and `:`, so the `data:` line is one line of ASCII.
- `Desktop.ScaleCoord` truncates toward zero, as Python's `int()` does, and
  `Desktop.TapPoint` scales only when both rendering sizes are positive; a tap
  with either size zero or negative is clicked as given.
- `Tmux.TmuxHealth` counts the lines that are not blank after stripping
  whitespace, not merely the non-empty ones.
- `Tmux.CloseSession` checks the session name as `Tmux.CreateSession` does,
  and runs nothing for an invalid one.
- `Tmux.CreateSession` treats an empty name as given and invalid: it is an
  error, not a request for an unnamed session.
- `Guards.DesktopEnabled` and `Guards.CompactEnabled` let an unrecognised
  query value fall through to the cookie, as if the query were absent.
- `Desktop.LegacyDesktopClick` with neither `x` nor `y` sends a click with no
  coordinates, at the pointer's current position.
- `Executor.WslExecutable` on Windows, when neither candidate exists, returns
  the configured value rather than a bare `wsl.exe`, and uses `C:\Windows` as
  the system root when none is set.
- `Executor.CreationFlags` gives exactly `CREATE_NEW_PROCESS_GROUP |
  CREATE_NO_WINDOW`. The child has no console window of its own, but
  `DETACHED_PROCESS` is not set.
- Process spawning is reduced to the recorded creation flags:
  `STARTUPINFO`, `stdin=DEVNULL` and the `wsl.exe` argument vector are not
  modelled. `subprocess.run` becomes a scripted list of results consumed one
  per run.
- The sleep between attempts is counted, not timed.
- Environment lookups and `os.path.exists` are parameters: the system root
  and the set of existing paths.
- `Tmux.ListPanes`: the listing is always ok. How a failing `list-panes`
  command is reported is not pinned, so it is not modelled. Neither is the
  `list-panes` format string itself.
- `Tmux.TmuxHealth` takes the executor's result as given. The text of the
  `tmux list-sessions` command it runs is not modelled.
- `tmux_debug` is not modelled. It only renders `repr` diagnostics of raw
  outputs.
- Not modelled: the `mobile_entry` redirect, HTTP response objects and
  headers, HTML rendering of the legacy result pages, and the streaming loop
  that emits events.
- Lower-casing and stripping of switch values, key names and form fields are
  not modelled. Inputs are taken as already normalised.
- `Text.ParseInt` accepts an optional sign and decimal digits only. Python's
  `int()` also allows surrounding whitespace and `_` separators.
- Desktop scaling uses exact integer arithmetic. Python divides the exact
  product in floating point before truncating, so the model does not capture
  float rounding of very large quotients. The monitor's left/top offset is not added.
- Screen capture and native mouse or key injection are not modelled.
  Injections are recorded as values, and a click's success is a parameter.
- JSON covers flat objects of booleans and integers. Strings holding lone
  surrogates cannot be represented, since Dafny's `char` excludes them.
