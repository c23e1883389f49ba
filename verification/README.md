# my_deployer — a Dafny model of script generation and execution

`my_deployer` is a command-line tool. It prepares a remote Debian host for Docker and runs
a small container lifecycle on it over SSH. Each phase becomes a multi-line shell script:

- `config` installs Docker.
- `initiate` uploads the working directory.
- `build`, `deploy`, `healthcheck` and `restart` act once per service.
- `all` runs `initiate`, `build`, `deploy` and `healthcheck` in order.

The script is then cut into commands. The tool prepends a `debconf` priming line, splits on
newlines, strips each line and drops blank ones. It sends the commands one at a time and
stops after the first one whose error text is not empty. The error text is computed from
the command's error stream, and a one-character stream gives an empty one (see Findings).
It always disconnects at the end.
Before any of this, the command line is checked: the phase name, an IPv4-shaped address,
and the service-count rules of `deploy` and `config`.

The model has five modules:

- `Lines` (`lines.dfy`): Python's `split('\n')`, `strip()` and the drop-blank filter, and
  their algebra. This covers round trips, idempotence and concatenation.
- `Scripts` (`scripts.dfy`): every builder, producing the exact string the source
  produces. This includes the indentation of each triple-quoted literal and the per-service
  and per-file concatenation.
- `ScriptLines` (`script_lines.dfy`): what each script becomes after normalisation, line by
  line. It also covers the escaping used by `initiate` and the fact that `all` never runs a
  line of `config`.
- `Execution` (`execution.dfy`): the command list and the recorded result of one command.
  It has a recursive reference definition of the short-circuiting loop, and the loop
  itself as methods (`SendAll`, `Session`) proved equal to that reference. Both take a
  `Reading`: the error text as the source computes it (`AsWritten`) or as it evidently
  means to (`Intended`). `SshExec` normalises the script and runs the session with the
  error text as written. The remote host
  is a function parameter: it receives the commands already sent and the current command,
  and returns the stdout and stderr text. The session is a trace of `Open`, `Exec` and
  `Close` events.
- `Validation` (`validation.dfy`): the phase names, and the address pattern as a predicate
  read off the regular expression. It also has a scanning method proved to accept exactly
  that predicate, and the argument checks of `init` as a `Result`.

Some of the code's behaviour is easy to misread. The model follows the code as written:

- An error on the last command still yields as many results as commands. The error does
  not make the result list shorter.
- The exit status of a command plays no part.
- Every line is stripped, not just blank lines dropped.
- The recorded stdout drops the last piece after the final newline, even when that piece
  is not empty.
- The recorded stderr is the stderr lines joined with an extra newline, minus the last
  character. See Findings.

## Model

| member | source | states |
|---|---|---|
| Lines.SplitOn | my_deployer/my_deployer.py:68 | `split('\n')` always yields at least one piece; Lines.JoinSplit and Lines.SplitJoin state what the pieces are |
| Lines.Strip | my_deployer/my_deployer.py:68 | `strip()` never lengthens a line and leaves neither end whitespace |
| Lines.Clean | my_deployer/my_deployer.py:68 | the strip-and-drop filter never yields more lines than it is given; Lines.CleanShape states what it keeps |
| Lines.Normalize | my_deployer/my_deployer.py:68 | the commands of a script; Lines.NormalizeLines, Lines.NormalizeIdempotent and Lines.NormalizeConcat state what they are |
| Lines.JoinSplit | my_deployer/my_deployer.py:68 | splitting a script on newlines loses nothing: joining the pieces with newlines gives the script back |
| Lines.SplitJoin | my_deployer/my_deployer.py:68 | splitting a join of newline-free lines gives exactly those lines |
| Lines.StripEmpty | my_deployer/my_deployer.py:68 | a line strips to the empty string exactly when it is all whitespace, so those are the lines the filter drops |
| Lines.StripPadded | my_deployer/my_deployer.py:68 | stripping a line that is indentation followed by trimmed text yields that text |
| Lines.StripBoth | my_deployer/my_deployer.py:68 | stripping trimmed text with whitespace on both sides yields that text |
| Lines.StripTail | my_deployer/my_deployer.py:68 | stripping trimmed text followed by whitespace yields that text |
| Lines.StripTrimmed | my_deployer/my_deployer.py:68 | stripping leaves an already-trimmed line unchanged |
| Lines.CleanFixpoint | my_deployer/my_deployer.py:68 | the strip-and-drop filter leaves a list unchanged exactly when every line is non-empty and trimmed |
| Lines.CleanIdempotent | my_deployer/my_deployer.py:68 | applying the strip-and-drop filter twice gives the same result as applying it once |
| Lines.CleanAppend | my_deployer/my_deployer.py:68 | the filter works line by line, so it distributes over concatenation |
| Lines.NormalizeLines | my_deployer/my_deployer.py:68 | every command produced is non-empty, holds no newline and has no surrounding whitespace |
| Lines.NormalizeIdempotent | my_deployer/my_deployer.py:68 | normalising the newline-joined commands of a script gives the same commands again |
| Lines.NormalizeConcat | my_deployer/my_deployer.py:68 | a script followed by a text that starts with a newline yields the commands of both, in order |
| Lines.NormalizeIndentedLine | my_deployer/my_deployer.py:121-129 | one line of a literal, a newline and indentation before its text, yields exactly its text, or nothing when the text is empty |
| Lines.NormalizeAppendLine | my_deployer/my_deployer.py:144 | appending a line after a script whose last line is blank adds exactly that line |
| Execution.PrimingIsLine | my_deployer/my_deployer.py:67 | the priming command is a single trimmed line |
| Execution.CommandList | my_deployer/my_deployer.py:67-68 | the command list has one more entry than the script has non-blank lines |
| Execution.CommandListLines | my_deployer/my_deployer.py:67-68 | the priming line comes first, then the normalised script lines in order, and every command is a trimmed line |
| Execution.CommandListIdempotent | my_deployer/my_deployer.py:67-68 | rebuilding a script from its own commands gives the same command list |
| Execution.ReadLinesSound | my_deployer/my_deployer.py:81-82 | `readlines` pieces concatenate back to the text, and each piece except the last ends with its only newline |
| Execution.ErrTextAsWrittenEmpty | my_deployer/my_deployer.py:81 | the error text as written is empty exactly when the stderr text has at most one character |
| Execution.ErrTextCounterexamples | my_deployer/my_deployer.py:81 | for stderr `x` the text as written is empty, and for `a\nb\n` it holds an extra blank line; the intended text is `x` and `a\nb` |
| Execution.ErrTextAgreesOnOneLine | my_deployer/my_deployer.py:81 | for a single newline-terminated stderr line, the text as written and the intended text agree |
| Execution.ReadLines | my_deployer/my_deployer.py:81-82 | `readlines` never yields more pieces than characters, and yields at least one for non-empty text; Execution.ReadLinesSound states what the pieces are |
| Execution.ErrTextAsWritten | my_deployer/my_deployer.py:81 | the error text the source computes; Execution.ErrTextAsWrittenEmpty and Execution.ErrTextCounterexamples state how it behaves |
| Execution.StderrText | my_deployer/my_deployer.py:81 | the intended error text is the stderr text minus at most one final newline, and it is empty exactly when stderr is empty or a lone newline, so a lone newline does not stop the run |
| Execution.ErrText | my_deployer/my_deployer.py:81 | under either reading the error text is empty exactly when the stream counts as no error: at most one character as written, empty or a lone newline as intended; any other stream stops the run |
| Execution.StdoutLines | my_deployer/my_deployer.py:86 | the recorded stdout has one line fewer than the pieces of the text split on newlines; Execution.StdoutLinesSound states what they are |
| Execution.StdoutLinesSound | my_deployer/my_deployer.py:82-86 | the stdout lines hold no newline, and together with the unterminated rest they rebuild the text |
| Execution.StdoutLinesComplete | my_deployer/my_deployer.py:82-86 | when stdout ends with a newline, its recorded lines rebuild it exactly |
| Execution.Record | my_deployer/my_deployer.py:81-89 | a result records the command sent, and its error text is empty exactly when its stderr counts as no error under the reading: as written, when stderr has at most one character |
| Execution.RecordStdout | my_deployer/my_deployer.py:86 | a result's stdout is the split lines without the last piece |
| Execution.Run | my_deployer/my_deployer.py:77-96 | the reference definition of the loop; Execution.RunLength, Execution.RunInOrder and Execution.RunStopsAtError state what it records |
| Execution.RunSplit | my_deployer/my_deployer.py:77-96 | one step of the loop keeps the next answer, and the run ends with it exactly when its error text is not empty |
| Execution.RunLength | my_deployer/my_deployer.py:77-96 | the loop records at most one result per command left, and at least one when a command is left |
| Execution.RunInOrder | my_deployer/my_deployer.py:77-96 | the j-th result is the answer to the j-th command, given the commands sent before it |
| Execution.RunStopsAtError | my_deployer/my_deployer.py:93-96 | only the last result can carry an error, and stopping before the end means the last result carries one |
| Execution.StatusOf | my_deployer/my_deployer.py:93-96 | a failure is reported at the last result, which carries an error; completion means the last result has none |
| Execution.SendAll | my_deployer/my_deployer.py:77-97 | the imperative loop with its early exit records exactly the results of the reference definition, and its trace, built as it sends, is the opening followed by one send per result |
| Execution.SentAppend | my_deployer/my_deployer.py:80-83 | sending one more command adds its send at the end of the sends so far |
| Execution.RunFromStart | my_deployer/my_deployer.py:77-96 | from the first command, the results are a non-empty prefix of the answers, clean but for the last, and complete exactly when all commands ran without error |
| Execution.StopRule | my_deployer/my_deployer.py:81-96 | every command before the last one sent answered with a stream that counts as no error, and a run that stops early stopped at one that did not |
| Execution.TraceClosesOnce | my_deployer/my_deployer.py:99-102 | a session trace holds exactly one close, and it is the last event |
| Execution.Session | my_deployer/my_deployer.py:72-102 | without a connection nothing is sent and nothing is closed; otherwise the results and status are those of the reference loop under the given reading, and the trace is the opening, one send per result, and exactly one close, at the end |
| Execution.SshExec | my_deployer/my_deployer.py:65-102 | with the error text as written: on a connection, the results are a non-empty prefix of the answers to the priming line and the script's lines; every command but the last one sent wrote at most one character to stderr; the run completes exactly when the last result has an empty error text and all commands ran, fails at the last result otherwise, and closes the session exactly once, last |
| Execution.OneLineError | my_deployer/my_deployer.py:81 | one newline-terminated stderr line gives that line as the error text under either reading |
| Execution.StopsAtFailureExample | my_deployer/my_deployer.py:77-96 | under either reading, with four commands where the third writes `boom` and a newline to stderr, three results are recorded and the run fails at index 2 with the error `boom` |
| Execution.OneCharErrorExample | my_deployer/my_deployer.py:81-96 | a first command writing just `x` to stderr does not stop the loop as written, which records both commands and reports completion; as intended the loop stops after it, failed at index 0 |
| Execution.LoneNewlineExample | my_deployer/my_deployer.py:81-96 | under either reading, a first command writing only a newline to stderr gets an empty error text, and the run goes on to the second command and completes |
| Execution.CompletesWhenClean | my_deployer/my_deployer.py:77-96 | when every command's stderr counts as no error under the reading, every command is run and the run completes |
| Scripts.Services | my_deployer/my_deployer.py:149 | the service list is never empty, and a given list is used unchanged |
| Scripts.RegularFiles | my_deployer/my_deployer.py:138 | the uploaded files are exactly the regular files of the listing |
| Scripts.RegularFilesAppend | my_deployer/my_deployer.py:138 | filtering a listing in two parts gives the files of the first part, then those of the second: listing order is kept |
| Scripts.RegularFilesOne | my_deployer/my_deployer.py:138 | a single regular file is kept, and any other entry is dropped |
| Scripts.Escape | my_deployer/my_deployer.py:141 | the escaping of `initiate`; ScriptLines.EscapeIsEach, ScriptLines.EscapeNoNewline and ScriptLines.EscapeRoundTrip state what it does |
| Scripts.ConfigScript | my_deployer/my_deployer.py:119-130 | the exact text of `config`; ScriptLines.ConfigLines states the commands it runs |
| Scripts.InitiateScript | my_deployer/my_deployer.py:132-145 | the exact text of `initiate`; ScriptLines.InitiateLines states the commands it runs |
| Scripts.BuildScript | my_deployer/my_deployer.py:147-155 | the exact text of `build`; ScriptLines.BuildLines states the commands it runs |
| Scripts.DeployScript | my_deployer/my_deployer.py:157-166 | the exact text of `deploy`; ScriptLines.DeployLines states the commands it runs |
| Scripts.HealthcheckScript | my_deployer/my_deployer.py:168-176 | the exact text of `healthcheck`; ScriptLines.HealthcheckLines states the commands it runs |
| Scripts.RestartScript | my_deployer/my_deployer.py:178-186 | the exact text of `restart`; ScriptLines.RestartLines states the commands it runs |
| Scripts.AllScript | my_deployer/my_deployer.py:115-117 | the text of `all`, the four scripts glued; ScriptLines.AllLines and ScriptLines.AllExcludesConfig state the commands it runs |
| Scripts.Replace | my_deployer/my_deployer.py:141 | replacing a character by a text that does not contain it leaves none of it |
| ScriptLines.ConfigLines | my_deployer/my_deployer.py:119-130 | `config` runs its seven commands, in order, and nothing else |
| ScriptLines.InitiateLines | my_deployer/my_deployer.py:132-145 | `initiate` runs `rm -rf`, `mkdir -p`, one `echo -e` per regular file in listing order, then `ls`: three lines more than there are files |
| ScriptLines.UploadLines | my_deployer/my_deployer.py:139-143 | the uploads give exactly one command per file, in order |
| ScriptLines.UploadCommandIsLine | my_deployer/my_deployer.py:143 | each upload command is a single trimmed line |
| ScriptLines.BuildLines | my_deployer/my_deployer.py:147-155 | `build` runs one `docker build` per service, in service order |
| ScriptLines.DeployLines | my_deployer/my_deployer.py:157-166 | `deploy` runs two guarded commands per service, stop-and-remove then run, in service order |
| ScriptLines.HealthcheckLines | my_deployer/my_deployer.py:168-176 | `healthcheck` runs one guarded `docker inspect` per service, in service order |
| ScriptLines.RestartLines | my_deployer/my_deployer.py:178-186 | `restart` runs one guarded `docker restart` per service, in service order |
| ScriptLines.AllLines | my_deployer/my_deployer.py:115-117 | the commands of `all` are those of `initiate`, `build`, `deploy` and `healthcheck`, concatenated in that order |
| ScriptLines.AllExcludesConfig | my_deployer/my_deployer.py:115-130 | no command of `all` is a command of `config` |
| ScriptLines.RenderDefaultServices | my_deployer/my_deployer.py:149 | rendering any phase with no service is rendering it for `api` and `test` |
| ScriptLines.BuildExample | my_deployer/my_deployer.py:151-154 | `build` for the single service `api` runs exactly its `docker build` line |
| ScriptLines.EscapeIsEach | my_deployer/my_deployer.py:141 | the two chained replacements equal escaping each character on its own: newline to backslash-n, quote to backslash-quote |
| ScriptLines.EscapeNoNewline | my_deployer/my_deployer.py:141-143 | escaped file text holds no newline, so each file becomes a single command line |
| ScriptLines.EscapeRoundTrip | my_deployer/my_deployer.py:141 | undoing the two escapes gives back the file text, for text without a backslash, `$` or backquote |
| ScriptLines.EscapeExample | my_deployer/my_deployer.py:141 | a newline becomes backslash-n and a double quote becomes backslash-quote |
| Validation.ParsePhase | my_deployer/my_deployer.py:33-34 | an accepted command name is the name of the phase it selects |
| Validation.ParsePhaseName | my_deployer/my_deployer.py:33-34 | a name selects a phase exactly when it is that phase's name |
| Validation.MatchesAddress | my_deployer/my_deployer.py:26 | the address pattern as a predicate: a dotted quad, optionally followed by one newline; Validation.MatchAddress, Validation.DottedQuadGroups and Validation.QuadOfGroups state it |
| Validation.MatchAddress | my_deployer/my_deployer.py:26-30 | the scan accepts exactly the texts the address pattern matches |
| Validation.DottedQuadGroups | my_deployer/my_deployer.py:26 | an accepted address is its four digit groups joined by dots |
| Validation.QuadOfGroups | my_deployer/my_deployer.py:26 | any four groups of one to three digits joined by dots are accepted |
| Validation.AddressLength | my_deployer/my_deployer.py:26 | an accepted address has 7 to 16 characters, and 16 only with a final newline |
| Validation.AcceptsExamples | my_deployer/my_deployer.py:26 | `10.0.0.1` is accepted, and so is `256.1.1.1`, because group values are not bounded |
| Validation.AcceptsTrailingNewline | my_deployer/my_deployer.py:26 | `1.2.3.4` followed by a newline is accepted, because `$` also matches before a final newline |
| Validation.RejectsExamples | my_deployer/my_deployer.py:26 | three groups and five groups are both refused |
| Validation.TooManyGroups | my_deployer/my_deployer.py:26 | a fifth dot-separated group is always refused |
| Validation.Init | my_deployer/my_deployer.py:33-46 | the arguments are accepted exactly when the name is a phase, the address matches, `deploy` has a service and `config` has none; an unknown name is reported before a bad address; user and password default to `root` |
| Validation.InitServiceRules | my_deployer/my_deployer.py:43-46 | an accepted `deploy` never falls back to the default services, and an accepted `config` carries none |
| Validation.InitRejectsExamples | my_deployer/my_deployer.py:26-35 | an unknown command and a three-group address are each refused with their own error |
| Validation.InitServiceExamples | my_deployer/my_deployer.py:43-46 | `deploy` without a service and `config` with one are each refused with their own error |

## Left out

- The SSH client is not modelled: `paramiko`, host-key policy, `connect` and `exec_command`. The remote host is a function of the commands sent, and a failed connection is a boolean parameter. Exceptions raised by `exec_command` or by reading its streams are not modelled.
- The `Wait` animation thread, `time.sleep`, and the `printa`, `printf` and `print` output are not modelled. They only affect the terminal.
- The argparse machinery is not modelled: missing or surplus positional arguments, `--help`, and the exit through `parser.error`. Only its outcome is modelled, as an `InitError`.
- The `command` dispatch table is modelled only as `Scripts.Render`, which has no contract of its own.
- Reading the directory with `listdir`, `isfile` and `open` is not modelled. The listing is a given sequence of entries, and a file's text is given as read. Python's universal-newline translation on reading is not modelled.
- `export/server.py` is not part of this model. It is an HTTP wrapper with no logic of its own.
- ScriptLines.EscapeRoundTrip: holds only for text without a backslash, `$` or backquote. `echo -e` also interprets other backslash escapes and appends a newline, and the shell expands `$` and backquotes inside the double quotes, so the uploaded file can differ from the local one. The shell is not modelled.
- ScriptLines.InitiateLines: assumes each path, service name and file name is non-empty, holds no newline and does not end in whitespace. The source does not check this, and such a name can split or merge command lines.
- ScriptLines.BuildLines: assumes the same of the path and the service names, for the same reason.
- ScriptLines.DeployLines: same assumption on the path and the service names.
- ScriptLines.HealthcheckLines: same assumption on the service names.
- ScriptLines.RestartLines: same assumption on the service names.
- ScriptLines.UploadLines: same assumption on the path and the file names.
- ScriptLines.UploadCommandIsLine: same assumption on the path and the file name.
- ScriptLines.AllExcludesConfig: same assumption on the path, the service names and the file names.
- Execution.StderrText: the corrected reading strips one final newline before testing, so a stream that is only a newline does not stop the run. A stricter reading, in which any output on stderr stops it, is not modelled.
- Nothing about the remote host's behaviour is modelled beyond the replies it gives. The priming command is sent like any other, and an error on it stops the run, as in the source.

## Findings

| source | as written | input that shows it | evidently intended | confidence | as-written member | corrected member |
|---|---|---|---|---|---|---|
| my_deployer/my_deployer.py:81 | the error text is the stderr lines joined by an extra newline, with the last character cut off | stderr `x` (no final newline) gives an empty error, so the run does not stop (Execution.OneCharErrorExample); stderr `a\nb\n` gives `a\n\nb` | the stderr text without its final newline, so that any stderr output other than a lone newline stops the run (Execution.LoneNewlineExample) | not executed | Execution.ErrTextAsWritten, shown by Execution.ErrTextCounterexamples and Execution.ErrTextAsWrittenEmpty | Execution.StderrText, read by Execution.ErrText under `Intended`; Execution.StopRule, Execution.Session and Execution.OneCharErrorExample state the loop with it |
