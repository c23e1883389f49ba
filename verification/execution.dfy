/**
 * `ssh_exec`: the command list a script becomes, what is kept of each
 * command's output, and the loop that sends the commands one by one, stops
 * after the first one whose error text is not empty, and then closes the
 * session. The error text is read either as the source computes it or as it
 * evidently means to; the two differ on a one-character stream.
 * The SSH session is a parameter: a function from the commands already sent
 * and the next one to what the remote host answers.
 */
module Execution {
  import opened Lines

  /** Switches the remote package manager to non-interactive mode; sent
      before every script. Written as a concatenation of shorter pieces;
      the string is the same. */
  const PrimingCommand: string :=
    "echo 'debconf debconf/frontend " + "select Noninteractive' | " + "debconf-set-selections"

  lemma PrimingIsLine()
    ensures Line(PrimingCommand)
  {
    var a := "echo 'debconf debconf/frontend ";
    var b := "select Noninteractive' | " + "debconf-set-selections";
    assert PrimingCommand == a + b;
    assert (a + b)[0] == a[0] && (a + b)[|a + b| - 1] == b[|b| - 1];
  }

  /** The commands `ssh_exec` sends for a script: the priming command, then
      the stripped non-blank lines of the script. */
  function CommandList(script: string): (r: seq<string>)
    ensures |r| == |Normalize(script)| + 1
  {
    [PrimingCommand] + Normalize(script)
  }

  /** Every command sent is one non-empty stripped line, the priming command
      first and the script's lines after it in script order. */
  lemma CommandListLines(script: string)
    ensures var cmds := CommandList(script);
            && cmds[0] == PrimingCommand
            && cmds[1..] == Normalize(script)
            && forall i :: 0 <= i < |cmds| ==> Line(cmds[i])
  {
    PrimingIsLine();
    NormalizeLines(script);
  }

  /** Sending a script that is already normalised, one command per line,
      sends the same commands. */
  lemma CommandListIdempotent(script: string)
    ensures CommandList(JoinWith(Normalize(script), '\n')) == CommandList(script)
  {
    NormalizeIdempotent(script);
  }

  // --------------------------------------------------------- output

  /** The answer of the remote host to one command: its raw stdout and
      stderr text. */
  datatype Reply = Reply(stdout: string, stderr: string)

  /** The remote host: what it answers to a command, given the commands sent
      before it in the session. */
  type Remote = (seq<string>, string) -> Reply

  /** What is recorded per command sent. */
  datatype CommandResult = CommandResult(command: string, stdout: seq<string>, stderr: string)

  /** How the loop ended: every command ran cleanly, or the command at
      `index` had a non-empty error text and nothing after it was sent. */
  datatype Status = Completed | FailedAt(index: nat)

  /** A session event, in the order the session sees them. */
  datatype Event = Open | Exec(command: string) | Close

  datatype Outcome =
    | ConnectionFailed
    | Finished(results: seq<CommandResult>, status: Status)

  /** paramiko's `readlines()`: the text cut after every newline; the last
      piece has no newline when the text does not end with one. */
  function ReadLines(text: string): (r: seq<string>)
    ensures |r| <= |text|
    ensures |text| > 0 ==> |r| > 0
  {
    if |text| == 0 then []
    else
      var rest := ReadLines(text[1..]);
      if text[0] == '\n' || |rest| == 0 then [[text[0]]] + rest
      else [[text[0]] + rest[0]] + rest[1..]
  }

  function Concat(parts: seq<string>): string {
    if |parts| == 0 then "" else parts[0] + Concat(parts[1..])
  }

  /** The pieces are non-empty, only the last may lack a newline, and no
      newline is inside a piece. */
  predicate LinePieces(parts: seq<string>) {
    && (forall i :: 0 <= i < |parts| ==> |parts[i]| > 0 && '\n' !in parts[i][..|parts[i]| - 1])
    && (forall i :: 0 <= i < |parts| - 1 ==> parts[i][|parts[i]| - 1] == '\n')
  }

  /** Reading the lines loses nothing. */
  lemma {:induction false} ReadLinesConcat(text: string)
    ensures Concat(ReadLines(text)) == text
  {
    if |text| > 0 {
      var rest := ReadLines(text[1..]);
      ReadLinesConcat(text[1..]);
      if text[0] == '\n' || |rest| == 0 {
        assert ReadLines(text) == [[text[0]]] + rest;
        assert Concat([[text[0]]] + rest) == [text[0]] + Concat(rest);
      } else {
        assert ReadLines(text) == [[text[0]] + rest[0]] + rest[1..];
        assert Concat(rest) == rest[0] + Concat(rest[1..]);
        assert Concat(ReadLines(text)) == [text[0]] + rest[0] + Concat(rest[1..]);
      }
      assert text == [text[0]] + text[1..];
    }
  }

  /** Reading the lines cuts only after newlines. */
  lemma {:induction false} ReadLinesPieces(text: string)
    ensures LinePieces(ReadLines(text))
  {
    if |text| > 0 {
      var rest := ReadLines(text[1..]);
      ReadLinesPieces(text[1..]);
      var r := ReadLines(text);
      if text[0] == '\n' || |rest| == 0 {
        assert r == [[text[0]]] + rest;
        forall i | 1 <= i < |r| ensures r[i] == rest[i - 1] {}
      } else {
        var first := [text[0]] + rest[0];
        assert r == [first] + rest[1..];
        assert first[..|first| - 1] == [text[0]] + rest[0][..|rest[0]| - 1];
        forall i | 1 <= i < |r| ensures r[i] == rest[i] {}
      }
    }
  }

  lemma ReadLinesSound(text: string)
    ensures Concat(ReadLines(text)) == text
    ensures LinePieces(ReadLines(text))
  {
    ReadLinesConcat(text);
    ReadLinesPieces(text);
  }

  /** Removes the last character, as `[:-1]` does; the empty text stays
      empty. */
  function DropLast(s: string): (r: string)
    ensures |r| == if |s| == 0 then 0 else |s| - 1
    ensures r == s[..|r|]
  {
    if |s| == 0 then s else s[..|s| - 1]
  }

  /** The error text the source computes: the lines of stderr joined with
      one more newline each, then the last character removed. */
  function ErrTextAsWritten(stderr: string): string {
    DropLast(JoinWith(ReadLines(stderr), '\n'))
  }

  /** The error text as evidently intended: the stderr text without its
      final newline. */
  function StderrText(stderr: string): (r: string)
    ensures r == stderr || r + "\n" == stderr
    ensures |r| == 0 <==> stderr == "" || stderr == "\n"
  {
    if |stderr| > 0 && stderr[|stderr| - 1] == '\n' then stderr[..|stderr| - 1] else stderr
  }

  lemma {:induction false} JoinLength(parts: seq<string>, sep: char)
    ensures |parts| > 0 ==> |JoinWith(parts, sep)| == |Concat(parts)| + |parts| - 1
    ensures |parts| == 0 ==> JoinWith(parts, sep) == ""
  {
    if |parts| > 1 {
      JoinLength(parts[1..], sep);
    }
  }

  /** The source's error text is empty exactly when stderr has at most one
      character: a one-character message that is not a newline goes
      unnoticed. */
  lemma ErrTextAsWrittenEmpty(stderr: string)
    ensures |ErrTextAsWritten(stderr)| == 0 <==> |stderr| <= 1
  {
    ReadLinesSound(stderr);
    JoinLength(ReadLines(stderr), '\n');
  }

  /** Where the source's error text and the intended one part ways. */
  lemma ErrTextCounterexamples()
    ensures ErrTextAsWritten("x") == "" && StderrText("x") == "x"
    ensures ErrTextAsWritten("a\nb\n") == "a\n\nb" && StderrText("a\nb\n") == "a\nb"
  {
    assert ReadLines("x") == ["x"];
    ReadOneLine("b");
    ReadOneLine("a");
    assert "a\nb\n" == "a\n" + "b\n";
    ReadLinesAppend("a", "b\n");
    assert JoinWith(["a\n", "b\n"], '\n') == "a\n\nb\n";
  }

  /** One newline-terminated line is read as one piece. */
  lemma {:induction false} ReadOneLine(body: string)
    requires '\n' !in body
    ensures ReadLines(body + "\n") == [body + "\n"]
  {
    if |body| == 0 {
      assert body + "\n" == "\n";
    } else {
      assert (body + "\n")[1..] == body[1..] + "\n";
      ReadOneLine(body[1..]);
      assert [body[0]] + (body[1..] + "\n") == body + "\n";
    }
  }

  /** A terminated line followed by more text is read as that line, then
      the lines of the rest. */
  lemma {:induction false} ReadLinesAppend(body: string, more: string)
    requires '\n' !in body
    ensures ReadLines(body + "\n" + more) == [body + "\n"] + ReadLines(more)
  {
    if |body| == 0 {
      assert body + "\n" + more == ['\n'] + more;
      assert (['\n'] + more)[1..] == more;
    } else {
      assert (body + "\n" + more)[1..] == body[1..] + "\n" + more;
      ReadLinesAppend(body[1..], more);
      assert [body[0]] + (body[1..] + "\n") == body + "\n";
    }
  }

  /** On a single newline-terminated line the two agree. */
  lemma ErrTextAgreesOnOneLine(body: string)
    requires '\n' !in body
    ensures ErrTextAsWritten(body + "\n") == StderrText(body + "\n")
  {
    ReadOneLine(body);
  }

  /** Which error text the sending loop tests: the one `ssh_exec` computes,
      or the one it evidently means to compute. */
  datatype Reading = AsWritten | Intended

  /** When a stderr stream counts as no error. As written, that is when it
      holds at most one character; as intended, when it is empty or a lone
      newline. */
  predicate Silent(reading: Reading, stderr: string) {
    match reading
    case AsWritten => |stderr| <= 1
    case Intended => stderr == "" || stderr == "\n"
  }

  /** The error text of a stderr stream under a reading: empty exactly when
      the stream counts as no error. */
  function ErrText(reading: Reading, stderr: string): (r: string)
    ensures |r| == 0 <==> Silent(reading, stderr)
  {
    ErrTextAsWrittenEmpty(stderr);
    match reading
    case AsWritten => ErrTextAsWritten(stderr)
    case Intended => StderrText(stderr)
  }

  /** Stdout as recorded: the text split on newlines with the last piece
      dropped, so only newline-terminated lines are kept. */
  function StdoutLines(log: string): (r: seq<string>)
    ensures |r| == |SplitOn(log, '\n')| - 1
  {
    var p := SplitOn(log, '\n');
    p[..|p| - 1]
  }

  /** The lines of a text, each with its newline put back. */
  function Unlines(lines: seq<string>): string {
    if |lines| == 0 then "" else lines[0] + "\n" + Unlines(lines[1..])
  }

  lemma {:induction false} JoinAsUnlines(parts: seq<string>)
    requires |parts| > 0
    ensures JoinWith(parts, '\n') == Unlines(parts[..|parts| - 1]) + parts[|parts| - 1]
  {
    if |parts| > 1 {
      JoinAsUnlines(parts[1..]);
      assert parts[1..][..|parts| - 2] == parts[..|parts| - 1][1..];
    }
  }

  /** The recorded stdout lines are newline-free and, each followed by a
      newline, give back the output up to its last newline: the output is
      those lines plus an unterminated tail, which is lost. */
  lemma StdoutLinesSound(log: string)
    ensures var lines := StdoutLines(log);
            && (forall i :: 0 <= i < |lines| ==> '\n' !in lines[i])
            && Unlines(lines) + LastPiece(log) == log
            && '\n' !in LastPiece(log)
  {
    var p := SplitOn(log, '\n');
    SplitPieces(log, '\n');
    JoinSplit(log, '\n');
    JoinAsUnlines(p);
  }

  /** Output that ends with a newline (or is empty) is kept whole. */
  lemma StdoutLinesComplete(log: string)
    requires |log| == 0 || log[|log| - 1] == '\n'
    ensures Unlines(StdoutLines(log)) == log
  {
    if |log| > 0 {
      assert log == log[..|log| - 1] + "\n";
      LastPieceOfTerminated(log[..|log| - 1]);
    } else {
      assert SplitOn(log, '\n') == [""];
    }
    assert LastPiece(log) == "";
    StdoutLinesSound(log);
  }

  /** What is kept of one command's answer: its stdout lines and its error
      text, which is empty exactly when stderr counts as no error. */
  function Record(reading: Reading, command: string, reply: Reply): (r: CommandResult)
    ensures r.command == command
    ensures |r.stderr| == 0 <==> Silent(reading, reply.stderr)
  {
    CommandResult(command, StdoutLines(Concat(ReadLines(reply.stdout))), ErrText(reading, reply.stderr))
  }

  lemma RecordStdout(reading: Reading, command: string, reply: Reply)
    ensures Record(reading, command, reply).stdout == StdoutLines(reply.stdout)
  {
    ReadLinesSound(reply.stdout);
  }

  // ----------------------------------------------------------- loop

  /** What is recorded for the command at `j`, given that the commands
      before it were sent. */
  function Answer(remote: Remote, reading: Reading, cmds: seq<string>, j: nat): (r: CommandResult)
    requires j < |cmds|
    ensures r.command == cmds[j]
  {
    Record(reading, cmds[j], remote(cmds[..j], cmds[j]))
  }

  /** The results of sending `cmds[k..]`, given that `cmds[..k]` were sent
      already: one result per command, up to and including the first one
      whose error text is not empty. */
  function Run(remote: Remote, reading: Reading, cmds: seq<string>, k: nat): seq<CommandResult>
    requires k <= |cmds|
    decreases |cmds| - k
  {
    if k == |cmds| then []
    else
      var r := Answer(remote, reading, cmds, k);
      if r.stderr != "" then [r] else [r] + Run(remote, reading, cmds, k + 1)
  }

  /** One step of `Run` past the results kept so far: the next answer is
      kept, and the run ends with it exactly when its error text is not
      empty. */
  lemma RunSplit(remote: Remote, reading: Reading, cmds: seq<string>, done: seq<CommandResult>, k: nat)
    requires k < |cmds| && done + Run(remote, reading, cmds, k) == Run(remote, reading, cmds, 0)
    ensures var r := Answer(remote, reading, cmds, k);
            if r.stderr != "" then done + [r] == Run(remote, reading, cmds, 0)
            else (done + [r]) + Run(remote, reading, cmds, k + 1) == Run(remote, reading, cmds, 0)
  {
    var r := Answer(remote, reading, cmds, k);
    var rest := Run(remote, reading, cmds, k + 1);
    if r.stderr == "" {
      assert Run(remote, reading, cmds, k) == [r] + rest;
      assert done + ([r] + rest) == (done + [r]) + rest;
    } else {
      assert Run(remote, reading, cmds, k) == [r];
    }
  }

  /** `Run` sends at most the remaining commands, and at least one when
      any remains. */
  lemma {:induction false} RunLength(remote: Remote, reading: Reading, cmds: seq<string>, k: nat)
    requires k <= |cmds|
    ensures |Run(remote, reading, cmds, k)| <= |cmds| - k
    ensures k < |cmds| ==> |Run(remote, reading, cmds, k)| > 0
    decreases |cmds| - k
  {
    if k < |cmds| {
      RunLength(remote, reading, cmds, k + 1);
    }
  }

  /** The j-th result of `Run` is the answer to the j-th remaining command,
      given everything sent before it. */
  lemma {:induction false} RunInOrder(remote: Remote, reading: Reading, cmds: seq<string>, k: nat)
    requires k <= |cmds|
    ensures k + |Run(remote, reading, cmds, k)| <= |cmds|
    ensures forall j :: 0 <= j < |Run(remote, reading, cmds, k)| ==>
              Run(remote, reading, cmds, k)[j] == Answer(remote, reading, cmds, k + j)
  {
    RunLength(remote, reading, cmds, k);
    forall j | 0 <= j < |Run(remote, reading, cmds, k)|
      ensures Run(remote, reading, cmds, k)[j] == Answer(remote, reading, cmds, k + j)
    {
      RunAt(remote, reading, cmds, k, j);
    }
  }

  /** One result of `Run`, by induction on its position. */
  lemma {:induction false} RunAt(remote: Remote, reading: Reading, cmds: seq<string>, k: nat, j: nat)
    requires k <= |cmds| && j < |Run(remote, reading, cmds, k)|
    ensures k + j < |cmds| && Run(remote, reading, cmds, k)[j] == Answer(remote, reading, cmds, k + j)
    decreases j
  {
    RunLength(remote, reading, cmds, k);
    if j == 0 {
      RunHead(remote, reading, cmds, k);
    } else {
      RunTail(remote, reading, cmds, k);
      RunAt(remote, reading, cmds, k + 1, j - 1);
      assert Run(remote, reading, cmds, k)[j] == Run(remote, reading, cmds, k)[1..][j - 1];
    }
  }

  /** A run with a command left starts with its answer. */
  lemma RunHead(remote: Remote, reading: Reading, cmds: seq<string>, k: nat)
    requires k < |cmds|
    ensures |Run(remote, reading, cmds, k)| > 0 && Run(remote, reading, cmds, k)[0] == Answer(remote, reading, cmds, k)
  {
    var r := Answer(remote, reading, cmds, k);
    assert Run(remote, reading, cmds, k) == if r.stderr != "" then [r] else [r] + Run(remote, reading, cmds, k + 1);
  }

  /** A run that goes past its first command found no error there, and goes
      on as the run from the next command. */
  lemma RunTail(remote: Remote, reading: Reading, cmds: seq<string>, k: nat)
    requires k < |cmds| && |Run(remote, reading, cmds, k)| > 1
    ensures Answer(remote, reading, cmds, k).stderr == ""
    ensures Run(remote, reading, cmds, k)[1..] == Run(remote, reading, cmds, k + 1)
  {
    var r := Answer(remote, reading, cmds, k);
    var rest := Run(remote, reading, cmds, k + 1);
    assert Run(remote, reading, cmds, k) == if r.stderr != "" then [r] else [r] + rest;
    assert ([r] + rest)[1..] == rest;
  }

  /** Only the last result of `Run` can hold an error, and `Run` stops
      before the end only after one. */
  lemma {:induction false} RunStopsAtError(remote: Remote, reading: Reading, cmds: seq<string>, k: nat)
    requires k <= |cmds|
    ensures var rs := Run(remote, reading, cmds, k);
            && (forall j :: 0 <= j < |rs| - 1 ==> rs[j].stderr == "")
            && (|rs| < |cmds| - k ==> |rs| > 0 && rs[|rs| - 1].stderr != "")
    decreases |cmds| - k
  {
    if k < |cmds| {
      var r := Answer(remote, reading, cmds, k);
      if r.stderr == "" {
        RunStopsAtError(remote, reading, cmds, k + 1);
        var rest := Run(remote, reading, cmds, k + 1);
        var rs := [r] + rest;
        assert Run(remote, reading, cmds, k) == rs;
        forall j | 0 <= j < |rs| - 1 ensures rs[j].stderr == "" {
          if j > 0 {
            assert rs[j] == rest[j - 1];
          }
        }
        if |rest| > 0 {
          assert rs[|rs| - 1] == rest[|rest| - 1];
        }
      } else {
        assert Run(remote, reading, cmds, k) == [r];
      }
    } else {
      assert Run(remote, reading, cmds, k) == [];
    }
  }

  function StatusOf(results: seq<CommandResult>): (s: Status)
    ensures s.FailedAt? ==> s.index == |results| - 1 && results[s.index].stderr != ""
    ensures s.Completed? ==> |results| == 0 || results[|results| - 1].stderr == ""
  {
    if |results| > 0 && results[|results| - 1].stderr != "" then FailedAt(|results| - 1) else Completed
  }

  /** The command of every result, as sent. */
  function Sent(results: seq<CommandResult>): (r: seq<Event>)
    ensures |r| == |results|
    ensures forall j :: 0 <= j < |r| ==> r[j] == Exec(results[j].command)
  {
    if |results| == 0 then [] else [Exec(results[0].command)] + Sent(results[1..])
  }

  function CountClose(trace: seq<Event>): nat {
    if |trace| == 0 then 0 else (if trace[0] == Close then 1 else 0) + CountClose(trace[1..])
  }

  lemma {:induction false} CountCloseAppend(a: seq<Event>, b: seq<Event>)
    ensures CountClose(a + b) == CountClose(a) + CountClose(b)
  {
    if |a| > 0 {
      assert (a + b)[1..] == a[1..] + b;
      CountCloseAppend(a[1..], b);
    } else {
      assert a + b == b;
    }
  }

  /** Sending one more command adds its `Exec` at the end. */
  lemma SentAppend(results: seq<CommandResult>, r: CommandResult)
    ensures Sent(results + [r]) == Sent(results) + [Exec(r.command)]
  {
    var a, b := Sent(results + [r]), Sent(results) + [Exec(r.command)];
    assert |a| == |b|;
    forall j | 0 <= j < |a| ensures a[j] == b[j] {
      if j < |results| {
        assert (results + [r])[j] == results[j];
      }
    }
  }

  /** The trace of a session so far grows by the command just sent. */
  lemma TraceAppend(results: seq<CommandResult>, r: CommandResult)
    ensures [Open] + Sent(results) + [Exec(r.command)] == [Open] + Sent(results + [r])
  {
    SentAppend(results, r);
  }

  lemma {:induction false} NoCloseSent(results: seq<CommandResult>)
    ensures CountClose(Sent(results)) == 0
  {
    if |results| > 0 {
      NoCloseSent(results[1..]);
    }
  }

  /** The sending loop of `ssh_exec`: opens the trace, sends the commands in
      order, recording each one as it goes, and stops right after the first
      one whose error text is not empty. */
  method SendAll(cmds: seq<string>, remote: Remote, reading: Reading) returns (results: seq<CommandResult>, trace: seq<Event>)
    ensures results == Run(remote, reading, cmds, 0)
    ensures trace == [Open] + Sent(results)
  {
    results, trace := [], [Open];
    var k := 0;
    while k < |cmds|
      invariant 0 <= k <= |cmds| && |results| == k
      invariant results + Run(remote, reading, cmds, k) == Run(remote, reading, cmds, 0)
      invariant trace == [Open] + Sent(results)
    {
      var r := Answer(remote, reading, cmds, k);
      RunSplit(remote, reading, cmds, results, k);
      TraceAppend(results, r);
      trace := trace + [Exec(cmds[k])];
      results := results + [r];
      k := k + 1;
      if r.stderr != "" {
        break;
      }
    }
  }

  /** The session sees the opening, one command per result, and exactly one
      closing, at the end. */
  lemma TraceClosesOnce(results: seq<CommandResult>)
    ensures var trace := [Open] + Sent(results) + [Close];
            CountClose(trace) == 1 && trace[|trace| - 1] == Close
  {
    NoCloseSent(results);
    CountCloseAppend([Open] + Sent(results), [Close]);
    CountCloseAppend([Open], Sent(results));
  }

  /** All that `Run` promises about sending a whole command list. */
  lemma RunFromStart(remote: Remote, reading: Reading, cmds: seq<string>)
    requires |cmds| > 0
    ensures var rs := Run(remote, reading, cmds, 0);
            && 0 < |rs| <= |cmds|
            && (forall j :: 0 <= j < |rs| ==> rs[j] == Answer(remote, reading, cmds, j))
            && (forall j :: 0 <= j < |rs| - 1 ==> rs[j].stderr == "")
            && (StatusOf(rs) == Completed <==> |rs| == |cmds| && rs[|rs| - 1].stderr == "")
  {
    RunLength(remote, reading, cmds, 0);
    RunInOrder(remote, reading, cmds, 0);
    RunStopsAtError(remote, reading, cmds, 0);
  }

  /** The stop rule on the streams themselves: every command before the
      last one sent answered with a stream that counts as no error, and when
      the run stops before the end, the last one sent did not. */
  lemma StopRule(remote: Remote, reading: Reading, cmds: seq<string>)
    requires |cmds| > 0
    ensures var rs := Run(remote, reading, cmds, 0);
            && |rs| <= |cmds|
            && (forall j :: 0 <= j < |rs| - 1 ==> Silent(reading, remote(cmds[..j], cmds[j]).stderr))
            && (|rs| < |cmds| ==> !Silent(reading, remote(cmds[..|rs| - 1], cmds[|rs| - 1]).stderr))
  {
    RunFromStart(remote, reading, cmds);
    var rs := Run(remote, reading, cmds, 0);
    forall j | 0 <= j < |rs| ensures |rs[j].stderr| == 0 <==> Silent(reading, remote(cmds[..j], cmds[j]).stderr) {
      assert rs[j] == Answer(remote, reading, cmds, j);
    }
  }

  /** The session part of `ssh_exec`. When the connection cannot be made
      nothing is sent and the session is never closed. Otherwise the commands
      are sent in order, one result is kept per command sent, the loop stops
      after the first command whose error text is not empty, and the session
      is closed exactly once, after the last command sent. */
  method Session(cmds: seq<string>, connected: bool, remote: Remote, reading: Reading) returns (outcome: Outcome, trace: seq<Event>)
    ensures !connected ==> outcome == ConnectionFailed && trace == []
    ensures connected ==>
              var rs := Run(remote, reading, cmds, 0);
              outcome == Finished(rs, StatusOf(rs))
    ensures outcome.Finished? ==>
              && trace == [Open] + Sent(outcome.results) + [Close]
              && CountClose(trace) == 1 && trace[|trace| - 1] == Close
  {
    if !connected {
      return ConnectionFailed, [];
    }
    var results;
    results, trace := SendAll(cmds, remote, reading);
    TraceClosesOnce(results);
    trace := trace + [Close];
    outcome := Finished(results, StatusOf(results));
  }

  /** `ssh_exec`, with the error text as the source computes it: normalise
      the script, then run the session on the command list. The results are
      a non-empty prefix of the answers to the command list; every command
      but the last one sent wrote at most one character to stderr; and the
      run completes exactly when every command ran without error. */
  method SshExec(script: string, connected: bool, remote: Remote) returns (outcome: Outcome, trace: seq<Event>)
    ensures !connected ==> outcome == ConnectionFailed && trace == []
    ensures connected ==> outcome.Finished?
    ensures outcome.Finished? ==>
              var cmds := CommandList(script);
              var rs := outcome.results;
              && 0 < |rs| <= |cmds|
              && (forall j :: 0 <= j < |rs| ==> rs[j] == Answer(remote, AsWritten, cmds, j))
              && (forall j :: 0 <= j < |rs| - 1 ==> |remote(cmds[..j], cmds[j]).stderr| <= 1)
              && (outcome.status == Completed <==> |rs| == |cmds| && rs[|rs| - 1].stderr == "")
              && (outcome.status.FailedAt? ==> outcome.status.index == |rs| - 1 && rs[|rs| - 1].stderr != "")
    ensures outcome.Finished? ==> CountClose(trace) == 1 && trace[|trace| - 1] == Close
  {
    var cmds := CommandList(script);
    outcome, trace := Session(cmds, connected, remote, AsWritten);
    RunFromStart(remote, AsWritten, cmds);
    StopRule(remote, AsWritten, cmds);
  }


  // ------------------------------------------------------- examples

  /** A command that writes one terminated line to stderr has that line,
      without its newline, as its error text under either reading. */
  lemma OneLineError(reading: Reading, command: string, body: string)
    requires '\n' !in body
    ensures Record(reading, command, Reply("", body + "\n")).stderr == body
  {
    ErrTextAgreesOnOneLine(body);
  }

  /** Four commands, the third of which fails: three are sent, the run is
      reported as failed at the third, the fourth is never sent. A
      newline-terminated message reads the same either way. */
  lemma StopsAtFailureExample(reading: Reading)
    ensures var remote := (sent: seq<string>, c: string) =>
              if c == "b" then Reply("", "boom\n") else Reply("", "");
            var rs := Run(remote, reading, ["p", "a", "b", "c"], 0);
            && |rs| == 3 && rs[2].stderr == "boom" && StatusOf(rs) == FailedAt(2)
  {
    var remote := (sent: seq<string>, c: string) =>
      if c == "b" then Reply("", "boom\n") else Reply("", "");
    var cmds := ["p", "a", "b", "c"];
    var p, a, b := Record(reading, "p", Reply("", "")), Record(reading, "a", Reply("", "")), Record(reading, "b", Reply("", "boom\n"));
    OneLineError(reading, "b", "boom");
    assert "boom" + "\n" == "boom\n";
    assert Answer(remote, reading, cmds, 0) == p && Answer(remote, reading, cmds, 1) == a;
    assert Answer(remote, reading, cmds, 2) == b;
    assert Run(remote, reading, cmds, 2) == [b];
    assert Run(remote, reading, cmds, 1) == [a, b];
    assert Run(remote, reading, cmds, 0) == [p, a, b];
  }

  /** A first command that writes the single character `x` to stderr: as
      written the loop records an empty error text and goes on to the second
      command, so the run counts as completed; as intended it stops after the
      first, failed there. */
  lemma OneCharErrorExample()
    ensures var remote := (sent: seq<string>, c: string) =>
              if c == "a" then Reply("", "x") else Reply("", "");
            var written := Run(remote, AsWritten, ["a", "b"], 0);
            var intended := Run(remote, Intended, ["a", "b"], 0);
            && |written| == 2 && written[0].stderr == "" && StatusOf(written) == Completed
            && |intended| == 1 && intended[0].stderr == "x" && StatusOf(intended) == FailedAt(0)
  {
    var remote := (sent: seq<string>, c: string) =>
      if c == "a" then Reply("", "x") else Reply("", "");
    var cmds := ["a", "b"];
    assert Run(remote, AsWritten, cmds, 1) == [Record(AsWritten, "b", remote(cmds[..1], "b"))];
    assert Run(remote, AsWritten, cmds, 0) == [Record(AsWritten, "a", remote(cmds[..0], "a"))] + Run(remote, AsWritten, cmds, 1);
    assert Run(remote, Intended, cmds, 0) == [Record(Intended, "a", remote(cmds[..0], "a"))];
  }

  /** A first command that writes only a newline to stderr: its error text
      is empty under either reading, so both loops go on to the second
      command and complete. */
  lemma LoneNewlineExample(reading: Reading)
    ensures var remote := (sent: seq<string>, c: string) =>
              if c == "a" then Reply("", "\n") else Reply("", "");
            var rs := Run(remote, reading, ["a", "b"], 0);
            && |rs| == 2 && rs[0].stderr == "" && StatusOf(rs) == Completed
  {
    var remote := (sent: seq<string>, c: string) =>
      if c == "a" then Reply("", "\n") else Reply("", "");
    var cmds := ["a", "b"];
    assert Run(remote, reading, cmds, 1) == [Record(reading, "b", remote(cmds[..1], "b"))];
    assert Run(remote, reading, cmds, 0) == [Record(reading, "a", remote(cmds[..0], "a"))] + Run(remote, reading, cmds, 1);
  }

  /** When every stream counts as no error, every command is sent. */
  lemma CompletesWhenClean(remote: Remote, reading: Reading, cmds: seq<string>)
    requires forall j :: 0 <= j < |cmds| ==> Silent(reading, remote(cmds[..j], cmds[j]).stderr)
    ensures |Run(remote, reading, cmds, 0)| == |cmds|
    ensures StatusOf(Run(remote, reading, cmds, 0)) == Completed
  {
    RunLength(remote, reading, cmds, 0);
    RunInOrder(remote, reading, cmds, 0);
    RunStopsAtError(remote, reading, cmds, 0);
  }
}
