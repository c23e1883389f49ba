/**
 * What the executor runs of each script: the normalised command lines of
 * every builder, per service and in order, the composition of `all`, and
 * the escaping of uploaded files.
 */
module ScriptLines {
  import opened Lines
  import opened Scripts

  /** Every name in `names` can end a command line. */
  predicate AllInline(names: seq<string>) {
    forall i :: 0 <= i < |names| ==> Inline(names[i])
  }

  /** The lines several chunks normalise to, one chunk after the other. */
  function FlatMap<T>(xs: seq<T>, lines: T -> seq<string>): seq<string>
    decreases |xs|
  {
    if |xs| == 0 then [] else FlatMap(xs[..|xs| - 1], lines) + lines(xs[|xs| - 1])
  }

  // ------------------------------------------------------- the loops

  /** A loop whose every chunk starts with a newline normalises chunk by
      chunk. */
  lemma {:induction false} NormalizeForEach<T>(xs: seq<T>, chunk: T -> string, lines: T -> seq<string>)
    requires forall i :: 0 <= i < |xs| ==>
               |chunk(xs[i])| > 0 && chunk(xs[i])[0] == '\n' && Normalize(chunk(xs[i])) == lines(xs[i])
    ensures Normalize(ForEach(xs, chunk)) == FlatMap(xs, lines)
  {
    if |xs| == 0 {
      NormalizeEmpty();
    } else {
      var init := xs[..|xs| - 1];
      assert forall i :: 0 <= i < |init| ==> init[i] == xs[i];
      NormalizeForEach(init, chunk, lines);
      NormalizeConcat(ForEach(init, chunk), chunk(xs[|xs| - 1]));
    }
  }

  lemma {:induction false} ForEachStartsWithNewline<T>(xs: seq<T>, chunk: T -> string)
    requires |xs| > 0
    requires forall i :: 0 <= i < |xs| ==> |chunk(xs[i])| > 0 && chunk(xs[i])[0] == '\n'
    ensures |ForEach(xs, chunk)| > 0 && ForEach(xs, chunk)[0] == '\n'
  {
    var init := xs[..|xs| - 1];
    if |init| > 0 {
      assert forall i :: 0 <= i < |init| ==> init[i] == xs[i];
      ForEachStartsWithNewline(init, chunk);
    } else {
      assert ForEach(init, chunk) == "";
    }
  }

  /** One line per element: the k-th line comes from the k-th element. */
  lemma {:induction false} FlatMapOne<T>(xs: seq<T>, lines: T -> seq<string>)
    requires forall i :: 0 <= i < |xs| ==> |lines(xs[i])| == 1
    ensures |FlatMap(xs, lines)| == |xs|
    ensures forall k :: 0 <= k < |xs| ==> FlatMap(xs, lines)[k] == lines(xs[k])[0]
  {
    if |xs| > 0 {
      var init := xs[..|xs| - 1];
      assert forall i :: 0 <= i < |init| ==> init[i] == xs[i];
      FlatMapOne(init, lines);
    }
  }

  /** Two lines per element: lines 2k and 2k+1 come from the k-th element. */
  lemma {:induction false} FlatMapTwo<T>(xs: seq<T>, lines: T -> seq<string>)
    requires forall i :: 0 <= i < |xs| ==> |lines(xs[i])| == 2
    ensures |FlatMap(xs, lines)| == 2 * |xs|
    ensures forall k :: 0 <= k < |xs| ==>
              FlatMap(xs, lines)[2 * k] == lines(xs[k])[0] && FlatMap(xs, lines)[2 * k + 1] == lines(xs[k])[1]
  {
    if |xs| > 0 {
      var init := xs[..|xs| - 1];
      assert forall i :: 0 <= i < |init| ==> init[i] == xs[i];
      FlatMapTwo(init, lines);
    }
  }

  // ------------------------------------------------- single chunks

  lemma NormalizeOneLineChunk(n: nat, m: nat, cmd: string)
    requires Line(cmd)
    ensures Normalize(IndentedLine(n, cmd) + IndentedLine(m, "")) == [cmd]
  {
    NormalizeConcat(IndentedLine(n, cmd), IndentedLine(m, ""));
    NormalizeIndentedLine(n, cmd);
    NormalizeIndentedLine(m, "");
  }

  lemma NormalizeTwoLineChunk(n: nat, m: nat, first: string, second: string)
    requires Line(first) && Line(second)
    ensures Normalize(IndentedLine(n, first) + IndentedLine(n, second) + IndentedLine(m, "")) == [first, second]
  {
    NormalizeConcat(IndentedLine(n, first), IndentedLine(n, second));
    NormalizeConcat(IndentedLine(n, first) + IndentedLine(n, second), IndentedLine(m, ""));
    NormalizeIndentedLine(n, first);
    NormalizeIndentedLine(n, second);
    NormalizeIndentedLine(m, "");
  }

  // ------------------------------------------------- command lines

  /** A line written as two pieces. */
  lemma LineOfPieces(a: string, b: string)
    requires |a| > 0 && |b| > 0 && '\n' !in a && '\n' !in b
    requires !IsSpace(a[0]) && !IsSpace(b[|b| - 1])
    ensures Line(a + b)
  {
    assert (a + b)[0] == a[0] && (a + b)[|a + b| - 1] == b[|b| - 1];
  }

  lemma BuildCommandIsLine(path: string, s: string)
    requires Inline(path) && Inline(s)
    ensures Line(BuildCommand(path, s))
  {
    LineOfPieces("docker build -t " + s + " -f " + path + s + " ", path);
  }

  lemma StopCommandIsLine(s: string)
    requires Inline(s)
    ensures Line(StopCommand(s))
  {
    LineOfPieces("[ \"$(docker ps -a | grep " + s + ")\" ] && docker stop " + s + " && docker rm ", s);
  }

  lemma RunCommandIsLine(path: string, s: string)
    requires Inline(path) && Inline(s)
    ensures Line(RunCommand(path, s))
  {
    var a := "[ ! \"$(docker ps -a | grep " + s + ")\" ] && $(head -n 1 " + path + s;
    var b := " | cut -c2-) -d --name " + s + " " + s + " && sleep 3 && docker logs " + s;
    LineOfPieces(a, b + " 2>&1");
    assert RunCommand(path, s) == a + (b + " 2>&1");
  }

  lemma DeployCommandsAreLines(path: string, s: string)
    requires Inline(path) && Inline(s)
    ensures Line(StopCommand(s)) && Line(RunCommand(path, s))
  {
    StopCommandIsLine(s);
    RunCommandIsLine(path, s);
  }

  lemma ServiceCommandsAreLines(s: string)
    requires Inline(s)
    ensures Line(InspectCommand(s)) && Line(RestartCommand(s))
  {
    LineOfPieces("[ \"$(docker ps -a | grep " + s + ")\" ] && docker inspect " + s, "  | jq '.[].State.Health'");
    LineOfPieces("[ \"$(docker ps -a | grep " + s + ")\" ] && docker restart ", s);
  }

  // ------------------------------------------------- the builders

  /** `build` runs one `docker build` per service, in service order. */
  lemma BuildLines(path: string, services: seq<string>)
    requires Inline(path) && AllInline(Services(services))
    ensures var ss := Services(services);
            var lines := Normalize(BuildScript(path, services));
            |lines| == |ss| && forall k :: 0 <= k < |ss| ==> lines[k] == BuildCommand(path, ss[k])
  {
    var ss := Services(services);
    var chunk := (s: string) => BuildChunk(path, s);
    var lines := (s: string) => [BuildCommand(path, s)];
    forall i | 0 <= i < |ss|
      ensures |chunk(ss[i])| > 0 && chunk(ss[i])[0] == '\n' && Normalize(chunk(ss[i])) == lines(ss[i])
    {
      BuildCommandIsLine(path, ss[i]);
      NormalizeOneLineChunk(28, 24, BuildCommand(path, ss[i]));
    }
    NormalizeForEach(ss, chunk, lines);
    FlatMapOne(ss, lines);
  }

  lemma DeployChunkLines(path: string, s: string)
    requires Inline(path) && Inline(s)
    ensures |DeployChunk(path, s)| > 0 && DeployChunk(path, s)[0] == '\n'
    ensures Normalize(DeployChunk(path, s)) == [StopCommand(s), RunCommand(path, s)]
  {
    DeployCommandsAreLines(path, s);
    NormalizeTwoLineChunk(28, 24, StopCommand(s), RunCommand(path, s));
  }

  /** `deploy` runs, per service and in service order, the guarded stop and
      remove followed by the guarded run. */
  lemma DeployLines(path: string, services: seq<string>)
    requires Inline(path) && AllInline(Services(services))
    ensures var ss := Services(services);
            var lines := Normalize(DeployScript(path, services));
            && |lines| == 2 * |ss|
            && forall k :: 0 <= k < |ss| ==>
                 lines[2 * k] == StopCommand(ss[k]) && lines[2 * k + 1] == RunCommand(path, ss[k])
  {
    var lines := (s: string) => [StopCommand(s), RunCommand(path, s)];
    DeployFlat(path, services);
    FlatMapTwo(Services(services), lines);
  }

  lemma DeployFlat(path: string, services: seq<string>)
    requires Inline(path) && AllInline(Services(services))
    ensures Normalize(DeployScript(path, services))
            == FlatMap(Services(services), (s: string) => [StopCommand(s), RunCommand(path, s)])
  {
    var ss := Services(services);
    var chunk := (s: string) => DeployChunk(path, s);
    var lines := (s: string) => [StopCommand(s), RunCommand(path, s)];
    forall i | 0 <= i < |ss|
      ensures |chunk(ss[i])| > 0 && chunk(ss[i])[0] == '\n' && Normalize(chunk(ss[i])) == lines(ss[i])
    {
      DeployChunkLines(path, ss[i]);
    }
    NormalizeForEach(ss, chunk, lines);
  }

  /** `healthcheck` runs one guarded `docker inspect` per service. */
  lemma HealthcheckLines(services: seq<string>)
    requires AllInline(Services(services))
    ensures var ss := Services(services);
            var lines := Normalize(HealthcheckScript(services));
            |lines| == |ss| && forall k :: 0 <= k < |ss| ==> lines[k] == InspectCommand(ss[k])
  {
    var ss := Services(services);
    var lines := (s: string) => [InspectCommand(s)];
    forall i | 0 <= i < |ss|
      ensures |HealthcheckChunk(ss[i])| > 0 && HealthcheckChunk(ss[i])[0] == '\n'
      ensures Normalize(HealthcheckChunk(ss[i])) == lines(ss[i])
    {
      ServiceCommandsAreLines(ss[i]);
      NormalizeOneLineChunk(28, 23, InspectCommand(ss[i]));
    }
    NormalizeForEach(ss, HealthcheckChunk, lines);
    FlatMapOne(ss, lines);
  }

  /** `restart` runs one guarded `docker restart` per service. */
  lemma RestartLines(services: seq<string>)
    requires AllInline(Services(services))
    ensures var ss := Services(services);
            var lines := Normalize(RestartScript(services));
            |lines| == |ss| && forall k :: 0 <= k < |ss| ==> lines[k] == RestartCommand(ss[k])
  {
    var ss := Services(services);
    var lines := (s: string) => [RestartCommand(s)];
    forall i | 0 <= i < |ss|
      ensures |RestartChunk(ss[i])| > 0 && RestartChunk(ss[i])[0] == '\n'
      ensures Normalize(RestartChunk(ss[i])) == lines(ss[i])
    {
      ServiceCommandsAreLines(ss[i]);
      NormalizeOneLineChunk(28, 23, RestartCommand(ss[i]));
    }
    NormalizeForEach(ss, RestartChunk, lines);
    FlatMapOne(ss, lines);
  }

  lemma ConfigInstallLines()
    ensures Line(ConfigCommands[1]) && Line(ConfigCommands[5])
  {
    LineOfPieces("apt-get install -y ", "apt-transport-https " + "ca-certificates curl");
    LineOfPieces("apt-get install -y ", "--no-install-" + "recommends docker-ce");
  }

  lemma ConfigKeyLine()
    ensures Line(ConfigCommands[2])
  {
    LineOfPieces("curl -fsSL " + "\"https://download." + "docker.com/linux/" + "debian/gpg\" | ",
      "APT_KEY_DONT_WARN_" + "ON_DANGEROUS_USAGE" + "=true apt-key add -");
  }

  lemma ConfigSourceLine()
    ensures Line(ConfigCommands[3])
  {
    LineOfPieces("echo \"deb [arch=amd64] " + "https://download." + "docker.com/linux/",
      "debian stretch " + "stable\" > " + "/etc/apt/" + "sources.list.d/" + "docker.list");
  }

  lemma ConfigShortLines()
    ensures Line(ConfigCommands[0]) && Line(ConfigCommands[4]) && Line(ConfigCommands[6])
  {
  }

  lemma ConfigCommandsAreLines()
    ensures forall i :: 0 <= i < |ConfigCommands| ==> Line(ConfigCommands[i])
  {
    ConfigInstallLines();
    ConfigKeyLine();
    ConfigSourceLine();
    ConfigShortLines();
  }

  /** `config` runs its seven commands, in order. */
  lemma ConfigLines()
    ensures Normalize(ConfigScript()) == ConfigCommands
  {
    var chunk := (c: string) => IndentedLine(24, c);
    var lines := (c: string) => [c];
    ConfigCommandsAreLines();
    forall i | 0 <= i < |ConfigCommands|
      ensures |chunk(ConfigCommands[i])| > 0 && chunk(ConfigCommands[i])[0] == '\n'
      ensures Normalize(chunk(ConfigCommands[i])) == lines(ConfigCommands[i])
    {
      NormalizeIndentedLine(24, ConfigCommands[i]);
    }
    NormalizeForEach(ConfigCommands, chunk, lines);
    FlatMapOne(ConfigCommands, lines);
    ForEachStartsWithNewline(ConfigCommands, chunk);
    NormalizeConcat(ForEach(ConfigCommands, chunk), IndentedLine(20, ""));
    NormalizeIndentedLine(20, "");
  }

  // ------------------------------------------------------- escaping

  /** What one character of a file becomes inside the `echo -e` argument. */
  function EscapeChar(c: char): string {
    if c == '\n' then "\\n" else if c == '"' then "\\\"" else [c]
  }

  /** A reference definition of the escaping, one character at a time. */
  function EscapeEach(s: string): string {
    if |s| == 0 then "" else EscapeChar(s[0]) + EscapeEach(s[1..])
  }

  lemma {:induction false} ReplaceAppend(a: string, b: string, c: char, repl: string)
    ensures Replace(a + b, c, repl) == Replace(a, c, repl) + Replace(b, c, repl)
  {
    if |a| > 0 {
      assert (a + b)[1..] == a[1..] + b;
      ReplaceAppend(a[1..], b, c, repl);
    } else {
      assert a + b == b;
    }
  }

  lemma ReplaceAbsent(s: string, c: char, repl: string)
    requires c !in s
    ensures Replace(s, c, repl) == s
  {
  }

  /** The two passes of the escaping act as one pass that escapes newlines
      and double quotes independently. */
  lemma {:induction false} EscapeIsEach(s: string)
    ensures Escape(s) == EscapeEach(s)
  {
    if |s| > 0 {
      var once := Replace(s, '\n', "\\n");
      var head := if s[0] == '\n' then "\\n" else [s[0]];
      assert once == head + Replace(s[1..], '\n', "\\n");
      ReplaceAppend(head, Replace(s[1..], '\n', "\\n"), '"', "\\\"");
      if s[0] == '\n' {
        ReplaceAbsent(head, '"', "\\\"");
      } else if s[0] != '"' {
        ReplaceAbsent(head, '"', "\\\"");
      } else {
        assert Replace(head, '"', "\\\"") == "\\\"" + Replace([], '"', "\\\"");
      }
      EscapeIsEach(s[1..]);
    }
  }

  /** The escaped text of a file is one line: it holds no newline. */
  lemma {:induction false} EscapeEachNoNewline(s: string)
    ensures '\n' !in EscapeEach(s)
  {
    if |s| > 0 {
      EscapeEachNoNewline(s[1..]);
    }
  }

  lemma EscapeNoNewline(s: string)
    ensures '\n' !in Escape(s)
  {
    EscapeIsEach(s);
    EscapeEachNoNewline(s);
  }

  /** How the remote shell and `echo -e` read back the double-quoted
      argument, for the two escapes the encoding produces: a backslash and
      `n` is a newline, a backslash and a quote is a quote. */
  function Unescape(s: string): string {
    if |s| == 0 then ""
    else if |s| >= 2 && s[0] == '\\' && s[1] == 'n' then "\n" + Unescape(s[2..])
    else if |s| >= 2 && s[0] == '\\' && s[1] == '"' then "\"" + Unescape(s[2..])
    else [s[0]] + Unescape(s[1..])
  }

  /** Text the shell and `echo -e` pass through unchanged apart from the two
      escapes: no backslash, no `$`, no backquote. */
  predicate Plain(s: string) {
    '\\' !in s && '$' !in s && '`' !in s
  }

  lemma {:induction false} UnescapeEscapeEach(s: string)
    requires '\\' !in s
    ensures Unescape(EscapeEach(s)) == s
  {
    if |s| > 0 {
      var rest := EscapeEach(s[1..]);
      assert EscapeEach(s) == EscapeChar(s[0]) + rest;
      UnescapeEscapeEach(s[1..]);
      if s[0] == '\n' || s[0] == '"' {
        assert (EscapeChar(s[0]) + rest)[2..] == rest;
      } else {
        assert (EscapeChar(s[0]) + rest)[1..] == rest;
      }
    }
  }

  /** The remote side reads back exactly the file's text, for plain text. */
  lemma EscapeRoundTrip(s: string)
    requires Plain(s)
    ensures Unescape(Escape(s)) == s
  {
    EscapeIsEach(s);
    UnescapeEscapeEach(s);
  }

  // ------------------------------------------------------- initiate

  /** Every file name can end a command line. */
  predicate NamesInline(files: seq<LocalFile>) {
    forall i :: 0 <= i < |files| ==> Inline(files[i].name)
  }

  lemma UploadCommandIsLine(path: string, f: LocalFile)
    requires Inline(path) && Inline(f.name)
    ensures Line(UploadCommand(path, f))
  {
    EscapeNoNewline(f.content);
  }

  /** The preamble of `initiate`: two commands, then the blank closing line
      of the literal. */
  lemma InitiateHead(path: string)
    requires Inline(path)
    ensures var head := IndentedLine(22, "rm -rf " + path) + IndentedLine(22, "mkdir -p " + path) + IndentedLine(19, "");
            && Normalize(head) == ["rm -rf " + path, "mkdir -p " + path]
            && IsBlank(LastPiece(head))
  {
    var rm := IndentedLine(22, "rm -rf " + path);
    var mk := IndentedLine(22, "mkdir -p " + path);
    LineOfPieces("rm -rf ", path);
    LineOfPieces("mkdir -p ", path);
    NormalizeTwoLineChunk(22, 19, "rm -rf " + path, "mkdir -p " + path);
    assert rm + mk + IndentedLine(19, "") == (rm + mk) + "\n" + Indent(19);
    LastPieceAfterNewline(rm + mk, Indent(19));
  }

  /** The upload loop leaves the script at the start of a fresh line. */
  lemma UploadsEndBlank(head: string, path: string, files: seq<LocalFile>)
    requires IsBlank(LastPiece(head))
    ensures IsBlank(LastPiece(head + ForEach(files, (f: LocalFile) => UploadChunk(path, f))))
  {
    var chunk := (f: LocalFile) => UploadChunk(path, f);
    var body := ForEach(files, chunk);
    if |files| == 0 {
      assert head + body == head;
    } else {
      var x := head + ForEach(files[..|files| - 1], chunk) + "\n" + UploadCommand(path, files[|files| - 1]);
      assert head + body == x + "\n";
      LastPieceOfTerminated(x);
    }
  }

  lemma UploadChunkLine(path: string, f: LocalFile)
    requires Inline(path) && Inline(f.name)
    ensures |UploadChunk(path, f)| > 0 && UploadChunk(path, f)[0] == '\n'
    ensures Normalize(UploadChunk(path, f)) == [UploadCommand(path, f)]
  {
    var cmd := UploadCommand(path, f);
    UploadCommandIsLine(path, f);
    assert UploadChunk(path, f) == IndentedLine(0, cmd) + IndentedLine(0, "");
    NormalizeOneLineChunk(0, 0, cmd);
  }

  /** The upload loop contributes one line per file, in order. */
  lemma UploadLines(path: string, files: seq<LocalFile>)
    requires Inline(path) && NamesInline(files)
    ensures var lines := Normalize(ForEach(files, (f: LocalFile) => UploadChunk(path, f)));
            |lines| == |files| && forall k :: 0 <= k < |files| ==> lines[k] == UploadCommand(path, files[k])
  {
    var chunk := (f: LocalFile) => UploadChunk(path, f);
    var lines := (f: LocalFile) => [UploadCommand(path, f)];
    forall i | 0 <= i < |files|
      ensures |chunk(files[i])| > 0 && chunk(files[i])[0] == '\n' && Normalize(chunk(files[i])) == lines(files[i])
    {
      UploadChunkLine(path, files[i]);
    }
    NormalizeForEach(files, chunk, lines);
    FlatMapOne(files, lines);
  }

  /** Everything of `initiate` before the final `ls`. */
  lemma InitiateBody(path: string, files: seq<LocalFile>)
    requires Inline(path) && NamesInline(files)
    ensures var head := IndentedLine(22, "rm -rf " + path) + IndentedLine(22, "mkdir -p " + path) + IndentedLine(19, "");
            var body := ForEach(files, (f: LocalFile) => UploadChunk(path, f));
            && Normalize(head + body) == ["rm -rf " + path, "mkdir -p " + path] + Normalize(body)
            && IsBlank(LastPiece(head + body))
  {
    var head := IndentedLine(22, "rm -rf " + path) + IndentedLine(22, "mkdir -p " + path) + IndentedLine(19, "");
    InitiateHead(path);
    UploadsAfter(head, path, files);
    UploadsEndBlank(head, path, files);
  }

  /** The uploads start on a fresh line, so they add their own lines. */
  lemma UploadsAfter(head: string, path: string, files: seq<LocalFile>)
    requires Inline(path) && NamesInline(files)
    ensures var body := ForEach(files, (f: LocalFile) => UploadChunk(path, f));
            Normalize(head + body) == Normalize(head) + Normalize(body)
  {
    var chunk := (f: LocalFile) => UploadChunk(path, f);
    var body := ForEach(files, chunk);
    if |files| == 0 {
      assert head + body == head;
      NormalizeEmpty();
    } else {
      forall i | 0 <= i < |files|
        ensures |chunk(files[i])| > 0 && chunk(files[i])[0] == '\n'
      {
        UploadChunkLine(path, files[i]);
      }
      ForEachStartsWithNewline(files, chunk);
      NormalizeConcat(head, body);
    }
  }

  /** `initiate` runs the wipe, the re-creation, one upload per local
      regular file in listing order, and the listing of the directory. */
  lemma InitiateLines(path: string, listing: seq<Entry>)
    requires Inline(path) && NamesInline(RegularFiles(listing))
    ensures var files := RegularFiles(listing);
            var lines := Normalize(InitiateScript(path, listing));
            && |lines| == |files| + 3
            && lines[0] == "rm -rf " + path
            && lines[1] == "mkdir -p " + path
            && (forall k :: 0 <= k < |files| ==> lines[k + 2] == UploadCommand(path, files[k]))
            && lines[|files| + 2] == "ls " + path
  {
    var files := RegularFiles(listing);
    var head := IndentedLine(22, "rm -rf " + path) + IndentedLine(22, "mkdir -p " + path) + IndentedLine(19, "");
    var body := ForEach(files, (f: LocalFile) => UploadChunk(path, f));
    InitiateBody(path, files);
    UploadLines(path, files);
    LineOfPieces("ls ", path);
    NormalizeAppendLine(head + body, "ls " + path);
    assert InitiateScript(path, listing) == head + body + ("ls " + path);
  }

  // ------------------------------------------------------------ all

  /** `all` runs the commands of `initiate`, `build`, `deploy` and
      `healthcheck`, in that order: gluing the scripts as strings neither
      merges nor splits a line, because each of the last three starts with
      a newline. */
  lemma AllLines(path: string, services: seq<string>, listing: seq<Entry>)
    ensures Normalize(AllScript(path, services, listing))
            == Normalize(InitiateScript(path, listing)) + Normalize(BuildScript(path, services))
               + Normalize(DeployScript(path, services)) + Normalize(HealthcheckScript(services))
  {
    var ss := Services(services);
    var i := InitiateScript(path, listing);
    var b := BuildScript(path, services);
    var d := DeployScript(path, services);
    var h := HealthcheckScript(services);
    ForEachStartsWithNewline(ss, (s: string) => BuildChunk(path, s));
    ForEachStartsWithNewline(ss, (s: string) => DeployChunk(path, s));
    ForEachStartsWithNewline(ss, HealthcheckChunk);
    NormalizeConcat(i, b);
    NormalizeConcat(i + b, d);
    NormalizeConcat(i + b + d, h);
  }

  /** A line that only a lifecycle phase produces: it starts with `rm`,
      `mkdir`, `ls` or a test bracket, or it is an `echo -e` or a
      `docker build`. No line of `config` has this shape. */
  predicate LifecycleShape(l: string) {
    && |l| > 0
    && (|| l[0] == 'r' || l[0] == 'm' || l[0] == 'l' || l[0] == '['
        || (l[0] == 'e' && |l| > 5 && l[5] == '-')
        || (l[0] == 'd' && |l| > 7 && l[7] == 'b'))
  }

  lemma ConfigNotLifecycle()
    ensures forall i :: 0 <= i < |ConfigCommands| ==> !LifecycleShape(ConfigCommands[i])
  {
    var cs := ConfigCommands;
    assert cs[3][0] == 'e' && cs[3][5] == '"';
    assert cs[6][0] == 'd' && cs[6][7] == 'v';
    assert cs[0][0] == 'a' && cs[1][0] == 'a' && cs[2][0] == 'c' && cs[4][0] == 'a' && cs[5][0] == 'a';
  }

  /** A line keeps the shape of its first characters. */
  lemma PrefixShape(p: string, rest: string)
    requires LifecycleShape(p)
    ensures LifecycleShape(p + rest)
  {
    assert (p + rest)[0] == p[0];
    if |p| > 7 {
      assert (p + rest)[5] == p[5] && (p + rest)[7] == p[7];
    } else if |p| > 5 {
      assert (p + rest)[5] == p[5];
    }
  }

  lemma InitiateCommandShapes(path: string, f: LocalFile)
    ensures LifecycleShape("rm -rf " + path) && LifecycleShape("mkdir -p " + path)
    ensures LifecycleShape("ls " + path) && LifecycleShape(UploadCommand(path, f))
  {
    PrefixShape("rm -rf ", path);
    PrefixShape("mkdir -p ", path);
    PrefixShape("ls ", path);
    PrefixShape("echo -e \"", Escape(f.content) + "\" > " + path + f.name);
    assert UploadCommand(path, f) == "echo -e \"" + (Escape(f.content) + "\" > " + path + f.name);
  }

  lemma BuildCommandShape(path: string, s: string)
    ensures LifecycleShape(BuildCommand(path, s))
  {
    PrefixShape("docker build -t ", s + " -f " + path + s + " " + path);
    assert BuildCommand(path, s) == "docker build -t " + (s + " -f " + path + s + " " + path);
  }

  /** The guarded commands start with a test bracket. */
  lemma GuardedShape(l: string)
    requires |l| > 0 && l[0] == '['
    ensures LifecycleShape(l)
  {
  }

  lemma InitiateShape(path: string, listing: seq<Entry>)
    requires Inline(path) && NamesInline(RegularFiles(listing))
    ensures forall l :: l in Normalize(InitiateScript(path, listing)) ==> LifecycleShape(l)
  {
    var files := RegularFiles(listing);
    var lines := Normalize(InitiateScript(path, listing));
    InitiateLines(path, listing);
    forall j | 0 <= j < |lines| ensures LifecycleShape(lines[j]) {
      if 2 <= j < |files| + 2 {
        InitiateCommandShapes(path, files[j - 2]);
      } else {
        InitiateCommandShapes(path, LocalFile("", ""));
      }
    }
  }

  lemma BuildShape(path: string, services: seq<string>)
    requires Inline(path) && AllInline(Services(services))
    ensures forall l :: l in Normalize(BuildScript(path, services)) ==> LifecycleShape(l)
  {
    var ss := Services(services);
    var bl := Normalize(BuildScript(path, services));
    BuildLines(path, services);
    forall j | 0 <= j < |bl| ensures LifecycleShape(bl[j]) {
      BuildCommandShape(path, ss[j]);
    }
  }

  lemma DeployShape(path: string, services: seq<string>)
    requires Inline(path) && AllInline(Services(services))
    ensures forall l :: l in Normalize(DeployScript(path, services)) ==> LifecycleShape(l)
  {
    var ss := Services(services);
    var dl := Normalize(DeployScript(path, services));
    DeployLines(path, services);
    forall j | 0 <= j < |dl| ensures LifecycleShape(dl[j]) {
      var k := j / 2;
      assert j == 2 * k || j == 2 * k + 1;
      GuardedShape(StopCommand(ss[k]));
      GuardedShape(RunCommand(path, ss[k]));
    }
  }

  lemma HealthcheckShape(services: seq<string>)
    requires AllInline(Services(services))
    ensures forall l :: l in Normalize(HealthcheckScript(services)) ==> LifecycleShape(l)
  {
    var ss := Services(services);
    var hl := Normalize(HealthcheckScript(services));
    HealthcheckLines(services);
    forall j | 0 <= j < |hl| ensures LifecycleShape(hl[j]) {
      GuardedShape(InspectCommand(ss[j]));
    }
  }

  /** None of `lines` is a command of `config`. */
  predicate NoConfigLine(lines: seq<string>) {
    forall l :: l in lines ==> l !in ConfigCommands
  }

  /** Lines of lifecycle shape are no lines of `config`. */
  lemma ShapedNotConfig(lines: seq<string>)
    requires forall l :: l in lines ==> LifecycleShape(l)
    ensures NoConfigLine(lines)
  {
    ConfigNotLifecycle();
  }

  lemma AllShape(path: string, services: seq<string>, listing: seq<Entry>)
    requires Inline(path) && AllInline(Services(services)) && NamesInline(RegularFiles(listing))
    ensures forall l :: l in Normalize(AllScript(path, services, listing)) ==> LifecycleShape(l)
  {
    AllLines(path, services, listing);
    InitiateShape(path, listing);
    BuildShape(path, services);
    DeployShape(path, services);
    HealthcheckShape(services);
  }

  /** `all` never runs a line of `config`. */
  lemma AllExcludesConfig(path: string, services: seq<string>, listing: seq<Entry>)
    requires Inline(path) && AllInline(Services(services)) && NamesInline(RegularFiles(listing))
    ensures NoConfigLine(Normalize(AllScript(path, services, listing)))
  {
    AllShape(path, services, listing);
    ShapedNotConfig(Normalize(AllScript(path, services, listing)));
  }

  // ------------------------------------------------------- defaults

  /** Rendering with no service is rendering for `api` and `test`, for every
      phase; a given list is used as it is. */
  lemma RenderDefaultServices(phase: Phase, path: string, listing: seq<Entry>)
    ensures Render(phase, path, [], listing) == Render(phase, path, DefaultServices, listing)
  {
  }

  lemma DefaultsInline()
    ensures Inline(DefaultPath) && AllInline(DefaultServices)
  {
  }

  // ------------------------------------------------------- examples

  lemma BuildExample()
    ensures Normalize(BuildScript("/srv/", ["api"])) == [BuildCommand("/srv/", "api")]
  {
    BuildLines("/srv/", ["api"]);
  }

  lemma EscapeExample()
    ensures Escape("a\n") == "a\\n"
    ensures Escape("\"") == "\\\""
  {
    EscapeIsEach("a\n");
    EscapeIsEach("\"");
  }
}
