/**
 * The script builders of `deployer` (`config`, `initiate`, `build`, `deploy`,
 * `healthcheck`, `restart`, `all`), as the strings the source produces:
 * triple-quoted f-strings with their indentation, concatenated per service.
 * What the executor makes of these strings is proved in `ScriptLines`.
 */
module Scripts {
  import opened Lines

  /** The commands accepted on the command line. */
  datatype Phase = Config | Initiate | Build | Deploy | Healthcheck | All | Restart

  /** A local file: its name in the working directory and its text. */
  datatype LocalFile = LocalFile(name: string, content: string)

  /** One entry of the local working directory listing; only regular files
      are uploaded. */
  datatype Entry = RegularFile(file: LocalFile) | OtherEntry(name: string)

  /** `self.path`: the working directory, locally and on the remote host. */
  const DefaultPath: string := "./export/"

  /** The services used when none is given. */
  const DefaultServices: seq<string> := ["api", "test"]

  /** The services a per-service phase works on: the given ones, in order,
      or `api` and `test` when none is given. */
  function Services(requested: seq<string>): (r: seq<string>)
    ensures |r| > 0
    ensures requested != [] ==> r == requested
  {
    if requested == [] then DefaultServices else requested
  }

  /** The builders' loop: starting from the empty script, append one chunk
      per element, in order. */
  function ForEach<T>(xs: seq<T>, chunk: T -> string): string
    decreases |xs|
  {
    if |xs| == 0 then "" else ForEach(xs[..|xs| - 1], chunk) + chunk(xs[|xs| - 1])
  }

  // ------------------------------------------------------------- config

  /** The lines of the `config` literal: install the transport
      prerequisites, add Docker's key and repository, install Docker. The
      long lines are written as concatenations of shorter pieces; the
      strings are the same. */
  const ConfigCommands: seq<string> := [
    "apt-get update",
    "apt-get install -y " + "apt-transport-https " + "ca-certificates curl",
    "curl -fsSL " + "\"https://download." + "docker.com/linux/" + "debian/gpg\" | "
      + "APT_KEY_DONT_WARN_" + "ON_DANGEROUS_USAGE" + "=true apt-key add -",
    "echo \"deb [arch=amd64] " + "https://download." + "docker.com/linux/" + "debian stretch " + "stable\" > "
      + "/etc/apt/" + "sources.list.d/" + "docker.list",
    "apt-get update",
    "apt-get install -y " + "--no-install-" + "recommends docker-ce",
    "docker version"
  ]

  /** The `config` literal: each command on its own line indented by 24
      blanks, closed by a line of 20 blanks. */
  function ConfigScript(): string {
    ForEach(ConfigCommands, (c: string) => IndentedLine(24, c)) + IndentedLine(20, "")
  }

  // ----------------------------------------------------------- initiate

  /** Python's `str.replace` for a one-character pattern: every `c` in `s`
      becomes `repl`. */
  function Replace(s: string, c: char, repl: string): (r: string)
    ensures c !in repl ==> c !in r
  {
    if |s| == 0 then ""
    else (if s[0] == c then repl else [s[0]]) + Replace(s[1..], c, repl)
  }

  /** The escaping applied to a file's text before it is embedded in a
      double-quoted `echo -e` argument: first every newline becomes a
      backslash and `n`, then every double quote a backslash and a quote. */
  function Escape(content: string): string {
    Replace(Replace(content, '\n', "\\n"), '"', "\\\"")
  }

  /** The line that recreates one file on the remote host. */
  function UploadCommand(path: string, f: LocalFile): string {
    "echo -e \"" + Escape(f.content) + "\" > " + path + f.name
  }

  /** The regular files of a directory listing, in listing order. */
  function RegularFiles(listing: seq<Entry>): (r: seq<LocalFile>)
    ensures |r| <= |listing|
    ensures forall f :: f in r <==> RegularFile(f) in listing
  {
    if |listing| == 0 then []
    else
      var rest := RegularFiles(listing[1..]);
      assert forall e :: e in listing <==> e == listing[0] || e in listing[1..];
      (if listing[0].RegularFile? then [listing[0].file] else []) + rest
  }

  /** Filtering a listing piece by piece gives the same files in the same
      order: the regular files keep their listing order. */
  lemma {:induction false} RegularFilesAppend(a: seq<Entry>, b: seq<Entry>)
    ensures RegularFiles(a + b) == RegularFiles(a) + RegularFiles(b)
  {
    if |a| > 0 {
      assert (a + b)[0] == a[0] && (a + b)[1..] == a[1..] + b;
      RegularFilesAppend(a[1..], b);
    } else {
      assert a + b == b;
    }
  }

  /** A regular file is kept as is, and anything else is dropped. */
  lemma RegularFilesOne(e: Entry)
    ensures RegularFiles([e]) == if e.RegularFile? then [e.file] else []
  {
    assert [e][1..] == [];
  }

  function UploadChunk(path: string, f: LocalFile): string {
    "\n" + UploadCommand(path, f) + "\n"
  }

  /** `initiate`: wipe and recreate the directory on the remote host, write
      every local regular file into it, list it. */
  function InitiateScript(path: string, listing: seq<Entry>): string {
    var files := RegularFiles(listing);
    IndentedLine(22, "rm -rf " + path) + IndentedLine(22, "mkdir -p " + path) + IndentedLine(19, "")
    + ForEach(files, (f: LocalFile) => UploadChunk(path, f))
    + ("ls " + path)
  }

  // ------------------------------------------------ per-service phases

  function BuildCommand(path: string, s: string): string {
    "docker build -t " + s + " -f " + path + s + " " + path
  }

  function StopCommand(s: string): string {
    "[ \"$(docker ps -a | grep " + s + ")\" ] && docker stop " + s + " && docker rm " + s
  }

  /** Runs the invocation prefix found on the first line of the service's
      recipe file, minus its first character. */
  function RunCommand(path: string, s: string): string {
    "[ ! \"$(docker ps -a | grep " + s + ")\" ] && $(head -n 1 " + path + s
    + " | cut -c2-) -d --name " + s + " " + s + " && sleep 3 && docker logs " + s + " 2>&1"
  }

  function InspectCommand(s: string): string {
    "[ \"$(docker ps -a | grep " + s + ")\" ] && docker inspect " + s + "  | jq '.[].State.Health'"
  }

  function RestartCommand(s: string): string {
    "[ \"$(docker ps -a | grep " + s + ")\" ] && docker restart " + s
  }

  function BuildChunk(path: string, s: string): string {
    IndentedLine(28, BuildCommand(path, s)) + IndentedLine(24, "")
  }

  function DeployChunk(path: string, s: string): string {
    IndentedLine(28, StopCommand(s)) + IndentedLine(28, RunCommand(path, s)) + IndentedLine(24, "")
  }

  function HealthcheckChunk(s: string): string {
    IndentedLine(28, InspectCommand(s)) + IndentedLine(23, "")
  }

  function RestartChunk(s: string): string {
    IndentedLine(28, RestartCommand(s)) + IndentedLine(23, "")
  }

  function BuildScript(path: string, services: seq<string>): string {
    ForEach(Services(services), (s: string) => BuildChunk(path, s))
  }

  function DeployScript(path: string, services: seq<string>): string {
    ForEach(Services(services), (s: string) => DeployChunk(path, s))
  }

  function HealthcheckScript(services: seq<string>): string {
    ForEach(Services(services), HealthcheckChunk)
  }

  function RestartScript(services: seq<string>): string {
    ForEach(Services(services), RestartChunk)
  }

  /** `all`: the four phases after `config`, glued together. */
  function AllScript(path: string, services: seq<string>, listing: seq<Entry>): string {
    InitiateScript(path, listing) + BuildScript(path, services)
    + DeployScript(path, services) + HealthcheckScript(services)
  }

  /** The dispatch table of `command`. */
  function Render(phase: Phase, path: string, services: seq<string>, listing: seq<Entry>): string {
    match phase
    case Config => ConfigScript()
    case Initiate => InitiateScript(path, listing)
    case Build => BuildScript(path, services)
    case Deploy => DeployScript(path, services)
    case Healthcheck => HealthcheckScript(services)
    case All => AllScript(path, services, listing)
    case Restart => RestartScript(services)
  }
}
