/**
 * The checks `init` makes on the command line: the command must be one of
 * the seven phases, the address must have the shape of an IPv4 address
 * (four dot-separated groups of one to three decimal digits, with no check
 * that a group is at most 255), `deploy` needs at least one service and
 * `config` takes none.
 */
module Validation {
  import opened Lines
  import opened Scripts

  datatype Option<T> = None | Some(value: T)

  /** Why `init` refuses a command line, in the order the checks run. */
  datatype InitError = UnknownCommand | NotAnAddress | DeployNeedsService | ConfigTakesService

  datatype Result<T> = Ok(value: T) | Err(error: InitError)

  /** The command line as given: options that were not given are `None`. */
  datatype Invocation = Invocation(
    command: string, address: string, user: Option<string>, password: Option<string>,
    identity: Option<string>, verbose: bool, services: seq<string>)

  /** The settings `init` keeps. */
  datatype Settings = Settings(
    phase: Phase, address: string, user: string, password: string,
    identity: Option<string>, verbose: bool, services: seq<string>)

  // ---------------------------------------------------------- commands

  function PhaseName(p: Phase): string {
    match p
    case Config => "config"
    case Initiate => "initiate"
    case Build => "build"
    case Deploy => "deploy"
    case Healthcheck => "healthcheck"
    case All => "all"
    case Restart => "restart"
  }

  /** The choice check on the command: one of the seven names, exactly. */
  function ParsePhase(name: string): (r: Option<Phase>)
    ensures r.Some? ==> PhaseName(r.value) == name
  {
    if name == "config" then Some(Config)
    else if name == "initiate" then Some(Initiate)
    else if name == "build" then Some(Build)
    else if name == "deploy" then Some(Deploy)
    else if name == "healthcheck" then Some(Healthcheck)
    else if name == "all" then Some(All)
    else if name == "restart" then Some(Restart)
    else None
  }

  /** Every phase is reachable by its name, and only by it. */
  lemma ParsePhaseName(p: Phase, name: string)
    ensures ParsePhase(PhaseName(p)) == Some(p)
    ensures ParsePhase(name) == Some(p) <==> name == PhaseName(p)
  {
  }

  // ---------------------------------------------------------- address

  /** `[0-9]` in a Python `str` pattern: the ASCII digits only. */
  predicate IsDigit(c: char) {
    '0' <= c <= '9'
  }

  predicate AllDigits(g: string) {
    forall i :: 0 <= i < |g| ==> IsDigit(g[i])
  }

  /** `[0-9]{1,3}`. */
  predicate DigitGroup(g: string) {
    1 <= |g| <= 3 && AllDigits(g)
  }

  /** Four groups of one to three digits separated by dots, nothing else. */
  predicate DottedQuad(s: string) {
    var gs := SplitOn(s, '.');
    |gs| == 4 && DigitGroup(gs[0]) && DigitGroup(gs[1]) && DigitGroup(gs[2]) && DigitGroup(gs[3])
  }

  /** What the address pattern accepts: a dotted quad, and, because `$` also
      matches before a newline that ends the text, a dotted quad followed by
      one newline. */
  predicate MatchesAddress(s: string) {
    DottedQuad(s) || (|s| > 0 && s[|s| - 1] == '\n' && DottedQuad(s[..|s| - 1]))
  }

  /** `pu` is the split of a prefix of the text split into `pt`. */
  predicate PiecesPrefix(pu: seq<string>, pt: seq<string>) {
    && 0 < |pu| <= |pt|
    && (forall j :: 0 <= j < |pu| - 1 ==> pu[j] == pt[j])
    && pu[|pu| - 1] <= pt[|pu| - 1]
  }

  lemma PiecesPrefixSep(ru: seq<string>, rt: seq<string>)
    requires PiecesPrefix(ru, rt)
    ensures PiecesPrefix([""] + ru, [""] + rt)
  {
    var pu, pt := [""] + ru, [""] + rt;
    forall j | 0 <= j < |pu| - 1 ensures pu[j] == pt[j] {
      if j > 0 { assert pu[j] == ru[j - 1] && pt[j] == rt[j - 1]; }
    }
  }

  lemma PiecesPrefixOther(c: char, ru: seq<string>, rt: seq<string>)
    requires PiecesPrefix(ru, rt)
    ensures PiecesPrefix([[c] + ru[0]] + ru[1..], [[c] + rt[0]] + rt[1..])
  {
    var pu, pt := [[c] + ru[0]] + ru[1..], [[c] + rt[0]] + rt[1..];
    if |ru| == 1 {
      assert pu[0] <= pt[0];
    } else {
      assert pu[0] == pt[0];
      forall j | 0 < j < |pu| - 1 ensures pu[j] == pt[j] {
        assert pu[j] == ru[j] && pt[j] == rt[j];
      }
      assert pu[|pu| - 1] == ru[|ru| - 1] && pt[|pu| - 1] == rt[|ru| - 1];
    }
  }

  /** A prefix of a text splits into pieces of the text's split: the same
      pieces but for the last, which is the start of the text's piece. */
  lemma {:induction false} SplitPrefix(u: string, v: string, sep: char)
    ensures var pu := SplitOn(u, sep);
            var pt := SplitOn(u + v, sep);
            && |pu| <= |pt|
            && (forall j :: 0 <= j < |pu| - 1 ==> pu[j] == pt[j])
            && pu[|pu| - 1] <= pt[|pu| - 1]
  {
    SplitPrefixPieces(u, v, sep);
  }

  lemma {:induction false} SplitPrefixPieces(u: string, v: string, sep: char)
    ensures PiecesPrefix(SplitOn(u, sep), SplitOn(u + v, sep))
  {
    if |u| == 0 {
      assert u + v == v;
    } else {
      SplitPrefixPieces(u[1..], v, sep);
      var t := u + v;
      assert t == [u[0]] + (u[1..] + v);
      assert u == [u[0]] + u[1..];
      var ru := SplitOn(u[1..], sep);
      var rt := SplitOn(u[1..] + v, sep);
      if u[0] == sep {
        SplitConsSep(u[1..], sep);
        SplitConsSep(u[1..] + v, sep);
        PiecesPrefixSep(ru, rt);
      } else {
        SplitConsOther(u[0], u[1..], sep);
        SplitConsOther(u[0], u[1..] + v, sep);
        PiecesPrefixOther(u[0], ru, rt);
      }
    }
  }

  /** The state of the scan after a prefix of the address: `dots` groups
      closed, each a digit group, and `run` digits in the open one. */
  predicate ScanState(prefix: string, dots: nat, run: nat) {
    var p := SplitOn(prefix, '.');
    && '\n' !in prefix
    && |p| == dots + 1 && dots <= 3 && run <= 3
    && (forall j :: 0 <= j < dots ==> DigitGroup(p[j]))
    && |p[dots]| == run && AllDigits(p[dots])
  }

  /** A digit extends the open group. */
  lemma ScanDigit(prefix: string, dots: nat, run: nat, c: char)
    requires ScanState(prefix, dots, run) && IsDigit(c) && run < 3
    ensures ScanState(prefix + [c], dots, run + 1)
  {
    SplitExtend(prefix, [c], '.');
    var p := SplitOn(prefix, '.');
    var q := SplitOn(prefix + [c], '.');
    assert q == p[..dots] + [p[dots] + [c]];
    forall j | 0 <= j < dots ensures DigitGroup(q[j]) {
      assert q[j] == p[j];
    }
  }

  /** A dot closes a non-empty open group. */
  lemma ScanDot(prefix: string, dots: nat, run: nat)
    requires ScanState(prefix, dots, run) && 1 <= run && dots < 3
    ensures ScanState(prefix + ['.'], dots + 1, 0)
  {
    SplitAround(prefix, "", '.');
    assert prefix + ['.'] + "" == prefix + ['.'];
    var p := SplitOn(prefix, '.');
    assert SplitOn("", '.') == [""];
    var q := SplitOn(prefix + ['.'], '.');
    assert q == p + [""];
    forall j | 0 <= j < dots + 1 ensures DigitGroup(q[j]) {
      assert q[j] == p[j];
    }
  }

  /** When the scan refuses the character after a prefix, no text starting
      with that prefix and that character is a dotted quad. */
  lemma ScanRefuses(prefix: string, dots: nat, run: nat, c: char, rest: string)
    requires ScanState(prefix, dots, run)
    requires !(IsDigit(c) && run < 3) && !(c == '.' && 1 <= run && dots < 3)
    ensures !DottedQuad(prefix + [c] + rest)
  {
    var u := prefix + [c];
    var t := u + rest;
    SplitPrefix(u, rest, '.');
    var p := SplitOn(prefix, '.');
    var pu := SplitOn(u, '.');
    var pt := SplitOn(t, '.');
    if c == '.' {
      SplitAround(prefix, "", '.');
      assert prefix + ['.'] + "" == u;
      assert SplitOn("", '.') == [""];
      assert pu == p + [""];
      if dots < 3 {
        assert run == 0;
        assert pu[dots] == p[dots] && |pt| >= dots + 2;
        assert pt[dots] == p[dots];
      }
    } else {
      SplitExtend(prefix, [c], '.');
      assert pu == p[..dots] + [p[dots] + [c]];
      var last := pu[dots];
      assert last[run] == c;
      if dots < |pt| && run < |pt[dots]| {
        assert last <= pt[dots];
        assert pt[dots][run] == c;
      }
    }
  }

  /** The address check as a scan over the characters: one pass, counting
      dots and the digits of the open group. */
  method MatchAddress(s: string) returns (ok: bool)
    ensures ok <==> MatchesAddress(s)
  {
    var dots, run := 0, 0;
    var i := 0;
    assert s[..0] == "";
    assert SplitOn("", '.') == [""];
    while i < |s|
      invariant 0 <= i <= |s|
      invariant ScanState(s[..i], dots, run)
    {
      var c := s[i];
      assert s[..i + 1] == s[..i] + [c];
      if IsDigit(c) && run < 3 {
        ScanDigit(s[..i], dots, run, c);
        run := run + 1;
      } else if c == '.' && 1 <= run && dots < 3 {
        ScanDot(s[..i], dots, run);
        dots, run := dots + 1, 0;
      } else if c == '\n' && i == |s| - 1 && dots == 3 && 1 <= run {
        assert s[..|s| - 1] == s[..i];
        return true;
      } else {
        RefuseAt(s, i, dots, run);
        return false;
      }
      i := i + 1;
    }
    assert s[..i] == s;
    ok := dots == 3 && 1 <= run;
  }

  /** Why a refused character rules out both readings of the pattern. */
  lemma RefuseAt(s: string, i: nat, dots: nat, run: nat)
    requires i < |s| && ScanState(s[..i], dots, run)
    requires !(IsDigit(s[i]) && run < 3) && !(s[i] == '.' && 1 <= run && dots < 3)
    requires !(s[i] == '\n' && i == |s| - 1 && dots == 3 && 1 <= run)
    ensures !MatchesAddress(s)
  {
    assert s == s[..i] + [s[i]] + s[i + 1..];
    ScanRefuses(s[..i], dots, run, s[i], s[i + 1..]);
    if |s| > 0 && s[|s| - 1] == '\n' {
      var t := s[..|s| - 1];
      if i < |s| - 1 {
        assert t == s[..i] + [s[i]] + s[i + 1..|s| - 1];
        ScanRefuses(s[..i], dots, run, s[i], s[i + 1..|s| - 1]);
      } else {
        assert t == s[..i];
      }
    }
  }

  // ------------------------------------------- the shape of an address

  /** The four groups an accepted address is made of. */
  lemma {:induction false} DottedQuadGroups(s: string)
    requires DottedQuad(s)
    ensures var gs := SplitOn(s, '.');
            s == gs[0] + "." + gs[1] + "." + gs[2] + "." + gs[3]
  {
    var gs := SplitOn(s, '.');
    JoinSplit(s, '.');
    assert gs[1..][1..][1..] == [gs[3]];
    assert JoinWith(gs[1..][1..], '.') == gs[2] + "." + gs[3];
  }

  /** Any four digit groups joined by dots form an accepted address. */
  lemma QuadOfGroups(a: string, b: string, c: string, d: string)
    requires DigitGroup(a) && DigitGroup(b) && DigitGroup(c) && DigitGroup(d)
    ensures DottedQuad(a + "." + b + "." + c + "." + d)
  {
    var parts := [a, b, c, d];
    forall i | 0 <= i < 4 ensures '.' !in parts[i] {
      assert forall k :: 0 <= k < |parts[i]| ==> IsDigit(parts[i][k]);
    }
    SplitJoin(parts, '.');
    assert parts[1..][1..][1..] == [d];
    assert JoinWith([d], '.') == d;
    assert JoinWith([c, d], '.') == c + "." + d;
    assert JoinWith([b, c, d], '.') == b + "." + (c + "." + d);
    assert JoinWith(parts, '.') == a + "." + (b + "." + (c + "." + d));
    assert a + "." + (b + "." + (c + "." + d)) == a + "." + b + "." + c + "." + d;
    assert SplitOn(a + "." + b + "." + c + "." + d, '.') == parts;
  }

  /** An accepted address has between 7 and 16 characters (the last one only
      with the trailing newline). */
  lemma AddressLength(s: string)
    requires MatchesAddress(s)
    ensures 7 <= |s| <= 16
    ensures |s| == 16 ==> s[15] == '\n'
  {
    if DottedQuad(s) {
      DottedQuadGroups(s);
    } else {
      DottedQuadGroups(s[..|s| - 1]);
    }
  }

  lemma AcceptsExamples()
    ensures MatchesAddress("10.0.0.1")
    ensures MatchesAddress("256.1.1.1")
  {
    QuadOfGroups("10", "0", "0", "1");
    assert "10" + "." + "0" + "." + "0" + "." + "1" == "10.0.0.1";
    QuadOfGroups("256", "1", "1", "1");
    assert "256" + "." + "1" + "." + "1" + "." + "1" == "256.1.1.1";
  }

  /** The newline after the address is let through. */
  lemma AcceptsTrailingNewline()
    ensures MatchesAddress("1.2.3.4\n")
  {
    QuadOfGroups("1", "2", "3", "4");
    var q := "1" + "." + "2" + "." + "3" + "." + "4";
    assert (q + "\n")[..|q + "\n"| - 1] == q;
    assert q + "\n" == "1.2.3.4\n";
  }

  lemma RejectsExamples()
    ensures !MatchesAddress("1.2.3")
    ensures !MatchesAddress("1.2.3.4.5")
  {
    ShortNotAddress("1.2.3");
    QuadOfGroups("1", "2", "3", "4");
    assert "1" + "." + "2" + "." + "3" + "." + "4" == "1.2.3.4";
    TooManyGroups("1.2.3.4", "5");
    assert "1.2.3.4" + "." + "5" == "1.2.3.4.5";
  }

  /** Fewer than seven characters cannot hold four groups and three dots. */
  lemma ShortNotAddress(s: string)
    requires |s| < 7
    ensures !MatchesAddress(s)
  {
    if MatchesAddress(s) {
      AddressLength(s);
    }
  }

  /** A fifth group is never accepted. */
  lemma TooManyGroups(quad: string, g: string)
    requires DottedQuad(quad)
    ensures !MatchesAddress(quad + "." + g)
  {
    var s := quad + "." + g;
    assert s == quad + ['.'] + g;
    SplitAround(quad, g, '.');
    if |g| > 0 {
      assert s[|s| - 1] == g[|g| - 1];
      var h := g[..|g| - 1];
      assert s[..|s| - 1] == quad + ['.'] + h;
      SplitAround(quad, h, '.');
    } else {
      assert s[|s| - 1] == '.';
    }
  }

  // -------------------------------------------------------------- init

  /** `init`: the command, then the address, then the service count; the
      first failing check decides the error. Options not given take their
      defaults: user and password `root`, no identity file. */
  function Init(inv: Invocation): (r: Result<Settings>)
    ensures r.Ok? <==>
              && ParsePhase(inv.command).Some?
              && MatchesAddress(inv.address)
              && (inv.command == "deploy" ==> |inv.services| > 0)
              && (inv.command == "config" ==> |inv.services| == 0)
    ensures ParsePhase(inv.command).None? ==> r == Err(UnknownCommand)
    ensures ParsePhase(inv.command).Some? && !MatchesAddress(inv.address) ==> r == Err(NotAnAddress)
    ensures r.Ok? ==>
              && PhaseName(r.value.phase) == inv.command
              && r.value.address == inv.address
              && r.value.services == inv.services
              && r.value.user == (if inv.user.Some? then inv.user.value else "root")
              && r.value.password == (if inv.password.Some? then inv.password.value else "root")
  {
    match ParsePhase(inv.command)
    case None => Err(UnknownCommand)
    case Some(phase) =>
      if !MatchesAddress(inv.address) then Err(NotAnAddress)
      else if phase == Deploy && |inv.services| == 0 then Err(DeployNeedsService)
      else if phase == Config && |inv.services| != 0 then Err(ConfigTakesService)
      else
        Ok(Settings(
          phase, inv.address,
          match inv.user case Some(u) => u case None => "root",
          match inv.password case Some(p) => p case None => "root",
          inv.identity, inv.verbose, inv.services))
  }

  /** An accepted `deploy` never falls back to the default services, and an
      accepted `config` carries none. */
  lemma InitServiceRules(inv: Invocation)
    requires Init(inv).Ok?
    ensures Init(inv).value.phase == Deploy ==> Services(Init(inv).value.services) == inv.services
    ensures Init(inv).value.phase == Config ==> Init(inv).value.services == []
  {
  }

  lemma InitRejectsExamples()
    ensures Init(Invocation("launch", "nowhere", None, None, None, false, [])) == Err(UnknownCommand)
    ensures Init(Invocation("build", "1.2.3", None, None, None, false, [])) == Err(NotAnAddress)
  {
    ShortNotAddress("1.2.3");
  }

  lemma InitServiceExamples()
    ensures Init(Invocation("deploy", "10.0.0.1", None, None, None, false, [])) == Err(DeployNeedsService)
    ensures Init(Invocation("config", "10.0.0.1", None, None, None, false, ["api"])) == Err(ConfigTakesService)
  {
    QuadOfGroups("10", "0", "0", "1");
    assert "10" + "." + "0" + "." + "0" + "." + "1" == "10.0.0.1";
  }
}
