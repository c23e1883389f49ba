/**
 * Text handling shared by the script builders and the executor: Python's
 * `str.split` on one separator character, `str.strip()`, and the
 * normalisation `ssh_exec` applies to a script before running it (split on
 * newlines, strip every line, drop the blank ones).
 */
module Lines {

  /** The characters Python's `str.isspace` accepts; `str.strip()` with no
      argument removes exactly these from both ends. */
  predicate IsSpace(c: char) {
    var n := c as int;
    || n == 0x20
    || 0x09 <= n <= 0x0D
    || 0x1C <= n <= 0x1F
    || n == 0x85 || n == 0xA0 || n == 0x1680
    || 0x2000 <= n <= 0x200A
    || n == 0x2028 || n == 0x2029 || n == 0x202F || n == 0x205F || n == 0x3000
  }

  predicate IsBlank(s: string) {
    forall i :: 0 <= i < |s| ==> IsSpace(s[i])
  }

  /** Neither end of `s` is whitespace: `s.strip()` leaves it alone. */
  predicate Trimmed(s: string) {
    |s| == 0 || (!IsSpace(s[0]) && !IsSpace(s[|s| - 1]))
  }

  /** A command line as `ssh_exec` sends it: non-empty, stripped, one line. */
  predicate Line(s: string) {
    |s| > 0 && '\n' !in s && Trimmed(s)
  }

  /** A name that can be spliced into a command line and end it without
      splitting the line or being eaten by the strip: non-empty, no newline,
      not ending in whitespace. */
  predicate Inline(s: string) {
    |s| > 0 && '\n' !in s && !IsSpace(s[|s| - 1])
  }

  /** `n` blanks: the indentation of a line inside a triple-quoted literal. */
  function Indent(n: nat): (r: string)
    ensures |r| == n && IsBlank(r) && '\n' !in r
  {
    seq(n, _ => ' ')
  }

  /** One line of a triple-quoted literal: the newline ending the line before
      it, `n` blanks of indentation, then the text. */
  function IndentedLine(n: nat, text: string): string {
    "\n" + Indent(n) + text
  }

  // ---------------------------------------------------------------- split

  /** Python's `s.split(sep)` for a one-character separator. */
  function SplitOn(s: string, sep: char): (r: seq<string>)
    ensures |r| > 0
  {
    if |s| == 0 then [""]
    else
      var rest := SplitOn(s[1..], sep);
      if s[0] == sep then [""] + rest
      else [[s[0]] + rest[0]] + rest[1..]
  }

  /** Python's `sep.join(parts)`. */
  function JoinWith(parts: seq<string>, sep: char): string {
    if |parts| == 0 then ""
    else if |parts| == 1 then parts[0]
    else parts[0] + [sep] + JoinWith(parts[1..], sep)
  }

  /** Joining the pieces of a split gives back the text. */
  lemma {:induction false} JoinSplit(s: string, sep: char)
    ensures JoinWith(SplitOn(s, sep), sep) == s
  {
    if |s| > 0 {
      var rest := SplitOn(s[1..], sep);
      JoinSplit(s[1..], sep);
      if s[0] == sep {
        assert SplitOn(s, sep) == [""] + rest;
        assert ([""] + rest)[1..] == rest;
      } else {
        var r := SplitOn(s, sep);
        assert r == [[s[0]] + rest[0]] + rest[1..];
        if |rest| == 1 {
          assert s == [s[0]] + s[1..];
        } else {
          assert r[1..] == rest[1..];
          assert JoinWith(rest, sep) == rest[0] + [sep] + JoinWith(rest[1..], sep);
          assert s == [s[0]] + s[1..];
        }
      }
    }
  }

  /** Text without the separator splits into itself alone. */
  lemma {:induction false} SplitNoSep(s: string, sep: char)
    requires sep !in s
    ensures SplitOn(s, sep) == [s]
  {
    if |s| > 0 {
      SplitNoSep(s[1..], sep);
      assert s == [s[0]] + s[1..];
    }
  }

  /** Splitting at a separator splits the two sides independently. */
  lemma {:induction false} SplitAround(a: string, b: string, sep: char)
    ensures SplitOn(a + [sep] + b, sep) == SplitOn(a, sep) + SplitOn(b, sep)
  {
    if |a| == 0 {
      assert a + [sep] + b == [sep] + b;
      SplitConsSep(b, sep);
    } else {
      SplitAround(a[1..], b, sep);
      SplitAroundCons(a[0], a[1..], b, sep);
      assert a == [a[0]] + a[1..];
    }
  }

  /** The inductive step of `SplitAround`: one more character in front. */
  lemma SplitAroundCons(a0: char, a1: string, b: string, sep: char)
    requires SplitOn(a1 + [sep] + b, sep) == SplitOn(a1, sep) + SplitOn(b, sep)
    ensures SplitOn([a0] + a1 + [sep] + b, sep) == SplitOn([a0] + a1, sep) + SplitOn(b, sep)
  {
    var t := a1 + [sep] + b;
    assert [a0] + a1 + [sep] + b == [a0] + t;
    if a0 != sep {
      GlueOther(a0, a1, t, SplitOn(b, sep), sep);
    } else {
      SplitConsSep(t, sep);
      SplitConsSep(a1, sep);
    }
  }

  lemma GlueOther(a0: char, a1: string, t: string, rb: seq<string>, sep: char)
    requires a0 != sep && SplitOn(t, sep) == SplitOn(a1, sep) + rb
    ensures SplitOn([a0] + t, sep) == SplitOn([a0] + a1, sep) + rb
  {
    SplitConsOther(a0, t, sep);
    SplitConsOther(a0, a1, sep);
    GlueFirst([a0], SplitOn(a1, sep), rb);
  }

  /** A split that starts with the separator starts with an empty piece. */
  lemma SplitConsSep(s: string, sep: char)
    ensures SplitOn([sep] + s, sep) == [""] + SplitOn(s, sep)
  {
    assert ([sep] + s)[1..] == s;
  }

  /** Any other first character joins the first piece of the rest. */
  lemma SplitConsOther(c: char, s: string, sep: char)
    requires c != sep
    ensures SplitOn([c] + s, sep) == [[c] + SplitOn(s, sep)[0]] + SplitOn(s, sep)[1..]
  {
    assert ([c] + s)[1..] == s;
  }

  /** Gluing text to the first piece commutes with appending pieces. */
  lemma GlueFirst(h: string, x: seq<string>, y: seq<string>)
    requires |x| > 0
    ensures [h + (x + y)[0]] + (x + y)[1..] == [h + x[0]] + x[1..] + y
  {
    assert (x + y)[0] == x[0];
    assert (x + y)[1..] == x[1..] + y;
  }

  /** Appending separator-free text extends the last piece only. */
  lemma {:induction false} SplitExtend(a: string, w: string, sep: char)
    requires sep !in w
    ensures var p := SplitOn(a, sep);
            SplitOn(a + w, sep) == p[..|p| - 1] + [p[|p| - 1] + w]
  {
    if |a| == 0 {
      SplitNoSep(w, sep);
      assert a + w == w;
    } else {
      var s := a + w;
      assert s[0] == a[0];
      assert s[1..] == a[1..] + w;
      SplitExtend(a[1..], w, sep);
      var ra := SplitOn(a[1..], sep);
      var m := |ra|;
      var rs := ra[..m - 1] + [ra[m - 1] + w];
      if a[0] != sep {
        if m == 1 {
          assert rs == [ra[0] + w];
          assert [a[0]] + (ra[0] + w) == ([a[0]] + ra[0]) + w;
        } else {
          assert rs[0] == ra[0];
          assert rs[1..] == ra[1..m - 1] + [ra[m - 1] + w];
          var p := SplitOn(a, sep);
          assert p == [[a[0]] + ra[0]] + ra[1..];
          assert p[..|p| - 1] == [[a[0]] + ra[0]] + ra[1..m - 1];
        }
      }
    }
  }

  /** Splitting a join of separator-free pieces gives the pieces back. */
  lemma {:induction false} SplitJoin(parts: seq<string>, sep: char)
    requires |parts| > 0
    requires forall i :: 0 <= i < |parts| ==> sep !in parts[i]
    ensures SplitOn(JoinWith(parts, sep), sep) == parts
  {
    if |parts| == 1 {
      SplitNoSep(parts[0], sep);
    } else {
      SplitJoin(parts[1..], sep);
      SplitNoSep(parts[0], sep);
      SplitAround(parts[0], JoinWith(parts[1..], sep), sep);
      assert parts == [parts[0]] + parts[1..];
    }
  }

  // ---------------------------------------------------------------- strip

  /** Python's `s.strip()`: drop whitespace from the front, then from the
      back, until neither end is whitespace. */
  function Strip(s: string): (r: string)
    ensures |r| <= |s| && Trimmed(r)
  {
    if |s| > 0 && IsSpace(s[0]) then Strip(s[1..])
    else if |s| > 0 && IsSpace(s[|s| - 1]) then Strip(s[..|s| - 1])
    else s
  }

  /** The strip is empty exactly for blank text. */
  lemma {:induction false} StripEmpty(s: string)
    ensures |Strip(s)| == 0 <==> IsBlank(s)
  {
    if |s| > 0 && IsSpace(s[0]) {
      StripEmpty(s[1..]);
      assert IsBlank(s) <==> IsBlank(s[1..]);
    } else if |s| > 0 && IsSpace(s[|s| - 1]) {
      StripEmpty(s[..|s| - 1]);
      assert !IsBlank(s);
      assert !IsBlank(s[..|s| - 1]) by {
        assert s[..|s| - 1][0] == s[0];
      }
    }
  }

  /** The strip is a piece of the text: it adds no character. */
  lemma {:induction false} StripKeeps(s: string, c: char)
    requires c !in s
    ensures c !in Strip(s)
  {
    if |s| > 0 && IsSpace(s[0]) {
      StripKeeps(s[1..], c);
    } else if |s| > 0 && IsSpace(s[|s| - 1]) {
      StripKeeps(s[..|s| - 1], c);
    }
  }

  /** Stripped text is its own strip. */
  lemma StripTrimmed(s: string)
    requires Trimmed(s)
    ensures Strip(s) == s
  {
  }

  /** Whitespace in front of stripped text is all that `strip` removes. */
  lemma {:induction false} StripPadded(pad: string, t: string)
    requires IsBlank(pad) && Trimmed(t)
    ensures Strip(pad + t) == t
  {
    if |pad| == 0 {
      assert pad + t == t;
    } else {
      assert (pad + t)[0] == pad[0];
      assert (pad + t)[1..] == pad[1..] + t;
      StripPadded(pad[1..], t);
    }
  }

  /** Whitespace after stripped text is all that `strip` removes. */
  lemma {:induction false} StripTail(t: string, pad: string)
    requires IsBlank(pad) && Trimmed(t)
    ensures Strip(t + pad) == t
  {
    if |pad| == 0 {
      assert t + pad == t;
    } else if |t| == 0 {
      assert t + pad == pad;
      StripEmpty(pad);
    } else {
      var s := t + pad;
      assert s[0] == t[0] && s[|s| - 1] == pad[|pad| - 1];
      assert s[..|s| - 1] == t + pad[..|pad| - 1];
      StripTail(t, pad[..|pad| - 1]);
    }
  }

  /** Whitespace on both sides of stripped text is all that `strip`
      removes. */
  lemma {:induction false} StripBoth(front: string, t: string, back: string)
    requires IsBlank(front) && Trimmed(t) && IsBlank(back)
    ensures Strip(front + t + back) == t
  {
    if |front| == 0 {
      assert front + t + back == t + back;
      StripTail(t, back);
    } else {
      var s := front + t + back;
      assert s[0] == front[0];
      assert s[1..] == front[1..] + t + back;
      StripBoth(front[1..], t, back);
    }
  }

  // ------------------------------------------------------- normalisation

  /** Every line stripped, the ones left empty dropped, the rest kept in
      order. */
  function Clean(lines: seq<string>): (r: seq<string>)
    ensures |r| <= |lines|
  {
    if |lines| == 0 then []
    else
      var head := Strip(lines[0]);
      (if |head| == 0 then [] else [head]) + Clean(lines[1..])
  }

  /** Every cleaned line is stripped and non-blank, and holds no character
      that none of the input lines holds. */
  lemma {:induction false} CleanShape(lines: seq<string>, c: char)
    ensures forall i :: 0 <= i < |Clean(lines)| ==> |Clean(lines)[i]| > 0 && Trimmed(Clean(lines)[i])
    ensures (forall i :: 0 <= i < |lines| ==> c !in lines[i]) ==>
              forall i :: 0 <= i < |Clean(lines)| ==> c !in Clean(lines)[i]
  {
    if |lines| > 0 {
      CleanShape(lines[1..], c);
      var head := Strip(lines[0]);
      if c !in lines[0] {
        StripKeeps(lines[0], c);
      }
      var h := if |head| == 0 then [] else [head];
      var rest := Clean(lines[1..]);
      assert Clean(lines) == h + rest;
      forall i | 0 <= i < |Clean(lines)|
        ensures |Clean(lines)[i]| > 0 && Trimmed(Clean(lines)[i])
        ensures c !in lines[0] && (forall j :: 0 <= j < |lines[1..]| ==> c !in lines[1..][j]) ==> c !in Clean(lines)[i]
      {
        if i < |h| {
          assert Clean(lines)[i] == head;
        } else {
          assert Clean(lines)[i] == rest[i - |h|];
        }
      }
      if forall i :: 0 <= i < |lines| ==> c !in lines[i] {
        assert c !in lines[0];
        assert forall j :: 0 <= j < |lines[1..]| ==> c !in lines[1..][j] by {
          forall j | 0 <= j < |lines[1..]| ensures c !in lines[1..][j] {
            assert lines[1..][j] == lines[j + 1];
          }
        }
      }
    }
  }

  lemma {:induction false} CleanAppend(a: seq<string>, b: seq<string>)
    ensures Clean(a + b) == Clean(a) + Clean(b)
  {
    if |a| == 0 {
      assert a + b == b;
    } else {
      var ab := a + b;
      assert ab[0] == a[0];
      assert ab[1..] == a[1..] + b;
      CleanAppend(a[1..], b);
    }
  }

  lemma CleanBlank(l: string)
    requires IsBlank(l)
    ensures Clean([l]) == []
  {
    StripEmpty(l);
    assert [l][1..] == [];
  }

  lemma CleanOne(l: string)
    requires |l| > 0 && Trimmed(l)
    ensures Clean([l]) == [l]
  {
    StripTrimmed(l);
    assert [l][1..] == [];
  }

  /** Cleaning changes nothing exactly when every line is already stripped
      and non-blank. */
  lemma {:induction false} CleanFixpoint(lines: seq<string>)
    ensures Clean(lines) == lines <==>
            forall i :: 0 <= i < |lines| ==> |lines[i]| > 0 && Trimmed(lines[i])
  {
    CleanShape(lines, ' ');
    if forall i :: 0 <= i < |lines| ==> |lines[i]| > 0 && Trimmed(lines[i]) {
      if |lines| > 0 {
        StripTrimmed(lines[0]);
        CleanFixpoint(lines[1..]);
        assert lines == [lines[0]] + lines[1..];
      }
    }
  }

  /** Cleaning twice is cleaning once. */
  lemma CleanIdempotent(lines: seq<string>)
    ensures Clean(Clean(lines)) == Clean(lines)
  {
    CleanShape(lines, ' ');
    CleanFixpoint(Clean(lines));
  }

  /** What `ssh_exec` runs of a script: its lines, stripped, without the
      blank ones. */
  function Normalize(script: string): seq<string> {
    Clean(SplitOn(script, '\n'))
  }

  /** The pieces of a split hold no separator. */
  lemma {:induction false} SplitPieces(s: string, sep: char)
    ensures forall i :: 0 <= i < |SplitOn(s, sep)| ==> sep !in SplitOn(s, sep)[i]
  {
    if |s| > 0 {
      SplitPieces(s[1..], sep);
      var rest := SplitOn(s[1..], sep);
      var r := SplitOn(s, sep);
      forall i | 0 <= i < |r| ensures sep !in r[i] {
        if s[0] == sep {
          assert r == [""] + rest;
          if i > 0 { assert r[i] == rest[i - 1]; }
        } else {
          assert r == [[s[0]] + rest[0]] + rest[1..];
          if i > 0 { assert r[i] == rest[i]; }
        }
      }
    }
  }

  /** Every normalised line is a command line: non-empty, stripped, and free
      of newlines. */
  lemma NormalizeLines(script: string)
    ensures forall i :: 0 <= i < |Normalize(script)| ==> Line(Normalize(script)[i])
  {
    SplitPieces(script, '\n');
    CleanShape(SplitOn(script, '\n'), '\n');
  }

  lemma NormalizeEmpty()
    ensures Normalize("") == []
  {
    assert SplitOn("", '\n') == [""];
    CleanBlank("");
  }

  /** Normalising the already normalised lines, joined back into a script,
      gives the same lines. */
  lemma NormalizeIdempotent(script: string)
    ensures Normalize(JoinWith(Normalize(script), '\n')) == Normalize(script)
  {
    var n := Normalize(script);
    NormalizeLines(script);
    if |n| == 0 {
      NormalizeEmpty();
    } else {
      SplitJoin(n, '\n');
      CleanFixpoint(n);
    }
  }

  /** A script glued to one that starts with a newline normalises to the
      two normalisations, one after the other. */
  lemma NormalizeConcat(a: string, b: string)
    requires |b| > 0 && b[0] == '\n'
    ensures Normalize(a + b) == Normalize(a) + Normalize(b)
  {
    var tail := b[1..];
    assert b == ['\n'] + tail;
    assert a + b == a + ['\n'] + tail;
    SplitAround(a, tail, '\n');
    var sa := SplitOn(a, '\n');
    var sb := SplitOn(tail, '\n');
    assert SplitOn(b, '\n') == [""] + sb;
    CleanAppend(sa, sb);
    CleanAppend([""], sb);
    CleanBlank("");
  }

  /** One indented line of a triple-quoted literal normalises to its text,
      or to nothing when the text is empty. */
  lemma NormalizeIndentedLine(n: nat, text: string)
    requires '\n' !in text && Trimmed(text)
    ensures Normalize(IndentedLine(n, text)) == if |text| == 0 then [] else [text]
  {
    var body := Indent(n) + text;
    assert IndentedLine(n, text) == [] + ['\n'] + body;
    SplitAround([], body, '\n');
    SplitNoSep(body, '\n');
    assert SplitOn([], '\n') == [""];
    assert SplitOn(IndentedLine(n, text), '\n') == [""] + [body];
    StripPadded(Indent(n), text);
    CleanAppend([""], [body]);
    CleanBlank("");
    if |text| == 0 {
      assert body == Indent(n);
      CleanBlank(body);
    } else {
      assert [body][1..] == [];
    }
  }

  /** The piece of a split after the last separator. */
  function LastPiece(s: string): string {
    var p := SplitOn(s, '\n');
    p[|p| - 1]
  }

  lemma LastPieceAfterNewline(a: string, z: string)
    requires '\n' !in z
    ensures LastPiece(a + "\n" + z) == z
  {
    SplitAround(a, z, '\n');
    SplitNoSep(z, '\n');
  }

  lemma LastPieceOfTerminated(x: string)
    ensures LastPiece(x + "\n") == ""
  {
    LastPieceAfterNewline(x, "");
    assert x + "\n" + "" == x + "\n";
  }

  /** Text appended to a script whose last line is blank becomes one more
      line of its own. */
  lemma NormalizeAppendLine(x: string, w: string)
    requires IsBlank(LastPiece(x))
    requires Line(w)
    ensures Normalize(x + w) == Normalize(x) + [w]
  {
    var p := SplitOn(x, '\n');
    var init := p[..|p| - 1];
    var last := p[|p| - 1];
    SplitExtend(x, w, '\n');
    assert p == init + [last];
    CleanAppend(init, [last]);
    CleanAppend(init, [last + w]);
    CleanBlank(last);
    StripPadded(last, w);
    assert [last + w][1..] == [];
  }
}
