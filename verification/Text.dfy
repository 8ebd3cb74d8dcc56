/** The string operations of the changelog tool: trimming, splitting into lines, joining. */
module Text {
  import Common

  /** Unicode `White_Space`, as `str::trim` uses it. */
  predicate IsWhite(c: char) {
    var n := c as int;
    9 <= n <= 13 || n == 32 || n == 0x85 || n == 0xA0 || n == 0x1680 || 0x2000 <= n <= 0x200A
    || n == 0x2028 || n == 0x2029 || n == 0x202F || n == 0x205F || n == 0x3000
  }

  predicate IsNewline(c: char) { c == '\n' || c == '\r' }

  function TrimStart(s: string): string {
    if s != [] && IsWhite(s[0]) then TrimStart(s[1..]) else s
  }

  function TrimEnd(s: string): string {
    if s != [] && IsWhite(s[|s| - 1]) then TrimEnd(s[..|s| - 1]) else s
  }

  function Trim(s: string): string { TrimEnd(TrimStart(s)) }

  /** `trim_start_matches(['\r', '\n'])` and its two-sided form. */
  function DropNewlines(s: string): string {
    if s != [] && IsNewline(s[0]) then DropNewlines(s[1..]) else s
  }

  function DropNewlinesEnd(s: string): string {
    if s != [] && IsNewline(s[|s| - 1]) then DropNewlinesEnd(s[..|s| - 1]) else s
  }

  function TrimNewlines(s: string): string { DropNewlinesEnd(DropNewlines(s)) }

  predicate Blank(s: string) { Trim(s) == [] }

  predicate AllWhite(s: string) { forall c :: c in s ==> IsWhite(c) }

  predicate StartsWith(s: string, prefix: string) { prefix <= s }

  // ----- order -----

  /** Byte order, which for UTF-8 is the order of the code points. */
  predicate TextLe(a: string, b: string)
    decreases |a|
  {
    a == [] || (b != [] && (a[0] < b[0] || (a[0] == b[0] && TextLe(a[1..], b[1..]))))
  }

  lemma {:induction false} TextLeTotal(a: string, b: string)
    ensures TextLe(a, b) || (TextLe(b, a) && a != b)
    decreases |a|
  {
    if a != [] && b != [] && a[0] == b[0] {
      TextLeTotal(a[1..], b[1..]);
      assert a == [a[0]] + a[1..] && b == [b[0]] + b[1..];
    }
  }

  lemma {:induction false} TextLeTransitive(a: string, b: string, c: string)
    requires TextLe(a, b) && TextLe(b, c)
    ensures TextLe(a, c)
    decreases |a|
  {
    if a != [] && a[0] == b[0] && b[0] == c[0] { TextLeTransitive(a[1..], b[1..], c[1..]); }
  }

  lemma {:induction false} TextLeAntisymmetric(a: string, b: string)
    requires TextLe(a, b) && TextLe(b, a)
    ensures a == b
    decreases |a|
  {
    if a != [] {
      TextLeAntisymmetric(a[1..], b[1..]);
      assert a == [a[0]] + a[1..] && b == [b[0]] + b[1..];
    }
  }

  /** It is the order of dictionaries: a prefix comes first, and else the first difference decides. */
  lemma {:induction false} TextLeIff(a: string, b: string)
    ensures TextLe(a, b) <==>
            a <= b || exists i :: 0 <= i < |a| && i < |b| && a[..i] == b[..i] && a[i] < b[i]
    decreases |a|
  {
    if a != [] && b != [] {
      var x, y := a[1..], b[1..];
      assert a == [a[0]] + x && b == [b[0]] + y;
      if a[0] == b[0] {
        TextLeIff(x, y);
        assert a <= b <==> x <= y by {
          if a <= b { assert x == b[..|a|][1..] == y[..|x|]; }
          if x <= y { assert a == [b[0]] + y[..|x|] == b[..|a|]; }
        }
        if i :| 0 <= i < |x| && i < |y| && x[..i] == y[..i] && x[i] < y[i] {
          assert a[..i + 1] == [a[0]] + x[..i] && b[..i + 1] == [b[0]] + y[..i];
          assert a[i + 1] < b[i + 1];
        }
        if i :| 0 <= i < |a| && i < |b| && a[..i] == b[..i] && a[i] < b[i] {
          assert i > 0;
          assert x[..i - 1] == a[..i][1..] && y[..i - 1] == b[..i][1..];
          assert x[i - 1] < y[i - 1];
        }
      } else if a[0] < b[0] {
        assert a[..0] == b[..0];
      } else {
        assert forall i :: 0 < i < |a| && i < |b| ==> a[..i][0] == a[0] && b[..i][0] == b[0];
      }
    }
  }

  // ----- lines -----

  /** `split_inclusive('\n')`: every line keeps its line feed. */
  function SplitLines(s: string): seq<string>
    decreases |s|
  {
    if s == [] then []
    else
      var n := LineLength(s);
      [s[..n]] + SplitLines(s[n..])
  }

  /** The length of the first line, its line feed included. */
  function LineLength(s: string): (n: nat)
    ensures n <= |s| && (s != [] ==> n > 0)
    decreases |s|
  {
    if s == [] then 0 else if s[0] == '\n' then 1 else 1 + LineLength(s[1..])
  }

  function Join(lines: seq<string>): string
    decreases |lines|
  {
    if lines == [] then [] else lines[0] + Join(lines[1..])
  }

  /** `lines()`: without the line ending, which is a line feed or CR LF. */
  function BareLine(line: string): string {
    if line == [] || line[|line| - 1] != '\n' then line
    else if |line| >= 2 && line[|line| - 2] == '\r' then line[..|line| - 2]
    else line[..|line| - 1]
  }

  function BareLines(lines: seq<string>): seq<string>
    decreases |lines|
  {
    if lines == [] then [] else [BareLine(lines[0])] + BareLines(lines[1..])
  }

  function Lines(s: string): seq<string> { BareLines(SplitLines(s)) }

  /** Ends at a line boundary. */
  predicate Terminated(s: string) { s == [] || s[|s| - 1] == '\n' }

  /** One line with its line feed. */
  predicate IsLine(s: string) { s != [] && s[|s| - 1] == '\n' && '\n' !in s[..|s| - 1] }

  lemma {:induction false} JoinSplit(s: string)
    ensures Join(SplitLines(s)) == s
    decreases |s|
  {
    if s != [] {
      var n := LineLength(s);
      JoinSplit(s[n..]);
      assert ([s[..n]] + SplitLines(s[n..]))[1..] == SplitLines(s[n..]);
    }
  }

  lemma {:induction false} JoinConcat(a: seq<string>, b: seq<string>)
    ensures Join(a + b) == Join(a) + Join(b)
    decreases |a|
  {
    if a == [] {
      assert a + b == b;
    } else {
      assert (a + b)[1..] == a[1..] + b;
      JoinConcat(a[1..], b);
    }
  }

  lemma {:induction false} LineLengthOfLine(line: string, rest: string)
    requires IsLine(line)
    ensures LineLength(line + rest) == |line|
    decreases |line|
  {
    if |line| > 1 {
      assert line[0] in line[..|line| - 1];
      assert (line + rest)[1..] == line[1..] + rest;
      assert line[1..][..|line| - 2] == line[..|line| - 1][1..];
      LineLengthOfLine(line[1..], rest);
    }
  }

  lemma {:induction false} LineLengthIsLine(s: string)
    requires s != []
    ensures IsLine(s[..LineLength(s)]) || (LineLength(s) == |s| && '\n' !in s)
    decreases |s|
  {
    if s[0] != '\n' {
      var n := LineLength(s[1..]);
      assert s == [s[0]] + s[1..];
      if s[1..] != [] {
        LineLengthIsLine(s[1..]);
        if IsLine(s[1..][..n]) {
          assert s[..n + 1] == [s[0]] + s[1..][..n];
          assert s[..n + 1][..n] == [s[0]] + s[1..][..n][..n - 1];
        }
      }
    }
  }

  lemma SplitCons(line: string, rest: string)
    requires IsLine(line)
    ensures SplitLines(line + rest) == [line] + SplitLines(rest)
  {
    LineLengthOfLine(line, rest);
    assert (line + rest)[..|line|] == line && (line + rest)[|line|..] == rest;
  }

  lemma FirstLine(a: string) returns (line: string, rest: string)
    requires Terminated(a) && a != []
    ensures IsLine(line) && Terminated(rest) && a == line + rest
  {
    LineLengthIsLine(a);
    assert a[|a| - 1] in a;
    line, rest := a[..LineLength(a)], a[LineLength(a)..];
  }

  lemma {:induction false} SplitConcat(a: string, b: string)
    requires Terminated(a)
    ensures SplitLines(a + b) == SplitLines(a) + SplitLines(b)
    decreases |a|
  {
    if a == [] {
      assert a + b == b;
    } else {
      var line, rest := FirstLine(a);
      Common.ConcatAssociative(line, rest, b);
      SplitCons(line, rest);
      SplitCons(line, rest + b);
      SplitConcat(rest, b);
      Common.ConcatAssociative([line], SplitLines(rest), SplitLines(b));
    }
  }

  lemma {:induction false} BareConcat(a: seq<string>, b: seq<string>)
    ensures BareLines(a + b) == BareLines(a) + BareLines(b)
    decreases |a|
  {
    if a == [] {
      assert a + b == b;
    } else {
      assert (a + b)[1..] == a[1..] + b;
      BareConcat(a[1..], b);
      assert [BareLine(a[0])] + BareLines(a[1..]) + BareLines(b) ==
          [BareLine(a[0])] + (BareLines(a[1..]) + BareLines(b));
    }
  }

  /** The line endings are a line feed and CR LF; nothing else is taken off a line. */
  lemma BareLineIs(line: string)
    requires '\n' !in line
    ensures BareLine(line) == line && BareLine(line + "\r\n") == line
    ensures BareLine(line + "\n") == if line != [] && line[|line| - 1] == '\r' then line[..|line| - 1] else line
  {
    var crlf, lf := line + "\r\n", line + "\n";
    if line != [] { assert line[|line| - 1] in line; }
    assert crlf[..|line|] == line && lf[..|line|] == line;
    if line != [] { assert lf[..|line| - 1] == line[..|line| - 1]; }
  }

  lemma {:induction false} BareLinesAt(lines: seq<string>, i: nat)
    requires i < |lines|
    ensures |BareLines(lines)| == |lines| && BareLines(lines)[i] == BareLine(lines[i])
    decreases |lines|
  {
    if |lines| > 1 { BareLinesAt(lines[1..], if i > 0 then i - 1 else 0); }
  }

  // ----- trimming -----

  lemma {:induction false} TrimStartSuffix(s: string)
    ensures |TrimStart(s)| <= |s| && TrimStart(s) == s[|s| - |TrimStart(s)|..]
    ensures AllWhite(s[..|s| - |TrimStart(s)|])
    ensures TrimStart(s) != [] ==> !IsWhite(TrimStart(s)[0])
    decreases |s|
  {
    if s != [] && IsWhite(s[0]) {
      TrimStartSuffix(s[1..]);
      var k := |s[1..]| - |TrimStart(s[1..])|;
      assert s[..k + 1] == [s[0]] + s[1..][..k];
    }
  }

  lemma {:induction false} TrimEndPrefix(s: string)
    ensures TrimEnd(s) <= s
    ensures AllWhite(s[|TrimEnd(s)|..])
    ensures TrimEnd(s) != [] ==> !IsWhite(TrimEnd(s)[|TrimEnd(s)| - 1])
    decreases |s|
  {
    if s != [] && IsWhite(s[|s| - 1]) {
      var t := s[..|s| - 1];
      TrimEndPrefix(t);
      assert s[|TrimEnd(t)|..] == t[|TrimEnd(t)|..] + [s[|s| - 1]];
    }
  }

  /** The Unicode characters with the property `White_Space`, one by one. */
  lemma WhiteCharacters(c: char)
    ensures IsWhite(c) <==>
            c in {'\t', '\n', '\U{B}', '\U{C}', '\r', ' ', '\U{85}', '\U{A0}', '\U{1680}', '\U{2000}', '\U{2001}',
                  '\U{2002}', '\U{2003}', '\U{2004}', '\U{2005}', '\U{2006}', '\U{2007}', '\U{2008}', '\U{2009}',
                  '\U{200A}', '\U{2028}', '\U{2029}', '\U{202F}', '\U{205F}', '\U{3000}'}
  {
  }

  /** Trimming takes the white characters from both ends and nothing else. */
  lemma TrimIs(s: string) returns (a: string, b: string)
    ensures s == a + Trim(s) + b && AllWhite(a) && AllWhite(b)
    ensures Trim(s) != [] ==> !IsWhite(Trim(s)[0]) && !IsWhite(Trim(s)[|Trim(s)| - 1])
  {
    var t := TrimStart(s);
    TrimStartSuffix(s);
    TrimEndPrefix(t);
    a, b := s[..|s| - |t|], t[|TrimEnd(t)|..];
    assert s == a + t && t == Trim(s) + b;
  }

  lemma {:induction false} DropStartSuffix(s: string) returns (a: string)
    ensures s == a + DropNewlines(s) && forall c :: c in a ==> IsNewline(c)
    ensures DropNewlines(s) != [] ==> !IsNewline(DropNewlines(s)[0])
    decreases |s|
  {
    if s != [] && IsNewline(s[0]) {
      var b := DropStartSuffix(s[1..]);
      a := [s[0]] + b;
      assert s == [s[0]] + s[1..];
    } else {
      a := [];
    }
  }

  lemma {:induction false} DropEndPrefix(s: string) returns (b: string)
    ensures s == DropNewlinesEnd(s) + b && forall c :: c in b ==> IsNewline(c)
    ensures DropNewlinesEnd(s) != [] ==> !IsNewline(DropNewlinesEnd(s)[|DropNewlinesEnd(s)| - 1])
    decreases |s|
  {
    if s != [] && IsNewline(s[|s| - 1]) {
      var n := |s| - 1;
      var a := DropEndPrefix(s[..n]);
      b := a + [s[n]];
      assert s == s[..n] + [s[n]];
    } else {
      b := [];
    }
  }

  /** What is left between the line breaks at both ends. */
  lemma TrimNewlinesIs(s: string) returns (a: string, b: string)
    ensures s == a + TrimNewlines(s) + b && forall c :: c in a + b ==> c == '\n' || c == '\r'
    ensures var t := TrimNewlines(s); t != [] ==> t[0] !in {'\n', '\r'} && t[|t| - 1] !in {'\n', '\r'}
  {
    var t := DropNewlines(s);
    a := DropStartSuffix(s);
    b := DropEndPrefix(t);
    assert t == TrimNewlines(s) + b;
    if TrimNewlines(s) != [] { assert TrimNewlines(s)[0] == t[0]; }
  }

  lemma BlankIffAllWhite(s: string)
    ensures Blank(s) <==> AllWhite(s)
  {
    TrimStartSuffix(s);
    TrimEndPrefix(TrimStart(s));
    var k := |s| - |TrimStart(s)|;
    assert s == s[..k] + TrimStart(s);
    assert Trim(s) == [] ==> AllWhite(TrimStart(s)[0..]);
    assert forall i :: 0 <= i < |TrimStart(s)| ==> TrimStart(s)[i] in s;
    assert forall i :: 0 <= i < |TrimStart(s)| ==> TrimStart(s)[i] == TrimStart(s)[0..][i];
  }

  /** Trimming starts at the first character if that is not white, and keeps it. */
  lemma TrimKeeps(p: string, rest: string)
    requires p != [] && !IsWhite(p[0]) && !IsWhite(p[|p| - 1])
    ensures p <= Trim(p + rest)
  {
    assert TrimStart(p + rest) == p + rest;
    TrimEndKeeps(p, rest);
  }

  lemma {:induction false} TrimEndKeeps(p: string, rest: string)
    requires p != [] && !IsWhite(p[|p| - 1])
    ensures p <= TrimEnd(p + rest)
    decreases |rest|
  {
    if rest == [] {
      assert p + rest == p;
    } else if IsWhite(rest[|rest| - 1]) {
      assert (p + rest)[..|p + rest| - 1] == p + rest[..|rest| - 1];
      TrimEndKeeps(p, rest[..|rest| - 1]);
    }
  }

  /** A final line feed is trimmed away. */
  lemma TrimLine(s: string)
    requires s != [] && !IsWhite(s[0]) && !IsWhite(s[|s| - 1])
    ensures Trim(s + "\n") == s
  {
    assert TrimStart(s + "\n") == s + "\n";
    assert (s + "\n")[..|s|] == s;
    assert TrimEnd(s + "\n") == TrimEnd(s);
  }

  lemma TerminatedConcat(a: string, b: string)
    requires Terminated(a) && Terminated(b)
    ensures Terminated(a + b)
  {
    if b != [] { assert (a + b)[|a + b| - 1] == b[|b| - 1]; }
  }
}
