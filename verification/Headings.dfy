/**
 The fence-aware heading scanner of crates/changelog-release-notes/src/lib.rs: a heading inside
 a fenced code block, as section 4.5 of the CommonMark specification describes them, is text.
 */
module Headings {
  import opened Common
  import opened Text

  /** The state the scanner carries from line to line: the fence it is inside, if any. */
  datatype Fence = Closed | Open(mark: char, count: nat)

  /** A line of at least three backticks or tildes; `bare` if nothing but white follows them. */
  datatype Marker = Marker(mark: char, count: nat, bare: bool)

  function Run(s: string, c: char): (n: nat)
    ensures n <= |s|
    decreases |s|
  {
    if s != [] && s[0] == c then 1 + Run(s[1..], c) else 0
  }

  function FenceMarker(line: string): Option<Marker> {
    var t := Trim(line);
    if t == [] || !(t[0] == '`' || t[0] == '~') || Run(t, t[0]) < 3 then None
    else Some(Marker(t[0], Run(t, t[0]), Blank(t[Run(t, t[0])..])))
  }

  /** A fence opens at any marker and closes at a bare one of its kind that is long enough. */
  function NextFence(fence: Fence, line: string): Fence {
    match FenceMarker(line)
    case None => fence
    case Some(m) =>
      match fence
      case Closed => Open(m.mark, m.count)
      case Open(mark, count) => if m.mark == mark && m.count >= count && m.bare then Closed else fence
  }

  function FenceAfter(lines: seq<string>, fence: Fence): Fence
    decreases |lines|
  {
    if lines == [] then fence else FenceAfter(lines[1..], NextFence(fence, lines[0]))
  }

  /** Offsets of the heading's line in the text, and the trimmed text after the prefix. */
  datatype Heading = Heading(start: nat, end: nat, value: string)

  predicate IsHeading(fence: Fence, line: string, prefix: string) {
    fence.Closed? && FenceMarker(line).None? && StartsWith(line, prefix)
  }

  function Scan(lines: seq<string>, prefix: string, offset: nat, fence: Fence): seq<Heading>
    decreases |lines|
  {
    if lines == [] then []
    else
      var line := lines[0];
      var rest := Scan(lines[1..], prefix, offset + |line|, NextFence(fence, line));
      if IsHeading(fence, line, prefix) then
        [Heading(offset, offset + |line|, Trim(line[|prefix|..]))] + rest
      else rest
  }

  function HeadingsOf(text: string, prefix: string): seq<Heading> {
    Scan(SplitLines(text), prefix, 0, Closed)
  }

  lemma ScanAt(lines: seq<string>, i: nat, prefix: string, offset: nat, fence: Fence)
    requires i < |lines|
    ensures var line := lines[i];
            var rest := Scan(lines[i + 1..], prefix, offset + |line|, NextFence(fence, line));
            Scan(lines[i..], prefix, offset, fence) ==
            if IsHeading(fence, line, prefix) then [Heading(offset, offset + |line|, Trim(line[|prefix|..]))] + rest
            else rest
    ensures FenceMarker(lines[i]).None? ==> NextFence(fence, lines[i]) == fence
  {
    assert lines[i..][0] == lines[i] && lines[i..][1..] == lines[i + 1..];
  }

  /** `headings`. */
  method FindHeadings(text: string, prefix: string) returns (result: seq<Heading>)
    ensures result == HeadingsOf(text, prefix)
  {
    result := ScanLines(SplitLines(text), prefix);
  }

  /** The loop over the lines that updates `offset` and `fence`. */
  method ScanLines(lines: seq<string>, prefix: string) returns (result: seq<Heading>)
    ensures result == Scan(lines, prefix, 0, Closed)
  {
    result := [];
    var offset: nat := 0;
    var fence := Closed;
    var i := 0;
    assert lines[0..] == lines;
    ghost var all := Scan(lines, prefix, 0, Closed);
    while i < |lines|
      invariant 0 <= i <= |lines|
      invariant all == result + Scan(lines[i..], prefix, offset, fence)
    {
      var line := lines[i];
      ScanAt(lines, i, prefix, offset, fence);
      var marker := FenceMarker(line);
      if marker.Some? {
        fence := NextFence(fence, line);
      } else if fence.Closed? && StartsWith(line, prefix) {
        result := result + [Heading(offset, offset + |line|, Trim(line[|prefix|..]))];
      }
      offset := offset + |line|;
      i := i + 1;
    }
  }

  // ----- scanning in pieces -----

  lemma {:induction false} FenceConcat(a: seq<string>, b: seq<string>, fence: Fence)
    ensures FenceAfter(a + b, fence) == FenceAfter(b, FenceAfter(a, fence))
    decreases |a|
  {
    if a == [] {
      assert a + b == b;
    } else {
      assert (a + b)[1..] == a[1..] + b;
      FenceConcat(a[1..], b, NextFence(fence, a[0]));
    }
  }

  /** A scan may stop at any line and resume with the offset and the fence it had reached. */
  lemma {:induction false} ScanConcat(a: seq<string>, b: seq<string>, prefix: string, offset: nat, fence: Fence)
    ensures Scan(a + b, prefix, offset, fence)
            == Scan(a, prefix, offset, fence) + Scan(b, prefix, offset + |Join(a)|, FenceAfter(a, fence))
    decreases |a|
  {
    if a == [] {
      assert a + b == b;
    } else {
      assert (a + b)[1..] == a[1..] + b;
      ScanConcat(a[1..], b, prefix, offset + |a[0]|, NextFence(fence, a[0]));
    }
  }

  function ShiftOne(h: Heading, d: nat): Heading { Heading(h.start + d, h.end + d, h.value) }

  function Shift(hs: seq<Heading>, d: nat): seq<Heading>
    decreases |hs|
  {
    if hs == [] then [] else [ShiftOne(hs[0], d)] + Shift(hs[1..], d)
  }

  lemma {:induction false} ScanShift(lines: seq<string>, prefix: string, offset: nat, fence: Fence, d: nat)
    ensures Scan(lines, prefix, offset + d, fence) == Shift(Scan(lines, prefix, offset, fence), d)
    decreases |lines|
  {
    if lines != [] {
      var line := lines[0];
      var rest := Scan(lines[1..], prefix, offset + |line|, NextFence(fence, line));
      ScanShift(lines[1..], prefix, offset + |line|, NextFence(fence, line), d);
      if IsHeading(fence, line, prefix) {
        var h := Heading(offset, offset + |line|, Trim(line[|prefix|..]));
        assert ([h] + rest)[1..] == rest;
      }
    }
  }

  /** A line the scanner passes over. */
  predicate Quiet(line: string, prefix: string) {
    FenceMarker(line).None? && !StartsWith(line, prefix)
  }

  lemma {:induction false} QuietScan(lines: seq<string>, prefix: string, offset: nat)
    requires forall i :: 0 <= i < |lines| ==> Quiet(lines[i], prefix)
    ensures Scan(lines, prefix, offset, Closed) == [] && FenceAfter(lines, Closed) == Closed
    decreases |lines|
  {
    if lines != [] {
      assert Quiet(lines[0], prefix);
      QuietScan(lines[1..], prefix, offset + |lines[0]|);
    }
  }

  /** The text after a terminated part is scanned on its own, up to the offset. */
  lemma HeadingsConcat(a: string, b: string, prefix: string)
    requires Terminated(a) && FenceAfter(SplitLines(a), Closed) == Closed
    ensures HeadingsOf(a + b, prefix) == HeadingsOf(a, prefix) + Shift(HeadingsOf(b, prefix), |a|)
  {
    SplitConcat(a, b);
    JoinSplit(a);
    ScanPieces(SplitLines(a), SplitLines(b), prefix);
  }

  lemma ScanPieces(a: seq<string>, b: seq<string>, prefix: string)
    requires FenceAfter(a, Closed) == Closed
    ensures Scan(a + b, prefix, 0, Closed) == Scan(a, prefix, 0, Closed) + Shift(Scan(b, prefix, 0, Closed), |Join(a)|)
  {
    ScanConcat(a, b, prefix, 0, Closed);
    ScanShift(b, prefix, 0, Closed, |Join(a)|);
  }

  /** Every heading is a line of the text, met outside fences. */
  lemma {:induction false} HeadingLine(lines: seq<string>, prefix: string, offset: nat, fence: Fence,
                                       h: Heading) returns (i: nat)
    requires h in Scan(lines, prefix, offset, fence)
    ensures i < |lines| && IsHeading(FenceAfter(lines[..i], fence), lines[i], prefix)
    ensures h.start == offset + |Join(lines[..i])| && h.end == h.start + |lines[i]| && h.value ==
        Trim(lines[i][|prefix|..])
    decreases |lines|
  {
    var line := lines[0];
    if IsHeading(fence, line, prefix) && h == Heading(offset, offset + |line|, Trim(line[|prefix|..])) {
      i := 0;
    } else {
      var j := HeadingLine(lines[1..], prefix, offset + |line|, NextFence(fence, line), h);
      i := j + 1;
      assert lines[..i] == [line] + lines[1..][..j];
      assert lines[..i][1..] == lines[1..][..j];
    }
  }

  // ----- fenced blocks -----

  /** The line ends a block that the marker opened. */
  predicate Closes(open: Marker, line: string) {
    var m := FenceMarker(line);
    m.Some? && m.value.mark == open.mark && m.value.count >= open.count && m.value.bare
  }

  lemma {:induction false} InsideFence(inner: seq<string>, open: Marker, prefix: string, offset: nat)
    requires forall l :: l in inner ==> !Closes(open, l)
    ensures Scan(inner, prefix, offset, Open(open.mark, open.count)) == []
    ensures FenceAfter(inner, Open(open.mark, open.count)) == Open(open.mark, open.count)
    decreases |inner|
  {
    if inner != [] {
      assert !Closes(open, inner[0]);
      InsideFence(inner[1..], open, prefix, offset + |inner[0]|);
    }
  }

  lemma ScanOne(line: string, rest: seq<string>, prefix: string, offset: nat, fence: Fence)
    requires !IsHeading(fence, line, prefix)
    ensures Scan([line] + rest, prefix, offset, fence) == Scan(rest, prefix, offset + |line|, NextFence(fence, line))
  {
    assert ([line] + rest)[1..] == rest;
  }

  /** Nothing from an opening fence to the line that closes it is a heading. */
  lemma FenceHides(open: string, inner: seq<string>, close: string, rest: seq<string>, prefix: string, offset: nat)
    requires FenceMarker(open).Some? && Closes(FenceMarker(open).value, close)
    requires forall l :: l in inner ==> !Closes(FenceMarker(open).value, l)
    ensures Scan([open] + (inner + ([close] + rest)), prefix, offset, Closed)
            == Scan(rest, prefix, offset + |open| + |Join(inner)| + |close|, Closed)
  {
    var m := FenceMarker(open).value;
    var fence, start := Open(m.mark, m.count), offset + |open|;
    ScanOne(open, inner + ([close] + rest), prefix, offset, Closed);
    InsideFence(inner, m, prefix, start);
    ScanConcat(inner, [close] + rest, prefix, start, fence);
    ScanOne(close, rest, prefix, start + |Join(inner)|, fence);
  }

  /** A fence that is never closed hides everything after it. */
  lemma UnclosedHides(open: string, inner: seq<string>, prefix: string, offset: nat)
    requires FenceMarker(open).Some? && forall l :: l in inner ==> !Closes(FenceMarker(open).value, l)
    ensures Scan([open] + inner, prefix, offset, Closed) == []
  {
    ScanOne(open, inner, prefix, offset, Closed);
    InsideFence(inner, FenceMarker(open).value, prefix, offset + |open|);
  }

  // ----- fences by their characters -----

  function Repeat(c: char, n: nat): string { seq(n, _ => c) }

  predicate IsMark(c: char) { c == '`' || c == '~' }

  lemma {:induction false} RunIs(s: string, c: char)
    ensures s[..Run(s, c)] == Repeat(c, Run(s, c)) && (Run(s, c) < |s| ==> s[Run(s, c)] != c)
    decreases |s|
  {
    if s != [] && s[0] == c {
      var n := Run(s[1..], c);
      RunIs(s[1..], c);
      assert s[..n + 1] == [c] + s[1..][..n] == Repeat(c, n + 1);
    }
  }

  lemma {:induction false} RunOf(c: char, n: nat, rest: string)
    requires rest == [] || rest[0] != c
    ensures Run(Repeat(c, n) + rest, c) == n
    decreases n
  {
    if n == 0 {
      assert Repeat(c, n) + rest == rest;
    } else {
      assert (Repeat(c, n) + rest)[1..] == Repeat(c, n - 1) + rest;
      RunOf(c, n - 1, rest);
    }
  }

  lemma {:induction false} TrimStartWhite(w: string, s: string)
    requires AllWhite(w) && (s == [] || !IsWhite(s[0]))
    ensures TrimStart(w + s) == s
    decreases |w|
  {
    if w == [] {
      assert w + s == s;
    } else {
      assert w[0] in w;
      assert (w + s)[1..] == w[1..] + s;
      TrimStartWhite(w[1..], s);
    }
  }

  lemma {:induction false} TrimEndAfter(s: string, rest: string)
    requires s != [] && !IsWhite(s[|s| - 1])
    ensures TrimEnd(s + rest) == s + TrimEnd(rest)
    decreases |rest|
  {
    if rest == [] {
      assert s + rest == s;
    } else if IsWhite(rest[|rest| - 1]) {
      assert (s + rest)[..|s + rest| - 1] == s + rest[..|rest| - 1];
      TrimEndAfter(s, rest[..|rest| - 1]);
    }
  }

  lemma BlankEnd(rest: string)
    ensures Blank(TrimEnd(rest)) <==> AllWhite(rest)
  {
    var t := TrimEnd(rest);
    TrimEndPrefix(rest);
    BlankIffAllWhite(t);
    assert rest == t + rest[|t|..];
    if AllWhite(rest) { assert forall c :: c in t ==> c in rest; }
    assert t != [] ==> t[|t| - 1] in t;
  }

  lemma NotWhite(c: char)
    requires IsMark(c)
    ensures !IsWhite(c)
  {
  }

  /** White, at least three marks, and anything that does not go on with the mark: that is a marker. */
  lemma MarkerOf(w: string, mark: char, n: nat, rest: string)
    requires AllWhite(w) && IsMark(mark) && n >= 3 && (rest == [] || rest[0] != mark)
    ensures FenceMarker(w + Repeat(mark, n) + rest) == Some(Marker(mark, n, AllWhite(rest)))
  {
    var marks, end := Repeat(mark, n), TrimEnd(rest);
    NotWhite(mark);
    assert w + marks + rest == w + (marks + rest);
    TrimStartWhite(w, marks + rest);
    TrimEndAfter(marks, rest);
    TrimEndPrefix(rest);
    RunOf(mark, n, end);
    assert (marks + end)[n..] == end && (marks + end)[0] == mark;
    BlankEnd(rest);
  }

  /** Every marker is of that form. */
  lemma MarkerForm(line: string) returns (w: string, mark: char, n: nat, rest: string)
    requires FenceMarker(line).Some?
    ensures AllWhite(w) && IsMark(mark) && n >= 3 && (rest == [] || rest[0] != mark)
    ensures line == w + Repeat(mark, n) + rest
  {
    var t := Trim(line);
    var a, b := TrimIs(line);
    w, mark, n := a, t[0], Run(t, t[0]);
    RunIs(t, mark);
    NotWhite(mark);
    rest := t[n..] + b;
    assert t == Repeat(mark, n) + t[n..];
    if rest != [] && t[n..] == [] { assert b[0] in b; }
  }

  /** A line of enough marks of one kind, with nothing but white around them. */
  ghost predicate IsClosing(mark: char, n: nat, line: string) {
    exists w, m: nat, rest :: AllWhite(w) && AllWhite(rest) && m >= n && line == w + Repeat(mark, m) + rest
  }

  lemma ClosesIff(mark: char, n: nat, bare: bool, line: string)
    requires IsMark(mark) && n >= 3
    ensures Closes(Marker(mark, n, bare), line) <==> IsClosing(mark, n, line)
  {
    NotWhite(mark);
    if Closes(Marker(mark, n, bare), line) {
      var w, c, m, rest := MarkerForm(line);
      MarkerOf(w, c, m, rest);
    }
    if IsClosing(mark, n, line) {
      var w, m: nat, rest :| AllWhite(w) && AllWhite(rest) && m >= n && line == w + Repeat(mark, m) + rest;
      if rest != [] { assert rest[0] in rest; }
      MarkerOf(w, mark, m, rest);
    }
  }

  /**
   A block of code in the text: nothing from a line that begins with three or more backticks or
   tildes to the first line of at least as many of them and nothing else is a heading.
   */
  lemma FencedBlockHides(w: string, mark: char, n: nat, info: string, inner: seq<string>, close: string,
                         rest: seq<string>, prefix: string, offset: nat)
    requires AllWhite(w) && IsMark(mark) && n >= 3 && (info == [] || info[0] != mark)
    requires IsClosing(mark, n, close) && forall l :: l in inner ==> !IsClosing(mark, n, l)
    ensures var open := w + Repeat(mark, n) + info;
            Scan([open] + (inner + ([close] + rest)), prefix, offset, Closed)
            == Scan(rest, prefix, offset + |open| + |Join(inner)| + |close|, Closed)
  {
    var open := w + Repeat(mark, n) + info;
    MarkerOf(w, mark, n, info);
    ClosesIff(mark, n, AllWhite(info), close);
    forall l | l in inner ensures !Closes(FenceMarker(open).value, l) { ClosesIff(mark, n, AllWhite(info), l); }
    FenceHides(open, inner, close, rest, prefix, offset);
  }

  /** Every line with the prefix that is met outside fences is found. */
  lemma {:induction false} HeadingFound(lines: seq<string>, prefix: string, offset: nat, fence: Fence, i: nat)
    requires i < |lines| && IsHeading(FenceAfter(lines[..i], fence), lines[i], prefix)
    ensures var start := offset + |Join(lines[..i])|;
            Heading(start, start + |lines[i]|, Trim(lines[i][|prefix|..])) in Scan(lines, prefix, offset, fence)
    decreases |lines|
  {
    if i > 0 {
      var line := lines[0];
      assert lines[..i] == [line] + lines[1..][..i - 1];
      assert lines[..i][1..] == lines[1..][..i - 1];
      HeadingFound(lines[1..], prefix, offset + |line|, NextFence(fence, line), i - 1);
    }
  }

  /** Outside fences a line with the prefix of a heading is one; a fence begins with other characters. */
  lemma HeadingIff(line: string, prefix: string)
    requires StartsWith(prefix, "#")
    ensures IsHeading(Closed, line, prefix) <==> StartsWith(line, prefix)
  {
    assert prefix[0] == '#' && (StartsWith(line, prefix) ==> line[0] == prefix[0]);
    if FenceMarker(line).Some? { MarkerFirst(line); }
  }

  lemma MarkerFirst(line: string)
    requires FenceMarker(line).Some?
    ensures line != [] && (IsWhite(line[0]) || IsMark(line[0]))
  {
    var w, mark, n, rest := MarkerForm(line);
    if w == [] {
      assert line[0] == Repeat(mark, n)[0];
    } else {
      assert line[0] == w[0] && w[0] in w;
    }
  }
}
