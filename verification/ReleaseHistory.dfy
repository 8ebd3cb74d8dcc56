/**
 Assembling releases leaves history alone: what earlier releases say stays the same over any
 number of assemblies, and a version is never released twice.
 */
module ReleaseHistory {
  import opened Common
  import opened Text
  import opened Headings
  import opened Release
  import opened Runs

  // ----- sections of a text in two parts -----

  lemma {:induction false} ReleasesConcat(a: seq<Heading>, b: seq<Heading>)
    ensures OnlyReleases(a + b) == OnlyReleases(a) + OnlyReleases(b)
    decreases |a|
  {
    if a == [] {
      assert a + b == b;
    } else {
      assert (a + b)[1..] == a[1..] + b;
      ReleasesConcat(a[1..], b);
    }
  }

  lemma {:induction false} ReleasesShift(hs: seq<Heading>, d: nat)
    ensures OnlyReleases(Shift(hs, d)) == Shift(OnlyReleases(hs), d)
    decreases |hs|
  {
    if hs != [] {
      ReleasesShift(hs[1..], d);
      assert Shift(hs, d)[1..] == Shift(hs[1..], d);
      if IsRelease(hs[0]) {
        assert ([hs[0]] + OnlyReleases(hs[1..]))[1..] == OnlyReleases(hs[1..]);
      }
    }
  }

  ghost predicate Names(hs: seq<Heading>, version: string) {
    exists i :: 0 <= i < |hs| && VersionOf(hs[i].value) == version
  }

  lemma {:induction false} FoundIffNamed(hs: seq<Heading>, length: nat, version: string)
    ensures FindSection(hs, length, version).Some? <==> Names(hs, version)
    decreases |hs|
  {
    if hs != [] {
      FoundIffNamed(hs[1..], length, version);
      if Names(hs[1..], version) {
        var i :| 0 <= i < |hs[1..]| && VersionOf(hs[1..][i].value) == version;
        assert VersionOf(hs[i + 1].value) == version;
      }
      if Names(hs, version) && VersionOf(hs[0].value) != version {
        var i :| 0 <= i < |hs| && VersionOf(hs[i].value) == version;
        assert VersionOf(hs[1..][i - 1].value) == version;
      }
    }
  }

  function ShiftSection(s: Option<Section>, d: nat): Option<Section> {
    if s.None? then None else Some(Section(s.value.start + d, s.value.body + d, s.value.end + d))
  }

  lemma {:induction false} FindShifted(hs: seq<Heading>, length: nat, version: string, d: nat)
    ensures FindSection(Shift(hs, d), length + d, version) == ShiftSection(FindSection(hs, length, version), d)
    decreases |hs|
  {
    if hs != [] {
      assert Shift(hs, d)[1..] == Shift(hs[1..], d);
      if |hs| > 1 { assert Shift(hs, d)[1] == ShiftOne(hs[1], d); }
      FindShifted(hs[1..], length, version, d);
    }
  }

  lemma {:induction false} FindAfter(a: seq<Heading>, b: seq<Heading>, length: nat, version: string)
    requires !Names(a, version)
    ensures FindSection(a + b, length, version) == FindSection(b, length, version)
    decreases |a|
  {
    if a == [] {
      assert a + b == b;
    } else {
      assert (a + b)[1..] == a[1..] + b;
      assert VersionOf(a[0].value) != version;
      forall i | 0 <= i < |a[1..]| ensures VersionOf(a[1..][i].value) != version {
        assert a[1..][i] == a[i + 1];
      }
      FindAfter(a[1..], b, length, version);
    }
  }

  /** A part that ends at a line boundary with no fence open. */
  ghost predicate Settled(a: string) { Terminated(a) && FenceAfter(SplitLines(a), Closed) == Closed }

  lemma HeadersConcat(a: string, b: string)
    requires Settled(a)
    ensures ReleaseHeaders(a + b) == ReleaseHeaders(a) + Shift(ReleaseHeaders(b), |a|)
  {
    HeadingsConcat(a, b, "## ");
    ReleasesConcat(HeadingsOf(a, "## "), Shift(HeadingsOf(b, "## "), |a|));
    ReleasesShift(HeadingsOf(b, "## "), |a|);
  }

  lemma SettledConcat(a: string, b: string)
    requires Settled(a) && Settled(b)
    ensures Settled(a + b)
  {
    SplitConcat(a, b);
    FenceConcat(SplitLines(a), SplitLines(b), Closed);
  }

  lemma FindInSecondPart(ha: seq<Heading>, hb: seq<Heading>, la: nat, lb: nat, version: string)
    requires !Names(ha, version)
    ensures FindSection(ha + Shift(hb, la), la + lb, version) == ShiftSection(FindSection(hb, lb, version), la)
  {
    FindAfter(ha, Shift(hb, la), lb + la, version);
    FindShifted(hb, lb, version, la);
  }

  lemma FoundShifted(text: string, ha: seq<Heading>, hb: seq<Heading>, la: nat, lb: nat, version: string)
    requires ReleaseHeaders(text) == ha + Shift(hb, la) && |text| == la + lb && !Names(ha, version)
    ensures SectionOf(text, version) == ShiftSection(FindSection(hb, lb, version), la)
  {
    FindInSecondPart(ha, hb, la, lb, version);
  }

  lemma SectionShifts(a: string, b: string, version: string)
    requires Settled(a) && !Names(ReleaseHeaders(a), version)
    ensures SectionOf(a + b, version) == ShiftSection(SectionOf(b, version), |a|)
  {
    HeadersConcat(a, b);
    FoundShifted(a + b, ReleaseHeaders(a), ReleaseHeaders(b), |a|, |b|, version);
  }

  lemma CutSecondPart(a: string, b: string, i: nat, j: nat)
    requires i <= j <= |b|
    ensures (a + b)[i + |a|..j + |a|] == b[i..j]
  {
  }

  lemma SameSection(t: string, u: string, version: string, d: nat, s: Option<Section>)
    requires SectionOf(u, version) == s && SectionOf(t, version) == ShiftSection(s, d)
    requires s.Some? ==> && s.value.body <= s.value.end <= |u| && s.value.end + d <= |t|
                         && t[s.value.body + d..s.value.end + d] == u[s.value.body..s.value.end]
    ensures ReleaseSection(t, version) == ReleaseSection(u, version)
  {
  }

  /** A release found only in the second part reads the same as in that part alone. */
  lemma SectionInSecondPart(a: string, b: string, version: string)
    requires Settled(a) && !Names(ReleaseHeaders(a), version)
    ensures ReleaseSection(a + b, version) == ReleaseSection(b, version)
  {
    SectionShifts(a, b, version);
    SectionBounds(b, version);
    var s := SectionOf(b, version);
    if s.Some? { CutSecondPart(a, b, s.value.body, s.value.end); }
    SameSection(a + b, b, version, |a|, s);
  }

  // ----- the parts of a changelog -----

  lemma {:induction false} WholeLines(ls: seq<string>)
    requires forall l :: l in ls ==> IsLine(l)
    ensures SplitLines(Join(ls)) == ls && Terminated(Join(ls))
    decreases |ls|
  {
    if ls != [] {
      assert ls[0] in ls;
      WholeLines(ls[1..]);
      SplitCons(ls[0], Join(ls[1..]));
      TerminatedConcat(ls[0], Join(ls[1..]));
      assert [ls[0]] + ls[1..] == ls;
    }
  }

  /** Every line but the last ends in a line feed. */
  lemma {:induction false} SplitShape(text: string, i: nat)
    requires i < |SplitLines(text)|
    ensures var ls := SplitLines(text); IsLine(ls[i]) || (i == |ls| - 1 && ls[i] != [] && '\n' !in ls[i])
    decreases |text|
  {
    var n := LineLength(text);
    LineLengthIsLine(text);
    if i > 0 { SplitShape(text[n..], i - 1); }
  }

  /** The line with the title, with its line feed. */
  ghost predicate IsTitleLine(y: string) {
    IsLine(y) && StartsWith(y, "# ") && FenceMarker(y).None? && Trim(y[2..]) == "Changelog"
  }

  /** What precedes the title line; the title is the first of its kind. */
  ghost predicate IsIntro(a: string) { Settled(a) && TitleOf(a) == None }

  lemma TrimLineFeed(s: string)
    ensures Trim(s + "\n") == Trim(s)
    decreases |s|
  {
    if s != [] && IsWhite(s[0]) {
      assert (s + "\n")[1..] == s[1..] + "\n";
      TrimLineFeed(s[1..]);
    } else if s == [] {
      assert (s + "\n")[1..] == [];
    } else {
      assert (s + "\n")[..|s|] == s;
    }
  }

  lemma MarkerLineFeed(s: string)
    ensures FenceMarker(s + "\n") == FenceMarker(s)
  {
    TrimLineFeed(s);
  }

  lemma {:induction false} FindTitleConcat(a: seq<Heading>, b: seq<Heading>)
    ensures FindTitle(a + b) == if FindTitle(a).Some? then FindTitle(a) else FindTitle(b)
    decreases |a|
  {
    if a == [] {
      assert a + b == b;
    } else {
      assert (a + b)[1..] == a[1..] + b;
      FindTitleConcat(a[1..], b);
    }
  }

  lemma {:induction false} FindTitleShift(hs: seq<Heading>, d: nat)
    ensures FindTitle(Shift(hs, d)) == if FindTitle(hs).None? then None else Some(ShiftOne(FindTitle(hs).value, d))
    decreases |hs|
  {
    if hs != [] {
      assert Shift(hs, d)[1..] == Shift(hs[1..], d);
      FindTitleShift(hs[1..], d);
    }
  }

  /** The lines before the first title hold no title. */
  lemma NoTitleBefore(before: seq<string>, after: seq<string>)
    requires forall l :: l in before ==> IsLine(l)
    requires var t := FindTitle(Scan(before + after, "# ", 0, Closed)); t.Some? && t.value.end > |Join(before)|
    ensures TitleOf(Join(before)) == None
  {
    WholeLines(before);
    TitleBounds(Join(before));
    ScanTitle(before, after);
  }

  /** A title in the first part is the first title of the whole. */
  lemma ScanTitle(a: seq<string>, b: seq<string>)
    ensures var t := FindTitle(Scan(a, "# ", 0, Closed)); t.Some? ==> FindTitle(Scan(a + b, "# ", 0, Closed)) == t
  {
    ScanConcat(a, b, "# ", 0, Closed);
    FindTitleConcat(Scan(a, "# ", 0, Closed), Scan(b, "# ", 0 + |Join(a)|, FenceAfter(a, Closed)));
  }

  lemma JoinFirst(l: string, rest: seq<string>)
    ensures Join([l] + rest) == l + Join(rest)
  {
    assert ([l] + rest)[1..] == rest;
  }

  lemma SplitAt(ls: seq<string>, i: nat)
    requires i < |ls|
    ensures ls == ls[..i] + ([ls[i]] + ls[i + 1..])
  {
  }

  /** The parts around one line. */
  lemma JoinAround(ls: seq<string>, i: nat)
    requires i < |ls|
    ensures Join(ls) == Join(ls[..i]) + ls[i] + Join(ls[i + 1..])
  {
    SplitAt(ls, i);
    JoinConcat(ls[..i], [ls[i]] + ls[i + 1..]);
    JoinFirst(ls[i], ls[i + 1..]);
    ConcatAssociative(Join(ls[..i]), ls[i], Join(ls[i + 1..]));
  }

  /** All lines before a line are whole. */
  lemma LinesBefore(text: string, i: nat)
    requires i < |SplitLines(text)|
    ensures forall l :: l in SplitLines(text)[..i] ==> IsLine(l)
  {
    var ls := SplitLines(text);
    forall l | l in ls[..i] ensures IsLine(l) {
      var j :| 0 <= j < i && ls[j] == l;
      SplitShape(text, j);
    }
  }

  ghost predicate TitleBare(l: string) {
    StartsWith(l, "# ") && FenceMarker(l).None? && Trim(l[2..]) == "Changelog"
  }

  /** The line that holds the title. */
  lemma TitleAt(text: string) returns (i: nat)
    requires TitleOf(text).Some?
    ensures var ls := SplitLines(text);
            && i < |ls| && TitleBare(ls[i]) && FenceAfter(ls[..i], Closed) == Closed
            && TitleOf(text).value.end == |Join(ls[..i])| + |ls[i]|
  {
    TitleListed(HeadingsOf(text, "# "));
    i := HeadingLine(SplitLines(text), "# ", 0, Closed, TitleOf(text).value);
  }

  /** A changelog with a title: the intro, the title line, and the rest. */
  lemma TitleSplit(text: string) returns (a: string, y: string)
    requires TitleOf(text).Some?
    ensures TitleOf(text).value.end <= |text|
    ensures IsIntro(a) && IsTitleLine(y) && Preamble(text, TitleOf(text).value) == a + y
    ensures var rest := text[TitleOf(text).value.end..];
            text == a + y + rest || (rest == [] && text == a + y[..|y| - 1])
  {
    var ls := SplitLines(text);
    var i := TitleAt(text);
    a := Join(ls[..i]);
    IntroBefore(text, i);
    JoinSplit(text);
    JoinAround(ls, i);
    SplitShape(text, i);
    CutAfter(a, ls[i], Join(ls[i + 1..]));
    CutPreamble(a, ls[i]);
    y := TitleLineOf(ls[i]);
  }

  lemma IntroBefore(text: string, i: nat)
    requires TitleOf(text).Some? && i < |SplitLines(text)|
    requires var ls := SplitLines(text);
             && TitleBare(ls[i]) && FenceAfter(ls[..i], Closed) == Closed
             && TitleOf(text).value.end == |Join(ls[..i])| + |ls[i]|
    ensures IsIntro(Join(SplitLines(text)[..i]))
  {
    var ls := SplitLines(text);
    LinesBefore(text, i);
    WholeLines(ls[..i]);
    assert ls == ls[..i] + ls[i..];
    NoTitleBefore(ls[..i], ls[i..]);
  }

  lemma TitleLineOf(l: string) returns (y: string)
    requires TitleBare(l) && (IsLine(l) || '\n' !in l)
    ensures IsTitleLine(y) && (if IsLine(l) then y == l else y == l + "\n" && y[..|y| - 1] == l)
  {
    y := if IsLine(l) then l else l + "\n";
    if !IsLine(l) { BareTitle(l); }
  }

  lemma CutAfter(a: string, l: string, rest: string)
    ensures (a + l + rest)[..|a| + |l|] == a + l && (a + l + rest)[|a| + |l|..] == rest
  {
  }

  lemma CutPreamble(a: string, l: string)
    requires l != [] && '\n' !in l[..|l| - 1]
    ensures Terminated(a + l) <==> IsLine(l)
    ensures a + l + "\n" == a + (l + "\n")
  {
  }

  lemma BareTitle(l: string)
    requires StartsWith(l, "# ") && FenceMarker(l).None? && Trim(l[2..]) == "Changelog" && '\n' !in l
    ensures IsTitleLine(l + "\n") && (l + "\n")[..|l|] == l && l[|l| - 1] != '\n'
  {
    MarkerLineFeed(l);
    TrimLineFeed(l[2..]);
    assert (l + "\n")[2..] == l[2..] + "\n";
    assert l[|l| - 1] in l;
  }

  // ----- parts without headings -----

  ghost predicate AllQuiet(s: string, prefix: string) {
    forall i :: 0 <= i < |SplitLines(s)| ==> Quiet(SplitLines(s)[i], prefix)
  }

  lemma QuietPart(s: string)
    requires AllQuiet(s, "## ")
    ensures ReleaseHeaders(s) == [] && FenceAfter(SplitLines(s), Closed) == Closed
  {
    QuietScan(SplitLines(s), "## ", 0);
  }

  lemma QuietConcat(a: string, b: string, prefix: string)
    requires Terminated(a) && AllQuiet(a, prefix) && AllQuiet(b, prefix)
    ensures AllQuiet(a + b, prefix)
  {
    SplitConcat(a, b);
    var la, lb := SplitLines(a), SplitLines(b);
    forall i | 0 <= i < |la + lb| ensures Quiet((la + lb)[i], prefix) {
      if i < |la| { assert Quiet(la[i], prefix); } else { assert Quiet(lb[i - |la|], prefix); }
    }
  }

  lemma QuietParts(a: string, b: string, whole: string, prefix: string)
    requires whole == a + b && Terminated(a) && Terminated(b) && AllQuiet(a, prefix) && AllQuiet(b, prefix)
    ensures Terminated(whole) && AllQuiet(whole, prefix)
  {
    QuietConcat(a, b, prefix);
    TerminatedConcat(a, b);
  }

  lemma OneLine(line: string, prefix: string)
    requires IsLine(line)
    ensures SplitLines(line) == [line]
    ensures Quiet(line, prefix) ==> AllQuiet(line, prefix)
  {
    SplitCons(line, []);
    assert line + [] == line;
  }

  lemma {:induction false} LineChars(s: string, i: nat, c: char)
    requires i < |SplitLines(s)| && c in SplitLines(s)[i]
    ensures c in s
    decreases |s|
  {
    var n := LineLength(s);
    if i > 0 { LineChars(s[n..], i - 1, c); }
  }

  /** A line that starts with any other character than white, a backtick or a tilde is no fence. */
  lemma NoMarker(line: string)
    requires line != [] && !IsWhite(line[0]) && line[0] != '`' && line[0] != '~'
    ensures FenceMarker(line).None?
  {
    TrimKeeps([line[0]], line[1..]);
    assert [line[0]] + line[1..] == line;
  }

  ghost predicate NewlinesOnly(s: string) { forall c :: c in s ==> IsNewline(c) }

  lemma NewlinesQuiet(s: string, prefix: string)
    requires NewlinesOnly(s) && prefix != [] && !IsNewline(prefix[0])
    ensures AllQuiet(s, prefix)
  {
    forall i | 0 <= i < |SplitLines(s)| ensures Quiet(SplitLines(s)[i], prefix) {
      var line := SplitLines(s)[i];
      forall c | c in line ensures IsNewline(c) { LineChars(s, i, c); }
      BlankIffAllWhite(line);
      assert line != [] ==> line[0] in line;
    }
  }

  // ----- the history of a changelog -----

  function LeadingNewlines(s: string): string
    decreases |s|
  {
    if s != [] && IsNewline(s[0]) then [s[0]] + LeadingNewlines(s[1..]) else []
  }

  lemma {:induction false} NewlinesSplit(s: string)
    ensures s == LeadingNewlines(s) + DropNewlines(s) && NewlinesOnly(LeadingNewlines(s))
    decreases |s|
  {
    if s != [] && IsNewline(s[0]) { NewlinesSplit(s[1..]); }
  }

  /**
   The history starts at the start of a line: the line breaks before it do not end in a bare
   carriage return. Every text with line feeds only has this.
   */
  predicate CleanBreak(text: string, title: Heading)
    requires title.end <= |text|
  {
    Terminated(LeadingNewlines(text[title.end..])) || History(text, title) == []
  }

  lemma {:induction false} OnlyLineFeeds(s: string)
    requires '\r' !in s
    ensures Terminated(LeadingNewlines(s))
    decreases |s|
  {
    if s != [] && IsNewline(s[0]) {
      assert s[0] in s;
      OnlyLineFeeds(s[1..]);
    }
  }

  /** A text without carriage returns always has a clean break. */
  lemma LineFeedsBreakClean(text: string, title: Heading)
    requires title.end <= |text| && '\r' !in text
    ensures CleanBreak(text, title)
  {
    OnlyLineFeeds(text[title.end..]);
  }

  lemma TitleLineQuiet(y: string)
    requires IsTitleLine(y)
    ensures Settled(y) && ReleaseHeaders(y) == []
  {
    OneLine(y, "## ");
    assert y[1] == ' ';
    assert Quiet(y, "## ");
    QuietPart(y);
  }

  lemma BareTitleQuiet(y: string)
    requires IsTitleLine(y)
    ensures ReleaseHeaders(y[..|y| - 1]) == []
  {
    var l := y[..|y| - 1];
    MarkerLineFeed(l);
    assert y == l + "\n" && y[1] == ' ';
    assert LineLength(l) == |l| by { if l != [] { LineLengthIsLine(l); } }
    if l != [] {
      assert l[..|l|] == l && l[|l|..] == [];
      assert SplitLines(l) == [l];
    }
    assert AllQuiet(l, "## ");
    QuietPart(l);
  }

  lemma PreambleHeaders(a: string, y: string)
    requires Settled(a) && IsTitleLine(y)
    ensures Settled(a + y) && ReleaseHeaders(a + y) == ReleaseHeaders(a)
  {
    TitleLineQuiet(y);
    SettledConcat(a, y);
    HeadersConcat(a, y);
  }

  /** A release that the preamble does not name is read from the history. */
  lemma SectionInHistory(text: string, version: string)
    requires TitleOf(text).Some? && TitleOf(text).value.end <= |text| && CleanBreak(text, TitleOf(text).value)
    requires !Names(ReleaseHeaders(Preamble(text, TitleOf(text).value)), version)
    ensures ReleaseSection(text, version) == ReleaseSection(History(text, TitleOf(text).value), version)
  {
    var title := TitleOf(text).value;
    var a, y := TitleSplit(text);
    var rest := text[title.end..];
    PreambleHeaders(a, y);
    if text == a + y + rest {
      SectionInSecondPart(a + y, rest, version);
      SectionAfterGap(rest, version);
    } else {
      BareTitleQuiet(y);
      SectionInSecondPart(a, y[..|y| - 1], version);
    }
  }

  lemma SectionAfterGap(rest: string, version: string)
    requires Terminated(LeadingNewlines(rest)) || DropNewlines(rest) == []
    ensures ReleaseSection(rest, version) == ReleaseSection(DropNewlines(rest), version)
  {
    var gap := LeadingNewlines(rest);
    NewlinesSplit(rest);
    NewlinesQuiet(gap, "## ");
    QuietPart(gap);
    if DropNewlines(rest) == [] {
      assert rest == gap;
    } else {
      SectionInSecondPart(gap, DropNewlines(rest), version);
    }
  }

  // ----- the inserted release -----

  lemma {:induction false} BareLinesPlain(ls: seq<string>, i: nat)
    requires forall l :: l in ls ==> IsLine(l) || '\n' !in l
    requires i < |BareLines(ls)|
    ensures '\n' !in BareLines(ls)[i]
    decreases |ls|
  {
    assert ls[0] in ls;
    if i > 0 { BareLinesPlain(ls[1..], i - 1); }
  }

  /** `lines()` yields no line feeds. */
  lemma LinesPlain(s: string)
    ensures forall l :: l in Lines(s) ==> '\n' !in l
  {
    var ls := SplitLines(s);
    forall l | l in ls ensures IsLine(l) || '\n' !in l {
      var i :| 0 <= i < |ls| && ls[i] == l;
      SplitShape(s, i);
    }
    forall l | l in Lines(s) ensures '\n' !in l {
      var i :| 0 <= i < |Lines(s)| && Lines(s)[i] == l;
      BareLinesPlain(ls, i);
    }
  }

  /** What every printed bullet looks like. */
  predicate IsBullet(b: string) { StartsWith(b, "- ") && '\n' !in b && !Blank(b[2..]) }

  lemma {:induction false} BulletsAre(ls: seq<string>)
    requires forall l :: l in ls ==> '\n' !in l
    ensures forall b :: b in Bullets(ls) ==> IsBullet(b)
    decreases |ls|
  {
    if ls != [] {
      BulletsAre(ls[1..]);
      if !Blank(ls[0]) {
        var b := "- " + ls[0];
        assert b[2..] == ls[0];
        assert IsBullet(b);
      }
    }
  }

  lemma FragmentBulletsAre(body: string)
    ensures forall b :: b in FragmentBullets(body) ==> IsBullet(b)
  {
    LinesPlain(body);
    BulletsAre(Lines(body));
  }

  lemma BulletQuiet(b: string, prefix: string)
    requires IsBullet(b) && prefix != [] && prefix[0] == '#'
    ensures IsLine(b + "\n") && Quiet(b + "\n", prefix)
  {
    assert (b + "\n")[..|b|] == b;
    NoMarker(b + "\n");
  }

  lemma {:induction false} BulletTextQuiet(bs: seq<string>, prefix: string)
    requires (forall b :: b in bs ==> IsBullet(b)) && prefix != [] && prefix[0] == '#'
    ensures Terminated(WithLineFeeds(bs)) && AllQuiet(WithLineFeeds(bs), prefix)
    decreases |bs|
  {
    if bs != [] {
      assert bs[0] in bs;
      BulletQuiet(bs[0], prefix);
      OneLine(bs[0] + "\n", prefix);
      BulletTextQuiet(bs[1..], prefix);
      QuietConcat(bs[0] + "\n", WithLineFeeds(bs[1..]), prefix);
    }
  }

  lemma EmptyLineQuiet(prefix: string)
    requires prefix != [] && prefix[0] == '#'
    ensures IsLine("\n") && AllQuiet("\n", prefix)
  {
    NewlinesQuiet("\n", prefix);
  }

  lemma {:induction false} EntriesQuiet(fs: seq<Fragment>, prefix: string)
    requires prefix != [] && prefix[0] == '#'
    ensures Terminated(EntriesText(fs)) && AllQuiet(EntriesText(fs), prefix)
    decreases |fs|
  {
    if fs != [] {
      var entries := FragmentEntries(fs[0].body);
      FragmentBulletsAre(fs[0].body);
      BulletTextQuiet(FragmentBullets(fs[0].body), prefix);
      EmptyLineQuiet(prefix);
      QuietConcat(entries, "\n", prefix);
      EntriesQuiet(fs[1..], prefix);
      QuietConcat(entries + "\n", EntriesText(fs[1..]), prefix);
    }
  }

  lemma CategoryName(category: nat)
    requires category < |CATEGORIES|
    ensures var h := CATEGORIES[category];
            && h != [] && '\n' !in h && !IsWhite(h[0]) && !IsWhite(h[|h| - 1]) && h[|h| - 1] != ':'
  {
  }

  function CategoryLine(category: nat): string
    requires category < |CATEGORIES|
  {
    "### " + CATEGORIES[category] + "\n"
  }

  lemma CategoryLineIs(category: nat)
    requires category < |CATEGORIES|
    ensures IsLine(CategoryLine(category)) && FenceMarker(CategoryLine(category)).None?
    ensures Quiet(CategoryLine(category), "## ")
    ensures CategoryLine(category)[4..] == CATEGORIES[category] + "\n"
  {
    var line := CategoryLine(category);
    CategoryName(category);
    assert line[..|line| - 1] == "### " + CATEGORIES[category];
    NoMarker(line);
    assert line[2] == '#';
  }

  lemma {:induction false} SectionsQuiet(fs: seq<Fragment>, category: nat)
    requires category <= |CATEGORIES|
    ensures Terminated(SectionsFrom(fs, category)) && AllQuiet(SectionsFrom(fs, category), "## ")
    decreases |CATEGORIES| - category
  {
    if category < |CATEGORIES| {
      SectionsQuiet(fs, category + 1);
      CategoryQuiet(fs, category);
      QuietParts(CategoryText(fs, category), SectionsFrom(fs, category + 1), SectionsFrom(fs, category), "## ");
    }
  }

  /** A line, an empty line and quiet text. */
  lemma BlockQuiet(line: string, entries: string, prefix: string)
    requires IsLine(line) && Quiet(line, prefix) && prefix != [] && prefix[0] == '#'
    requires Terminated(entries) && AllQuiet(entries, prefix)
    ensures Terminated(line + ("\n" + entries)) && AllQuiet(line + ("\n" + entries), prefix)
  {
    OneLine(line, prefix);
    EmptyLineQuiet(prefix);
    QuietParts("\n", entries, "\n" + entries, prefix);
    QuietParts(line, "\n" + entries, line + ("\n" + entries), prefix);
  }

  lemma CategoryTextIs(fs: seq<Fragment>, category: nat)
    requires category < |CATEGORIES| && Ordered(fs, category) != []
    ensures CategoryText(fs, category) == CategoryLine(category) + ("\n" + EntriesText(Ordered(fs, category)))
  {
    var entries := EntriesText(Ordered(fs, category));
    assert "### " + CATEGORIES[category] + "\n\n" + entries == CategoryLine(category) + ("\n" + entries);
  }

  lemma CategoryQuiet(fs: seq<Fragment>, category: nat)
    requires category < |CATEGORIES|
    ensures Terminated(CategoryText(fs, category)) && AllQuiet(CategoryText(fs, category), "## ")
  {
    if Ordered(fs, category) != [] {
      CategoryTextIs(fs, category);
      CategoryLineIs(category);
      EntriesQuiet(Ordered(fs, category), "## ");
      BlockQuiet(CategoryLine(category), EntriesText(Ordered(fs, category)), "## ");
    }
  }

  lemma {:induction false} BeforeFinds(v: string, c: char, rest: string)
    requires c !in v
    ensures Before(v + [c] + rest, c) == v
    decreases |v|
  {
    if v != [] {
      assert (v + [c] + rest)[1..] == v[1..] + [c] + rest;
      BeforeFinds(v[1..], c, rest);
    }
  }

  /** The header of a new release names its version. */
  lemma HeaderVersion(version: string, date: string)
    requires ValidVersion(version)
    ensures var value := Trim(HeaderLine(version, date)[3..]);
            StartsWith(value, "[") && VersionOf(value) == version
  {
    var p := "[" + version + "]";
    var rest := " - " + date + "\n";
    var value := Trim(HeaderLine(version, date)[3..]);
    assert HeaderLine(version, date)[3..] == p + rest;
    TrimKeeps(p, rest);
    assert value[1..] == version + [']'] + value[|p|..];
    BeforeFinds(version, ']', value[|p|..]);
  }

  lemma OneHeading(line: string, prefix: string)
    requires IsLine(line) && FenceMarker(line).None? && StartsWith(line, prefix)
    ensures HeadingsOf(line, prefix) == [Heading(0, |line|, Trim(line[|prefix|..]))]
    ensures Settled(line)
  {
    OneLine(line, prefix);
    assert [line][1..] == [];
    assert Scan([], prefix, |line|, Closed) == [];
    assert FenceAfter([line], Closed) == Closed;
  }

  lemma ShiftSingle(h: Heading, d: nat)
    ensures Shift([h], d) == [ShiftOne(h, d)]
    ensures IsRelease(h) ==> OnlyReleases([h]) == [h]
  {
    assert [h][1..] == [];
  }

  function NewHeader(version: string, date: string, offset: nat): Heading {
    var line := HeaderLine(version, date);
    Heading(offset, offset + |line|, Trim(line[3..]))
  }

  lemma HeaderLineIs(version: string, date: string)
    requires ValidVersion(version) && '\n' !in date
    ensures IsLine(HeaderLine(version, date)) && FenceMarker(HeaderLine(version, date)).None?
    ensures Settled(HeaderLine(version, date))
    ensures ReleaseHeaders(HeaderLine(version, date)) == [NewHeader(version, date, 0)]
  {
    var line := HeaderLine(version, date);
    assert line[..|line| - 1] == "## [" + version + "] - " + date;
    NoMarker(line);
    OneHeading(line, "## ");
    HeaderVersion(version, date);
    ShiftSingle(NewHeader(version, date, 0), 0);
  }

  lemma HeadersBeforeQuiet(a: string, b: string)
    requires Settled(a) && Settled(b) && ReleaseHeaders(b) == []
    ensures Settled(a + b) && ReleaseHeaders(a + b) == ReleaseHeaders(a)
  {
    HeadersConcat(a, b);
    SettledConcat(a, b);
  }

  lemma HeadersAfter(a: string, b: string, h: Heading, h': Heading)
    requires Settled(a) && Settled(b) && ReleaseHeaders(b) == [h] && h' == ShiftOne(h, |a|)
    ensures Settled(a + b) && ReleaseHeaders(a + b) == ReleaseHeaders(a) + [h']
  {
    HeadersConcat(a, b);
    SettledConcat(a, b);
    ShiftSingle(h, |a|);
  }

  lemma HeadersBetweenQuiet(a: string, line: string, b: string, h: Heading, h': Heading)
    requires Settled(a) && ReleaseHeaders(a) == [] && Settled(b) && ReleaseHeaders(b) == []
    requires Settled(line) && ReleaseHeaders(line) == [h] && h' == ShiftOne(h, |a|)
    ensures Settled(a + (line + b)) && ReleaseHeaders(a + (line + b)) == [h']
  {
    HeadersBeforeQuiet(line, b);
    HeadersAfter(a, line + b, h, h');
  }

  lemma TailQuiet(fs: seq<Fragment>)
    ensures Settled("\n" + SectionsFrom(fs, 0)) && ReleaseHeaders("\n" + SectionsFrom(fs, 0)) == []
    ensures Settled("\n") && ReleaseHeaders("\n") == []
  {
    SectionsQuiet(fs, 0);
    EmptyLineQuiet("## ");
    QuietConcat("\n", SectionsFrom(fs, 0), "## ");
    QuietPart("\n" + SectionsFrom(fs, 0));
    QuietPart("\n");
  }

  lemma BlockParts(fs: seq<Fragment>, version: string, date: string)
    ensures ReleaseBlock(fs, version, date) == "\n" + (HeaderLine(version, date) + ("\n" + SectionsFrom(fs, 0)))
  {
  }

  /** The inserted block holds exactly one release header, right after its first line feed. */
  lemma BlockHeaders(fs: seq<Fragment>, version: string, date: string)
    requires ValidVersion(version) && '\n' !in date
    ensures Settled(ReleaseBlock(fs, version, date))
    ensures ReleaseHeaders(ReleaseBlock(fs, version, date)) == [NewHeader(version, date, 1)]
  {
    var line, tail := HeaderLine(version, date), "\n" + SectionsFrom(fs, 0);
    HeaderLineIs(version, date);
    TailQuiet(fs);
    HeadersBetweenQuiet("\n", line, tail, NewHeader(version, date, 0), NewHeader(version, date, 1));
    BlockParts(fs, version, date);
  }

  // ----- one assembly -----

  /** Everything of the new text up to the history. */
  function Front(preamble: string, fs: seq<Fragment>, version: string, date: string): string {
    preamble + ReleaseBlock(fs, version, date)
  }

  lemma PreambleSettled(text: string)
    requires TitleOf(text).Some? && TitleOf(text).value.end <= |text|
    ensures Settled(Preamble(text, TitleOf(text).value))
  {
    var a, y := TitleSplit(text);
    PreambleHeaders(a, y);
  }

  lemma FrontHeaders(p: string, fs: seq<Fragment>, version: string, date: string)
    requires Settled(p) && ValidVersion(version) && '\n' !in date
    ensures Settled(Front(p, fs, version, date))
    ensures ReleaseHeaders(Front(p, fs, version, date)) == ReleaseHeaders(p) + [NewHeader(version, date, |p| + 1)]
  {
    BlockHeaders(fs, version, date);
    HeadersAfter(p, ReleaseBlock(fs, version, date), NewHeader(version, date, 1), NewHeader(version, date, |p| + 1));
  }

  lemma NamesAppend(hs: seq<Heading>, h: Heading, version: string)
    ensures Names(hs + [h], version) <==> Names(hs, version) || VersionOf(h.value) == version
  {
    if Names(hs, version) {
      var i :| 0 <= i < |hs| && VersionOf(hs[i].value) == version;
      assert VersionOf((hs + [h])[i].value) == version;
    }
    assert (hs + [h])[|hs|] == h;
  }

  predicate Malformed(version: string) {
    version == [] || exists c :: c in version && c in {'\n', '\r', '[', ']'}
  }

  predicate Untitled(text: string) {
    forall h :: h in HeadingsOf(text, "# ") ==> h.value != "Changelog"
  }

  /** Assembly fails exactly for these reasons, and reports the first that applies. */
  lemma AssemblyFailsIff(text: string, fs: seq<Fragment>, version: string, date: string)
    ensures Assemble(text, fs, version, date).Err? <==>
            || Malformed(version) || Names(ReleaseHeaders(text), version)
            || Names(ReleaseHeaders(text), "Unreleased") || Untitled(text)
    ensures Assemble(text, fs, version, date) == Err(InvalidVersion) <==> Malformed(version)
    ensures Assemble(text, fs, version, date) == Err(AlreadyReleased) <==>
            !Malformed(version) && Names(ReleaseHeaders(text), version)
    ensures Assemble(text, fs, version, date) == Err(NoTitle) <==>
            && !Malformed(version) && !Names(ReleaseHeaders(text), version)
            && !Names(ReleaseHeaders(text), "Unreleased") && Untitled(text)
  {
    FoundIffNamed(ReleaseHeaders(text), |text|, version);
    FoundIffNamed(ReleaseHeaders(text), |text|, "Unreleased");
    TitleIffListed(HeadingsOf(text, "# "));
    assert Malformed(version) <==> !ValidVersion(version);
  }

  lemma {:induction false} TitleIffListed(hs: seq<Heading>)
    ensures FindTitle(hs).None? <==> forall h :: h in hs ==> h.value != "Changelog"
    decreases |hs|
  {
    if hs != [] {
      TitleIffListed(hs[1..]);
      assert hs == [hs[0]] + hs[1..];
    }
  }

  /** Assembling a release changes no other release that the preamble does not name. */
  lemma AssemblyKeepsSection(text: string, fs: seq<Fragment>, version: string, date: string, other: string)
    requires Assemble(text, fs, version, date).Ok? && '\n' !in date
    requires TitleOf(text).value.end <= |text| && CleanBreak(text, TitleOf(text).value)
    requires other != version && !Names(ReleaseHeaders(Preamble(text, TitleOf(text).value)), other)
    ensures ReleaseSection(Assemble(text, fs, version, date).value, other) == ReleaseSection(text, other)
  {
    var title := TitleOf(text).value;
    var p := Preamble(text, title);
    PreambleSettled(text);
    FrontHeaders(p, fs, version, date);
    HeaderVersion(version, date);
    NamesAppend(ReleaseHeaders(p), NewHeader(version, date, |p| + 1), other);
    SectionInSecondPart(Front(p, fs, version, date), History(text, title), other);
    SectionInHistory(text, other);
  }

  /** The parts of a changelog that can be assembled into, with no release header in the preamble. */
  ghost predicate Regular(text: string, preamble: string) {
    && TitleOf(text).Some? && TitleOf(text).value.end <= |text|
    && Preamble(text, TitleOf(text).value) == preamble
    && CleanBreak(text, TitleOf(text).value)
    && ReleaseHeaders(preamble) == []
  }

  lemma FirstTitle(ha: seq<Heading>, h: Heading, hr: seq<Heading>, d: nat)
    requires FindTitle(ha) == None && h.value == "Changelog"
    ensures FindTitle(ha + Shift([h] + hr, d)) == Some(ShiftOne(h, d))
  {
    FindTitleConcat(ha, Shift([h] + hr, d));
    FindTitleShift([h] + hr, d);
    assert ([h] + hr)[0] == h;
  }

  lemma TitleFirst(y: string, rest: string)
    requires IsTitleLine(y)
    ensures HeadingsOf(y + rest, "# ") == [Heading(0, |y|, "Changelog")] + Shift(HeadingsOf(rest, "# "), |y|)
  {
    OneHeading(y, "# ");
    HeadingsConcat(y, rest, "# ");
  }

  lemma TitleAfter(a: string, z: string, h: Heading, later: seq<Heading>)
    requires IsIntro(a) && h.value == "Changelog" && HeadingsOf(z, "# ") == [h] + later
    ensures TitleOf(a + z) == Some(ShiftOne(h, |a|))
  {
    HeadingsConcat(a, z, "# ");
    FirstTitle(HeadingsOf(a, "# "), h, later, |a|);
  }

  lemma TitleStays(a: string, y: string, rest: string)
    requires IsIntro(a) && IsTitleLine(y)
    ensures TitleOf(a + y + rest) == Some(Heading(|a|, |a| + |y|, "Changelog"))
  {
    TitleFirst(y, rest);
    TitleAfter(a, y + rest, Heading(0, |y|, "Changelog"), Shift(HeadingsOf(rest, "# "), |y|));
    assert a + y + rest == a + (y + rest);
  }

  lemma BlockGap(fs: seq<Fragment>, version: string, date: string, history: string)
    ensures Terminated(LeadingNewlines(ReleaseBlock(fs, version, date) + history))
  {
    var rest := ReleaseBlock(fs, version, date) + history;
    assert rest[0] == '\n' && rest[1] == '#';
    assert rest[1..][0] == '#';
    assert LeadingNewlines(rest[1..]) == [];
    assert LeadingNewlines(rest) == "\n";
  }

  lemma RegularOf(a: string, y: string, rest: string)
    requires IsIntro(a) && IsTitleLine(y) && ReleaseHeaders(a + y) == [] && Terminated(LeadingNewlines(rest))
    ensures Regular(a + y + rest, a + y)
  {
    TitleStays(a, y, rest);
    CutAfter(a, y, rest);
    assert Terminated(y);
    TerminatedLast(a, y);
  }

  lemma TerminatedLast(a: string, y: string)
    requires y != [] && Terminated(y)
    ensures Terminated(a + y)
  {
  }

  /** The parts of an assembled text. */
  lemma AssembledParts(text: string, fs: seq<Fragment>, version: string, date: string)
    returns (a: string, y: string, rest: string)
    requires Assemble(text, fs, version, date).Ok? && TitleOf(text).value.end <= |text|
    ensures IsIntro(a) && IsTitleLine(y) && Preamble(text, TitleOf(text).value) == a + y
    ensures rest == ReleaseBlock(fs, version, date) + History(text, TitleOf(text).value)
    ensures Assemble(text, fs, version, date).value == a + y + rest
  {
    a, y := TitleSplit(text);
    rest := ReleaseBlock(fs, version, date) + History(text, TitleOf(text).value);
    ConcatAssociative(a + y, ReleaseBlock(fs, version, date), History(text, TitleOf(text).value));
  }

  /** Assembling keeps the preamble and leaves a text that can be assembled into again. */
  lemma AssemblyStaysRegular(text: string, preamble: string, fs: seq<Fragment>, version: string, date: string)
    requires Regular(text, preamble) && Assemble(text, fs, version, date).Ok?
    ensures Regular(Assemble(text, fs, version, date).value, preamble)
  {
    var a, y, rest := AssembledParts(text, fs, version, date);
    BlockGap(fs, version, date, History(text, TitleOf(text).value));
    RegularOf(a, y, rest);
  }

  /** After assembling a version, the changelog has it. */
  lemma AssemblyAddsVersion(text: string, preamble: string, fs: seq<Fragment>, version: string, date: string)
    requires Regular(text, preamble) && Assemble(text, fs, version, date).Ok? && '\n' !in date
    ensures SectionOf(Assemble(text, fs, version, date).value, version).Some?
  {
    var title := TitleOf(text).value;
    var front, history := Front(preamble, fs, version, date), History(text, title);
    PreambleSettled(text);
    FrontHeaders(preamble, fs, version, date);
    HeaderVersion(version, date);
    HeadersConcat(front, history);
    var hs := ReleaseHeaders(front + history);
    assert VersionOf(hs[0].value) == version;
    FoundIffNamed(hs, |front + history|, version);
  }

  // ----- any number of assemblies -----

  datatype NewRelease = NewRelease(fragments: seq<Fragment>, version: string, date: string)

  /** One successful assembly. */
  ghost predicate Assembles(text: string, r: NewRelease, next: string) {
    '\n' !in r.date && Assemble(text, r.fragments, r.version, r.date) == Ok(next)
  }

  lemma NextStaysRegular(text: string, preamble: string, r: NewRelease, next: string)
    requires Regular(text, preamble) && Assembles(text, r, next)
    ensures Regular(next, preamble)
  {
    AssemblyStaysRegular(text, preamble, r.fragments, r.version, r.date);
  }

  /** A changelog that was fit to be assembled into stays so. */
  lemma RunStaysRegular(texts: seq<string>, releases: seq<NewRelease>, preamble: string, k: nat)
    requires IsRun(texts, releases, Assembles) && Regular(texts[0], preamble) && k < |texts|
    ensures Regular(texts[k], preamble)
  {
    forall s, r, t | Regular(s, preamble) && Assembles(s, r, t) ensures Regular(t, preamble) {
      NextStaysRegular(s, preamble, r, t);
    }
    Invariant(texts, releases, Assembles, s => Regular(s, preamble), 0, k);
  }

  ghost predicate Has(text: string, version: string) { SectionOf(text, version).Some? }

  /** One assembly keeps a release that is there, and is not of its version. */
  lemma NextKeeps(text: string, preamble: string, r: NewRelease, next: string, version: string)
    requires Regular(text, preamble) && Assembles(text, r, next) && Has(text, version)
    ensures r.version != version && Has(next, version)
    ensures ReleaseSection(next, version) == ReleaseSection(text, version)
  {
    AssemblyKeepsSection(text, r.fragments, r.version, r.date, version);
  }

  /** The release of a step is in the changelog after it. */
  lemma NextAdds(text: string, preamble: string, r: NewRelease, next: string)
    requires Regular(text, preamble) && Assembles(text, r, next)
    ensures Has(next, r.version)
  {
    AssemblyAddsVersion(text, preamble, r.fragments, r.version, r.date);
  }

  ghost predicate Keeping(text: string, preamble: string, version: string) {
    Regular(text, preamble) && Has(text, version)
  }

  lemma NextKeeping(text: string, preamble: string, r: NewRelease, next: string, version: string)
    requires Keeping(text, preamble, version) && Assembles(text, r, next)
    ensures Keeping(next, preamble, version) && ReleaseSection(next, version) == ReleaseSection(text, version)
  {
    NextStaysRegular(text, preamble, r, next);
    NextKeeps(text, preamble, r, next, version);
  }

  /**
   Over any run of successful assemblies, a release that was in the changelog at some point reads
   the same ever after.
   */
  lemma HistoryIsKept(texts: seq<string>, releases: seq<NewRelease>, preamble: string, j: nat, k: nat, version: string)
    requires IsRun(texts, releases, Assembles) && j <= k < |texts| && Keeping(texts[j], preamble, version)
    ensures Keeping(texts[k], preamble, version)
    ensures ReleaseSection(texts[k], version) == ReleaseSection(texts[j], version)
  {
    forall s, r, t | Keeping(s, preamble, version) && Assembles(s, r, t)
      ensures Keeping(t, preamble, version) && ReleaseSection(t, version) == ReleaseSection(s, version)
    {
      NextKeeping(s, preamble, r, t, version);
    }
    View(texts, releases, Assembles, s => Keeping(s, preamble, version), s => ReleaseSection(s, version), j, k);
  }

  lemma AddedByStep(texts: seq<string>, releases: seq<NewRelease>, preamble: string, i: nat)
    requires IsRun(texts, releases, Assembles) && Regular(texts[0], preamble) && i < |releases|
    ensures Keeping(texts[i + 1], preamble, releases[i].version)
  {
    RunStaysRegular(texts, releases, preamble, i);
    RunStaysRegular(texts, releases, preamble, i + 1);
    assert Follows(texts, releases, Assembles, i);
    NextAdds(texts[i], preamble, releases[i], texts[i + 1]);
  }

  /** Every release of a run stays exactly as it was assembled, so it cannot be assembled again. */
  lemma RunKeepsEachRelease(texts: seq<string>, releases: seq<NewRelease>, preamble: string, i: nat, k: nat)
    requires IsRun(texts, releases, Assembles) && Regular(texts[0], preamble) && i < k < |texts|
    ensures ReleaseSection(texts[k], releases[i].version) == ReleaseSection(texts[i + 1], releases[i].version)
    ensures Has(texts[k], releases[i].version)
  {
    var version, j := releases[i].version, i + 1;
    AddedByStep(texts, releases, preamble, i);
    HistoryIsKept(texts, releases, preamble, j, k, version);
  }

  /** The versions of a run are pairwise different. */
  lemma VersionsDiffer(texts: seq<string>, releases: seq<NewRelease>, preamble: string, i: nat, k: nat)
    requires IsRun(texts, releases, Assembles) && Regular(texts[0], preamble) && i < k < |releases|
    ensures releases[i].version != releases[k].version
  {
    RunKeepsEachRelease(texts, releases, preamble, i, k);
    RunStaysRegular(texts, releases, preamble, k);
    assert Follows(texts, releases, Assembles, k);
    NextKeeps(texts[k], preamble, releases[k], texts[k + 1], releases[i].version);
  }

  /** An assembly adds its own version and no other. */
  lemma NextHas(text: string, preamble: string, r: NewRelease, next: string, version: string)
    requires Regular(text, preamble) && Assembles(text, r, next)
    ensures Has(next, version) <==> Has(text, version) || version == r.version
  {
    if version == r.version {
      NextAdds(text, preamble, r, next);
    } else {
      AssemblyKeepsSection(text, r.fragments, r.version, r.date, version);
    }
  }

  /** The version was there from the start, or one of the first `k` assemblies was of it. */
  ghost predicate Released(texts: seq<string>, releases: seq<NewRelease>, k: nat, version: string)
    requires texts != [] && k <= |releases|
    decreases k
  {
    if k == 0 then Has(texts[0], version)
    else Released(texts, releases, k - 1, version) || releases[k - 1].version == version
  }

  lemma StepHas(texts: seq<string>, releases: seq<NewRelease>, preamble: string, i: nat, version: string)
    requires IsRun(texts, releases, Assembles) && Regular(texts[0], preamble) && i < |releases|
    ensures Has(texts[i + 1], version) <==> Has(texts[i], version) || version == releases[i].version
  {
    RunStaysRegular(texts, releases, preamble, i);
    assert Follows(texts, releases, Assembles, i);
    NextHas(texts[i], preamble, releases[i], texts[i + 1], version);
  }

  lemma {:induction false} RunHas(texts: seq<string>, releases: seq<NewRelease>, preamble: string, k: nat,
                                  version: string)
    requires IsRun(texts, releases, Assembles) && Regular(texts[0], preamble) && k < |texts|
    ensures Has(texts[k], version) <==> Released(texts, releases, k, version)
    decreases k
  {
    if k > 0 {
      RunHas(texts, releases, preamble, k - 1, version);
      StepHas(texts, releases, preamble, k - 1, version);
    }
  }

  /**
   At any point of a run, a version is refused as released already if and only if it was in the
   changelog from the start or was assembled before; whatever the fragments and the date are.
   */
  lemma ReassemblyFails(texts: seq<string>, releases: seq<NewRelease>, preamble: string, k: nat, r: NewRelease)
    requires IsRun(texts, releases, Assembles) && Regular(texts[0], preamble) && k < |texts|
    requires ValidVersion(r.version)
    ensures Assemble(texts[k], r.fragments, r.version, r.date) == Err(AlreadyReleased)
            <==> Released(texts, releases, k, r.version)
  {
    RunHas(texts, releases, preamble, k, r.version);
    RefusedIff(texts[k], r);
  }

  lemma RefusedIff(text: string, r: NewRelease)
    requires ValidVersion(r.version)
    ensures Assemble(text, r.fragments, r.version, r.date) == Err(AlreadyReleased) <==> Has(text, r.version)
  {
  }
}
