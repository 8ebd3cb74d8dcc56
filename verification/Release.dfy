/**
 Release sections of a changelog: finding one, extracting its body, and assembling a new one from
 fragments (crates/changelog-release-notes/src/lib.rs).
 */
module Release {
  import opened Common
  import opened Text
  import opened Headings

  // ----- finding a section -----

  function Before(s: string, c: char): string
    decreases |s|
  {
    if s == [] || s[0] == c then [] else [s[0]] + Before(s[1..], c)
  }

  function BeforeDash(s: string): string
    decreases |s|
  {
    if s == [] || StartsWith(s, " - ") then [] else [s[0]] + BeforeDash(s[1..])
  }

  /** `version_heading`: the text in brackets, or the text before " - ". */
  function VersionOf(value: string): string {
    if value != [] && value[0] == '[' then Before(value[1..], ']') else BeforeDash(value)
  }

  predicate IsRelease(h: Heading) { h.value == "Unreleased" || StartsWith(h.value, "[") }

  function OnlyReleases(hs: seq<Heading>): seq<Heading>
    decreases |hs|
  {
    if hs == [] then []
    else if IsRelease(hs[0]) then [hs[0]] + OnlyReleases(hs[1..])
    else OnlyReleases(hs[1..])
  }

  function ReleaseHeaders(text: string): seq<Heading> { OnlyReleases(HeadingsOf(text, "## ")) }

  /** Where a section's header starts, where its body starts and where it ends. */
  datatype Section = Section(start: nat, body: nat, end: nat)

  /** The first header of the version, up to the next header or the end of the text. */
  function FindSection(hs: seq<Heading>, length: nat, version: string): Option<Section>
    decreases |hs|
  {
    if hs == [] then None
    else if VersionOf(hs[0].value) == version then
      Some(Section(hs[0].start, hs[0].end, if |hs| > 1 then hs[1].start else length))
    else FindSection(hs[1..], length, version)
  }

  function SectionOf(text: string, version: string): Option<Section> {
    FindSection(ReleaseHeaders(text), |text|, version)
  }

  // ----- what is found -----

  lemma {:induction false} BeforeIs(v: string, c: char, rest: string)
    requires c !in v
    ensures Before(v, c) == v && Before(v + [c] + rest, c) == v
    decreases |v|
  {
    var all := v + [c] + rest;
    if v == [] {
      assert all[0] == c;
    } else {
      assert v == [v[0]] + v[1..] && v[0] in v;
      assert all[0] == v[0] && all[1..] == v[1..] + [c] + rest;
      BeforeIs(v[1..], c, rest);
    }
  }

  /** A heading in brackets has what they hold as its version; a bracket need not be closed. */
  lemma BracketVersion(v: string, rest: string)
    requires ']' !in v
    ensures VersionOf("[" + v) == v && VersionOf("[" + v + "]" + rest) == v
  {
    BeforeIs(v, ']', rest);
    assert ("[" + v)[1..] == v && ("[" + v + "]" + rest)[1..] == v + [']'] + rest;
  }

  /** There is a dash with blanks around it at this place. */
  predicate DashAt(s: string, i: nat) { i + 3 <= |s| && s[i] == ' ' && s[i + 1] == '-' && s[i + 2] == ' ' }

  lemma {:induction false} BeforeDashIs(s: string, n: nat)
    requires n <= |s| && (forall i :: 0 <= i < n ==> !DashAt(s, i)) && (n == |s| || DashAt(s, n))
    ensures BeforeDash(s) == s[..n]
    decreases n
  {
    if n == 0 {
      if s != [] { assert s[..3] == " - "; }
    } else {
      assert !DashAt(s, 0);
      assert !StartsWith(s, " - ");
      forall i | 0 <= i < n - 1 ensures !DashAt(s[1..], i) { assert !DashAt(s, i + 1); }
      assert n < |s| ==> DashAt(s[1..], n - 1);
      BeforeDashIs(s[1..], n - 1);
      assert s[..n] == [s[0]] + s[1..][..n - 1];
    }
  }

  /** Any other heading has what precedes the first dash as its version, or all of it without one. */
  lemma PlainVersion(value: string, n: nat)
    requires n <= |value| && (value == [] || value[0] != '[')
    requires (forall i :: 0 <= i < n ==> !DashAt(value, i)) && (n == |value| || DashAt(value, n))
    ensures VersionOf(value) == value[..n]
  {
    BeforeDashIs(value, n);
  }

  lemma {:induction false} ReleasesAre(hs: seq<Heading>, h: Heading)
    ensures h in OnlyReleases(hs) <==>
            h in hs && (h.value == "Unreleased" || (h.value != [] && h.value[0] == '['))
    decreases |hs|
  {
    if hs != [] {
      ReleasesAre(hs[1..], h);
      assert hs == [hs[0]] + hs[1..];
      assert StartsWith(h.value, "[") <==> h.value != [] && h.value[0] == '[';
    }
  }

  /** The section of the first header with the version; it ends where the next header starts. */
  lemma {:induction false} SectionAt(hs: seq<Heading>, length: nat, version: string, i: nat)
    requires i < |hs| && VersionOf(hs[i].value) == version
    requires forall j :: 0 <= j < i ==> VersionOf(hs[j].value) != version
    ensures FindSection(hs, length, version) ==
            Some(Section(hs[i].start, hs[i].end, if i + 1 < |hs| then hs[i + 1].start else length))
    decreases |hs|
  {
    if i > 0 {
      assert VersionOf(hs[0].value) != version;
      SectionAt(hs[1..], length, version, i - 1);
    }
  }

  /** Headings come in order, do not overlap and stay inside the text. */
  ghost predicate InOrder(hs: seq<Heading>, low: nat, high: nat)
    decreases |hs|
  {
    if hs == [] then low <= high else low <= hs[0].start <= hs[0].end && InOrder(hs[1..], hs[0].end, high)
  }

  lemma {:induction false} InOrderLower(hs: seq<Heading>, low: nat, low': nat, high: nat)
    requires InOrder(hs, low, high) && low' <= low
    ensures InOrder(hs, low', high)
  {
  }

  lemma {:induction false} InOrderEnd(hs: seq<Heading>, low: nat, high: nat)
    requires InOrder(hs, low, high)
    ensures low <= high
    decreases |hs|
  {
    if hs != [] { InOrderEnd(hs[1..], hs[0].end, high); }
  }

  lemma {:induction false} ScanInOrder(lines: seq<string>, prefix: string, offset: nat, fence: Fence, high: nat)
    requires offset + |Join(lines)| == high
    ensures InOrder(Scan(lines, prefix, offset, fence), offset, high)
    decreases |lines|
  {
    if lines != [] {
      var next := NextFence(fence, lines[0]);
      var rest := Scan(lines[1..], prefix, offset + |lines[0]|, next);
      ScanInOrder(lines[1..], prefix, offset + |lines[0]|, next, high);
      if IsHeading(fence, lines[0], prefix) {
        assert Scan(lines, prefix, offset, fence)[1..] == rest;
      } else {
        InOrderLower(rest, offset + |lines[0]|, offset, high);
      }
    }
  }

  lemma HeadingsInOrder(text: string, prefix: string)
    ensures InOrder(HeadingsOf(text, prefix), 0, |text|)
  {
    JoinSplit(text);
    ScanInOrder(SplitLines(text), prefix, 0, Closed, |text|);
  }

  lemma {:induction false} ReleasesInOrder(hs: seq<Heading>, low: nat, high: nat)
    requires InOrder(hs, low, high)
    ensures InOrder(OnlyReleases(hs), low, high)
    decreases |hs|
  {
    if hs != [] {
      var rest := OnlyReleases(hs[1..]);
      ReleasesInOrder(hs[1..], hs[0].end, high);
      if IsRelease(hs[0]) {
        assert ([hs[0]] + rest)[1..] == rest;
      } else {
        InOrderLower(rest, hs[0].end, low, high);
      }
    }
  }

  lemma {:induction false} SectionInOrder(hs: seq<Heading>, low: nat, high: nat, version: string)
    requires InOrder(hs, low, high)
    ensures var s := FindSection(hs, high, version); s.Some? ==> s.value.body <= s.value.end <= high
    decreases |hs|
  {
    if hs != [] {
      InOrderEnd(hs[1..], hs[0].end, high);
      if |hs| > 1 { InOrderEnd(hs[1..][1..], hs[1].end, high); }
      SectionInOrder(hs[1..], hs[0].end, high, version);
    }
  }

  lemma SectionBounds(text: string, version: string)
    ensures var s := SectionOf(text, version); s.Some? ==> s.value.body <= s.value.end <= |text|
  {
    HeadingsInOrder(text, "## ");
    ReleasesInOrder(HeadingsOf(text, "## "), 0, |text|);
    SectionInOrder(ReleaseHeaders(text), 0, |text|, version);
  }

  function SectionText(raw: string): string {
    var body := TrimNewlines(raw);
    if Blank(body) then [] else body + "\n"
  }

  lemma WhiteInside(a: string, body: string, b: string)
    requires forall c :: c in a + b ==> c == '\n' || c == '\r'
    ensures AllWhite(a + body + b) <==> AllWhite(body)
  {
    assert forall c :: c in a + body + b <==> c in a + b || c in body;
  }

  /** The body without the line breaks around it, ended by one; nothing if it is blank. */
  lemma SectionTextIs(raw: string) returns (a: string, body: string, b: string)
    ensures raw == a + body + b && forall c :: c in a + b ==> c == '\n' || c == '\r'
    ensures body != [] ==> body[0] !in {'\n', '\r'} && body[|body| - 1] !in {'\n', '\r'}
    ensures SectionText(raw) == if AllWhite(raw) then [] else body + "\n"
  {
    body := TrimNewlines(raw);
    a, b := TrimNewlinesIs(raw);
    BlankIffAllWhite(body);
    WhiteInside(a, body, b);
  }

  /** `release_section`: the body of a release, `None` if there is no such release. */
  function ReleaseSection(text: string, version: string): Option<string> {
    SectionBounds(text, version);
    match SectionOf(text, version)
    case None => None
    case Some(s) => Some(SectionText(text[s.body..s.end]))
  }

  // ----- assembling a release -----

  datatype Fragment = Fragment(path: string, category: nat, body: string)

  const CATEGORIES: seq<string> :=
    ["Added", "Stabilized", "Changed", "Deprecated", ":boom: Breaking Changes", "Fixed", "Security"]

  /** One bullet per nonblank line of a fragment. */
  function Bullets(lines: seq<string>): seq<string>
    decreases |lines|
  {
    if lines == [] then []
    else if Blank(lines[0]) then Bullets(lines[1..])
    else ["- " + lines[0]] + Bullets(lines[1..])
  }

  function FragmentBullets(body: string): seq<string> { Bullets(Lines(body)) }

  function WithLineFeeds(lines: seq<string>): string
    decreases |lines|
  {
    if lines == [] then [] else lines[0] + "\n" + WithLineFeeds(lines[1..])
  }

  /** `fragment_entries`. */
  function FragmentEntries(body: string): string { WithLineFeeds(FragmentBullets(body)) }

  function InsertByPath(f: Fragment, fs: seq<Fragment>): seq<Fragment>
    decreases |fs|
  {
    if fs == [] || TextLe(f.path, fs[0].path) then [f] + fs else [fs[0]] + InsertByPath(f, fs[1..])
  }

  /** `sort_by` on the path, which is stable. */
  function SortByPath(fs: seq<Fragment>): seq<Fragment>
    decreases |fs|
  {
    if fs == [] then [] else InsertByPath(fs[0], SortByPath(fs[1..]))
  }

  function OfCategory(fs: seq<Fragment>, category: nat): seq<Fragment>
    decreases |fs|
  {
    if fs == [] then []
    else if fs[0].category == category then [fs[0]] + OfCategory(fs[1..], category)
    else OfCategory(fs[1..], category)
  }

  /** The fragments of a category in the order they are printed. */
  function Ordered(fs: seq<Fragment>, category: nat): seq<Fragment> { SortByPath(OfCategory(fs, category)) }

  function EntriesText(fs: seq<Fragment>): string
    decreases |fs|
  {
    if fs == [] then [] else FragmentEntries(fs[0].body) + "\n" + EntriesText(fs[1..])
  }

  function CategoryText(fs: seq<Fragment>, category: nat): string
    requires category < |CATEGORIES|
  {
    var ordered := Ordered(fs, category);
    if ordered == [] then [] else "### " + CATEGORIES[category] + "\n\n" + EntriesText(ordered)
  }

  function SectionsFrom(fs: seq<Fragment>, category: nat): string
    requires category <= |CATEGORIES|
    decreases |CATEGORIES| - category
  {
    if category == |CATEGORIES| then [] else CategoryText(fs, category) + SectionsFrom(fs, category + 1)
  }

  datatype AssembleError = InvalidVersion | AlreadyReleased | UnreleasedPresent | NoTitle

  predicate ValidVersion(version: string) {
    version != [] && forall c :: c in version ==> c !in {'\n', '\r', '[', ']'}
  }

  function FindTitle(hs: seq<Heading>): Option<Heading>
    decreases |hs|
  {
    if hs == [] then None else if hs[0].value == "Changelog" then Some(hs[0]) else FindTitle(hs[1..])
  }

  function TitleOf(text: string): Option<Heading> { FindTitle(HeadingsOf(text, "# ")) }

  lemma {:induction false} TitleListed(hs: seq<Heading>)
    ensures FindTitle(hs).Some? ==> FindTitle(hs).value in hs && FindTitle(hs).value.value == "Changelog"
    decreases |hs|
  {
    if hs != [] { TitleListed(hs[1..]); }
  }

  lemma {:induction false} TitleAt(hs: seq<Heading>, i: nat)
    requires i < |hs| && hs[i].value == "Changelog" && forall j :: 0 <= j < i ==> hs[j].value != "Changelog"
    ensures FindTitle(hs) == Some(hs[i])
    decreases |hs|
  {
    if i > 0 { TitleAt(hs[1..], i - 1); }
  }

  lemma {:induction false} ListedBounds(hs: seq<Heading>, low: nat, high: nat, h: Heading)
    requires InOrder(hs, low, high) && h in hs
    ensures h.end <= high
    decreases |hs|
  {
    InOrderEnd(hs[1..], hs[0].end, high);
    if h != hs[0] { ListedBounds(hs[1..], hs[0].end, high, h); }
  }

  lemma TitleBounds(text: string)
    ensures TitleOf(text).Some? ==> TitleOf(text).value.end <= |text|
  {
    if TitleOf(text).Some? {
      HeadingsInOrder(text, "# ");
      TitleListed(HeadingsOf(text, "# "));
      ListedBounds(HeadingsOf(text, "# "), 0, |text|, TitleOf(text).value);
    }
  }

  /** The header line of a new release. */
  function HeaderLine(version: string, date: string): string { "## [" + version + "] - " + date + "\n" }

  /** What is inserted between the title and the history. */
  function ReleaseBlock(fs: seq<Fragment>, version: string, date: string): string {
    "\n" + HeaderLine(version, date) + "\n" + SectionsFrom(fs, 0)
  }

  /** The text up to and with the title line, which is given a line feed if it has none. */
  function Preamble(text: string, title: Heading): string
    requires title.end <= |text|
  {
    if Terminated(text[..title.end]) then text[..title.end] else text[..title.end] + "\n"
  }

  function History(text: string, title: Heading): string
    requires title.end <= |text|
  {
    DropNewlines(text[title.end..])
  }

  function Assemble(text: string, fs: seq<Fragment>, version: string, date: string): Result<string, AssembleError> {
    if !ValidVersion(version) then Err(InvalidVersion)
    else if SectionOf(text, version).Some? then Err(AlreadyReleased)
    else if SectionOf(text, "Unreleased").Some? then Err(UnreleasedPresent)
    else
      TitleBounds(text);
      match TitleOf(text)
      case None => Err(NoTitle)
      case Some(title) => Ok(Preamble(text, title) + ReleaseBlock(fs, version, date) + History(text, title))
  }

  lemma HeaderIs(version: string, date: string)
    ensures "\n" + HeaderLine(version, date) + "\n" == "\n## [" + version + "] - " + date + "\n\n"
  {
    var a, b := "## [" + version + "] - " + date, "\n## [" + version + "] - " + date;
    assert "\n" + "## [" == "\n## [" && "\n" + "\n" == "\n\n";
    assert "\n" + a == b;
    assert "\n" + (a + "\n") + "\n" == ("\n" + a) + ("\n" + "\n");
  }

  lemma BlockIs(fs: seq<Fragment>, version: string, date: string)
    ensures ReleaseBlock(fs, version, date) == "\n## [" + version + "] - " + date + "\n\n" + SectionsFrom(fs, 0)
  {
    HeaderIs(version, date);
  }

  lemma TextParts(text: string, title: Heading) returns (front: string, gap: string, history: string)
    requires title.end <= |text|
    ensures front == text[..title.end] && history == History(text, title) && text == front + gap + history
    ensures forall c :: c in gap ==> c == '\n' || c == '\r'
    ensures history == [] || history[0] !in {'\n', '\r'}
    ensures Preamble(text, title) == front + if front == [] || front[|front| - 1] == '\n' then "" else "\n"
  {
    front := text[..title.end];
    gap := DropStartSuffix(text[title.end..]);
    history := DropNewlines(text[title.end..]);
    assert text == front + text[title.end..];
  }

  /**
   The assembled text: all of the text up to the end of the title line, the header of the new
   release with its version and date, the printed categories, and the rest of the text, without the
   line breaks it began with.
   */
  lemma AssembledText(text: string, fs: seq<Fragment>, version: string, date: string)
    returns (front: string, gap: string, history: string)
    requires Assemble(text, fs, version, date).Ok?
    ensures TitleOf(text).Some? && TitleOf(text).value.end <= |text| && front == text[..TitleOf(text).value.end]
    ensures text == front + gap + history && (forall c :: c in gap ==> c == '\n' || c == '\r')
    ensures history == [] || history[0] !in {'\n', '\r'}
    ensures Assemble(text, fs, version, date).value ==
            front + (if front == [] || front[|front| - 1] == '\n' then "" else "\n")
            + ("\n## [" + version + "] - " + date + "\n\n" + SectionsFrom(fs, 0)) + history
  {
    TitleBounds(text);
    front, gap, history := TextParts(text, TitleOf(text).value);
    BlockIs(fs, version, date);
  }

  /** `assemble_release`: the loop over the categories collects the printed sections. */
  method AssembleRelease(text: string, fs: seq<Fragment>, version: string, date: string)
    returns (r: Result<string, AssembleError>)
    ensures r == Assemble(text, fs, version, date)
  {
    if !ValidVersion(version) { return Err(InvalidVersion); }
    if SectionOf(text, version).Some? { return Err(AlreadyReleased); }
    if SectionOf(text, "Unreleased").Some? { return Err(UnreleasedPresent); }
    var title := TitleOf(text);
    if title.None? { return Err(NoTitle); }
    TitleBounds(text);
    var sections := PrintSections(fs, 0);
    var front := Preamble(text, title.value) + ("\n" + HeaderLine(version, date) + "\n" + sections);
    r := Ok(front + History(text, title.value));
  }

  /** The section of one category, unless it has no entries. */
  method PrintSection(fs: seq<Fragment>, category: nat) returns (section: string)
    requires category < |CATEGORIES|
    ensures section == CategoryText(fs, category)
  {
    var entries := Ordered(fs, category);
    if entries == [] { return []; }
    section := "### " + CATEGORIES[category] + "\n\n" + EntriesText(entries);
  }

  /** The sections printed by the categories from the given one on. */
  method PrintSections(fs: seq<Fragment>, first: nat) returns (sections: string)
    requires first <= |CATEGORIES|
    ensures sections == SectionsFrom(fs, first)
  {
    sections := [];
    var category := first;
    while category < |CATEGORIES|
      invariant first <= category <= |CATEGORIES|
      invariant SectionsFrom(fs, first) == sections + SectionsFrom(fs, category)
    {
      var section := PrintSection(fs, category);
      ConcatAssociative(sections, section, SectionsFrom(fs, category + 1));
      sections := sections + section;
      category := category + 1;
    }
  }
}
