/**
 Parse undoes print: the entries read back from an assembled release are the bullets of its
 fragments, category by category and in path order (crates/changelog-release-notes/src/lib.rs and
 range.rs).
 */
module RoundTrip {
  import opened Common
  import opened Text
  import opened Headings
  import opened Release
  import opened Runs
  import opened ReleaseHistory
  import opened ReleaseEntries

  /** One entry per bullet, by category and in path order; a category without bullets is absent. */
  function Printed(fs: seq<Fragment>, category: nat): seq<Parsed>
    requires category <= |CATEGORIES|
    decreases |CATEGORIES| - category
  {
    if category == |CATEGORIES| then []
    else
      var bullets := AllBullets(Ordered(fs, category));
      if bullets == [] then Printed(fs, category + 1)
      else [Parsed(CATEGORIES[category], Singles(bullets))] + Printed(fs, category + 1)
  }

  /** What is really read back: bullets that end in carriage returns lose some of them. */
  function PrintedBack(fs: seq<Fragment>, category: nat): seq<Parsed>
    requires category <= |CATEGORIES|
    decreases |CATEGORIES| - category
  {
    if category == |CATEGORIES| then []
    else
      var bullets := AllBullets(Ordered(fs, category));
      if bullets == [] then PrintedBack(fs, category + 1)
      else [Parsed(CATEGORIES[category], Singles(ReadBack(bullets)))] + PrintedBack(fs, category + 1)
  }

  // ----- the printed sections as blocks -----

  function BlocksOf(fs: seq<Fragment>, category: nat): seq<Block>
    requires category <= |CATEGORIES|
    decreases |CATEGORIES| - category
  {
    if category == |CATEGORIES| then []
    else if Ordered(fs, category) == [] then BlocksOf(fs, category + 1)
    else [Block(category, [""] + Items(Ordered(fs, category)))] + BlocksOf(fs, category + 1)
  }

  lemma OneCategory(fs: seq<Fragment>, category: nat)
    requires category < |CATEGORIES| && Ordered(fs, category) != []
    ensures var b := Block(category, [""] + Items(Ordered(fs, category)));
            && GoodBlock(b) && BlockText(b) == CategoryText(fs, category)
            && NonEmpty(b.items) == AllBullets(Ordered(fs, category))
  {
    var items := Items(Ordered(fs, category));
    var b := Block(category, [""] + items);
    ItemsAre(Ordered(fs, category));
    assert b.items[1..] == items && b.items[0] == [];
    assert WithLineFeeds(b.items) == "\n" + WithLineFeeds(items);
    assert BlockText(b) == "### " + CATEGORIES[category] + "\n\n" + WithLineFeeds(items);
  }

  lemma {:induction false} BlocksOfAre(fs: seq<Fragment>, category: nat)
    requires category <= |CATEGORIES|
    ensures forall b :: b in BlocksOf(fs, category) ==> GoodBlock(b)
    ensures BlocksText(BlocksOf(fs, category)) == SectionsFrom(fs, category)
    ensures BlocksParsed(BlocksOf(fs, category)) == PrintedBack(fs, category)
    decreases |CATEGORIES| - category
  {
    if category < |CATEGORIES| {
      BlocksOfAre(fs, category + 1);
      if Ordered(fs, category) != [] {
        OneCategory(fs, category);
        assert BlocksOf(fs, category)[1..] == BlocksOf(fs, category + 1);
      }
    }
  }

  // ----- the section of the new release -----

  /** The history is empty or begins with a release header. */
  predicate StartsAtRelease(history: string) {
    history == [] || (ReleaseHeaders(history) != [] && ReleaseHeaders(history)[0].start == 0)
  }

  /** The text has a title, and what follows it begins with a release header or is empty. */
  ghost predicate Ready(text: string) {
    && TitleOf(text).Some? && TitleOf(text).value.end <= |text|
    && StartsAtRelease(History(text, TitleOf(text).value))
  }

  lemma FirstHeader(history: string)
    requires StartsWith(history, "## [")
    ensures ReleaseHeaders(history) != [] && ReleaseHeaders(history)[0].start == 0
  {
    var n := LineLength(history);
    var line := history[..n];
    LineLengthIsLine(history);
    HeaderLength(history);
    assert StartsWith(line, "## [");
    NoMarker(line);
    var value := Trim(line[3..]);
    assert line[3..] == "[" + line[4..];
    TrimKeeps("[", line[4..]);
    var h := Heading(0, n, value);
    var rest := Scan(SplitLines(history)[1..], "## ", n, Closed);
    assert HeadingsOf(history, "## ") == [h] + rest;
    assert ([h] + rest)[0] == h && IsRelease(h);
  }

  lemma HeaderLength(history: string)
    requires StartsWith(history, "## [")
    ensures LineLength(history) >= 4
  {
    assert history[0] == '#' && history[1] == '#' && history[2] == ' ' && history[3] == '[';
    var s := history[1..];
    assert s[0] == '#' && s[1..] == history[2..] && s[1..][0] == ' ';
    assert history[3..][0] == '[' && s[1..][1..] == history[3..];
    assert LineLength(history[3..]) >= 1;
    assert LineLength(history[2..]) >= 2;
    assert LineLength(s) >= 3;
  }

  lemma {:induction false} FindNew(a: seq<Heading>, h: Heading, b: seq<Heading>, length: nat, version: string)
    requires !Names(a, version) && VersionOf(h.value) == version
    ensures FindSection(a + [h] + b, length, version)
            == Some(Section(h.start, h.end, if b != [] then b[0].start else length))
    decreases |a|
  {
    var all := a + [h] + b;
    if a == [] {
      assert all[0] == h && all[1..] == b;
    } else {
      assert VersionOf(a[0].value) != version;
      assert all[1..] == a[1..] + [h] + b;
      assert forall i :: 0 <= i < |a[1..]| ==> a[1..][i] == a[i + 1];
      FindNew(a[1..], h, b, length, version);
    }
  }

  lemma NamesConcat(a: seq<Heading>, b: seq<Heading>, version: string)
    requires !Names(a + b, version)
    ensures !Names(a, version)
  {
    forall i | 0 <= i < |a| ensures VersionOf(a[i].value) != version { assert (a + b)[i] == a[i]; }
  }

  /** A release that the text does not have is not named before its title either. */
  lemma NotInPreamble(text: string, version: string)
    requires TitleOf(text).Some? && TitleOf(text).value.end <= |text| && SectionOf(text, version).None?
    ensures !Names(ReleaseHeaders(Preamble(text, TitleOf(text).value)), version)
  {
    var a, y := TitleSplit(text);
    var rest := text[TitleOf(text).value.end..];
    FoundIffNamed(ReleaseHeaders(text), |text|, version);
    PreambleHeaders(a, y);
    if text == a + y + rest {
      HeadersConcat(a + y, rest);
      NamesConcat(ReleaseHeaders(a + y), Shift(ReleaseHeaders(rest), |a + y|), version);
    } else {
      HeadersConcat(a, y[..|y| - 1]);
      NamesConcat(ReleaseHeaders(a), Shift(ReleaseHeaders(y[..|y| - 1]), |a|), version);
    }
  }

  lemma CutFront(p: string, line: string, tail: string)
    ensures (p + ("\n" + (line + tail)))[|p| + 1 + |line|..] == tail
  {
  }

  /** The last release before the history ends where the history begins. */
  lemma FoundBefore(front: string, history: string, earlier: seq<Heading>, h: Heading, version: string)
    requires Settled(front) && ReleaseHeaders(front) == earlier + [h] && StartsAtRelease(history)
    requires !Names(earlier, version) && VersionOf(h.value) == version
    ensures SectionOf(front + history, version) == Some(Section(h.start, h.end, |front|))
  {
    HeadersConcat(front, history);
    FindNew(earlier, h, Shift(ReleaseHeaders(history), |front|), |front + history|, version);
    if history == [] { NoHeaders(); }
  }

  /** The text of the last release before the history. */
  lemma TextBefore(front: string, history: string, earlier: seq<Heading>, h: Heading, tail: string, version: string)
    requires Settled(front) && ReleaseHeaders(front) == earlier + [h] && StartsAtRelease(history)
    requires !Names(earlier, version) && VersionOf(h.value) == version
    requires h.end <= |front| && front[h.end..] == tail
    ensures ReleaseSection(front + history, version) == Some(SectionText(tail))
  {
    FoundBefore(front, history, earlier, h, version);
    assert (front + history)[h.end..|front|] == front[h.end..];
  }

  lemma FrontTail(p: string, fs: seq<Fragment>, version: string, date: string)
    ensures var n := NewHeader(version, date, |p| + 1).end;
            n <= |Front(p, fs, version, date)| && Front(p, fs, version, date)[n..] == "\n" + SectionsFrom(fs, 0)
  {
    BlockParts(fs, version, date);
    FrontParts(p, fs, version, date, HeaderLine(version, date), "\n" + SectionsFrom(fs, 0));
  }

  lemma FrontParts(p: string, fs: seq<Fragment>, version: string, date: string, line: string, tail: string)
    requires line == HeaderLine(version, date) && ReleaseBlock(fs, version, date) == "\n" + (line + tail)
    ensures var n := NewHeader(version, date, |p| + 1).end;
            n <= |Front(p, fs, version, date)| && Front(p, fs, version, date)[n..] == tail
  {
    CutFront(p, line, tail);
  }

  /** Where the new release is found in the new text. */
  lemma NewSection(p: string, history: string, fs: seq<Fragment>, version: string, date: string)
    requires Settled(p) && !Names(ReleaseHeaders(p), version) && ValidVersion(version) && '\n' !in date
    requires StartsAtRelease(history)
    ensures ReleaseSection(Front(p, fs, version, date) + history, version)
            == Some(SectionText("\n" + SectionsFrom(fs, 0)))
  {
    var h := NewHeader(version, date, |p| + 1);
    FrontHeaders(p, fs, version, date);
    HeaderVersion(version, date);
    FrontTail(p, fs, version, date);
    TextBefore(Front(p, fs, version, date), history, ReleaseHeaders(p), h, "\n" + SectionsFrom(fs, 0), version);
  }

  lemma NoHeaders()
    ensures ReleaseHeaders([]) == []
  {
    assert HeadingsOf([], "## ") == [];
  }

  /** What is read back from the text with the new release. */
  lemma ReadNewRelease(text: string, fs: seq<Fragment>, version: string, date: string)
    requires Assemble(text, fs, version, date).Ok? && '\n' !in date && Ready(text)
    ensures ParseRelease(Assemble(text, fs, version, date).value, version) == Some(PrintedBack(fs, 0))
  {
    var title := TitleOf(text).value;
    PreambleSettled(text);
    NotInPreamble(text, version);
    NewSection(Preamble(text, title), History(text, title), fs, version, date);
    BlocksOfAre(fs, 0);
    SectionRead(BlocksOf(fs, 0));
  }

  // ----- the order of the fragments -----

  ghost predicate SortedByPath(fs: seq<Fragment>) {
    forall i, j :: 0 <= i < j < |fs| ==> TextLe(fs[i].path, fs[j].path)
  }

  function WithPath(fs: seq<Fragment>, path: string): seq<Fragment>
    decreases |fs|
  {
    if fs == [] then []
    else if fs[0].path == path then [fs[0]] + WithPath(fs[1..], path)
    else WithPath(fs[1..], path)
  }

  lemma {:induction false} InsertMembers(f: Fragment, fs: seq<Fragment>)
    ensures forall g :: g in InsertByPath(f, fs) <==> g == f || g in fs
    decreases |fs|
  {
    if fs != [] && !TextLe(f.path, fs[0].path) {
      InsertMembers(f, fs[1..]);
      assert fs == [fs[0]] + fs[1..];
    }
  }

  lemma {:induction false} InsertSorted(f: Fragment, fs: seq<Fragment>)
    requires SortedByPath(fs)
    ensures SortedByPath(InsertByPath(f, fs))
    decreases |fs|
  {
    if fs != [] {
      var g, rest := fs[0], fs[1..];
      assert forall h :: h in rest ==> TextLe(g.path, h.path);
      TextLeTotal(f.path, g.path);
      if TextLe(f.path, g.path) {
        forall h | h in rest ensures TextLe(f.path, h.path) { TextLeTransitive(f.path, g.path, h.path); }
      } else {
        InsertMembers(f, rest);
        assert SortedByPath(rest);
        InsertSorted(f, rest);
        assert forall h :: h in InsertByPath(f, rest) ==> TextLe(g.path, h.path);
      }
    }
  }

  lemma {:induction false} InsertStable(f: Fragment, fs: seq<Fragment>, path: string)
    ensures WithPath(InsertByPath(f, fs), path) == WithPath([f] + fs, path)
    decreases |fs|
  {
    assert ([f] + fs)[1..] == fs;
    if fs != [] && !TextLe(f.path, fs[0].path) {
      var g, rest := fs[0], fs[1..];
      TextLeTotal(f.path, f.path);
      InsertStable(f, rest, path);
      assert ([g] + InsertByPath(f, rest))[1..] == InsertByPath(f, rest);
      assert ([f] + rest)[1..] == rest;
    }
  }

  /** The fragments are printed in path order, those of one path in the order given, none lost and none added. */
  lemma {:induction false} SortIsStable(fs: seq<Fragment>, path: string)
    ensures SortedByPath(SortByPath(fs)) && WithPath(SortByPath(fs), path) == WithPath(fs, path)
    ensures forall g :: g in SortByPath(fs) <==> g in fs
    decreases |fs|
  {
    if fs != [] {
      var rest := SortByPath(fs[1..]);
      SortIsStable(fs[1..], path);
      InsertSorted(fs[0], rest);
      InsertStable(fs[0], rest, path);
      InsertMembers(fs[0], rest);
      assert ([fs[0]] + rest)[1..] == rest;
      assert fs == [fs[0]] + fs[1..];
    }
  }

  /** The fragments of one category and one path, in the order given. */
  function Selected(fs: seq<Fragment>, k: nat, category: nat, path: string): seq<Fragment>
    requires k <= |fs|
    decreases k
  {
    if k == 0 then []
    else
      Selected(fs, k - 1, category, path)
      + if fs[k - 1].category == category && fs[k - 1].path == path then [fs[k - 1]] else []
  }

  lemma FirstSelected(f: Fragment, rest: seq<Fragment>, category: nat, path: string)
    ensures WithPath(OfCategory([f] + rest, category), path)
            == (if f.category == category && f.path == path then [f] else [])
               + WithPath(OfCategory(rest, category), path)
  {
    var others := OfCategory(rest, category);
    assert ([f] + rest)[1..] == rest && ([f] + others)[1..] == others;
  }

  lemma {:induction false} SelectedFrom(fs: seq<Fragment>, k: nat, category: nat, path: string)
    requires k <= |fs|
    ensures Selected(fs, |fs|, category, path)
            == Selected(fs, k, category, path) + WithPath(OfCategory(fs[k..], category), path)
    decreases |fs| - k
  {
    if k < |fs| {
      var f, rest := fs[k], fs[k + 1..];
      SelectedFrom(fs, k + 1, category, path);
      FirstSelected(f, rest, category, path);
      assert fs[k..] == [f] + rest;
      ConcatAssociative(Selected(fs, k, category, path), if f.category == category && f.path == path then [f] else [],
                        WithPath(OfCategory(rest, category), path));
    } else {
      assert fs[k..] == [];
    }
  }

  /** The fragments of a category are printed in path order, and those of one path in the order given. */
  lemma OrderedIs(fs: seq<Fragment>, category: nat, path: string)
    ensures SortedByPath(Ordered(fs, category))
    ensures WithPath(Ordered(fs, category), path) == Selected(fs, |fs|, category, path)
  {
    SortIsStable(OfCategory(fs, category), path);
    SelectedFrom(fs, 0, category, path);
    assert fs[0..] == fs;
  }

  lemma {:induction false} CategoryMembers(fs: seq<Fragment>, category: nat)
    ensures forall f :: f in OfCategory(fs, category) <==> f in fs && f.category == category
    decreases |fs|
  {
    if fs != [] {
      CategoryMembers(fs[1..], category);
      assert fs == [fs[0]] + fs[1..];
    }
  }

  lemma OrderedMembers(fs: seq<Fragment>, category: nat)
    ensures forall f :: f in Ordered(fs, category) <==> f in fs && f.category == category
  {
    CategoryMembers(fs, category);
    SortIsStable(OfCategory(fs, category), []);
  }

  // ----- exactly when nothing is lost -----

  predicate EndsPlain(b: string) { b == [] || b[|b| - 1] != '\r' }

  ghost predicate AllPlain(bs: seq<string>) { forall b :: b in bs ==> EndsPlain(b) }

  lemma BulletKept(b: string)
    requires IsBullet(b)
    ensures (Stripped(b) == b <==> EndsPlain(b)) && (DropNewlinesEnd(b) == b <==> EndsPlain(b))
  {
    var line := b + "\n";
    assert line[..|line| - 1] == b && line[|line| - 2] == b[|b| - 1];
    assert b[|b| - 1] in b;
    DropEndShorter(b);
  }

  lemma {:induction false} DropEndShorter(s: string)
    ensures |DropNewlinesEnd(s)| <= |s|
    ensures s != [] && IsNewline(s[|s| - 1]) ==> |DropNewlinesEnd(s)| < |s|
    decreases |s|
  {
    if s != [] && IsNewline(s[|s| - 1]) { DropEndShorter(s[..|s| - 1]); }
  }

  lemma {:induction false} StrippedKept(bs: seq<string>)
    requires forall b :: b in bs ==> IsBullet(b)
    ensures |AllStripped(bs)| == |bs| && (AllStripped(bs) == bs <==> AllPlain(bs))
    decreases |bs|
  {
    if bs != [] {
      assert bs[0] in bs;
      BulletKept(bs[0]);
      StrippedKept(bs[1..]);
      assert bs == [bs[0]] + bs[1..];
      assert AllPlain(bs) <==> EndsPlain(bs[0]) && AllPlain(bs[1..]);
      assert AllStripped(bs)[1..] == AllStripped(bs[1..]);
    }
  }

  lemma ReadBackKept(bs: seq<string>)
    requires forall b :: b in bs ==> IsBullet(b)
    ensures ReadBack(bs) == bs <==> AllPlain(bs)
  {
    if bs != [] {
      var n := |bs| - 1;
      var init, last := bs[..n], bs[n];
      assert bs == init + [last];
      StrippedKept(init);
      BulletKept(last);
      assert AllPlain(bs) <==> AllPlain(init) && EndsPlain(last);
      assert ReadBack(bs)[..n] == AllStripped(init) && ReadBack(bs)[n] == DropNewlinesEnd(last);
    }
  }

  lemma {:induction false} SinglesInjective(a: seq<string>, b: seq<string>)
    requires Singles(a) == Singles(b)
    ensures a == b
    decreases |a|
  {
    if a != [] && b != [] {
      assert Singles(a)[0] == [a[0]] && Singles(b)[0] == [b[0]];
      assert Singles(a)[1..] == Singles(a[1..]) && Singles(b)[1..] == Singles(b[1..]);
      assert [a[0]][0] == [b[0]][0];
      SinglesInjective(a[1..], b[1..]);
      assert a == [a[0]] + a[1..] && b == [b[0]] + b[1..];
    }
  }

  lemma {:induction false} AllBulletsAre(fs: seq<Fragment>)
    ensures forall b :: b in AllBullets(fs) ==> IsBullet(b)
    ensures forall b :: b in AllBullets(fs) <==> exists f :: f in fs && b in BulletsOf(f.body)
    decreases |fs|
  {
    if fs != [] {
      FragmentBulletsAre(fs[0].body);
      FragmentBulletsIs(fs[0].body);
      AllBulletsAre(fs[1..]);
      assert fs == [fs[0]] + fs[1..];
    }
  }

  /** All bullets of the categories from this one on end plainly. */
  ghost predicate PlainFrom(fs: seq<Fragment>, category: nat)
    requires category <= |CATEGORIES|
  {
    forall k :: category <= k < |CATEGORIES| ==> AllPlain(AllBullets(Ordered(fs, k)))
  }

  lemma EntriesKept(heading: string, bs: seq<string>)
    requires forall b :: b in bs ==> IsBullet(b)
    ensures Parsed(heading, Singles(ReadBack(bs))) == Parsed(heading, Singles(bs)) <==> AllPlain(bs)
  {
    ReadBackKept(bs);
    if Singles(ReadBack(bs)) == Singles(bs) { SinglesInjective(ReadBack(bs), bs); }
  }

  lemma PlainStep(fs: seq<Fragment>, category: nat)
    requires category < |CATEGORIES|
    ensures PlainFrom(fs, category) <==> AllPlain(AllBullets(Ordered(fs, category))) && PlainFrom(fs, category + 1)
  {
  }

  lemma {:induction false} PrintedKept(fs: seq<Fragment>, category: nat)
    requires category <= |CATEGORIES|
    ensures PrintedBack(fs, category) == Printed(fs, category) <==> PlainFrom(fs, category)
    decreases |CATEGORIES| - category
  {
    if category < |CATEGORIES| {
      var name, bs := CATEGORIES[category], AllBullets(Ordered(fs, category));
      PrintedKept(fs, category + 1);
      PlainStep(fs, category);
      if bs != [] {
        AllBulletsAre(Ordered(fs, category));
        EntriesKept(name, bs);
        HeadsDiffer(Parsed(name, Singles(ReadBack(bs))), Parsed(name, Singles(bs)),
                    PrintedBack(fs, category + 1), Printed(fs, category + 1));
      }
    }
  }

  lemma HeadsDiffer(a: Parsed, b: Parsed, s: seq<Parsed>, t: seq<Parsed>)
    ensures [a] + s == [b] + t <==> a == b && s == t
  {
    assert ([a] + s)[0] == a && ([b] + t)[0] == b && ([a] + s)[1..] == s && ([b] + t)[1..] == t;
  }

  /** No line of any fragment ends in a carriage return, unless it is blank. */
  ghost predicate PlainBullets(fs: seq<Fragment>) {
    forall f, l :: f in fs && l in Lines(f.body) && !Blank(l) ==> EndsPlain(l)
  }

  lemma PlainLines(body: string)
    ensures AllPlain(BulletsOf(body)) <==> forall l :: l in Lines(body) && !Blank(l) ==> EndsPlain(l)
  {
    var visible := Visible(Lines(body));
    forall l ensures l in visible <==> l in Lines(body) && !Blank(l) { VisibleHas(Lines(body), l); }
    forall l | l in visible ensures l != [] { assert Blank("") && !Blank(l); }
    forall i | 0 <= i < |visible| ensures EndsPlain(visible[i]) <==> EndsPlain(Dashed(visible)[i]) {
      assert visible[i] in visible;
    }
    if AllPlain(BulletsOf(body)) {
      forall l | l in visible ensures EndsPlain(l) {
        var i :| 0 <= i < |visible| && visible[i] == l;
        assert Dashed(visible)[i] in Dashed(visible);
      }
    }
  }

  lemma PlainByCategory(fs: seq<Fragment>)
    requires forall f :: f in fs ==> f.category < |CATEGORIES|
    ensures PlainFrom(fs, 0) <==> PlainBullets(fs)
  {
    forall k | 0 <= k < |CATEGORIES|
      ensures AllPlain(AllBullets(Ordered(fs, k))) <==>
              forall f :: f in fs && f.category == k ==> AllPlain(BulletsOf(f.body))
    {
      OrderedMembers(fs, k);
      AllBulletsAre(Ordered(fs, k));
    }
    if PlainFrom(fs, 0) {
      forall f | f in fs ensures AllPlain(BulletsOf(f.body)) {
        assert AllPlain(AllBullets(Ordered(fs, f.category)));
      }
    }
    forall f | f in fs
      ensures AllPlain(BulletsOf(f.body)) <==> forall l :: l in Lines(f.body) && !Blank(l) ==> EndsPlain(l)
    {
      PlainLines(f.body);
    }
  }

  /**
   Parse undoes print: a new release reads back as its fragments' bullets, by category and in path
   order, if and only if none of these bullets ends in a carriage return.
   */
  lemma ParseUndoesPrint(text: string, fs: seq<Fragment>, version: string, date: string)
    requires Assemble(text, fs, version, date).Ok? && '\n' !in date && Ready(text)
    requires forall f :: f in fs ==> f.category < |CATEGORIES|
    ensures ParseRelease(Assemble(text, fs, version, date).value, version) == Some(Printed(fs, 0)) <==> PlainBullets(fs)
  {
    ReadNewRelease(text, fs, version, date);
    PrintedKept(fs, 0);
    PlainByCategory(fs);
  }

  // ----- a carriage return that is lost -----

  lemma OnlyTitle(y: string)
    requires y == "# Changelog\n"
    ensures IsTitleLine(y)
  {
    assert |y| == 12 && y[11] == '\n' && y[..11] == "# Changelog" && y[2..] == "Changelog" + "\n";
    TrimLineFeed("Changelog");
    NoMarker(y);
  }

  lemma TitleAlone(y: string)
    requires IsTitleLine(y)
    ensures Ready(y)
  {
    assert SplitLines("") == [] && HeadingsOf("", "# ") == [];
    TitleStays("", y, "");
    assert "" + y + "" == y && y[|y|..] == "";
  }

  lemma NoRelease(y: string)
    requires IsLine(y) && |y| > 1 && y[1] != '#'
    ensures ReleaseHeaders(y) == []
  {
    OneLine(y, "## ");
    assert "## "[1] == '#' && !IsHeading(Closed, y, "## ");
    assert Scan([y][1..], "## ", |y|, NextFence(Closed, y)) == [];
    assert HeadingsOf(y, "## ") == Scan([y], "## ", 0, Closed) == [];
  }

  lemma LineWithReturn()
    ensures Lines("a\r") == ["a\r"] && !Blank("a\r")
  {
    var s := "a\r";
    assert s[1..] == "\r" && "\r"[1..] == "" && LineLength("\r") == 1 && LineLength(s) == 2;
    assert s[..2] == s && s[2..] == "" && SplitLines(s) == [s];
    assert Lines(s) == [s];
    assert TrimStart(s) == s && s[0] == 'a' && s[..1] == "a" && TrimEnd(s[..1]) == "a";
    assert !Blank(s);
  }

  /** A line that ends in a carriage return does not come back. */
  lemma NotReadBack(text: string, f: Fragment, l: string, version: string, date: string)
    requires Ready(text) && ReleaseHeaders(text) == [] && ValidVersion(version) && '\n' !in date
    requires f.category < |CATEGORIES| && l in Lines(f.body) && !Blank(l) && !EndsPlain(l)
    ensures Assemble(text, [f], version, date).Ok?
    ensures ParseRelease(Assemble(text, [f], version, date).value, version) != Some(Printed([f], 0))
  {
    assert f in [f] && !PlainBullets([f]);
    ParseUndoesPrint(text, [f], version, date);
  }

  lemma BareChangelog(text: string)
    requires text == "# Changelog\n"
    ensures Ready(text) && ReleaseHeaders(text) == []
  {
    OnlyTitle(text);
    TitleAlone(text);
    NoRelease(text);
  }

  lemma LostLine(body: string)
    requires body == "a\r"
    ensures body in Lines(body) && !Blank(body) && !EndsPlain(body)
  {
    LineWithReturn();
  }

  /** The law fails: the line `a` with a carriage return at its end does not come back. */
  lemma CarriageReturnIsLost(path: string, version: string, date: string) returns (text: string, f: Fragment)
    requires ValidVersion(version) && '\n' !in date
    ensures text == "# Changelog\n" && f == Fragment(path, 0, "a\r")
    ensures Assemble(text, [f], version, date).Ok?
    ensures ParseRelease(Assemble(text, [f], version, date).value, version) != Some(Printed([f], 0))
  {
    text, f := "# Changelog\n", Fragment(path, 0, "a\r");
    BareChangelog(text);
    LostLine(f.body);
    NotReadBack(text, f, f.body, version, date);
  }

  // ----- any number of assemblies -----

  /** After an assembly the history begins with the release just added. */
  lemma NextStartsAtRelease(text: string, preamble: string, fs: seq<Fragment>, version: string, date: string)
    requires Regular(text, preamble) && Assemble(text, fs, version, date).Ok?
    ensures Ready(Assemble(text, fs, version, date).value)
  {
    var title := TitleOf(text).value;
    var a, y := TitleSplit(text);
    var rest := ReleaseBlock(fs, version, date) + History(text, title);
    assert Assemble(text, fs, version, date).value == a + y + rest;
    TitleStays(a, y, rest);
    CutAfter(a, y, rest);
    BlockStart(fs, version, date, History(text, title));
    FirstHeader(DropNewlines(rest));
  }

  lemma BlockStart(fs: seq<Fragment>, version: string, date: string, history: string)
    ensures StartsWith(DropNewlines(ReleaseBlock(fs, version, date) + history), "## [")
  {
    var rest := ReleaseBlock(fs, version, date) + history;
    assert rest[0] == '\n' && rest[1] == '#' && rest[2] == '#' && rest[3] == ' ' && rest[4] == '[';
    AfterGap(rest);
  }

  lemma AfterGap(rest: string)
    requires |rest| > 4 && rest[0] == '\n' && rest[1] == '#' && rest[2] == '#' && rest[3] == ' ' && rest[4] == '['
    ensures StartsWith(DropNewlines(rest), "## [")
  {
    var t := rest[1..];
    assert t[0] == '#' && DropNewlines(t) == t;
    assert t[..4] == "## [";
  }

  lemma ReadNext(text: string, r: NewRelease, next: string)
    requires Assembles(text, r, next) && Ready(text)
    ensures ParseRelease(next, r.version) == Some(PrintedBack(r.fragments, 0))
  {
    ReadNewRelease(text, r.fragments, r.version, r.date);
  }

  ghost predicate Prepared(text: string, preamble: string) { Regular(text, preamble) && Ready(text) }

  lemma NextPrepared(text: string, preamble: string, r: NewRelease, next: string)
    requires Prepared(text, preamble) && Assembles(text, r, next)
    ensures Prepared(next, preamble)
  {
    NextStaysRegular(text, preamble, r, next);
    NextStartsAtRelease(text, preamble, r.fragments, r.version, r.date);
  }

  lemma RunPrepared(texts: seq<string>, releases: seq<NewRelease>, preamble: string, k: nat)
    requires IsRun(texts, releases, Assembles) && Prepared(texts[0], preamble) && k < |texts|
    ensures Prepared(texts[k], preamble)
  {
    forall s, r, t | Prepared(s, preamble) && Assembles(s, r, t) ensures Prepared(t, preamble) {
      NextPrepared(s, preamble, r, t);
    }
    Invariant(texts, releases, Assembles, s => Prepared(s, preamble), 0, k);
  }

  lemma StepReads(texts: seq<string>, releases: seq<NewRelease>, preamble: string, i: nat)
    requires IsRun(texts, releases, Assembles) && Prepared(texts[0], preamble) && i < |releases|
    ensures ParseRelease(texts[i + 1], releases[i].version) == Some(PrintedBack(releases[i].fragments, 0))
  {
    RunPrepared(texts, releases, preamble, i);
    assert Follows(texts, releases, Assembles, i);
    ReadNext(texts[i], releases[i], texts[i + 1]);
  }

  /** Every release of a run still reads as its fragments' bullets when the run is over. */
  lemma RunReadsBack(texts: seq<string>, releases: seq<NewRelease>, preamble: string, i: nat, k: nat)
    requires IsRun(texts, releases, Assembles) && Prepared(texts[0], preamble) && i < k < |texts|
    ensures ParseRelease(texts[k], releases[i].version) == Some(PrintedBack(releases[i].fragments, 0))
  {
    StepReads(texts, releases, preamble, i);
    RunKeepsEachRelease(texts, releases, preamble, i, k);
  }
}
