/**
 Reading the entries of a release, category by category, and what is read from printed bullets
 (crates/changelog-release-notes/src/lib.rs and range.rs).
 */
module ReleaseEntries {
  import opened Common
  import opened Text
  import opened Headings
  import opened Release
  import opened ReleaseHistory

  // ----- reading a release -----

  /** A category heading and the text below it. */
  datatype Category = Category(heading: string, body: string)

  function StripBoom(value: string): string {
    if |value| >= 7 && value[|value| - 7..] == " :boom:" then value[..|value| - 7] else value
  }

  /** Where the body below the first heading ends. */
  function BodyEnd(hs: seq<Heading>, length: nat): nat
    requires hs != []
  {
    if |hs| > 1 then hs[1].start else length
  }

  lemma BodyBounds(hs: seq<Heading>, length: nat)
    requires InOrder(hs, 0, length) && hs != []
    ensures hs[0].end <= BodyEnd(hs, length) <= length && InOrder(hs[1..], 0, length)
  {
    InOrderEnd(hs[1..], hs[0].end, length);
    InOrderLower(hs[1..], hs[0].end, 0, length);
    if |hs| > 1 { InOrderEnd(hs[1..][1..], hs[1].end, length); }
  }

  /** The nonblank bodies between consecutive headings. */
  function Bodies(text: string, hs: seq<Heading>): seq<Category>
    requires InOrder(hs, 0, |text|)
    decreases |hs|
  {
    if hs == [] then []
    else
      BodyBounds(hs, |text|);
      var body := TrimNewlines(text[hs[0].end..BodyEnd(hs, |text|)]);
      if Blank(body) then Bodies(text, hs[1..])
      else [Category(StripBoom(hs[0].value), body)] + Bodies(text, hs[1..])
  }

  function CategorySections(text: string): seq<Category> {
    HeadingsInOrder(text, "### ");
    var hs := HeadingsOf(text, "### ");
    var first := if hs == [] then |text| else hs[0].start;
    if hs != [] then
      BodyBounds(hs, |text|);
      OtherPart(text[..first]) + Bodies(text, hs)
    else OtherPart(text)
  }

  function OtherPart(head: string): seq<Category> {
    if Blank(head) then [] else [Category("Other", TrimNewlines(head))]
  }

  /** The mark of breaking changes is taken off the end of a heading. */
  lemma StripBoomIs(value: string)
    ensures StripBoom(value + " :boom:") == value
    ensures StripBoom(value) == value || StripBoom(value) + " :boom:" == value
    ensures (forall v :: value != v + " :boom:") ==> StripBoom(value) == value
  {
    var n := |value|;
    assert (value + " :boom:")[n..] == " :boom:" && (value + " :boom:")[..n] == value;
    if n >= 7 && value[n - 7..] == " :boom:" { assert value == value[..n - 7] + " :boom:"; }
  }

  /** What stands below the heading number `i`. */
  function Below(text: string, hs: seq<Heading>, i: nat): string
    requires InOrder(hs, 0, |text|) && i < |hs|
  {
    BelowBounds(hs, |text|, i);
    text[hs[i].end..if i + 1 < |hs| then hs[i + 1].start else |text|]
  }

  lemma {:induction false} BelowBounds(hs: seq<Heading>, length: nat, i: nat)
    requires InOrder(hs, 0, length) && i < |hs|
    ensures hs[i].end <= (if i + 1 < |hs| then hs[i + 1].start else length) <= length
    decreases |hs|
  {
    BodyBounds(hs, length);
    if i > 0 { BelowBounds(hs[1..], length, i - 1); }
  }

  /** The categories of the first `k` headings: those with something below them. */
  function CategoriesUpTo(text: string, hs: seq<Heading>, k: nat): seq<Category>
    requires InOrder(hs, 0, |text|) && k <= |hs|
    decreases k
  {
    if k == 0 then []
    else CategoriesUpTo(text, hs, k - 1) + CategoryAt(text, hs, k - 1)
  }

  function CategoryAt(text: string, hs: seq<Heading>, i: nat): seq<Category>
    requires InOrder(hs, 0, |text|) && i < |hs|
  {
    if AllWhite(Below(text, hs, i)) then [] else [Category(StripBoom(hs[i].value), TrimNewlines(Below(text, hs, i)))]
  }

  lemma BodiesStep(text: string, hs: seq<Heading>, k: nat)
    requires InOrder(hs, 0, |text|) && k < |hs| && InOrder(hs[k..], 0, |text|)
    ensures InOrder(hs[k + 1..], 0, |text|)
    ensures Bodies(text, hs[k..]) == CategoryAt(text, hs, k) + Bodies(text, hs[k + 1..])
  {
    BodiesAt(text, hs, k);
    BlankTrimmed(Below(text, hs, k));
    assert BodyEnd(hs[k..], |text|) == if k + 1 < |hs| then hs[k + 1].start else |text|;
  }

  lemma BlankTrimmed(raw: string)
    ensures Blank(TrimNewlines(raw)) <==> AllWhite(raw)
  {
    var a, b := TrimNewlinesIs(raw);
    BlankIffAllWhite(TrimNewlines(raw));
    WhiteInside(a, TrimNewlines(raw), b);
  }

  lemma {:induction false} BodiesFrom(text: string, hs: seq<Heading>, k: nat)
    requires InOrder(hs, 0, |text|) && k <= |hs| && InOrder(hs[k..], 0, |text|)
    ensures CategoriesUpTo(text, hs, |hs|) == CategoriesUpTo(text, hs, k) + Bodies(text, hs[k..])
    decreases |hs| - k
  {
    if k < |hs| {
      BodiesStep(text, hs, k);
      BodiesFrom(text, hs, k + 1);
      ConcatAssociative(CategoriesUpTo(text, hs, k), CategoryAt(text, hs, k), Bodies(text, hs[k + 1..]));
    } else {
      assert hs[k..] == [];
    }
  }

  lemma OtherPartIs(head: string)
    ensures OtherPart(head) == if AllWhite(head) then [] else [Category("Other", TrimNewlines(head))]
  {
    BlankIffAllWhite(head);
  }

  /** With headings or without, the parts are the same. */
  lemma PartsAre(text: string, hs: seq<Heading>, first: nat, other: seq<Category>, all: seq<Category>)
    requires InOrder(hs, 0, |text|) && first <= |text|
    requires hs == [] ==> first == |text| && all == OtherPart(text)
    requires hs != [] ==> all == OtherPart(text[..first]) + Bodies(text, hs)
    requires other == OtherPart(text[..first])
    ensures all == other + CategoriesUpTo(text, hs, |hs|)
  {
    if hs == [] {
      assert text[..first] == text;
      assert other + [] == other;
    } else {
      assert hs[0..] == hs;
      BodiesFrom(text, hs, 0);
      assert CategoriesUpTo(text, hs, 0) + Bodies(text, hs) == Bodies(text, hs);
    }
  }

  /**
   The categories of a text: what precedes the first heading, if it is not blank, and then what stands
   below each heading, in order, if it is not blank.
   */
  lemma CategoriesAre(text: string) returns (hs: seq<Heading>, first: nat)
    ensures hs == HeadingsOf(text, "### ") && InOrder(hs, 0, |text|)
    ensures first == (if hs == [] then |text| else hs[0].start) && first <= |text|
    ensures CategorySections(text) ==
            (if AllWhite(text[..first]) then [] else [Category("Other", TrimNewlines(text[..first]))])
            + CategoriesUpTo(text, hs, |hs|)
  {
    hs := HeadingsOf(text, "### ");
    HeadingsInOrder(text, "### ");
    first := if hs == [] then |text| else hs[0].start;
    if hs != [] { BodyBounds(hs, |text|); }
    OtherPartIs(text[..first]);
    PartsAre(text, hs, first, OtherPart(text[..first]), CategorySections(text));
  }

  /** `category_sections`. */
  method SplitCategories(text: string) returns (result: seq<Category>)
    ensures result == CategorySections(text)
  {
    var hs := FindHeadings(text, "### ");
    HeadingsInOrder(text, "### ");
    if hs == [] { return OtherPart(text); }
    BodyBounds(hs, |text|);
    var bodies := CollectBodies(text, hs);
    result := OtherPart(text[..hs[0].start]) + bodies;
  }

  lemma BodiesAt(text: string, hs: seq<Heading>, i: nat)
    requires i < |hs| && InOrder(hs[i..], 0, |text|)
    ensures InOrder(hs[i + 1..], 0, |text|) && hs[i].end <= BodyEnd(hs[i..], |text|) <= |text|
    ensures var body := TrimNewlines(text[hs[i].end..BodyEnd(hs[i..], |text|)]);
            Bodies(text, hs[i..]) ==
            if Blank(body) then Bodies(text, hs[i + 1..])
            else [Category(StripBoom(hs[i].value), body)] + Bodies(text, hs[i + 1..])
  {
    BodyBounds(hs[i..], |text|);
    assert hs[i..][1..] == hs[i + 1..];
  }

  /** The loop over the headings. */
  method CollectBodies(text: string, hs: seq<Heading>) returns (result: seq<Category>)
    requires InOrder(hs, 0, |text|)
    ensures result == Bodies(text, hs)
  {
    result := [];
    var i := 0;
    assert hs[0..] == hs;
    ghost var all := Bodies(text, hs);
    while i < |hs|
      invariant 0 <= i <= |hs|
      invariant InOrder(hs[i..], 0, |text|)
      invariant all == result + Bodies(text, hs[i..])
    {
      BodiesAt(text, hs, i);
      var body := TrimNewlines(text[hs[i].end..BodyEnd(hs[i..], |text|)]);
      if !Blank(body) {
        var category := Category(StripBoom(hs[i].value), body);
        ConcatAssociative(result, [category], Bodies(text, hs[i + 1..]));
        result := result + [category];
      }
      i := i + 1;
    }
  }

  predicate TogglesFence(line: string) {
    StartsWith(TrimStart(line), "```") || StartsWith(TrimStart(line), "~~~")
  }

  predicate IsReleaseLine(line: string) { StartsWith(line, "## [") || line == "## Unreleased" }

  predicate StartsEntry(line: string) {
    StartsWith(line, "* ") || StartsWith(line, "- ") || IsReleaseLine(line)
  }

  function DropBlankEnd(ls: seq<string>): seq<string>
    decreases |ls|
  {
    if ls != [] && Blank(ls[|ls| - 1]) then DropBlankEnd(ls[..|ls| - 1]) else ls
  }

  /** The entry collected so far, unless it is blank. */
  function Flush(current: seq<string>): seq<seq<string>> {
    var entry := DropBlankEnd(current);
    if entry == [] then [] else [entry]
  }

  function EntriesFrom(lines: seq<string>, current: seq<string>, fence: bool): seq<seq<string>>
    decreases |lines|
  {
    if lines == [] then Flush(current)
    else
      var line := lines[0];
      var inside := if TogglesFence(line) then !fence else fence;
      if !inside && StartsEntry(line) then
        Flush(current) + EntriesFrom(lines[1..], if IsReleaseLine(line) then [] else [line], inside)
      else EntriesFrom(lines[1..], current + [line], inside)
  }

  function MarkdownEntries(body: string): seq<seq<string>> { EntriesFrom(Lines(body), [], false) }

  lemma EntriesAt(lines: seq<string>, i: nat, current: seq<string>, fence: bool)
    requires i < |lines|
    ensures var line, rest := lines[i], lines[i + 1..];
            var inside := if TogglesFence(line) then !fence else fence;
            EntriesFrom(lines[i..], current, fence) ==
            if !inside && StartsEntry(line) then
              Flush(current) + EntriesFrom(rest, if IsReleaseLine(line) then [] else [line], inside)
            else EntriesFrom(rest, current + [line], inside)
  {
    assert lines[i..][0] == lines[i] && lines[i..][1..] == lines[i + 1..];
  }

  function Visible(lines: seq<string>): seq<string>
    decreases |lines|
  {
    if lines == [] then []
    else if Blank(lines[0]) then Visible(lines[1..])
    else [lines[0]] + Visible(lines[1..])
  }

  function AllLines(entries: seq<seq<string>>): seq<string>
    decreases |entries|
  {
    if entries == [] then [] else entries[0] + AllLines(entries[1..])
  }

  /** The lines that are not blank and not a release heading outside fences. */
  function Kept(lines: seq<string>, fence: bool): seq<string>
    decreases |lines|
  {
    if lines == [] then []
    else
      var line := lines[0];
      var inside := if TogglesFence(line) then !fence else fence;
      if Blank(line) || (!inside && IsReleaseLine(line)) then Kept(lines[1..], inside)
      else [line] + Kept(lines[1..], inside)
  }

  lemma {:induction false} VisibleConcat(a: seq<string>, b: seq<string>)
    ensures Visible(a + b) == Visible(a) + Visible(b)
    decreases |a|
  {
    if a == [] {
      assert a + b == b;
    } else {
      assert (a + b)[1..] == a[1..] + b;
      VisibleConcat(a[1..], b);
    }
  }

  lemma VisibleOne(line: string)
    ensures Visible([line]) == if Blank(line) then [] else [line]
  {
    assert [line][1..] == [];
  }

  lemma {:induction false} DropBlankVisible(ls: seq<string>)
    ensures Visible(DropBlankEnd(ls)) == Visible(ls)
    decreases |ls|
  {
    if ls != [] && Blank(ls[|ls| - 1]) {
      var n := |ls| - 1;
      assert ls == ls[..n] + [ls[n]];
      DropBlankVisible(ls[..n]);
      VisibleConcat(ls[..n], [ls[n]]);
      VisibleOne(ls[n]);
    }
  }

  lemma FlushVisible(current: seq<string>, rest: seq<seq<string>>)
    ensures Visible(AllLines(Flush(current) + rest)) == Visible(current) + Visible(AllLines(rest))
  {
    var entry := DropBlankEnd(current);
    DropBlankVisible(current);
    if entry == [] {
      assert Flush(current) + rest == rest;
    } else {
      assert ([entry] + rest)[1..] == rest;
      VisibleConcat(entry, AllLines(rest));
    }
  }

  lemma KeptStep(line: string, rest: seq<string>, fence: bool)
    ensures var inside := if TogglesFence(line) then !fence else fence;
            Kept([line] + rest, fence) ==
            (if !inside && IsReleaseLine(line) then [] else Visible([line])) + Kept(rest, inside)
  {
    assert ([line] + rest)[1..] == rest;
    VisibleOne(line);
  }

  lemma EntriesStep(line: string, rest: seq<string>, current: seq<string>, fence: bool)
    ensures var inside := if TogglesFence(line) then !fence else fence;
            EntriesFrom([line] + rest, current, fence) ==
            if !inside && StartsEntry(line) then
              Flush(current) + EntriesFrom(rest, if IsReleaseLine(line) then [] else [line], inside)
            else EntriesFrom(rest, current + [line], inside)
  {
    assert ([line] + rest)[1..] == rest;
  }

  /** No line is lost: the entries hold every visible line, in order, but for release headings. */
  lemma {:induction false} EntriesKeepLines(lines: seq<string>, current: seq<string>, fence: bool)
    ensures Visible(AllLines(EntriesFrom(lines, current, fence))) == Visible(current) + Kept(lines, fence)
    decreases |lines|
  {
    if lines == [] {
      FlushVisible(current, []);
      assert Flush(current) + [] == Flush(current);
    } else {
      var line, rest := lines[0], lines[1..];
      var inside := if TogglesFence(line) then !fence else fence;
      assert lines == [line] + rest;
      KeptStep(line, rest, fence);
      EntriesStep(line, rest, current, fence);
      if !inside && StartsEntry(line) {
        var next := if IsReleaseLine(line) then [] else [line];
        EntriesKeepLines(rest, next, inside);
        FlushVisible(current, EntriesFrom(rest, next, inside));
      } else {
        EntriesKeepLines(rest, current + [line], inside);
        VisibleConcat(current, [line]);
        ConcatAssociative(Visible(current), Visible([line]), Kept(rest, inside));
      }
    }
  }

  // ----- where entries begin and end -----

  /** A line that begins with an asterisk or a dash and a blank. */
  predicate IsBulletLine(l: string) { |l| >= 2 && (l[0] == '*' || l[0] == '-') && l[1] == ' ' }

  /** A line that begins, after white, with three backticks or tildes. */
  ghost predicate IsFenceLine(l: string) {
    exists w, c, rest :: AllWhite(w) && IsMark(c) && l == w + Repeat(c, 3) + rest
  }

  lemma ThreeMarks(t: string)
    ensures (StartsWith(t, "```") || StartsWith(t, "~~~")) <==>
            |t| >= 3 && IsMark(t[0]) && t[1] == t[0] && t[2] == t[0]
  {
    assert StartsWith(t, "```") <==> |t| >= 3 && t[0] == '`' && t[1] == '`' && t[2] == '`';
    assert StartsWith(t, "~~~") <==> |t| >= 3 && t[0] == '~' && t[1] == '~' && t[2] == '~';
  }

  lemma FenceLineOf(w: string, c: char, rest: string)
    requires AllWhite(w) && IsMark(c)
    ensures TogglesFence(w + Repeat(c, 3) + rest)
  {
    var t := Repeat(c, 3) + rest;
    assert w + Repeat(c, 3) + rest == w + t;
    NotWhite(c);
    TrimStartWhite(w, t);
    ThreeMarks(t);
  }

  lemma TogglesIff(l: string)
    ensures TogglesFence(l) <==> IsFenceLine(l)
  {
    if TogglesFence(l) {
      var t := TrimStart(l);
      TrimStartSuffix(l);
      ThreeMarks(t);
      assert t == Repeat(t[0], 3) + t[3..];
      assert l == l[..|l| - |t|] + Repeat(t[0], 3) + t[3..];
    }
    if IsFenceLine(l) {
      var w, c, rest :| AllWhite(w) && IsMark(c) && l == w + Repeat(c, 3) + rest;
      FenceLineOf(w, c, rest);
    }
  }

  lemma StartsIff(l: string)
    ensures StartsEntry(l) <==> IsBulletLine(l) || IsReleaseLine(l)
    ensures IsBulletLine(l) ==> !TogglesFence(l) && !IsReleaseLine(l)
  {
    assert StartsWith(l, "* ") <==> |l| >= 2 && l[0] == '*' && l[1] == ' ';
    assert StartsWith(l, "- ") <==> |l| >= 2 && l[0] == '-' && l[1] == ' ';
  }

  /** Inside a fence after these lines: each fence line opens or closes one. */
  function InFence(lines: seq<string>, fence: bool): bool
    decreases |lines|
  {
    if lines == [] then fence
    else
      var n := |lines| - 1;
      if TogglesFence(lines[n]) then !InFence(lines[..n], fence) else InFence(lines[..n], fence)
  }

  lemma {:induction false} InFenceCons(line: string, rest: seq<string>, fence: bool)
    ensures InFence([line] + rest, fence) == InFence(rest, if TogglesFence(line) then !fence else fence)
    decreases |rest|
  {
    if rest == [] {
      assert [line] + rest == [line] && [line][..0] == [];
    } else {
      var n := |rest| - 1;
      assert ([line] + rest)[..n + 1] == [line] + rest[..n];
      InFenceCons(line, rest[..n], fence);
    }
  }

  /** The lines of the entry that is being collected, after one more line. */
  function NextCurrent(line: string, current: seq<string>, inside: bool): seq<string> {
    if inside || !StartsEntry(line) then current + [line] else if IsReleaseLine(line) then [] else [line]
  }

  /** What one more line completes. */
  function Completed(line: string, current: seq<string>, inside: bool): seq<seq<string>> {
    if inside || !StartsEntry(line) then [] else Flush(current)
  }

  function CurrentAfter(a: seq<string>, current: seq<string>, fence: bool): seq<string>
    decreases |a|
  {
    if a == [] then current
    else
      var inside := if TogglesFence(a[0]) then !fence else fence;
      CurrentAfter(a[1..], NextCurrent(a[0], current, inside), inside)
  }

  function CompletedBy(a: seq<string>, current: seq<string>, fence: bool): seq<seq<string>>
    decreases |a|
  {
    if a == [] then []
    else
      var inside := if TogglesFence(a[0]) then !fence else fence;
      Completed(a[0], current, inside) + CompletedBy(a[1..], NextCurrent(a[0], current, inside), inside)
  }

  lemma OneLineOn(line: string, rest: seq<string>, current: seq<string>, fence: bool)
    ensures var inside := if TogglesFence(line) then !fence else fence;
            EntriesFrom([line] + rest, current, fence)
            == Completed(line, current, inside) + EntriesFrom(rest, NextCurrent(line, current, inside), inside)
  {
    EntriesStep(line, rest, current, fence);
  }

  /** Reading may stop after any line and go on with what is collected. */
  lemma {:induction false} EntriesConcat(a: seq<string>, b: seq<string>, current: seq<string>, fence: bool)
    ensures EntriesFrom(a + b, current, fence)
            == CompletedBy(a, current, fence) + EntriesFrom(b, CurrentAfter(a, current, fence), InFence(a, fence))
    decreases |a|
  {
    if a == [] {
      assert a + b == b;
    } else {
      var line, rest := a[0], a[1..];
      var inside := if TogglesFence(line) then !fence else fence;
      var next := NextCurrent(line, current, inside);
      assert a == [line] + rest && a + b == [line] + (rest + b);
      InFenceCons(line, rest, fence);
      OneLineOn(line, rest + b, current, fence);
      EntriesConcat(rest, b, next, inside);
      ConcatAssociative(Completed(line, current, inside), CompletedBy(rest, next, inside),
                        EntriesFrom(b, CurrentAfter(rest, next, inside), InFence(rest, inside)));
    }
  }

  lemma EntriesEnd(a: seq<string>, current: seq<string>, fence: bool)
    ensures EntriesFrom(a, current, fence) == CompletedBy(a, current, fence) + Flush(CurrentAfter(a, current, fence))
  {
    EntriesConcat(a, [], current, fence);
    assert a + [] == a;
  }

  lemma BulletStep(l: string, b: seq<string>, collected: seq<string>, inside: bool)
    requires IsBulletLine(l) && !inside
    ensures EntriesFrom([l] + b, collected, inside) == Flush(collected) + EntriesFrom(b, [l], inside)
  {
    StartsIff(l);
    EntriesStep(l, b, collected, inside);
  }

  lemma BulletFirst(l: string, b: seq<string>, nothing: seq<string>, inside: bool)
    requires IsBulletLine(l) && !inside && nothing == []
    ensures EntriesFrom([l] + b, nothing, inside) == EntriesFrom(b, [l], inside)
  {
    BulletStep(l, b, nothing, inside);
    assert Flush(nothing) == [];
  }

  /** A bullet outside fences begins a new entry. */
  lemma BulletBegins(a: seq<string>, l: string, b: seq<string>, current: seq<string>, fence: bool)
    requires IsBulletLine(l) && !InFence(a, fence)
    ensures EntriesFrom(a + ([l] + b), current, fence)
            == EntriesFrom(a, current, fence) + EntriesFrom([l] + b, [], false)
  {
    var inside, nothing := InFence(a, fence), [];
    var collected := CurrentAfter(a, current, fence);
    EntriesConcat(a, [l] + b, current, fence);
    EntriesEnd(a, current, fence);
    BulletStep(l, b, collected, inside);
    BulletFirst(l, b, nothing, inside);
    ConcatAssociative(CompletedBy(a, current, fence), Flush(collected), EntriesFrom(b, [l], inside));
  }

  /** A release heading outside fences ends the entry and is left out. */
  lemma ReleaseEnds(a: seq<string>, l: string, b: seq<string>, current: seq<string>, fence: bool)
    requires (StartsWith(l, "## [") || l == "## Unreleased") && !InFence(a, fence)
    ensures EntriesFrom(a + ([l] + b), current, fence) == EntriesFrom(a, current, fence) + EntriesFrom(b, [], false)
  {
    var collected := CurrentAfter(a, current, fence);
    assert l[0] == '#' && !TogglesFence(l);
    EntriesConcat(a, [l] + b, current, fence);
    EntriesEnd(a, current, fence);
    EntriesStep(l, b, collected, false);
    ConcatAssociative(CompletedBy(a, current, fence), Flush(collected), EntriesFrom(b, [], false));
  }

  /** Neither a bullet nor a release heading, or inside a fence. */
  ghost predicate GoesOn(lines: seq<string>, fence: bool, i: nat) {
    i < |lines| &&
    (InFence(lines[..i + 1], fence) ||
     !(IsBulletLine(lines[i]) || StartsWith(lines[i], "## [") || lines[i] == "## Unreleased"))
  }

  /** Every other line goes on with the entry. */
  lemma {:induction false} EntryGoesOn(lines: seq<string>, current: seq<string>, fence: bool)
    requires forall i :: 0 <= i < |lines| ==> GoesOn(lines, fence, i)
    ensures EntriesFrom(lines, current, fence) == Flush(current + lines)
    decreases |lines|
  {
    if lines == [] {
      assert current + lines == current;
    } else {
      var line, rest := lines[0], lines[1..];
      var inside := if TogglesFence(line) then !fence else fence;
      assert lines == [line] + rest && GoesOn(lines, fence, 0) && lines[..1] == [line];
      InFenceCons(line, [], fence);
      assert [line] + [] == [line];
      StartsIff(line);
      EntriesStep(line, rest, current, fence);
      forall i | 0 <= i < |rest| ensures GoesOn(rest, inside, i) {
        assert GoesOn(lines, fence, i + 1) && lines[..i + 2] == [line] + rest[..i + 1];
        InFenceCons(line, rest[..i + 1], fence);
      }
      EntryGoesOn(rest, current + [line], inside);
      assert current + [line] + rest == current + lines;
    }
  }

  /** An entry ends with its last line that is not blank; without one there is no entry. */
  lemma {:induction false} FlushIs(current: seq<string>)
    ensures (forall l :: l in current ==> AllWhite(l)) ==> Flush(current) == []
    ensures (exists l :: l in current && !AllWhite(l)) ==>
              |Flush(current)| == 1 && var e := Flush(current)[0];
              && e != [] && !AllWhite(e[|e| - 1]) && e <= current && forall l :: l in current[|e|..] ==> AllWhite(l)
    decreases |current|
  {
    if current != [] {
      var n := |current| - 1;
      BlankIffAllWhite(current[n]);
      assert current == current[..n] + [current[n]];
      if Blank(current[n]) {
        FlushIs(current[..n]);
        if Flush(current[..n]) != [] {
          var e := Flush(current[..n])[0];
          assert current[|e|..] == current[..n][|e|..] + [current[n]];
        }
      }
    }
  }

  /** `markdown_entries`: the loop that updates `current` and `fence`. */
  method ReadEntries(body: string) returns (entries: seq<seq<string>>)
    ensures entries == MarkdownEntries(body)
  {
    entries := CollectEntries(Lines(body));
  }

  method CollectEntries(lines: seq<string>) returns (entries: seq<seq<string>>)
    ensures entries == EntriesFrom(lines, [], false)
  {
    entries := [];
    var current: seq<string> := [];
    var fence := false;
    var i := 0;
    assert lines[0..] == lines;
    ghost var all := EntriesFrom(lines, [], false);
    while i < |lines|
      invariant 0 <= i <= |lines|
      invariant all == entries + EntriesFrom(lines[i..], current, fence)
    {
      var line := lines[i];
      EntriesAt(lines, i, current, fence);
      if TogglesFence(line) { fence := !fence; }
      if !fence && StartsEntry(line) {
        var next := if IsReleaseLine(line) then [] else [line];
        ConcatAssociative(entries, Flush(current), EntriesFrom(lines[i + 1..], next, fence));
        entries := entries + Flush(current);
        current := next;
      } else {
        current := current + [line];
      }
      i := i + 1;
    }
    entries := entries + Flush(current);
  }

  /** A category heading with its entries. */
  datatype Parsed = Parsed(heading: string, entries: seq<seq<string>>)

  function ParseAll(cs: seq<Category>): seq<Parsed>
    decreases |cs|
  {
    if cs == [] then [] else [Parsed(cs[0].heading, MarkdownEntries(cs[0].body))] + ParseAll(cs[1..])
  }

  function ParseRelease(text: string, version: string): Option<seq<Parsed>> {
    match ReleaseSection(text, version)
    case None => None
    case Some(section) => Some(ParseAll(CategorySections(section)))
  }

  // ----- what should be read back -----

  function Dashed(lines: seq<string>): seq<string> {
    seq(|lines|, i requires 0 <= i < |lines| => "- " + lines[i])
  }

  /** One bullet for each line of a fragment that is not blank. */
  function BulletsOf(body: string): seq<string> { Dashed(Visible(Lines(body))) }

  lemma {:induction false} BulletsAre(lines: seq<string>)
    ensures Bullets(lines) == Dashed(Visible(lines))
    decreases |lines|
  {
    if lines != [] {
      BulletsAre(lines[1..]);
      if !Blank(lines[0]) { assert Visible(lines)[1..] == Visible(lines[1..]); }
    }
  }

  /** `fragment_entries` prints exactly those. */
  lemma FragmentBulletsIs(body: string)
    ensures FragmentBullets(body) == BulletsOf(body)
  {
    BulletsAre(Lines(body));
  }

  lemma {:induction false} VisibleHas(lines: seq<string>, l: string)
    ensures l in Visible(lines) <==> l in lines && !Blank(l)
    decreases |lines|
  {
    if lines != [] {
      VisibleHas(lines[1..], l);
      assert lines == [lines[0]] + lines[1..];
    }
  }

  function AllBullets(fs: seq<Fragment>): seq<string>
    decreases |fs|
  {
    if fs == [] then [] else BulletsOf(fs[0].body) + AllBullets(fs[1..])
  }

  function Singles(bs: seq<string>): seq<seq<string>>
    decreases |bs|
  {
    if bs == [] then [] else [[bs[0]]] + Singles(bs[1..])
  }

  // ----- entries of one category -----

  /** The lines a category's entries are printed as: its bullets, and an empty line per fragment. */
  function Items(fs: seq<Fragment>): seq<string>
    decreases |fs|
  {
    if fs == [] then [] else FragmentBullets(fs[0].body) + [""] + Items(fs[1..])
  }

  predicate IsItem(l: string) { l == [] || IsBullet(l) }

  function NonEmpty(items: seq<string>): seq<string>
    decreases |items|
  {
    if items == [] then []
    else if items[0] == [] then NonEmpty(items[1..])
    else [items[0]] + NonEmpty(items[1..])
  }

  lemma {:induction false} FeedsConcat(a: seq<string>, b: seq<string>)
    ensures WithLineFeeds(a + b) == WithLineFeeds(a) + WithLineFeeds(b)
    decreases |a|
  {
    if a == [] {
      assert a + b == b;
    } else {
      assert (a + b)[1..] == a[1..] + b;
      FeedsConcat(a[1..], b);
    }
  }

  lemma {:induction false} NonEmptyConcat(a: seq<string>, b: seq<string>)
    ensures NonEmpty(a + b) == NonEmpty(a) + NonEmpty(b)
    decreases |a|
  {
    if a == [] {
      assert a + b == b;
    } else {
      assert (a + b)[1..] == a[1..] + b;
      NonEmptyConcat(a[1..], b);
    }
  }

  lemma {:induction false} NonEmptyBullets(bs: seq<string>)
    requires forall b :: b in bs ==> IsBullet(b)
    ensures NonEmpty(bs) == bs
    decreases |bs|
  {
    if bs != [] {
      assert bs[0] in bs;
      NonEmptyBullets(bs[1..]);
    }
  }

  /** One fragment in front of the items of the others. */
  lemma OneMoreFragment(bs: seq<string>, rest: seq<string>)
    requires (forall b :: b in bs ==> IsBullet(b)) && (forall l :: l in rest ==> IsItem(l))
    ensures WithLineFeeds(bs + [""] + rest) == WithLineFeeds(bs) + "\n" + WithLineFeeds(rest)
    ensures NonEmpty(bs + [""] + rest) == bs + NonEmpty(rest)
    ensures forall l :: l in bs + [""] + rest ==> IsItem(l)
  {
    assert bs + [""] + rest == bs + ([""] + rest);
    assert ([""] + rest)[1..] == rest;
    FeedsConcat(bs, [""] + rest);
    NonEmptyConcat(bs, [""] + rest);
    NonEmptyBullets(bs);
  }

  lemma {:induction false} ItemsAre(fs: seq<Fragment>)
    ensures EntriesText(fs) == WithLineFeeds(Items(fs))
    ensures NonEmpty(Items(fs)) == AllBullets(fs)
    ensures forall l :: l in Items(fs) ==> IsItem(l)
    decreases |fs|
  {
    if fs != [] {
      ItemsAre(fs[1..]);
      FragmentBulletsAre(fs[0].body);
      FragmentBulletsIs(fs[0].body);
      OneMoreFragment(FragmentBullets(fs[0].body), Items(fs[1..]));
    }
  }

  lemma BlankLast(current: seq<string>)
    ensures Flush(current + [""]) == Flush(current)
  {
    assert (current + [""])[..|current|] == current;
  }

  lemma BulletEntry(b: string)
    requires IsBullet(b)
    ensures Flush([b]) == [[b]] && !TogglesFence(b) && StartsEntry(b) && !IsReleaseLine(b)
  {
    BlankIffAllWhite(b);
    BlankIffAllWhite(b[2..]);
    assert forall c :: c in b[2..] ==> c in b;
    assert b[0] == '-';
  }

  /** Bullets become entries of one line and empty lines disappear. */
  lemma {:induction false} EntriesOfItems(items: seq<string>, current: seq<string>)
    requires forall l :: l in items ==> IsItem(l)
    ensures EntriesFrom(items, current, false) == Flush(current) + Singles(NonEmpty(items))
    decreases |items|
  {
    if items != [] {
      var line, rest := items[0], items[1..];
      assert line in items;
      if line == [] {
        EntriesOfItems(rest, current + [line]);
        BlankLast(current);
      } else {
        BulletEntry(line);
        EntriesOfItems(rest, [line]);
        assert NonEmpty(items)[1..] == NonEmpty(rest);
      }
    }
  }

  // ----- the body of a category, trimmed -----

  /** What splitting leaves of a printed line: a carriage return before the line feed is lost. */
  function Stripped(l: string): string { BareLine(l + "\n") }

  function AllStripped(ls: seq<string>): seq<string>
    decreases |ls|
  {
    if ls == [] then [] else [Stripped(ls[0])] + AllStripped(ls[1..])
  }

  /** Trimming the body takes every carriage return from the end of its last bullet. */
  function ReadBack(bs: seq<string>): seq<string> {
    if bs == [] then [] else AllStripped(bs[..|bs| - 1]) + [DropNewlinesEnd(bs[|bs| - 1])]
  }

  lemma {:induction false} DropEndPrefix(s: string, p: string)
    requires p <= s && p != [] && !IsNewline(p[|p| - 1])
    ensures p <= DropNewlinesEnd(s)
    ensures '\n' !in s ==> '\n' !in DropNewlinesEnd(s)
    decreases |s|
  {
    if IsNewline(s[|s| - 1]) { DropEndPrefix(s[..|s| - 1], p); }
  }

  lemma VisibleAt(s: string) returns (i: nat)
    requires !Blank(s)
    ensures i < |s| && !IsWhite(s[i])
  {
    BlankIffAllWhite(s);
    i :| 0 <= i < |s| && !IsWhite(s[i]);
  }

  lemma BulletByPrefix(s: string, p: string)
    requires p <= s && '\n' !in s && |p| > 2 && p[..2] == "- " && !IsWhite(p[|p| - 1])
    ensures IsBullet(s)
  {
    var n := |p| - 1;
    BlankIffAllWhite(s[2..]);
    assert s[2..][n - 2] == p[n];
    assert s[..2] == "- ";
  }

  /** A bullet is still one when carriage returns are taken from its end. */
  lemma BulletStays(b: string)
    requires IsBullet(b)
    ensures IsBullet(Stripped(b)) && IsBullet(DropNewlinesEnd(b))
  {
    var i := VisibleAt(b[2..]);
    var p := b[..i + 3];
    assert p[..2] == b[..2] == "- ";
    assert p[|p| - 1] == b[2..][i];
    DropEndPrefix(b, p);
    BulletByPrefix(DropNewlinesEnd(b), p);
    var line := b + "\n";
    assert line[..|line| - 1] == b && line[..|line| - 2] == b[..|b| - 1];
    assert p <= Stripped(b) && '\n' !in Stripped(b);
    BulletByPrefix(Stripped(b), p);
  }

  lemma {:induction false} StrippedItems(items: seq<string>)
    requires forall l :: l in items ==> IsItem(l)
    ensures forall l :: l in AllStripped(items) ==> IsItem(l)
    ensures NonEmpty(AllStripped(items)) == AllStripped(NonEmpty(items))
    decreases |items|
  {
    if items != [] {
      var l, rest := items[0], items[1..];
      assert l in items;
      StrippedItems(rest);
      assert AllStripped(items)[1..] == AllStripped(rest);
      if l == [] {
        assert Stripped(l) == [];
      } else {
        BulletStays(l);
        assert NonEmpty(items)[1..] == NonEmpty(rest);
      }
    }
  }

  lemma {:induction false} DropLeading(items: seq<string>) returns (rest: seq<string>)
    requires (forall l :: l in items ==> IsItem(l)) && NonEmpty(items) != []
    ensures DropNewlines(WithLineFeeds(items)) == WithLineFeeds(rest) && NonEmpty(rest) == NonEmpty(items)
    ensures forall l :: l in rest ==> IsItem(l)
    decreases |items|
  {
    if items[0] == [] {
      rest := DropLeading(items[1..]);
      assert WithLineFeeds(items)[1..] == WithLineFeeds(items[1..]);
    } else {
      assert items[0] in items;
      assert WithLineFeeds(items)[0] == '-';
      rest := items;
    }
  }

  lemma {:induction false} DropEndConcat(a: string, b: string)
    requires DropNewlinesEnd(b) != []
    ensures DropNewlinesEnd(a + b) == a + DropNewlinesEnd(b)
    decreases |b|
  {
    if IsNewline(b[|b| - 1]) {
      assert (a + b)[..|a + b| - 1] == a + b[..|b| - 1];
      DropEndConcat(a, b[..|b| - 1]);
    }
  }

  lemma {:induction false} DropTrailing(items: seq<string>) returns (init: seq<string>, last: string)
    requires (forall l :: l in items ==> IsItem(l)) && NonEmpty(items) != []
    ensures (forall l :: l in init ==> IsItem(l)) && IsBullet(last)
    ensures DropNewlinesEnd(WithLineFeeds(items)) == WithLineFeeds(init) + DropNewlinesEnd(last)
    ensures NonEmpty(items) == NonEmpty(init) + [last]
    decreases |items|
  {
    var n := |items| - 1;
    init, last := items[..n], items[n];
    var text := WithLineFeeds(init);
    assert items == init + [last] && [last][1..] == [];
    FeedsConcat(init, [last]);
    NonEmptyConcat(init, [last]);
    assert last in items;
    if last == [] {
      assert text + "\n" == WithLineFeeds(items);
      assert (text + "\n")[..|text|] == text;
      init, last := DropTrailing(init);
    } else {
      LastLine(text, last);
    }
  }

  lemma LastLine(text: string, last: string)
    requires IsBullet(last)
    ensures DropNewlinesEnd(text + (last + "\n" + [])) == text + DropNewlinesEnd(last)
  {
    var s := text + last + "\n";
    assert s == text + (last + "\n" + []) && s[..|s| - 1] == text + last;
    BulletStays(last);
    DropEndConcat(text, last);
  }

  lemma NoLineFeed(last: string)
    requires '\n' !in last && last != []
    ensures Lines(last) == [last]
  {
    LineLengthIsLine(last);
    assert last[..|last|] == last && last[|last|..] == [];
    assert SplitLines(last) == [last];
    assert last[|last| - 1] in last;
    assert BareLines([last][1..]) == [];
  }

  lemma LineAhead(l: string, rest: string)
    requires '\n' !in l
    ensures Lines(l + "\n" + rest) == [Stripped(l)] + Lines(rest)
  {
    var line := l + "\n";
    assert line[..|line| - 1] == l;
    SplitCons(line, rest);
    assert ([line] + SplitLines(rest))[1..] == SplitLines(rest);
  }

  lemma {:induction false} LinesOfItems(init: seq<string>, last: string)
    requires (forall l :: l in init ==> IsItem(l)) && IsBullet(last)
    ensures Lines(WithLineFeeds(init) + last) == AllStripped(init) + [last]
    decreases |init|
  {
    if init == [] {
      NoLineFeed(last);
      assert WithLineFeeds(init) + last == last;
    } else {
      var rest := WithLineFeeds(init[1..]) + last;
      assert init[0] in init;
      assert WithLineFeeds(init) + last == init[0] + "\n" + rest;
      LineAhead(init[0], rest);
      LinesOfItems(init[1..], last);
    }
  }

  /** What is read back from the body of one category. */
  lemma CategoryEntries(items: seq<string>)
    requires (forall l :: l in items ==> IsItem(l)) && NonEmpty(items) != []
    ensures MarkdownEntries(TrimNewlines(WithLineFeeds(items))) == Singles(ReadBack(NonEmpty(items)))
  {
    var rest := DropLeading(items);
    var init, last := DropTrailing(rest);
    var lines, end := AllStripped(init), DropNewlinesEnd(last);
    BulletStays(last);
    LinesOfItems(init, end);
    StrippedItems(init);
    EntriesOfItems(lines + [end], []);
    NonEmptyConcat(lines, [end]);
    NonEmptyBullets([end]);
    assert NonEmpty(items)[..|NonEmpty(items)| - 1] == NonEmpty(init);
  }

  // ----- categories one after the other -----

  /** A printed category: its heading line and the lines below. */
  datatype Block = Block(category: nat, items: seq<string>)

  predicate GoodBlock(b: Block) { b.category < |CATEGORIES| && forall l :: l in b.items ==> IsItem(l) }

  function BlockText(b: Block): string
    requires b.category < |CATEGORIES|
  {
    CategoryLine(b.category) + WithLineFeeds(b.items)
  }

  function BlocksText(bs: seq<Block>): string
    requires forall b :: b in bs ==> GoodBlock(b)
    decreases |bs|
  {
    if bs == [] then [] else assert GoodBlock(bs[0]); BlockText(bs[0]) + BlocksText(bs[1..])
  }

  /** What should be read back from one block. */
  function BlockParsed(b: Block): seq<Parsed>
    requires GoodBlock(b)
  {
    if NonEmpty(b.items) == [] then [] else [Parsed(CATEGORIES[b.category], Singles(ReadBack(NonEmpty(b.items))))]
  }

  function BlocksParsed(bs: seq<Block>): seq<Parsed>
    requires forall b :: b in bs ==> GoodBlock(b)
    decreases |bs|
  {
    if bs == [] then [] else assert GoodBlock(bs[0]); BlockParsed(bs[0]) + BlocksParsed(bs[1..])
  }

  lemma {:induction false} ItemsQuiet(items: seq<string>, prefix: string)
    requires (forall l :: l in items ==> IsItem(l)) && prefix != [] && prefix[0] == '#'
    ensures Terminated(WithLineFeeds(items)) && AllQuiet(WithLineFeeds(items), prefix)
    decreases |items|
  {
    if items != [] {
      var line := items[0] + "\n";
      assert items[0] in items;
      if items[0] == [] {
        assert line == "\n";
        EmptyLineQuiet(prefix);
      } else {
        BulletQuiet(items[0], prefix);
        OneLine(line, prefix);
      }
      ItemsQuiet(items[1..], prefix);
      QuietConcat(line, WithLineFeeds(items[1..]), prefix);
    }
  }

  function BlockHeading(b: Block): Heading
    requires b.category < |CATEGORIES|
  {
    Heading(0, |CategoryLine(b.category)|, CATEGORIES[b.category])
  }

  lemma QuietHeadings(s: string, prefix: string)
    requires Terminated(s) && AllQuiet(s, prefix)
    ensures HeadingsOf(s, prefix) == [] && Settled(s)
  {
    QuietScan(SplitLines(s), prefix, 0);
  }

  lemma CategoryHeading(category: nat)
    requires category < |CATEGORIES|
    ensures var line := CategoryLine(category);
            Settled(line) && HeadingsOf(line, "### ") == [Heading(0, |line|, CATEGORIES[category])]
  {
    CategoryLineIs(category);
    CategoryName(category);
    TrimLine(CATEGORIES[category]);
    OneHeading(CategoryLine(category), "### ");
  }

  lemma OneBlock(b: Block)
    requires GoodBlock(b)
    ensures Settled(BlockText(b)) && HeadingsOf(BlockText(b), "### ") == [BlockHeading(b)]
  {
    var line, body := CategoryLine(b.category), WithLineFeeds(b.items);
    CategoryHeading(b.category);
    ItemsQuiet(b.items, "### ");
    QuietHeadings(body, "### ");
    HeadingsConcat(line, body, "### ");
    SettledConcat(line, body);
  }

  lemma {:induction false} ShiftInOrder(hs: seq<Heading>, low: nat, high: nat, d: nat)
    requires InOrder(hs, low, high)
    ensures InOrder(Shift(hs, d), low + d, high + d) && |Shift(hs, d)| == |hs|
    ensures forall i :: 0 <= i < |hs| ==> Shift(hs, d)[i] == ShiftOne(hs[i], d)
    decreases |hs|
  {
    if hs != [] {
      ShiftInOrder(hs[1..], hs[0].end, high, d);
      assert Shift(hs, d)[1..] == Shift(hs[1..], d);
    }
  }

  lemma {:induction false} BodiesShift(x: string, y: string, hs: seq<Heading>)
    requires InOrder(hs, 0, |y|) && InOrder(Shift(hs, |x|), 0, |x + y|)
    ensures Bodies(x + y, Shift(hs, |x|)) == Bodies(y, hs)
    decreases |hs|
  {
    if hs != [] {
      var d, moved := |x|, Shift(hs, |x|);
      ShiftInOrder(hs, 0, |y|, d);
      BodyBounds(hs, |y|);
      BodyBounds(moved, |x + y|);
      assert moved[1..] == Shift(hs[1..], d);
      assert BodyEnd(moved, |x + y|) == BodyEnd(hs, |y|) + d;
      assert (x + y)[moved[0].end..BodyEnd(moved, |x + y|)] == y[hs[0].end..BodyEnd(hs, |y|)];
      BodiesShift(x, y, hs[1..]);
    }
  }

  /** A category before a text that is empty or starts with a category. */
  lemma BodiesAhead(x: string, y: string, h: Heading, hs: seq<Heading>)
    requires h.start == 0 && h.end <= |x| && InOrder(hs, 0, |y|) && InOrder([h] + Shift(hs, |x|), 0, |x + y|)
    requires if hs == [] then y == [] else hs[0].start == 0
    ensures var body := TrimNewlines(x[h.end..]);
            Bodies(x + y, [h] + Shift(hs, |x|)) ==
            if Blank(body) then Bodies(y, hs) else [Category(StripBoom(h.value), body)] + Bodies(y, hs)
  {
    var all := [h] + Shift(hs, |x|);
    ShiftInOrder(hs, 0, |y|, |x|);
    InOrderLower(Shift(hs, |x|), |x|, 0, |x + y|);
    BodiesShift(x, y, hs);
    assert all[1..] == Shift(hs, |x|);
    assert BodyEnd(all, |x + y|) == |x|;
    assert (x + y)[h.end..|x|] == x[h.end..];
  }

  lemma {:induction false} BlankItems(items: seq<string>)
    requires (forall l :: l in items ==> IsItem(l)) && NonEmpty(items) == []
    ensures DropNewlines(WithLineFeeds(items)) == []
    decreases |items|
  {
    if items != [] {
      assert WithLineFeeds(items)[1..] == WithLineFeeds(items[1..]);
      BlankItems(items[1..]);
    }
  }

  lemma DashShows(s: string, i: nat)
    requires i < |s| && s[i] == '-'
    ensures !Blank(s)
  {
    BlankIffAllWhite(s);
    assert s[i] in s;
  }

  lemma NonBlankItems(items: seq<string>)
    requires (forall l :: l in items ==> IsItem(l)) && NonEmpty(items) != []
    ensures !Blank(TrimNewlines(WithLineFeeds(items)))
  {
    var rest := DropLeading(items);
    var init, last := DropTrailing(rest);
    var s := WithLineFeeds(init) + DropNewlinesEnd(last);
    BulletStays(last);
    DashShows(s, |WithLineFeeds(init)|);
  }

  lemma NameStays(category: nat)
    requires category < |CATEGORIES|
    ensures StripBoom(CATEGORIES[category]) == CATEGORIES[category]
  {
    var h := CATEGORIES[category];
    CategoryName(category);
    if |h| >= 7 { assert h[|h| - 7..][6] == h[|h| - 1]; }
  }

  lemma ParsedAhead(b: Block, rest: seq<Category>)
    requires GoodBlock(b)
    ensures var body := TrimNewlines(WithLineFeeds(b.items));
            ParseAll(if Blank(body) then rest else [Category(StripBoom(CATEGORIES[b.category]), body)] + rest) ==
            BlockParsed(b) + ParseAll(rest)
  {
    var body := TrimNewlines(WithLineFeeds(b.items));
    NameStays(b.category);
    if NonEmpty(b.items) == [] {
      BlankItems(b.items);
      assert Blank(body);
    } else {
      NonBlankItems(b.items);
      CategoryEntries(b.items);
      var c := Category(CATEGORIES[b.category], body);
      assert ([c] + rest)[1..] == rest;
    }
  }

  lemma {:induction false} BlocksRead(bs: seq<Block>)
    requires forall b :: b in bs ==> GoodBlock(b)
    ensures var y := BlocksText(bs);
            var hs := HeadingsOf(y, "### ");
            && InOrder(hs, 0, |y|) && (if hs == [] then y == [] else hs[0].start == 0)
            && ParseAll(Bodies(y, hs)) == BlocksParsed(bs)
    decreases |bs|
  {
    var y := BlocksText(bs);
    HeadingsInOrder(y, "### ");
    if bs != [] {
      var b := bs[0];
      assert b in bs;
      var x, rest := BlockText(b), BlocksText(bs[1..]);
      var hs := HeadingsOf(rest, "### ");
      OneBlock(b);
      HeadingsConcat(x, rest, "### ");
      BlocksRead(bs[1..]);
      BodiesAhead(x, rest, BlockHeading(b), hs);
      assert x[|CategoryLine(b.category)|..] == WithLineFeeds(b.items);
      ParsedAhead(b, Bodies(rest, hs));
    }
  }

  // ----- the trimmed section -----

  lemma {:induction false} LineFeedsDropped(a: string, items: seq<string>)
    requires (forall l :: l in items ==> IsItem(l)) && NonEmpty(items) == []
    ensures DropNewlinesEnd(a + WithLineFeeds(items)) == DropNewlinesEnd(a)
    decreases |items|
  {
    if items == [] {
      assert a + WithLineFeeds(items) == a;
    } else {
      assert a + WithLineFeeds(items) == (a + "\n") + WithLineFeeds(items[1..]);
      LineFeedsDropped(a + "\n", items[1..]);
      assert (a + "\n")[..|a|] == a;
    }
  }

  lemma LineWithoutBody(category: nat)
    requires category < |CATEGORIES|
    ensures DropNewlinesEnd(CategoryLine(category)) + "\n" == CategoryLine(category)
    ensures DropNewlinesEnd(CategoryLine(category)) != []
  {
    var h := CATEGORIES[category];
    var line := CategoryLine(category);
    CategoryName(category);
    var bare := "### " + h;
    assert line == bare + "\n" && line[..|line| - 1] == bare && bare[|bare| - 1] == h[|h| - 1];
  }

  lemma CutEmpty(b: Block) returns (cut: Block)
    requires GoodBlock(b) && NonEmpty(b.items) == []
    ensures GoodBlock(cut) && BlockParsed(cut) == BlockParsed(b)
    ensures DropNewlinesEnd(BlockText(b)) != [] && DropNewlinesEnd(BlockText(b)) + "\n" == BlockText(cut)
  {
    cut := Block(b.category, []);
    var line := CategoryLine(b.category);
    LineFeedsDropped(line, b.items);
    LineWithoutBody(b.category);
    assert BlockText(cut) == line;
  }

  lemma {:induction false} DropEndTwice(s: string)
    ensures DropNewlinesEnd(DropNewlinesEnd(s)) == DropNewlinesEnd(s)
    decreases |s|
  {
    if s != [] && IsNewline(s[|s| - 1]) { DropEndTwice(s[..|s| - 1]); }
  }

  /** Cutting the last bullet before it is read changes nothing. */
  lemma CutReadBack(bs: seq<string>, last: string)
    ensures ReadBack(bs + [DropNewlinesEnd(last)]) == ReadBack(bs + [last])
  {
    DropEndTwice(last);
    assert (bs + [DropNewlinesEnd(last)])[..|bs|] == bs && (bs + [last])[..|bs|] == bs;
  }

  lemma FeedsLast(init: seq<string>, end: string)
    ensures WithLineFeeds(init + [end]) == WithLineFeeds(init) + end + "\n"
  {
    FeedsConcat(init, [end]);
    assert [end][1..] == [];
    assert WithLineFeeds(init) + (end + "\n" + []) == WithLineFeeds(init) + end + "\n";
  }

  lemma NonEmptyLast(init: seq<string>, end: string)
    requires IsBullet(end)
    ensures NonEmpty(init + [end]) == NonEmpty(init) + [end]
  {
    NonEmptyConcat(init, [end]);
    NonEmptyBullets([end]);
  }

  lemma CutBlock(b: Block) returns (cut: Block)
    requires GoodBlock(b) && NonEmpty(b.items) != []
    ensures GoodBlock(cut) && BlockParsed(cut) == BlockParsed(b)
    ensures DropNewlinesEnd(BlockText(b)) != [] && DropNewlinesEnd(BlockText(b)) + "\n" == BlockText(cut)
  {
    var line := CategoryLine(b.category);
    var init, last := DropTrailing(b.items);
    var end := DropNewlinesEnd(last);
    BulletStays(last);
    cut := Block(b.category, init + [end]);
    NonEmptyLast(init, end);
    CutReadBack(NonEmpty(init), last);
    DropEndConcat(line, WithLineFeeds(b.items));
    FeedsLast(init, end);
  }

  /** Trimming the text after the last category leaves categories that read the same. */
  lemma {:induction false} CutBlocks(bs: seq<Block>) returns (cut: seq<Block>)
    requires (forall b :: b in bs ==> GoodBlock(b)) && bs != []
    ensures (forall b :: b in cut ==> GoodBlock(b)) && BlocksParsed(cut) == BlocksParsed(bs)
    ensures DropNewlinesEnd(BlocksText(bs)) != [] && DropNewlinesEnd(BlocksText(bs)) + "\n" == BlocksText(cut)
    decreases |bs|
  {
    assert GoodBlock(bs[0]);
    var first, rest := BlockText(bs[0]), BlocksText(bs[1..]);
    if |bs| == 1 {
      var c;
      if NonEmpty(bs[0].items) == [] { c := CutEmpty(bs[0]); } else { c := CutBlock(bs[0]); }
      cut := [c];
      assert BlocksText(bs) == first;
      assert cut[1..] == [] && BlocksText(cut) == BlockText(c);
    } else {
      var more := CutBlocks(bs[1..]);
      cut := [bs[0]] + more;
      assert cut[1..] == more;
      DropEndConcat(first, rest);
      assert first + DropNewlinesEnd(rest) + "\n" == first + (DropNewlinesEnd(rest) + "\n");
    }
  }

  lemma StartsWithHash(bs: seq<Block>)
    requires (forall b :: b in bs ==> GoodBlock(b)) && bs != []
    ensures BlocksText(bs) != [] && BlocksText(bs)[0] == '#'
  {
    assert GoodBlock(bs[0]);
    assert CategoryLine(bs[0].category)[0] == '#';
  }

  lemma TrimmedSection(text: string)
    requires text != [] && text[0] == '#'
    ensures SectionText("\n" + text) == DropNewlinesEnd(text) + "\n"
  {
    var body := DropNewlinesEnd(text);
    assert ("\n" + text)[1..] == text;
    assert DropNewlines("\n" + text) == text;
    DropEndPrefix(text, "#");
    BlankIffAllWhite(body);
    assert body[0] in body;
  }

  /** Nothing stands before the first category. */
  lemma NoHead(text: string, hs: seq<Heading>)
    requires hs == HeadingsOf(text, "### ") && InOrder(hs, 0, |text|)
    requires if hs == [] then text == [] else hs[0].start == 0
    ensures CategorySections(text) == Bodies(text, hs)
  {
    assert OtherPart([]) == [];
    if hs != [] { assert text[..hs[0].start] == []; }
  }

  lemma BlocksReadAll(bs: seq<Block>)
    requires forall b :: b in bs ==> GoodBlock(b)
    ensures ParseAll(CategorySections(BlocksText(bs))) == BlocksParsed(bs)
  {
    BlocksRead(bs);
    NoHead(BlocksText(bs), HeadingsOf(BlocksText(bs), "### "));
  }

  /** Reading the section cut out of a release. */
  lemma SectionRead(bs: seq<Block>)
    requires forall b :: b in bs ==> GoodBlock(b)
    ensures ParseAll(CategorySections(SectionText("\n" + BlocksText(bs)))) == BlocksParsed(bs)
  {
    if bs == [] {
      EmptySection();
      BlocksReadAll(bs);
    } else {
      StartsWithHash(bs);
      TrimmedSection(BlocksText(bs));
      var cut := CutBlocks(bs);
      BlocksReadAll(cut);
    }
  }

  lemma EmptySection()
    ensures SectionText("\n" + []) == []
  {
    assert ("\n" + [])[1..] == [];
    assert DropNewlines("\n" + []) == [];
  }
}
