/**
 Which header introduced each changelog entry, carried from one commit to the next
 (crates/changelog-release-notes/src/range.rs).
 */
module Provenance {
  import opened Common
  import opened Text
  import opened Similarity
  import opened Matching
  import opened Groups

  type Lines = seq<string>

  /** `introduced` is `None` for the entries that were there before the range began. */
  datatype Entry = Entry(lines: Lines, introduced: Option<string>)

  type Entries = seq<Group<Entry>>
  type Snapshot = seq<Group<Lines>>

  // ----- one commit -----

  function Values<T>(items: seq<Item<T>>): seq<T> {
    seq(|items|, i requires 0 <= i < |items| => items[i].value)
  }

  function Texts(entries: seq<Entry>): seq<Lines> {
    seq(|entries|, i requires 0 <= i < |entries| => entries[i].lines)
  }

  predicate IsCandidate(previous: seq<Lines>, current: seq<Lines>, st: State, i: nat, p: nat)
    requires |st.matches| == |current| && |st.used| == |previous| && i < |current| && p < |previous|
  {
    st.matches[i].None? && !st.used[p] && Passes(EntryScore(previous[p], current[i]))
  }

  function CandidateOf(previous: seq<Lines>, current: seq<Lines>, i: nat, p: nat): Candidate
    requires i < |current| && p < |previous|
  {
    Candidate(EntryScore(previous[p], current[i]), i, p)
  }

  /** The candidates of current entry `i` among the first `p` previous ones. */
  function Row(previous: seq<Lines>, current: seq<Lines>, st: State, i: nat, p: nat): seq<Candidate>
    requires |st.matches| == |current| && |st.used| == |previous| && i < |current| && p <= |previous|
    decreases p
  {
    if p == 0 then []
    else if IsCandidate(previous, current, st, i, p - 1) then
      Row(previous, current, st, i, p - 1) + [CandidateOf(previous, current, i, p - 1)]
    else Row(previous, current, st, i, p - 1)
  }

  /** The candidates of the first `i` current entries. */
  function Rows(previous: seq<Lines>, current: seq<Lines>, st: State, i: nat): seq<Candidate>
    requires |st.matches| == |current| && |st.used| == |previous| && i <= |current|
    decreases i
  {
    if i == 0 then []
    else Rows(previous, current, st, i - 1) + Row(previous, current, st, i - 1, |previous|)
  }

  ghost predicate Listed(previous: seq<Lines>, current: seq<Lines>, st: State, c: Candidate)
    requires |st.matches| == |current| && |st.used| == |previous|
  {
    && c.current < |current| && c.previous < |previous|
    && IsCandidate(previous, current, st, c.current, c.previous)
    && c == CandidateOf(previous, current, c.current, c.previous)
  }

  lemma {:induction false} RowHas(previous: seq<Lines>, current: seq<Lines>, st: State, i: nat, p: nat, c: Candidate)
    requires |st.matches| == |current| && |st.used| == |previous| && i < |current| && p <= |previous|
    ensures c in Row(previous, current, st, i, p) <==>
            Listed(previous, current, st, c) && c.current == i && c.previous < p
    decreases p
  {
    if p > 0 {
      RowHas(previous, current, st, i, p - 1, c);
      var last := CandidateOf(previous, current, i, p - 1);
      if IsCandidate(previous, current, st, i, p - 1) {
        assert c in Row(previous, current, st, i, p) <==> c in Row(previous, current, st, i, p - 1) || c == last;
      }
    }
  }

  /** The candidates are exactly the free pairs that score at least 0.6. */
  lemma {:induction false} RowsHave(previous: seq<Lines>, current: seq<Lines>, st: State, i: nat, c: Candidate)
    requires |st.matches| == |current| && |st.used| == |previous| && i <= |current|
    ensures c in Rows(previous, current, st, i) <==> Listed(previous, current, st, c) && c.current < i
    decreases i
  {
    if i > 0 {
      RowsHave(previous, current, st, i - 1, c);
      RowHas(previous, current, st, i - 1, |previous|, c);
    }
  }

  ghost predicate RowOrder(a: Candidate, b: Candidate) {
    a.current < b.current || (a.current == b.current && a.previous < b.previous)
  }

  ghost predicate InRowOrder(cs: seq<Candidate>) {
    forall j, k :: 0 <= j < k < |cs| ==> RowOrder(cs[j], cs[k])
  }

  lemma {:induction false} RowInOrder(previous: seq<Lines>, current: seq<Lines>, st: State, i: nat, p: nat)
    requires |st.matches| == |current| && |st.used| == |previous| && i < |current| && p <= |previous|
    ensures InRowOrder(Row(previous, current, st, i, p))
    ensures forall c :: c in Row(previous, current, st, i, p) ==> c.current == i && c.previous < p
    decreases p
  {
    if p > 0 { RowInOrder(previous, current, st, i, p - 1); }
  }

  /** They are found entry by entry, each against the earlier entries in their order. */
  lemma {:induction false} RowsInOrder(previous: seq<Lines>, current: seq<Lines>, st: State, i: nat)
    requires |st.matches| == |current| && |st.used| == |previous| && i <= |current|
    ensures InRowOrder(Rows(previous, current, st, i))
    ensures forall c :: c in Rows(previous, current, st, i) ==> c.current < i
    decreases i
  {
    if i > 0 {
      RowsInOrder(previous, current, st, i - 1);
      RowInOrder(previous, current, st, i - 1, |previous|);
    }
  }

  function ExactState(previous: seq<Lines>, current: seq<Lines>): State {
    Exact(previous, current, |current|)
  }

  function Ranked(previous: seq<Lines>, current: seq<Lines>): seq<Candidate> {
    SortByScore(Rows(previous, current, ExactState(previous, current), |current|))
  }

  lemma RankedHas(previous: seq<Lines>, current: seq<Lines>)
    ensures Descending(Ranked(previous, current)) && InRange(ExactState(previous, current), Ranked(previous, current))
    ensures forall c :: c in Ranked(previous, current) <==>
                        Listed(previous, current, ExactState(previous, current), c)
  {
    var st := ExactState(previous, current);
    var rows := Rows(previous, current, st, |current|);
    forall c ensures c in rows <==> Listed(previous, current, st, c) {
      RowsHave(previous, current, st, |current|, c);
    }
    forall c | c in rows ensures c.score.whole > 0 {
      FullScoreIff(previous[c.previous], current[c.current]);
    }
    SortDescends(rows);
  }

  /** Both phases. */
  function AllPairs(previous: seq<Lines>, current: seq<Lines>): (st: State)
    ensures |st.matches| == |current| && |st.used| == |previous|
  {
    RankedHas(previous, current);
    Greedy(ExactState(previous, current), Ranked(previous, current), |Ranked(previous, current)|)
  }

  /** The pairs are one to one, and the pairs of equal texts are among them. */
  lemma PairsAreOneToOne(previous: seq<Lines>, current: seq<Lines>)
    ensures Consistent(AllPairs(previous, current))
    ensures forall i :: 0 <= i < |current| && ExactState(previous, current).matches[i].Some? ==>
              AllPairs(previous, current).matches[i] == ExactState(previous, current).matches[i]
  {
    var ranked := Ranked(previous, current);
    RankedHas(previous, current);
    ExactPairs(previous, current, |current|);
    GreedyGrows(ExactState(previous, current), ranked, |ranked|);
  }

  /** A pair shares an entry with current entry `i` or previous entry `p`, and is at least as similar. */
  ghost predicate BetterPair(previous: seq<Lines>, current: seq<Lines>, i: nat, p: nat, i': nat, p': nat) {
    && i < |current| && p < |previous| && i' < |current| && p' < |previous|
    && AllPairs(previous, current).matches[i'] == Some(p')
    && (i' == i || p' == p)
    && ScoreLe(EntryScore(previous[p], current[i]), EntryScore(previous[p'], current[i']))
  }

  /**
   Two entries that score at least 0.6 and are not a pair: one of them is paired with an equal text,
   or one of them is in a pair that is at least as similar.
   */
  lemma NoMissedPair(previous: seq<Lines>, current: seq<Lines>, i: nat, p: nat)
    requires i < |current| && p < |previous| && Passes(EntryScore(previous[p], current[i]))
    ensures || ExactState(previous, current).matches[i].Some?
            || ExactState(previous, current).used[p]
            || exists i', p' :: BetterPair(previous, current, i, p, i', p')
  {
    var st, ranked := ExactState(previous, current), Ranked(previous, current);
    if st.matches[i].None? && !st.used[p] {
      var c := CandidateOf(previous, current, i, p);
      RankedHas(previous, current);
      ExactPairs(previous, current, |current|);
      NoBlockingPair(st, ranked, c);
      var j :| 0 <= j < |ranked| && Taken(AllPairs(previous, current), ranked[j]) && Meet(ranked[j], c)
               && ScoreLe(c.score, ranked[j].score);
      assert ranked[j] in ranked;
      assert BetterPair(previous, current, i, p, ranked[j].current, ranked[j].previous);
    }
  }

  /** The header that introduced the current entry `i`. */
  function IntroducedAt(previous: seq<Entry>, current: seq<Item<Lines>>, i: nat): Option<string>
    requires i < |current|
  {
    var st := AllPairs(Texts(previous), Values(current));
    PairsAreOneToOne(Texts(previous), Values(current));
    assert PairOk(st, i);
    if st.matches[i].Some? then previous[st.matches[i].value].introduced else Some(current[i].header)
  }

  function UpdatedItems(previous: seq<Entry>, current: seq<Item<Lines>>): seq<Item<Entry>> {
    seq(|current|, i requires 0 <= i < |current| =>
      Item(current[i].header, Entry(current[i].value, IntroducedAt(previous, current, i))))
  }

  /** `update_entries`. */
  function Update(previous: Entries, current: Snapshot): Entries {
    var items := UpdatedItems(Values(Flat(previous)), Flat(current));
    Build(items, |items|)
  }

  lemma EqualPasses(text: Lines)
    ensures Passes(EntryScore(text, text))
  {
    FullScoreIff(text, text);
  }

  /** Paired entries score at least 0.6. */
  lemma PairsPass(previous: seq<Lines>, current: seq<Lines>, i: nat)
    requires i < |current| && AllPairs(previous, current).matches[i].Some?
    ensures var p := AllPairs(previous, current).matches[i].value;
            p < |previous| && Passes(EntryScore(previous[p], current[i]))
  {
    var st, ranked := ExactState(previous, current), Ranked(previous, current);
    RankedHas(previous, current);
    ExactPairs(previous, current, |current|);
    GreedyGrows(st, ranked, |ranked|);
    if st.matches[i].Some? {
      assert EqualPair(previous, current, st, i);
      EqualPasses(current[i]);
    } else {
      var j :| 0 <= j < |ranked| && ranked[j].current == i && Taken(AllPairs(previous, current), ranked[j]);
      assert ranked[j] in ranked;
    }
  }

  // ----- what the new entries are -----

  /** The entries of the snapshot, in its order and under its headers; none is lost and none is added. */
  lemma {:induction false} UpdateKeepsCurrent(previous: Entries, current: Snapshot)
    requires Ascending(current)
    ensures Flat(Update(previous, current)) == UpdatedItems(Values(Flat(previous)), Flat(current))
    ensures Ascending(Update(previous, current)) && NoneEmpty(Update(previous, current))
    ensures Texts(Values(Flat(Update(previous, current)))) == Values(Flat(current))
  {
    var items := UpdatedItems(Values(Flat(previous)), Flat(current));
    FlatSorted(current);
    assert forall i :: 0 <= i < |items| ==> items[i].header == Flat(current)[i].header;
    BuildSorted(items, |items|);
    assert items[..|items|] == items;
  }

  /** The entries of a snapshot, flattened. */
  function SnapshotTexts(current: Snapshot): seq<Lines> { Values(Flat(current)) }

  /** The entries that were there before, flattened. */
  function FlatEntries(previous: Entries): seq<Entry> { Values(Flat(previous)) }

  /**
   Where an updated entry comes from: the origin of the entry it is paired with, whether their texts
   are equal or only alike, or else the header it stands under.
   */
  lemma OriginIsCarried(previous: Entries, current: Snapshot, i: nat)
    requires Ascending(current) && i < |SnapshotTexts(current)|
    ensures var before, after := FlatEntries(previous), FlatEntries(Update(previous, current));
            var pair := AllPairs(Texts(before), SnapshotTexts(current)).matches[i];
            && |after| == |Flat(current)| && after[i].lines == Flat(current)[i].value
            && (pair.Some? ==> pair.value < |before| && after[i].introduced == before[pair.value].introduced)
            && (pair.None? ==> after[i].introduced == Some(Flat(current)[i].header))
  {
    UpdateKeepsCurrent(previous, current);
    MatchInRange(FlatEntries(previous), Flat(current), i);
  }

  /** An entry that resembles no earlier one is introduced by the header it stands under. */
  lemma NewEntryIsIntroduced(previous: Entries, current: Snapshot, i: nat)
    requires Ascending(current) && i < |SnapshotTexts(current)|
    requires forall p :: 0 <= p < |FlatEntries(previous)| ==>
               !Passes(EntryScore(FlatEntries(previous)[p].lines, SnapshotTexts(current)[i]))
    ensures |FlatEntries(Update(previous, current))| == |Flat(current)|
    ensures FlatEntries(Update(previous, current))[i].introduced == Some(Flat(current)[i].header)
  {
    var texts, values := Texts(FlatEntries(previous)), SnapshotTexts(current);
    OriginIsCarried(previous, current, i);
    if AllPairs(texts, values).matches[i].Some? { PairsPass(texts, values, i); }
  }

  // ----- an unchanged snapshot -----

  /** The texts of entries, without where they came from. */
  function SnapshotOf(entries: Entries): Snapshot {
    seq(|entries|, i requires 0 <= i < |entries| => Group(entries[i].header, Texts(entries[i].items)))
  }

  lemma {:induction false} LabelledTexts(header: string, items: seq<Entry>)
    ensures |Labelled(header, Texts(items))| == |Labelled(header, items)|
    ensures forall i :: 0 <= i < |Labelled(header, items)| ==>
              Labelled(header, Texts(items))[i] == Item(header, Labelled(header, items)[i].value.lines)
    ensures forall i :: 0 <= i < |Labelled(header, items)| ==> Labelled(header, items)[i].header == header
  {
    LabelledHeaders(header, items);
    LabelledHeaders(header, Texts(items));
  }

  ghost predicate SameTexts(a: seq<Item<Lines>>, b: seq<Item<Entry>>) {
    |a| == |b| && forall i :: 0 <= i < |b| ==> a[i] == Item(b[i].header, b[i].value.lines)
  }

  lemma {:induction false} FlatTexts(entries: Entries)
    ensures SameTexts(Flat(SnapshotOf(entries)), Flat(entries))
    decreases |entries|
  {
    if entries != [] {
      LabelledTexts(entries[0].header, entries[0].items);
      FlatTexts(entries[1..]);
      assert SnapshotOf(entries)[1..] == SnapshotOf(entries[1..]);
    }
  }

  /** The first `i` entries are paired with themselves, and nothing else is used. */
  ghost predicate Diagonal(st: State, n: nat, i: nat) {
    && |st.matches| == n && |st.used| == n && i <= n
    && (forall k :: 0 <= k < i ==> st.matches[k] == Some(k))
    && (forall k :: 0 <= k < n ==> st.used[k] == (k < i))
  }

  lemma DiagonalStep(texts: seq<Lines>, st: State, i: nat)
    requires Diagonal(st, |texts|, i) && i < |texts|
    ensures FirstFree(texts, st.used, texts[i], 0) == Some(i)
    ensures Diagonal(Pair(st, i, i), |texts|, i + 1)
  {
    assert !st.used[i];
    FirstFreeIs(texts, st.used, texts[i], 0);
    var f := FirstFree(texts, st.used, texts[i], 0);
    if f.Some? { assert !st.used[f.value]; }
  }

  /** Each text is paired with itself. */
  lemma {:induction false} ExactIdentity(texts: seq<Lines>, i: nat)
    requires i <= |texts|
    ensures Diagonal(Exact(texts, texts, i), |texts|, i)
    decreases i
  {
    if i > 0 {
      ExactIdentity(texts, i - 1);
      DiagonalStep(texts, Exact(texts, texts, i - 1), i - 1);
    }
  }

  /** Updating with an unchanged snapshot changes nothing but empty categories. */
  lemma {:induction false} UnchangedSnapshot(entries: Entries)
    requires Ascending(entries)
    ensures Update(entries, SnapshotOf(entries)) == WithoutEmpty(entries)
  {
    var flat, current := Flat(entries), Flat(SnapshotOf(entries));
    var previous := Values(flat);
    FlatTexts(entries);
    var texts := Texts(previous);
    assert Values(current) == texts;
    ExactIdentity(texts, |texts|);
    PairsAreOneToOne(texts, texts);
    forall i | 0 <= i < |flat| ensures UpdatedItems(previous, current)[i] == flat[i] {
      assert AllPairs(texts, texts).matches[i] == Some(i);
    }
    assert UpdatedItems(previous, current) == flat;
    BuildFlat(entries);
  }

  // ----- any number of commits -----

  /** The headers that introduced the copies of a text. */
  ghost function Origins(entries: Entries, text: Lines): set<Option<string>> {
    set e | e in Values(Flat(entries)) && e.lines == text :: e.introduced
  }

  /** A text that did not become more frequent is paired, copy by copy, with itself. */
  lemma {:induction false} PairedWithEqual(previous: seq<Lines>, current: seq<Lines>, i: nat)
    requires i < |current| && Count(current, current[i]) <= Count(previous, current[i])
    ensures var p := AllPairs(previous, current).matches[i];
            p.Some? && p.value < |previous| && previous[p.value] == current[i]
  {
    var text, st, n := current[i], ExactState(previous, current), |current|;
    assert current[..n] == current;
    ExactCounts(previous, current, n, text);
    ExactPairs(previous, current, n);
    MarkedAtMost(current, Paired(st), text, n);
    assert Paired(st)[i];
    assert EqualPair(previous, current, st, i);
    PairsAreOneToOne(previous, current);
  }

  lemma {:induction false} StepOrigins(previous: Entries, current: Snapshot, text: Lines)
    requires Ascending(current)
    requires Count(Values(Flat(current)), text) <= Count(Texts(Values(Flat(previous))), text)
    ensures Origins(Update(previous, current), text) <= Origins(previous, text)
  {
    var before, flat := Values(Flat(previous)), Flat(current);
    var items := UpdatedItems(before, flat);
    UpdateKeepsCurrent(previous, current);
    forall e: Entry | e in Values(items) && e.lines == text ensures e.introduced in Origins(previous, text) {
      var i :| 0 <= i < |items| && e == items[i].value;
      PairedWithEqual(Texts(before), Values(flat), i);
      var p := AllPairs(Texts(before), Values(flat)).matches[i].value;
      assert before[p] in before && before[p].lines == text;
    }
  }

  function UpdateAll(entries: Entries, snapshots: seq<Snapshot>): Entries
    decreases |snapshots|
  {
    if snapshots == [] then entries else UpdateAll(Update(entries, snapshots[0]), snapshots[1..])
  }

  /** The text occurs in no snapshot more often than in the one before. */
  ghost predicate NeverMore(texts: seq<Lines>, snapshots: seq<Snapshot>, text: Lines)
    decreases |snapshots|
  {
    snapshots == [] ||
    (var next := Values(Flat(snapshots[0]));
     Count(next, text) <= Count(texts, text) && NeverMore(next, snapshots[1..], text))
  }

  /** Over a whole run, a text that never becomes more frequent keeps the headers that introduced it. */
  lemma {:induction false} RunOrigins(entries: Entries, snapshots: seq<Snapshot>, text: Lines)
    requires forall s :: s in snapshots ==> Ascending(s)
    requires NeverMore(Texts(Values(Flat(entries))), snapshots, text)
    ensures Origins(UpdateAll(entries, snapshots), text) <= Origins(entries, text)
    decreases |snapshots|
  {
    if snapshots != [] {
      assert snapshots[0] in snapshots;
      StepOrigins(entries, snapshots[0], text);
      UpdateKeepsCurrent(entries, snapshots[0]);
      RunOrigins(Update(entries, snapshots[0]), snapshots[1..], text);
    }
  }

  /** The texts after a run: those of its last snapshot. */
  lemma {:induction false} RunTexts(entries: Entries, snapshots: seq<Snapshot>)
    requires forall s :: s in snapshots ==> Ascending(s)
    ensures snapshots != [] ==>
              Texts(Values(Flat(UpdateAll(entries, snapshots)))) == Values(Flat(snapshots[|snapshots| - 1]))
    decreases |snapshots|
  {
    if snapshots != [] {
      assert snapshots[0] in snapshots;
      var next, rest := Update(entries, snapshots[0]), snapshots[1..];
      if rest == [] {
        UpdateKeepsCurrent(entries, snapshots[0]);
        assert UpdateAll(entries, snapshots) == next;
      } else {
        RunTexts(next, rest);
        assert rest[|rest| - 1] == snapshots[|snapshots| - 1];
      }
    }
  }

  /** Once in every snapshot. */
  ghost predicate AlwaysOnce(snapshots: seq<Snapshot>, text: Lines) {
    forall s :: s in snapshots ==> Count(Values(Flat(s)), text) == 1
  }

  lemma {:induction false} OnceNeverMore(texts: seq<Lines>, snapshots: seq<Snapshot>, text: Lines)
    requires Count(texts, text) == 1 && AlwaysOnce(snapshots, text)
    ensures NeverMore(texts, snapshots, text)
    decreases |snapshots|
  {
    if snapshots != [] {
      assert snapshots[0] in snapshots;
      OnceNeverMore(Values(Flat(snapshots[0])), snapshots[1..], text);
    }
  }

  lemma {:induction false} Occurs(texts: seq<Lines>, text: Lines)
    requires Count(texts, text) > 0
    ensures text in texts
    decreases |texts|
  {
    if texts[|texts| - 1] != text { Occurs(texts[..|texts| - 1], text); }
  }

  /**
   An entry whose text stays unique and unchanged keeps the header that introduced it, whatever
   headers it is moved under.
   */
  lemma {:induction false} UniqueKeepsOrigin(entries: Entries, snapshots: seq<Snapshot>, text: Lines)
    requires forall s :: s in snapshots ==> Ascending(s)
    requires Count(Texts(Values(Flat(entries))), text) == 1 && AlwaysOnce(snapshots, text)
    ensures Origins(UpdateAll(entries, snapshots), text) == Origins(entries, text)
    ensures exists h :: Origins(entries, text) == {h}
  {
    OnceNeverMore(Texts(Values(Flat(entries))), snapshots, text);
    RunOrigins(entries, snapshots, text);
    OneOrigin(entries, text);
    RunTexts(entries, snapshots);
    if snapshots != [] { assert snapshots[|snapshots| - 1] in snapshots; }
    OneOrigin(UpdateAll(entries, snapshots), text);
  }

  lemma {:induction false} OneCopy(texts: seq<Lines>, text: Lines, i: nat, j: nat)
    requires i < j < |texts| && texts[i] == text && texts[j] == text
    ensures Count(texts, text) >= 2
    decreases |texts|
  {
    var n := |texts| - 1;
    if j < n { OneCopy(texts[..n], text, i, j); } else { HasCopy(texts[..n], text, i); }
  }

  lemma {:induction false} HasCopy(texts: seq<Lines>, text: Lines, i: nat)
    requires i < |texts| && texts[i] == text
    ensures Count(texts, text) >= 1
    decreases |texts|
  {
    var n := |texts| - 1;
    if i < n { HasCopy(texts[..n], text, i); }
  }

  lemma {:induction false} OneOrigin(entries: Entries, text: Lines)
    requires Count(Texts(Values(Flat(entries))), text) == 1
    ensures exists h :: Origins(entries, text) == {h}
  {
    var flat := Values(Flat(entries));
    var texts := Texts(flat);
    Occurs(texts, text);
    var i :| 0 <= i < |texts| && texts[i] == text;
    assert flat[i] in flat;
    forall e: Entry | e in flat && e.lines == text ensures e.introduced == flat[i].introduced {
      var j :| 0 <= j < |flat| && flat[j] == e;
      assert texts[j] == text;
      if i < j { OneCopy(texts, text, i, j); }
      if j < i { OneCopy(texts, text, j, i); }
    }
    assert Origins(entries, text) == {flat[i].introduced};
  }

  // ----- entries that are edited -----

  /** The two entries are alike, and neither is like any other entry of the other side. */
  ghost predicate NoRival(previous: seq<Lines>, current: seq<Lines>, p: nat, i: nat) {
    && p < |previous| && i < |current| && Passes(EntryScore(previous[p], current[i]))
    && (forall q :: 0 <= q < |previous| && q != p ==> !Passes(EntryScore(previous[q], current[i])))
    && (forall j :: 0 <= j < |current| && j != i ==> !Passes(EntryScore(previous[p], current[j])))
  }

  /** Such entries are paired. */
  lemma AlikeArePaired(previous: seq<Lines>, current: seq<Lines>, p: nat, i: nat)
    requires NoRival(previous, current, p, i)
    ensures AllPairs(previous, current).matches[i] == Some(p)
  {
    var st, exact := AllPairs(previous, current), ExactState(previous, current);
    PairsAreOneToOne(previous, current);
    NoMissedPair(previous, current, i, p);
    if st.matches[i].Some? {
      PairsPass(previous, current, i);
    } else if exact.used[p] {
      var j := UsedByPair(previous, current, p);
      PairsPass(previous, current, j);
    } else {
      var j, q :| BetterPair(previous, current, i, p, j, q);
      PairsPass(previous, current, j);
    }
  }

  lemma UsedByPair(previous: seq<Lines>, current: seq<Lines>, p: nat) returns (j: nat)
    requires p < |previous| && ExactState(previous, current).used[p]
    ensures j < |current| && AllPairs(previous, current).matches[j] == Some(p)
  {
    ExactPairs(previous, current, |current|);
    j :| 0 <= j < |current| && ExactState(previous, current).matches[j] == Some(p);
    PairsAreOneToOne(previous, current);
  }

  /** An entry is edited from each snapshot to the next; `at` says where it stands. */
  ghost predicate Edited(texts: seq<Lines>, snapshots: seq<Snapshot>, at: seq<nat>)
    decreases |snapshots|
  {
    && |at| == |snapshots| + 1 && at[0] < |texts|
    && (snapshots != [] ==>
          && NoRival(texts, SnapshotTexts(snapshots[0]), at[0], at[1])
          && Edited(SnapshotTexts(snapshots[0]), snapshots[1..], at[1..]))
  }

  /**
   Over a whole run, an entry that is edited, so that each version is like the one before and has
   no rival, keeps the header that introduced it.
   */
  lemma {:induction false} EditedKeepsOrigin(entries: Entries, snapshots: seq<Snapshot>, at: seq<nat>)
    requires forall s :: s in snapshots ==> Ascending(s)
    requires Edited(Texts(FlatEntries(entries)), snapshots, at)
    ensures var before, after := FlatEntries(entries), FlatEntries(UpdateAll(entries, snapshots));
            at[|snapshots|] < |after| && after[at[|snapshots|]].introduced == before[at[0]].introduced
    decreases |snapshots|
  {
    if snapshots != [] {
      var next := Update(entries, snapshots[0]);
      assert snapshots[0] in snapshots;
      AlikeArePaired(Texts(FlatEntries(entries)), SnapshotTexts(snapshots[0]), at[0], at[1]);
      OriginIsCarried(entries, snapshots[0], at[1]);
      UpdateKeepsCurrent(entries, snapshots[0]);
      EditedKeepsOrigin(next, snapshots[1..], at[1..]);
      assert at[1..][|snapshots| - 1] == at[|snapshots|];
    }
  }

  // ----- the report -----

  /** The baseline of a range: nothing in it was introduced by the range. */
  function Baseline(base: Snapshot): Entries {
    seq(|base|, i requires 0 <= i < |base| => Group(base[i].header, Untracked(base[i].items)))
  }

  function Untracked(texts: seq<Lines>): seq<Entry> {
    seq(|texts|, i requires 0 <= i < |texts| => Entry(texts[i], None))
  }

  ghost predicate NoneTracked(a: seq<Item<Entry>>, b: seq<Item<Lines>>) {
    |a| == |b| && forall i :: 0 <= i < |b| ==> a[i].value == Entry(b[i].value, None)
  }

  lemma {:induction false} BaselineFlat(base: Snapshot)
    ensures NoneTracked(Flat(Baseline(base)), Flat(base))
    decreases |base|
  {
    if base != [] {
      LabelledHeaders(base[0].header, base[0].items);
      LabelledHeaders(base[0].header, Untracked(base[0].items));
      BaselineFlat(base[1..]);
      assert Baseline(base)[1..] == Baseline(base[1..]);
    }
  }

  /** The first `k` entries that the range introduced, under the headers that introduced them. */
  function Introduced(entries: seq<Entry>, k: nat): seq<Item<Lines>>
    requires k <= |entries|
    decreases k
  {
    if k == 0 then []
    else if entries[k - 1].introduced.None? then Introduced(entries, k - 1)
    else Introduced(entries, k - 1) + [Item(entries[k - 1].introduced.value, entries[k - 1].lines)]
  }

  function Report(entries: Entries): Snapshot {
    var flat := Values(Flat(entries));
    var items := Introduced(flat, |flat|);
    Build(items, |items|)
  }

  lemma {:induction false} IntroducedHas(entries: seq<Entry>, k: nat)
    requires k <= |entries|
    ensures forall item :: item in Introduced(entries, k) <==>
                           Entry(item.value, Some(item.header)) in entries[..k]
    decreases k
  {
    if k > 0 {
      IntroducedHas(entries, k - 1);
      TakeMore(entries, k);
    }
  }

  /** A text is reported under a header exactly if that header introduced a copy of it. */
  lemma {:induction false} ReportedIff(entries: Entries, header: string, text: Lines)
    ensures Item(header, text) in Flat(Report(entries)) <==> Some(header) in Origins(entries, text)
  {
    var flat := Values(Flat(entries));
    var items := Introduced(flat, |flat|);
    assert flat[..|flat|] == flat && items[..|items|] == items;
    IntroducedHas(flat, |flat|);
    BuildHolds(items, |items|);
    SameMembers(Flat(Report(entries)), items, Item(header, text));
    OriginIff(entries, header, text);
  }

  /** The texts of the first `k` entries that the header introduced, in order. */
  function IntroducedBy(entries: seq<Entry>, k: nat, header: string): seq<Lines>
    requires k <= |entries|
    decreases k
  {
    if k == 0 then []
    else
      IntroducedBy(entries, k - 1, header)
      + if entries[k - 1].introduced == Some(header) then [entries[k - 1].lines] else []
  }

  lemma CameWithLast<T>(items: seq<Item<T>>, item: Item<T>, header: string)
    ensures CameWith(items + [item], |items| + 1, header)
            == CameWith(items, |items|, header) + if item.header == header then [item.value] else []
  {
    CameWithPrefix(items, [item], |items|, header);
  }

  lemma {:induction false} CameWithPrefix<T>(items: seq<Item<T>>, more: seq<Item<T>>, k: nat, header: string)
    requires k <= |items|
    ensures CameWith(items + more, k, header) == CameWith(items, k, header)
    decreases k
  {
    if k > 0 { CameWithPrefix(items, more, k - 1, header); }
  }

  lemma {:induction false} IntroducedCame(entries: seq<Entry>, k: nat, header: string)
    requires k <= |entries|
    ensures var items := Introduced(entries, k); CameWith(items, |items|, header) == IntroducedBy(entries, k, header)
    decreases k
  {
    if k > 0 {
      IntroducedCame(entries, k - 1, header);
      var e := entries[k - 1];
      if e.introduced.Some? { CameWithLast(Introduced(entries, k - 1), Item(e.introduced.value, e.lines), header); }
    }
  }

  /** The report: headers in order, and under each the entries it introduced, in the order of the last snapshot. */
  lemma ReportIs(entries: Entries, header: string)
    ensures Ascending(Report(entries))
    ensures Under(Report(entries), header) == IntroducedBy(FlatEntries(entries), |FlatEntries(entries)|, header)
  {
    var flat := FlatEntries(entries);
    var items := Introduced(flat, |flat|);
    BuildIs(items, |items|, header);
    IntroducedCame(flat, |flat|, header);
  }

  lemma SameMembers<T>(a: seq<T>, b: seq<T>, x: T)
    requires multiset(a) == multiset(b)
    ensures x in a <==> x in b
  {
    assert x in a <==> x in multiset(a);
    assert x in b <==> x in multiset(b);
  }

  lemma {:induction false} OriginIff(entries: Entries, header: string, text: Lines)
    ensures Some(header) in Origins(entries, text) <==> Entry(text, Some(header)) in Values(Flat(entries))
  {
    if Some(header) in Origins(entries, text) {
      var e: Entry :| e in Values(Flat(entries)) && e.lines == text && e.introduced == Some(header);
      assert e == Entry(text, Some(header));
    }
  }

  /** An entry of the baseline that never becomes more frequent is never reported. */
  lemma {:induction false} BaselineNeverReported(base: Snapshot, snapshots: seq<Snapshot>, header: string, text: Lines)
    requires forall s :: s in snapshots ==> Ascending(s)
    requires text in Values(Flat(base)) && NeverMore(Values(Flat(base)), snapshots, text)
    ensures Item(header, text) !in Flat(Report(UpdateAll(Baseline(base), snapshots)))
  {
    var entries := Baseline(base);
    BaselineFlat(base);
    assert Texts(Values(Flat(entries))) == Values(Flat(base));
    RunOrigins(entries, snapshots, text);
    OriginIff(entries, header, text);
    ReportedIff(UpdateAll(entries, snapshots), header, text);
  }

  /** An entry of the baseline that was only edited is not reported, whatever its text is in the end. */
  lemma EditedBaselineNotReported(base: Snapshot, snapshots: seq<Snapshot>, at: seq<nat>, header: string, text: Lines)
    requires forall s :: s in snapshots ==> Ascending(s)
    requires Edited(SnapshotTexts(base), snapshots, at)
    requires var last := Texts(FlatEntries(UpdateAll(Baseline(base), snapshots)));
             at[|snapshots|] < |last| && last[at[|snapshots|]] == text && Count(last, text) == 1
    ensures Item(header, text) !in Flat(Report(UpdateAll(Baseline(base), snapshots)))
  {
    var entries := Baseline(base);
    var after := UpdateAll(entries, snapshots);
    BaselineFlat(base);
    assert Texts(FlatEntries(entries)) == SnapshotTexts(base);
    EditedKeepsOrigin(entries, snapshots, at);
    OneOrigin(after, text);
    var e := FlatEntries(after)[at[|snapshots|]];
    assert e in Values(Flat(after)) && e.introduced == None;
    assert None in Origins(after, text);
    ReportedIff(after, header, text);
  }

  // ----- in place -----

  /** `update_entries`: the loops that collect the candidates. */
  method CollectCandidates(previous: seq<Lines>, current: seq<Lines>, st: State) returns (candidates: seq<Candidate>)
    requires |st.matches| == |current| && |st.used| == |previous|
    ensures candidates == Rows(previous, current, st, |current|)
  {
    candidates := [];
    var i := 0;
    while i < |current|
      invariant 0 <= i <= |current|
      invariant candidates == Rows(previous, current, st, i)
    {
      ghost var before := candidates;
      if st.matches[i].None? {
        var p := 0;
        while p < |previous|
          invariant 0 <= p <= |previous|
          invariant candidates == before + Row(previous, current, st, i, p)
        {
          if !st.used[p] {
            var score := ComputeScore(previous[p], current[i]);
            if Passes(score) { candidates := candidates + [Candidate(score, i, p)]; }
          }
          p := p + 1;
        }
      } else {
        NoRow(previous, current, st, i, |previous|);
      }
      i := i + 1;
    }
  }

  lemma {:induction false} NoRow(previous: seq<Lines>, current: seq<Lines>, st: State, i: nat, p: nat)
    requires |st.matches| == |current| && |st.used| == |previous| && i < |current| && p <= |previous|
    requires st.matches[i].Some?
    ensures Row(previous, current, st, i, p) == []
    decreases p
  {
    if p > 0 { NoRow(previous, current, st, i, p - 1); }
  }

  /** `update_entries`: both phases on the arrays `matches` and `used`. */
  method MatchEntries(previous: seq<Lines>, current: seq<Lines>) returns (matches: array<Option<nat>>)
    ensures fresh(matches) && matches[..] == AllPairs(previous, current).matches
  {
    matches := new Option<nat>[|current|](_ => None);
    var used := new bool[|previous|](_ => false);
    ExactPhase(previous, current, matches, used);
    var st := State(matches[..], used[..]);
    var candidates := CollectCandidates(previous, current, st);
    RankedHas(previous, current);
    GreedyPhase(SortByScore(candidates), matches, used);
  }

  /** `update_entries`. */
  method UpdateEntries(previous: Entries, current: Snapshot) returns (updated: Entries)
    ensures updated == Update(previous, current)
  {
    var previousFlat, currentFlat := Values(Flat(previous)), Flat(current);
    ghost var items := UpdatedItems(previousFlat, currentFlat);
    var matches := MatchEntries(Texts(previousFlat), Values(currentFlat));
    var pairs := matches[..];
    updated := [];
    var i := 0;
    while i < |currentFlat|
      invariant 0 <= i <= |currentFlat|
      invariant updated == Build(items, i)
    {
      MatchInRange(previousFlat, currentFlat, i);
      var header := currentFlat[i].header;
      var introduced := if pairs[i].Some? then previousFlat[pairs[i].value].introduced else Some(header);
      assert items[i] == Item(header, Entry(currentFlat[i].value, introduced));
      updated := Push(updated, header, Entry(currentFlat[i].value, introduced));
      i := i + 1;
    }
  }

  lemma MatchInRange(previous: seq<Entry>, current: seq<Item<Lines>>, i: nat)
    requires i < |current|
    ensures PairOk(AllPairs(Texts(previous), Values(current)), i)
    ensures |AllPairs(Texts(previous), Values(current)).used| == |previous|
  {
    PairsAreOneToOne(Texts(previous), Values(current));
    assert PairOk(AllPairs(Texts(previous), Values(current)), i);
  }

  /** `categorized_entries`: `entries` is replaced at every commit, then regrouped. */
  method CategorizedEntries(base: Snapshot, snapshots: seq<Snapshot>) returns (report: Snapshot)
    ensures report == Report(UpdateAll(Baseline(base), snapshots))
  {
    var entries := Baseline(base);
    var i := 0;
    while i < |snapshots|
      invariant 0 <= i <= |snapshots|
      invariant UpdateAll(entries, snapshots[i..]) == UpdateAll(Baseline(base), snapshots)
    {
      assert snapshots[i..][0] == snapshots[i] && snapshots[i..][1..] == snapshots[i + 1..];
      entries := UpdateEntries(entries, snapshots[i]);
      i := i + 1;
    }
    var flat := Values(Flat(entries));
    var items := Introduced(flat, |flat|);
    report := [];
    var k := 0;
    while k < |items|
      invariant 0 <= k <= |items|
      invariant report == Build(items, k)
    {
      report := Push(report, items[k].header, items[k].value);
      k := k + 1;
    }
  }
}
