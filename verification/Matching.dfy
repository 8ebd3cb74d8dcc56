/**
 Pairing the entries of two snapshots of a changelog: equal texts first, then the most similar ones
 (crates/changelog-release-notes/src/range.rs).
 */
module Matching {
  import opened Common
  import opened Similarity

  /** For each current entry the previous one it is paired with, and which previous ones are taken. */
  datatype State = State(matches: seq<Option<nat>>, used: seq<bool>)

  function Unmatched(currents: nat, previous: nat): State {
    State(seq(currents, _ => None), seq(previous, _ => false))
  }

  /** Pairs are one to one, and exactly the previous entries in a pair are taken. */
  ghost predicate Consistent(st: State) {
    && (forall i :: 0 <= i < |st.matches| ==> PairOk(st, i))
    && (forall i, j :: 0 <= i < j < |st.matches| ==> Apart(st, i, j))
    && (forall p :: 0 <= p < |st.used| && st.used[p] ==> Some(p) in st.matches)
  }

  predicate PairOk(st: State, i: nat) {
    i < |st.matches| && (st.matches[i].Some? ==> st.matches[i].value < |st.used| && st.used[st.matches[i].value])
  }

  predicate Apart(st: State, i: nat, j: nat) {
    i < |st.matches| && j < |st.matches| && (st.matches[i].Some? ==> st.matches[i] != st.matches[j])
  }

  /** The state after pairing `i` with `p`. */
  function Pair(st: State, i: nat, p: nat): State
    requires i < |st.matches| && p < |st.used|
  {
    State(st.matches[i := Some(p)], st.used[p := true])
  }

  lemma PairConsistent(st: State, i: nat, p: nat)
    requires Consistent(st) && i < |st.matches| && p < |st.used| && st.matches[i].None? && !st.used[p]
    ensures Consistent(Pair(st, i, p))
  {
    var after := Pair(st, i, p);
    forall k | 0 <= k < |st.matches| ensures PairOk(after, k) { assert PairOk(st, k); }
    forall k, l | 0 <= k < l < |st.matches| ensures Apart(after, k, l) {
      assert Apart(st, k, l) && PairOk(st, k) && PairOk(st, l);
    }
    forall q | 0 <= q < |st.used| && after.used[q] ensures Some(q) in after.matches {
      if q == p {
        assert after.matches[i] == Some(p);
      } else {
        var k :| 0 <= k < |st.matches| && st.matches[k] == Some(q);
        assert after.matches[k] == Some(q);
      }
    }
  }

  // ----- equal texts -----

  /** The first previous entry from `p` on that is free and has the text. */
  function FirstFree<T(==)>(previous: seq<T>, used: seq<bool>, text: T, p: nat): Option<nat>
    requires |used| == |previous| && p <= |previous|
    decreases |previous| - p
  {
    if p == |previous| then None
    else if !used[p] && previous[p] == text then Some(p)
    else FirstFree(previous, used, text, p + 1)
  }

  lemma {:induction false} FirstFreeIs<T>(previous: seq<T>, used: seq<bool>, text: T, p: nat)
    requires |used| == |previous| && p <= |previous|
    ensures var f := FirstFree(previous, used, text, p);
            && (f.None? ==> forall q :: p <= q < |previous| && previous[q] == text ==> used[q])
            && (f.Some? ==> p <= f.value < |previous| && !used[f.value] && previous[f.value] == text)
            && (f.Some? ==> forall q :: p <= q < f.value && previous[q] == text ==> used[q])
    decreases |previous| - p
  {
    if p < |previous| && (used[p] || previous[p] != text) { FirstFreeIs(previous, used, text, p + 1); }
  }

  /** The pairs of equal texts after the first `i` current entries. */
  function Exact<T(==)>(previous: seq<T>, current: seq<T>, i: nat): (st: State)
    requires i <= |current|
    ensures |st.matches| == |current| && |st.used| == |previous|
    decreases i
  {
    if i == 0 then Unmatched(|current|, |previous|)
    else
      var st := Exact(previous, current, i - 1);
      var p := FirstFree(previous, st.used, current[i - 1], 0);
      FirstFreeIs(previous, st.used, current[i - 1], 0);
      if p.None? then st else Pair(st, i - 1, p.value)
  }

  /** Pairs have equal texts, and the entries from `i` on have none. */
  ghost predicate EqualTexts<T>(previous: seq<T>, current: seq<T>, st: State, i: nat) {
    && |st.matches| == |current| && |st.used| == |previous|
    && (forall k :: 0 <= k < |current| ==> EqualPair(previous, current, st, k))
    && (forall k :: i <= k < |current| ==> st.matches[k].None?)
  }

  ghost predicate EqualPair<T>(previous: seq<T>, current: seq<T>, st: State, k: nat) {
    k < |st.matches| && k < |current| &&
    (st.matches[k].Some? ==> st.matches[k].value < |previous| && previous[st.matches[k].value] == current[k])
  }

  lemma {:induction false} ExactPairs<T>(previous: seq<T>, current: seq<T>, i: nat)
    requires i <= |current|
    ensures Consistent(Exact(previous, current, i)) && EqualTexts(previous, current, Exact(previous, current, i), i)
    decreases i
  {
    if i == 0 {
      NoPairs(previous, current);
    } else {
      ExactPairs(previous, current, i - 1);
      var st := Exact(previous, current, i - 1);
      FirstFreeIs(previous, st.used, current[i - 1], 0);
      var p := FirstFree(previous, st.used, current[i - 1], 0);
      if p.Some? { PairEqual(previous, current, st, i - 1, p.value); }
    }
  }

  lemma NoPairs<T>(previous: seq<T>, current: seq<T>)
    ensures var st := Unmatched(|current|, |previous|); Consistent(st) && EqualTexts(previous, current, st, 0)
  {
    var st := Unmatched(|current|, |previous|);
    forall k | 0 <= k < |current| ensures PairOk(st, k) && EqualPair(previous, current, st, k) { }
    forall k, l | 0 <= k < l < |current| ensures Apart(st, k, l) { }
  }

  lemma PairEqual<T>(previous: seq<T>, current: seq<T>, st: State, i: nat, p: nat)
    requires Consistent(st) && EqualTexts(previous, current, st, i) && i < |current|
    requires p < |previous| && !st.used[p] && previous[p] == current[i]
    ensures Consistent(Pair(st, i, p)) && EqualTexts(previous, current, Pair(st, i, p), i + 1)
  {
    PairConsistent(st, i, p);
    forall k | 0 <= k < |current| ensures EqualPair(previous, current, Pair(st, i, p), k) {
      assert EqualPair(previous, current, st, k);
    }
  }

  function Count<T(==)>(s: seq<T>, text: T): nat
    decreases |s|
  {
    if s == [] then 0
    else Count(s[..|s| - 1], text) + if s[|s| - 1] == text then 1 else 0
  }

  /** How many of the first `n` entries with the text are marked. */
  function Marked<T(==)>(s: seq<T>, marks: seq<bool>, text: T, n: nat): nat
    requires n <= |s| && |marks| == |s|
    decreases n
  {
    if n == 0 then 0
    else Marked(s, marks, text, n - 1) + if s[n - 1] == text && marks[n - 1] then 1 else 0
  }

  function Paired(st: State): seq<bool> {
    seq(|st.matches|, i requires 0 <= i < |st.matches| => st.matches[i].Some?)
  }

  lemma {:induction false} MarkOne<T>(s: seq<T>, marks: seq<bool>, text: T, n: nat, p: nat)
    requires n <= |s| && |marks| == |s| && p < |s| && !marks[p]
    ensures Marked(s, marks[p := true], text, n) == Marked(s, marks, text, n) + if p < n && s[p] == text then 1 else 0
    decreases n
  {
    if n > 0 { MarkOne(s, marks, text, n - 1, p); }
  }

  lemma {:induction false} MarkedAtMost<T>(s: seq<T>, marks: seq<bool>, text: T, n: nat)
    requires n <= |s| && |marks| == |s|
    ensures Marked(s, marks, text, n) <= Count(s[..n], text)
    ensures Marked(s, marks, text, n) == Count(s[..n], text) <==>
            forall q :: 0 <= q < n && s[q] == text ==> marks[q]
    decreases n
  {
    if n > 0 {
      assert s[..n][..n - 1] == s[..n - 1];
      MarkedAtMost(s, marks, text, n - 1);
    }
  }

  function Min(x: nat, y: nat): nat { if x < y then x else y }

  /** How many entries with the text are in pairs, seen from both sides. */
  ghost predicate PairsOf<T>(previous: seq<T>, current: seq<T>, st: State, text: T, n: nat) {
    && |st.matches| == |current| && |st.used| == |previous|
    && Marked(previous, st.used, text, |previous|) == n
    && Marked(current, Paired(st), text, |current|) == n
  }

  lemma {:induction false} NoneMarked<T>(s: seq<T>, marks: seq<bool>, text: T, n: nat)
    requires n <= |s| && |marks| == |s| && forall i :: 0 <= i < |marks| ==> !marks[i]
    ensures Marked(s, marks, text, n) == 0
    decreases n
  {
    if n > 0 { NoneMarked(s, marks, text, n - 1); }
  }

  lemma PairedOne(st: State, i: nat, p: nat)
    requires i < |st.matches| && p < |st.used|
    ensures Paired(Pair(st, i, p)) == Paired(st)[i := true]
  {
  }

  /** Equal texts are paired as often as both snapshots have them. */
  lemma {:induction false} ExactCounts<T>(previous: seq<T>, current: seq<T>, i: nat, text: T)
    requires i <= |current|
    ensures PairsOf(previous, current, Exact(previous, current, i), text,
                    Min(Count(previous, text), Count(current[..i], text)))
    decreases i
  {
    var n := |previous|;
    assert previous[..n] == previous;
    if i == 0 {
      var st := Unmatched(|current|, n);
      NoneMarked(previous, st.used, text, n);
      NoneMarked(current, Paired(st), text, |current|);
    } else {
      ExactCounts(previous, current, i - 1, text);
      ExactPairs(previous, current, i - 1);
      var st := Exact(previous, current, i - 1);
      var t := current[i - 1];
      FirstFreeIs(previous, st.used, t, 0);
      MarkedAtMost(previous, st.used, text, n);
      assert current[..i][..i - 1] == current[..i - 1];
      var p := FirstFree(previous, st.used, t, 0);
      if p.Some? {
        MarkOne(previous, st.used, text, n, p.value);
        PairedOne(st, i - 1, p.value);
        MarkOne(current, Paired(st), text, |current|, i - 1);
      }
    }
  }

  /** `update_entries`: the loop that pairs equal texts. */
  method ExactPhase<T(==)>(previous: seq<T>, current: seq<T>, matches: array<Option<nat>>, used: array<bool>)
    requires matches.Length == |current| && used.Length == |previous|
    requires State(matches[..], used[..]) == Unmatched(|current|, |previous|)
    modifies matches, used
    ensures State(matches[..], used[..]) == Exact(previous, current, |current|)
  {
    var i := 0;
    while i < |current|
      invariant 0 <= i <= |current|
      invariant State(matches[..], used[..]) == Exact(previous, current, i)
    {
      var p := FirstFree(previous, used[..], current[i], 0);
      FirstFreeIs(previous, used[..], current[i], 0);
      if p.Some? {
        matches[i] := p;
        used[p.value] := true;
      }
      i := i + 1;
    }
  }

  // ----- similar texts -----

  /** A pair that scores at least 0.6. */
  datatype Candidate = Candidate(score: Score, current: nat, previous: nat)

  function InsertByScore(c: Candidate, cs: seq<Candidate>): seq<Candidate>
    decreases |cs|
  {
    if cs == [] || ScoreLe(cs[0].score, c.score) then [c] + cs else [cs[0]] + InsertByScore(c, cs[1..])
  }

  /** `sort_by` on the score, highest first, which is stable. */
  function SortByScore(cs: seq<Candidate>): seq<Candidate>
    decreases |cs|
  {
    if cs == [] then [] else InsertByScore(cs[0], SortByScore(cs[1..]))
  }

  ghost predicate Descending(cs: seq<Candidate>) {
    forall i, j :: 0 <= i < j < |cs| ==> ScoreLe(cs[j].score, cs[i].score)
  }

  lemma ScoreTransitive(a: Score, b: Score, c: Score)
    requires b.whole > 0 && ScoreLe(a, b) && ScoreLe(b, c)
    ensures ScoreLe(a, c)
  {
    Cross(a.part, a.whole, b.part, b.whole, c.part, c.whole);
  }

  lemma Cross(a: nat, a': nat, b: nat, b': nat, c: nat, c': nat)
    requires b' > 0 && a * b' <= b * a' && b * c' <= c * b'
    ensures a * c' <= c * a'
  {
    assert (a * c') * b' <= (c * a') * b' by {
      assert (a * b') * c' <= (b * a') * c';
      assert (b * c') * a' <= (c * b') * a';
      assert (a * c') * b' == (a * b') * c' && (b * a') * c' == (b * c') * a' && (c * b') * a' == (c * a') * b';
    }
    Grow(a * c', c * a', b');
  }

  lemma Grow(x: nat, y: nat, n: nat)
    requires n > 0
    ensures x > y ==> x * n > y * n
  {
    if x > y { assert (x - y) * n > 0; }
  }

  lemma {:induction false} InsertScored(c: Candidate, cs: seq<Candidate>)
    ensures multiset(InsertByScore(c, cs)) == multiset{c} + multiset(cs)
    ensures forall d :: d in InsertByScore(c, cs) <==> d == c || d in cs
    decreases |cs|
  {
    if cs != [] && !ScoreLe(cs[0].score, c.score) {
      InsertScored(c, cs[1..]);
      assert cs == [cs[0]] + cs[1..];
    }
  }

  lemma {:induction false} InsertDescending(c: Candidate, cs: seq<Candidate>)
    requires Descending(cs) && (forall d :: d in cs ==> d.score.whole > 0) && c.score.whole > 0
    ensures Descending(InsertByScore(c, cs))
    decreases |cs|
  {
    if cs != [] {
      var d, rest := cs[0], cs[1..];
      assert d in cs;
      assert forall e :: e in rest ==> ScoreLe(e.score, d.score);
      if ScoreLe(d.score, c.score) {
        forall e | e in rest ensures ScoreLe(e.score, c.score) { ScoreTransitive(e.score, d.score, c.score); }
      } else {
        InsertScored(c, rest);
        InsertDescending(c, rest);
        assert forall e :: e in InsertByScore(c, rest) ==> ScoreLe(e.score, d.score);
      }
    }
  }

  lemma {:induction false} SortDescends(cs: seq<Candidate>)
    requires forall d :: d in cs ==> d.score.whole > 0
    ensures Descending(SortByScore(cs)) && multiset(SortByScore(cs)) == multiset(cs)
    ensures forall d :: d in SortByScore(cs) <==> d in cs
    decreases |cs|
  {
    if cs != [] {
      SortDescends(cs[1..]);
      assert cs[0] in cs;
      InsertDescending(cs[0], SortByScore(cs[1..]));
      InsertScored(cs[0], SortByScore(cs[1..]));
      assert cs == [cs[0]] + cs[1..];
    }
  }

  predicate SameScore(s: Score, t: Score) { ScoreLe(s, t) && ScoreLe(t, s) }

  /** The candidates of one score, in order. */
  function OfScore(cs: seq<Candidate>, s: Score): seq<Candidate>
    decreases |cs|
  {
    if cs == [] then []
    else if SameScore(cs[0].score, s) then [cs[0]] + OfScore(cs[1..], s)
    else OfScore(cs[1..], s)
  }

  lemma OfScoreCons(c: Candidate, cs: seq<Candidate>, s: Score)
    ensures OfScore([c] + cs, s) == if SameScore(c.score, s) then [c] + OfScore(cs, s) else OfScore(cs, s)
  {
    assert ([c] + cs)[1..] == cs;
  }

  lemma {:induction false} InsertStable(c: Candidate, cs: seq<Candidate>, s: Score)
    requires s.whole > 0
    ensures OfScore(InsertByScore(c, cs), s) == OfScore([c] + cs, s)
    decreases |cs|
  {
    if cs != [] && !ScoreLe(cs[0].score, c.score) {
      var d, rest := cs[0], cs[1..];
      InsertStable(c, rest, s);
      OfScoreCons(d, InsertByScore(c, rest), s);
      OfScoreCons(c, rest, s);
      OfScoreCons(c, cs, s);
      if SameScore(d.score, s) && SameScore(c.score, s) { ScoreTransitive(d.score, s, c.score); }
    }
  }

  /** Candidates with equal scores keep their order. */
  lemma {:induction false} SortKeepsTies(cs: seq<Candidate>, s: Score)
    requires s.whole > 0
    ensures OfScore(SortByScore(cs), s) == OfScore(cs, s)
    decreases |cs|
  {
    if cs != [] {
      SortKeepsTies(cs[1..], s);
      InsertStable(cs[0], SortByScore(cs[1..]), s);
      OfScoreCons(cs[0], SortByScore(cs[1..]), s);
    }
  }

  predicate InRange(st: State, cs: seq<Candidate>) {
    forall c :: c in cs ==> c.current < |st.matches| && c.previous < |st.used|
  }

  predicate Free(st: State, c: Candidate)
    requires c.current < |st.matches| && c.previous < |st.used|
  {
    st.matches[c.current].None? && !st.used[c.previous]
  }

  /** The state after the first `k` candidates: each is taken if both sides are free. */
  function Greedy(st: State, cs: seq<Candidate>, k: nat): (r: State)
    requires k <= |cs| && InRange(st, cs)
    ensures |r.matches| == |st.matches| && |r.used| == |st.used|
    decreases k
  {
    if k == 0 then st
    else
      var before := Greedy(st, cs, k - 1);
      var c := cs[k - 1];
      assert c in cs;
      if Free(before, c) then Pair(before, c.current, c.previous) else before
  }

  /** The candidate is one of the pairs. */
  ghost predicate Taken(st: State, c: Candidate) {
    c.current < |st.matches| && st.matches[c.current] == Some(c.previous)
  }

  ghost predicate Meet(c: Candidate, d: Candidate) { c.current == d.current || c.previous == d.previous }

  /** Nothing is undone, and each new pair is one of the first `k` candidates. */
  ghost predicate Grown(st: State, cs: seq<Candidate>, k: nat, r: State)
    requires k <= |cs|
  {
    && |r.matches| == |st.matches| && |r.used| == |st.used|
    && (forall i :: 0 <= i < |st.matches| ==> st.matches[i].Some? ==> r.matches[i] == st.matches[i])
    && (forall p :: 0 <= p < |st.used| ==> st.used[p] ==> r.used[p])
    && (forall i :: 0 <= i < |st.matches| ==> r.matches[i] == st.matches[i] || TakenBefore(cs, k, r, i))
  }

  ghost predicate TakenBefore(cs: seq<Candidate>, k: nat, r: State, i: nat)
    requires k <= |cs|
  {
    exists j :: 0 <= j < k && cs[j].current == i && Taken(r, cs[j])
  }

  lemma {:induction false} GreedyGrows(st: State, cs: seq<Candidate>, k: nat)
    requires k <= |cs| && InRange(st, cs) && Consistent(st)
    ensures Consistent(Greedy(st, cs, k)) && Grown(st, cs, k, Greedy(st, cs, k))
    decreases k
  {
    if k > 0 {
      GreedyGrows(st, cs, k - 1);
      var before, r := Greedy(st, cs, k - 1), Greedy(st, cs, k);
      var c := cs[k - 1];
      assert c in cs;
      if Free(before, c) { PairConsistent(before, c.current, c.previous); }
      forall i | 0 <= i < |st.matches| ensures r.matches[i] == st.matches[i] || TakenBefore(cs, k, r, i) {
        if Free(before, c) && i == c.current {
          assert Taken(r, cs[k - 1]);
        } else if before.matches[i] != st.matches[i] {
          var j :| 0 <= j < k - 1 && cs[j].current == i && Taken(before, cs[j]);
          assert Taken(r, cs[j]);
        }
      }
    }
  }

  /** A candidate of the first `k` meets a taken candidate that scores at least as much. */
  ghost predicate Beaten(cs: seq<Candidate>, k: nat, r: State, c: Candidate)
    requires k <= |cs|
  {
    exists j :: 0 <= j < k && Taken(r, cs[j]) && Meet(cs[j], c) && ScoreLe(c.score, cs[j].score)
  }

  lemma UsedByCandidate(st: State, cs: seq<Candidate>, k: nat, r: State, p: nat) returns (j: nat)
    requires k <= |cs| && Grown(st, cs, k, r) && Consistent(st) && Consistent(r)
    requires p < |st.used| && !st.used[p] && r.used[p]
    ensures j < k && cs[j].previous == p && Taken(r, cs[j])
  {
    var i :| 0 <= i < |r.matches| && r.matches[i] == Some(p);
    assert PairOk(st, i);
    j :| 0 <= j < k && cs[j].current == i && Taken(r, cs[j]);
  }

  /** One candidate at the moment it is looked at. */
  lemma BeatenWhenSeen(st: State, cs: seq<Candidate>, k: nat)
    requires k < |cs| && InRange(st, cs) && Consistent(st) && Descending(cs)
    requires forall c :: c in cs ==> Free(st, c)
    ensures Beaten(cs, k + 1, Greedy(st, cs, k + 1), cs[k])
  {
    var before, r, c := Greedy(st, cs, k), Greedy(st, cs, k + 1), cs[k];
    assert c in cs;
    GreedyGrows(st, cs, k);
    if Free(before, c) {
      assert Taken(r, cs[k]) && Meet(cs[k], c);
    } else if before.matches[c.current].Some? {
      var j :| 0 <= j < k && cs[j].current == c.current && Taken(before, cs[j]);
      assert Taken(r, cs[j]) && Meet(cs[j], c);
    } else {
      var j := UsedByCandidate(st, cs, k, before, c.previous);
      assert Taken(r, cs[j]) && Meet(cs[j], c);
    }
  }

  lemma {:induction false} BeatenStays(st: State, cs: seq<Candidate>, k: nat, m: nat, c: Candidate)
    requires k <= m <= |cs| && InRange(st, cs) && Beaten(cs, k, Greedy(st, cs, k), c)
    ensures Beaten(cs, m, Greedy(st, cs, m), c)
    decreases m - k
  {
    if k < m {
      var before, r := Greedy(st, cs, k), Greedy(st, cs, k + 1);
      var j :| 0 <= j < k && Taken(before, cs[j]) && Meet(cs[j], c) && ScoreLe(c.score, cs[j].score);
      assert cs[k] in cs;
      assert Taken(r, cs[j]);
      BeatenStays(st, cs, k + 1, m, c);
    }
  }

  /** No blocking pair: every candidate meets a taken one that scores at least as much. */
  lemma NoBlockingPair(st: State, cs: seq<Candidate>, c: Candidate)
    requires InRange(st, cs) && Consistent(st) && Descending(cs) && c in cs
    requires forall d :: d in cs ==> Free(st, d)
    ensures Beaten(cs, |cs|, Greedy(st, cs, |cs|), c)
  {
    var k :| 0 <= k < |cs| && cs[k] == c;
    BeatenWhenSeen(st, cs, k);
    BeatenStays(st, cs, k + 1, |cs|, c);
  }

  /** `update_entries`: the loop over the sorted candidates. */
  method GreedyPhase(cs: seq<Candidate>, matches: array<Option<nat>>, used: array<bool>)
    requires InRange(State(matches[..], used[..]), cs)
    modifies matches, used
    ensures State(matches[..], used[..]) == Greedy(old(State(matches[..], used[..])), cs, |cs|)
  {
    ghost var start := State(matches[..], used[..]);
    var k := 0;
    while k < |cs|
      invariant 0 <= k <= |cs|
      invariant State(matches[..], used[..]) == Greedy(start, cs, k)
    {
      var c := cs[k];
      assert c in cs;
      if matches[c.current].None? && !used[c.previous] {
        matches[c.current] := Some(c.previous);
        used[c.previous] := true;
      }
      k := k + 1;
    }
  }
}
