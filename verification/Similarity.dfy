/**
 How alike two changelog entries are: the share of their characters that a longest common
 subsequence keeps (crates/changelog-release-notes/src/range.rs).
 */
module Similarity {
  import Text

  // ----- longest common subsequences -----

  /** `s` is left when some elements of `a` are deleted. */
  ghost predicate IsSubsequence<T>(s: seq<T>, a: seq<T>)
    decreases |a|
  {
    if a == [] then s == []
    else
      var n, m := |a| - 1, |s| - 1;
      || IsSubsequence(s, a[..n])
      || (s != [] && s[m] == a[n] && IsSubsequence(s[..m], a[..n]))
  }

  ghost predicate IsCommon<T>(s: seq<T>, a: seq<T>, b: seq<T>) { IsSubsequence(s, a) && IsSubsequence(s, b) }

  function Max(x: nat, y: nat): nat { if x < y then y else x }

  /** The cell that the rolling rows hold for two prefixes. */
  function Lcs<T(==)>(a: seq<T>, b: seq<T>): nat
    decreases |a| + |b|
  {
    if a == [] || b == [] then 0
    else
      var n, m := |a| - 1, |b| - 1;
      if a[n] == b[m] then Lcs(a[..n], b[..m]) + 1 else Max(Lcs(a[..n], b), Lcs(a, b[..m]))
  }

  lemma {:induction false} EmptySubsequence<T>(a: seq<T>)
    ensures IsSubsequence([], a)
    decreases |a|
  {
    if a != [] { EmptySubsequence(a[..|a| - 1]); }
  }

  lemma {:induction false} ShorterSubsequence<T>(s: seq<T>, a: seq<T>)
    requires IsSubsequence(s, a)
    ensures |s| <= |a|
    ensures |s| == |a| ==> s == a
    decreases |a|
  {
    if a != [] {
      var n, m := |a| - 1, |s| - 1;
      if IsSubsequence(s, a[..n]) {
        ShorterSubsequence(s, a[..n]);
      } else {
        ShorterSubsequence(s[..m], a[..n]);
        assert s == s[..m] + [s[m]] && a == a[..n] + [a[n]];
      }
    }
  }

  lemma {:induction false} SelfSubsequence<T>(a: seq<T>)
    ensures IsSubsequence(a, a)
    decreases |a|
  {
    if a != [] { SelfSubsequence(a[..|a| - 1]); }
  }

  /** The last element of a subsequence can be dropped together with that of the whole. */
  lemma {:induction false} DropLast<T>(s: seq<T>, a: seq<T>)
    requires IsSubsequence(s, a) && s != []
    ensures a != [] && IsSubsequence(s[..|s| - 1], a[..|a| - 1])
    decreases |a|
  {
    var n, m := |a| - 1, |s| - 1;
    if IsSubsequence(s, a[..n]) {
      DropLast(s, a[..n]);
    }
  }

  /** No common subsequence is longer. */
  lemma {:induction false} LcsIsLongest<T>(s: seq<T>, a: seq<T>, b: seq<T>)
    requires IsCommon(s, a, b)
    ensures |s| <= Lcs(a, b)
    decreases |a| + |b|
  {
    if a != [] && b != [] {
      var n, m := |a| - 1, |b| - 1;
      if a[n] == b[m] {
        if s != [] {
          DropLast(s, a);
          DropLast(s, b);
          LcsIsLongest(s[..|s| - 1], a[..n], b[..m]);
        }
      } else if IsSubsequence(s, a[..n]) {
        LcsIsLongest(s, a[..n], b);
      } else {
        LcsIsLongest(s, a, b[..m]);
      }
    }
  }

  /** Some common subsequence is that long. */
  lemma {:induction false} LcsIsReached<T>(a: seq<T>, b: seq<T>) returns (s: seq<T>)
    ensures IsCommon(s, a, b) && |s| == Lcs(a, b)
    decreases |a| + |b|
  {
    if a == [] || b == [] {
      EmptySubsequence(a);
      EmptySubsequence(b);
      s := [];
    } else {
      var n, m := |a| - 1, |b| - 1;
      if a[n] == b[m] {
        var rest := LcsIsReached(a[..n], b[..m]);
        s := rest + [a[n]];
        assert s[..|s| - 1] == rest;
      } else if Lcs(a[..n], b) < Lcs(a, b[..m]) {
        s := LcsIsReached(a, b[..m]);
      } else {
        s := LcsIsReached(a[..n], b);
      }
    }
  }

  lemma {:induction false} LcsSymmetric<T>(a: seq<T>, b: seq<T>)
    ensures Lcs(a, b) == Lcs(b, a)
    decreases |a| + |b|
  {
    var s := LcsIsReached(a, b);
    LcsIsLongest(s, b, a);
    var t := LcsIsReached(b, a);
    LcsIsLongest(t, a, b);
  }

  /** The rolling rows of `similarity`: one row of the table at a time. */
  method ComputeLcs<T(==)>(left: seq<T>, right: seq<T>) returns (length: nat)
    ensures length == Lcs(left, right)
  {
    var row := seq(|right| + 1, _ => 0);
    var i := 0;
    while i < |left|
      invariant 0 <= i <= |left|
      invariant |row| == |right| + 1
      invariant forall j :: 0 <= j <= |right| ==> row[j] == Lcs(left[..i], right[..j])
    {
      row := NextRow(left, right, i, row);
      i := i + 1;
    }
    assert left[..|left|] == left && right[..|right|] == right;
    length := row[|right|];
  }

  method NextRow<T(==)>(left: seq<T>, right: seq<T>, i: nat, row: seq<nat>) returns (next: seq<nat>)
    requires i < |left| && |row| == |right| + 1
    requires forall j :: 0 <= j <= |right| ==> row[j] == Lcs(left[..i], right[..j])
    ensures |next| == |right| + 1
    ensures forall j :: 0 <= j <= |right| ==> next[j] == Lcs(left[..i + 1], right[..j])
  {
    next := [0];
    var j := 0;
    while j < |right|
      invariant 0 <= j <= |right| && |next| == j + 1
      invariant forall k :: 0 <= k <= j ==> next[k] == Lcs(left[..i + 1], right[..k])
    {
      Cell(left, right, i, j);
      next := next + [if left[i] == right[j] then row[j] + 1 else Max(row[j + 1], next[j])];
      j := j + 1;
    }
  }

  lemma Cell<T>(left: seq<T>, right: seq<T>, i: nat, j: nat)
    requires i < |left| && j < |right|
    ensures Lcs(left[..i + 1], right[..j + 1]) ==
            if left[i] == right[j] then Lcs(left[..i], right[..j]) + 1
            else Max(Lcs(left[..i], right[..j + 1]), Lcs(left[..i + 1], right[..j]))
  {
    assert left[..i + 1][..i] == left[..i] && right[..j + 1][..j] == right[..j];
  }

  // ----- scores -----

  /** A score as an exact fraction. */
  datatype Score = Score(part: nat, whole: nat)

  predicate ValidScore(s: Score) { s.part <= s.whole && s.whole > 0 }

  predicate ScoreLe(s: Score, t: Score) { s.part * t.whole <= t.part * s.whole }

  /** At least 0.6. */
  predicate Passes(s: Score) { 10 * s.part >= 6 * s.whole }

  function Joined(lines: seq<string>): string
    decreases |lines|
  {
    if lines == [] then [] else if |lines| == 1 then lines[0] else lines[0] + "\n" + Joined(lines[1..])
  }

  /** UTF-8, in which the texts are compared. */
  function Utf8(c: char): seq<nat> {
    var x := c as int;
    if x < 0x80 then [x]
    else if x < 0x800 then [0xC0 + x / 64, 0x80 + x % 64]
    else if x < 0x10000 then [0xE0 + x / 64 / 64, 0x80 + x / 64 % 64, 0x80 + x % 64]
    else [0xF0 + x / 64 / 64 / 64, 0x80 + x / 64 / 64 % 64, 0x80 + x / 64 % 64, 0x80 + x % 64]
  }

  function Bytes(s: string): seq<nat>
    decreases |s|
  {
    if s == [] then [] else Utf8(s[0]) + Bytes(s[1..])
  }

  lemma LeadByte(c: char)
    ensures var lead := Utf8(c)[0];
            |Utf8(c)| == if lead < 0x80 then 1 else if lead < 0xE0 then 2 else if lead < 0xF0 then 3 else 4
  {
  }

  /** The first byte says where a character ends, and its bytes say which one it is. */
  lemma SameCharacter(c: char, d: char, s: seq<nat>, t: seq<nat>)
    requires Utf8(c) + s == Utf8(d) + t
    ensures c == d && s == t
  {
    var a, b := Utf8(c) + s, Utf8(d) + t;
    LeadByte(c);
    LeadByte(d);
    assert a[0] == Utf8(c)[0] && b[0] == Utf8(d)[0];
    assert a[..|Utf8(c)|] == Utf8(c) && b[..|Utf8(d)|] == Utf8(d);
    assert a[|Utf8(c)|..] == s && b[|Utf8(d)|..] == t;
    SameBytes(c, d);
  }

  lemma SameDigits(x: nat, y: nat)
    requires x / 64 == y / 64 && x % 64 == y % 64
    ensures x == y
  {
  }

  lemma SameBytes(c: char, d: char)
    requires Utf8(c) == Utf8(d)
    ensures c == d
  {
    var x, y := c as int, d as int;
    var bytes := Utf8(c);
    var n := |bytes| - 1;
    if n > 0 {
      assert x % 64 == bytes[n] - 0x80 == y % 64;
      if n > 1 {
        assert x / 64 % 64 == bytes[n - 1] - 0x80 == y / 64 % 64;
        if n > 2 { SameDigits(x / 64 / 64, y / 64 / 64); }
        SameDigits(x / 64, y / 64);
      }
      SameDigits(x, y);
    }
  }

  lemma {:induction false} BytesInjective(s: string, t: string)
    requires Bytes(s) == Bytes(t)
    ensures s == t
    decreases |s|
  {
    if s != [] && t != [] {
      SameCharacter(s[0], t[0], Bytes(s[1..]), Bytes(t[1..]));
      BytesInjective(s[1..], t[1..]);
      assert s == [s[0]] + s[1..] && t == [t[0]] + t[1..];
    }
  }

  function TextScore<T(==)>(left: seq<T>, right: seq<T>): Score {
    var length := |left| + |right|;
    if length == 0 then Score(1, 1) else Score(2 * Lcs(left, right), length)
  }

  function EntryScore(left: seq<string>, right: seq<string>): Score {
    TextScore(Bytes(Joined(left)), Bytes(Joined(right)))
  }

  lemma {:induction false} BytesConcat(a: string, b: string)
    ensures Bytes(a + b) == Bytes(a) + Bytes(b)
    decreases |a|
  {
    if a == [] {
      assert a + b == b;
    } else {
      assert (a + b)[0] == a[0] && (a + b)[1..] == a[1..] + b;
      BytesConcat(a[1..], b);
      Regrouped(Utf8(a[0]), Bytes(a[1..]), Bytes(b));
    }
  }

  lemma Regrouped<T>(a: seq<T>, b: seq<T>, c: seq<T>)
    ensures a + (b + c) == a + b + c
  {
  }

  lemma BytesOne(c: char)
    ensures Bytes([c]) == Utf8(c)
  {
    assert [c][1..] == [];
  }

  /** Entries are joined by line feeds. */
  lemma {:induction false} JoinedConcat(a: seq<string>, b: seq<string>)
    requires a != [] && b != []
    ensures Joined(a + b) == Joined(a) + "\n" + Joined(b) && Joined([a[0]]) == a[0]
    decreases |a|
  {
    assert (a + b)[1..] == a[1..] + b && (a + b)[0] == a[0];
    if |a| == 1 {
      assert a[1..] + b == b;
    } else {
      JoinedConcat(a[1..], b);
      var x, y, z := a[0] + "\n", Joined(a[1..]), "\n" + Joined(b);
      assert x + (y + z) == x + y + z;
      assert y + "\n" + Joined(b) == y + z && x + y + "\n" + Joined(b) == x + y + z;
    }
  }

  /** The code point that a sequence of bytes stands for, as section 3 of RFC 3629 defines it. */
  ghost predicate Encodes(bytes: seq<nat>, x: nat) {
    match |bytes|
    case 1 => x <= 0x7F && bytes[0] == x
    case 2 => 0x80 <= x <= 0x7FF && Lead(bytes, 0xC0, 32) && Tail(bytes, 1)
              && x == (bytes[0] - 0xC0) * 64 + (bytes[1] - 0x80)
    case 3 => 0x800 <= x <= 0xFFFF && Lead(bytes, 0xE0, 16) && Tail(bytes, 1) && Tail(bytes, 2)
              && x == (bytes[0] - 0xE0) * 4096 + (bytes[1] - 0x80) * 64 + (bytes[2] - 0x80)
    case 4 => 0x10000 <= x <= 0x10FFFF && Lead(bytes, 0xF0, 8) && Tail(bytes, 1) && Tail(bytes, 2) && Tail(bytes, 3)
              && x == (bytes[0] - 0xF0) * 262144 + (bytes[1] - 0x80) * 4096 + (bytes[2] - 0x80) * 64 + (bytes[3] - 0x80)
    case _ => false
  }

  ghost predicate Lead(bytes: seq<nat>, first: nat, count: nat) { bytes != [] && first <= bytes[0] < first + count }

  ghost predicate Tail(bytes: seq<nat>, i: nat) { i < |bytes| && 0x80 <= bytes[i] < 0xC0 }

  lemma Utf8Is(c: char)
    ensures Encodes(Utf8(c), c as int)
  {
  }

  /** The score is twice the length of a longest common subsequence over both lengths; empty texts are alike. */
  lemma ScoreIs<T>(left: seq<T>, right: seq<T>, s: seq<T>)
    requires IsCommon(s, left, right) && forall t :: IsCommon(t, left, right) ==> |t| <= |s|
    ensures TextScore(left, right) ==
            if left == [] && right == [] then Score(1, 1) else Score(2 * |s|, |left| + |right|)
  {
    var t := LcsIsReached(left, right);
    LcsIsLongest(s, left, right);
  }

  /** Scores are compared as fractions. */
  lemma ScoreLeIs(s: Score, t: Score)
    requires s.whole > 0 && t.whole > 0
    ensures ScoreLe(s, t) <==> s.part as real / s.whole as real <= t.part as real / t.whole as real
  {
    var a, b, c, d := s.part as real, s.whole as real, t.part as real, t.whole as real;
    assert (s.part * t.whole) as real == a * d && (t.part * s.whole) as real == c * b;
    FractionsCompare(a, b, c, d, a / b, c / d);
  }

  lemma FractionsCompare(a: real, b: real, c: real, d: real, x: real, y: real)
    requires b > 0.0 && d > 0.0 && a == x * b && c == y * d
    ensures a * d <= c * b <==> x <= y
  {
    assert a * d == x * (b * d) && c * b == y * (b * d);
    assert b * d > 0.0;
    assert (y - x) * (b * d) == y * (b * d) - x * (b * d);
    if x > y { assert (x - y) * (b * d) > 0.0; }
  }

  /** A score is between 0 and 1, does not depend on the order, and is 1 only for equal texts. */
  lemma ScoreMeans<T>(left: seq<T>, right: seq<T>)
    ensures ValidScore(TextScore(left, right)) && TextScore(left, right) == TextScore(right, left)
    ensures TextScore(left, right).part == TextScore(left, right).whole <==> left == right
  {
    LcsSymmetric(left, right);
    var s := LcsIsReached(left, right);
    ShorterSubsequence(s, left);
    ShorterSubsequence(s, right);
    if left == right {
      SelfSubsequence(left);
      LcsIsLongest(left, left, right);
    }
  }

  /** Two entries score 1 exactly if they read the same. */
  lemma FullScoreIff(left: seq<string>, right: seq<string>)
    ensures var s := EntryScore(left, right);
            ValidScore(s) && s == EntryScore(right, left) && (s.part == s.whole <==> Joined(left) == Joined(right))
  {
    var l, r := Joined(left), Joined(right);
    ScoreMeans(Bytes(l), Bytes(r));
    if Bytes(l) == Bytes(r) { BytesInjective(l, r); }
  }

  lemma SameFirstLine(x: string, r: string, y: string, t: string)
    requires '\n' !in x && '\n' !in y && x + "\n" + r == y + "\n" + t
    ensures x == y && r == t
  {
    var s := x + "\n" + r;
    assert (x + "\n")[..|x|] == x && (y + "\n")[..|y|] == y;
    Text.LineLengthOfLine(x + "\n", r);
    Text.LineLengthOfLine(y + "\n", t);
    assert |x| == |y|;
    assert s[..|x|] == x && s[..|y|] == y && s[|x| + 1..] == r && s[|y| + 1..] == t;
  }

  lemma {:induction false} JoinedInjective(a: seq<string>, b: seq<string>)
    requires a != [] && b != [] && (forall l :: l in a ==> '\n' !in l) && (forall l :: l in b ==> '\n' !in l)
    requires Joined(a) == Joined(b)
    ensures a == b
    decreases |a|
  {
    assert a[0] in a && b[0] in b;
    assert |a| > 1 ==> Joined(a)[|a[0]|] == '\n' && '\n' in Joined(a);
    assert |b| > 1 ==> Joined(b)[|b[0]|] == '\n' && '\n' in Joined(b);
    if |a| > 1 && |b| > 1 {
      SameFirstLine(a[0], Joined(a[1..]), b[0], Joined(b[1..]));
      JoinedInjective(a[1..], b[1..]);
    }
    assert a == [a[0]] + a[1..] && b == [b[0]] + b[1..];
  }

  /** For entries as they are read, which have lines and no line feeds in them, a score of 1 means equality. */
  lemma EqualEntriesIff(left: seq<string>, right: seq<string>)
    requires left != [] && right != []
    requires (forall l :: l in left ==> '\n' !in l) && (forall l :: l in right ==> '\n' !in l)
    ensures EntryScore(left, right).part == EntryScore(left, right).whole <==> left == right
  {
    FullScoreIff(left, right);
    if Joined(left) == Joined(right) { JoinedInjective(left, right); }
  }

  /**
   The threshold: entries can be paired if and only if some common subsequence keeps three tenths of
   the characters of both.
   */
  lemma PassesIff<T(!new)>(left: seq<T>, right: seq<T>)
    ensures Passes(TextScore(left, right)) <==>
            exists s: seq<T> :: IsCommon(s, left, right) && 10 * |s| >= 3 * (|left| + |right|)
  {
    var s := LcsIsReached(left, right);
    if t: seq<T> :| IsCommon(t, left, right) && 10 * |t| >= 3 * (|left| + |right|) {
      LcsIsLongest(t, left, right);
    }
  }

  method ComputeScore(left: seq<string>, right: seq<string>) returns (score: Score)
    ensures score == EntryScore(left, right)
  {
    var l, r := Bytes(Joined(left)), Bytes(Joined(right));
    var kept := ComputeLcs(l, r);
    var length := |l| + |r|;
    score := if length == 0 then Score(1, 1) else Score(2 * kept, length);
  }
}
