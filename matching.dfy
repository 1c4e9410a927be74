/** The furigana pattern `([一-龯]+[ぁ-ゟァ-ヿ]*)\[([ぁ-ゟァ-ヿー]+)\]`: what it
    means for it to match at a position, and the matcher that decides it. */
module Matching {
  import opened Chars
  import opened Items

  /** `s[i..q]` is one or more kanji, `s[q..b]` zero or more kana, `s[b]` is
      `[`, `s[b+1..e-1]` one or more reading characters and `s[e-1]` is `]`. */
  ghost predicate Pattern(s: string, i: int, q: int, b: int, e: int) {
    0 <= i < q <= b && b + 2 < e <= |s|
    && (forall k :: i <= k < q ==> IsKanji(s[k]))
    && (forall k :: q <= k < b ==> IsKana(s[k]))
    && s[b] == '['
    && (forall k :: b < k < e - 1 ==> IsReadingChar(s[k]))
    && s[e - 1] == ']'
  }

  /** The pattern matches `s[i..e]` with group 1 (the base) `s[i..b]` and
      group 2 (the reading) `s[b+1..e-1]`. */
  ghost predicate IsMatch(s: string, i: int, b: int, e: int) {
    exists q :: Pattern(s, i, q, b, e)
  }

  /** The base text `[一-龯]+[ぁ-ゟァ-ヿ]*`: one or more kanji, then kana. */
  ghost predicate IsBase(w: string) {
    exists q :: 1 <= q <= |w| && AllSatisfy(w[..q], IsKanji) && AllSatisfy(w[q..], IsKana)
  }

  /** The two groups of a match have the shapes the pattern names. */
  lemma MatchGroups(s: string, i: nat, b: nat, e: nat)
    requires IsMatch(s, i, b, e)
    ensures IsBase(s[i..b]) && s[b + 1..e - 1] != [] && AllSatisfy(s[b + 1..e - 1], IsReadingChar)
  {
    var q :| Pattern(s, i, q, b, e);
    var w := s[i..b];
    assert AllSatisfy(w[..q - i], IsKanji) && AllSatisfy(w[q - i..], IsKana);
  }

  /** A match: base `s[start..baseEnd]`, `[` at baseEnd, `]` at end - 1. */
  datatype Match = Match(start: nat, baseEnd: nat, end: nat)

  /** Where the matcher is within the pattern: in the kanji run, in the kana
      run, or in the reading after the `[` at `open`. */
  datatype Phase = Kanji | Kana | Reading(open: nat)

  /** The phase after reading character `c` at position `j`, or None where
      the pattern cannot go on (a closing `]` is handled by Scan). */
  function NextPhase(ph: Phase, c: char, j: nat): (r: Option<Phase>)
    ensures r.Some? && r.value.Reading? ==> r.value == ph || r.value.open == j
  {
    match ph
    case Kanji =>
      if IsKanji(c) then Some(Kanji)
      else if IsKana(c) then Some(Kana)
      else if c == '[' then Some(Reading(j))
      else None
    case Kana =>
      if IsKana(c) then Some(Kana)
      else if c == '[' then Some(Reading(j))
      else None
    case Reading(_) =>
      if IsReadingChar(c) then Some(ph) else None
  }

  /** The matcher for a match starting at `i`, about to read `s[j]`. The
      character classes are disjoint and exclude the brackets, so the
      regular expression never backtracks and one left-to-right pass decides. */
  function Scan(s: string, i: nat, j: nat, ph: Phase): (r: Option<Match>)
    requires i < j <= |s|
    requires ph.Reading? ==> i < ph.open < j
    ensures r.Some? ==> r.value.start == i < r.value.baseEnd && r.value.baseEnd + 2 < r.value.end <= |s|
    decreases |s| - j
  {
    if j == |s| then None
    else if ph.Reading? && s[j] == ']' then
      if ph.open + 1 < j then Some(Match(i, ph.open, j + 1)) else None
    else
      match NextPhase(ph, s[j], j)
      case None => None
      case Some(next) => Scan(s, i, j + 1, next)
  }

  /** The regular expression tried at position `i`, one step of `re.finditer`. */
  function MatchAt(s: string, i: nat): (r: Option<Match>)
    ensures r.Some? ==> r.value.start == i < r.value.baseEnd && r.value.baseEnd + 2 < r.value.end <= |s|
  {
    if i < |s| && IsKanji(s[i]) then Scan(s, i, i + 1, Kanji) else None
  }

  lemma {:induction false} ScanReading(s: string, i: nat, j: nat, b: nat)
    requires i < b < j <= |s|
    ensures var r := RunEnd(s, j, IsReadingChar);
      Scan(s, i, j, Reading(b)) == if r < |s| && s[r] == ']' && b + 1 < r then Some(Match(i, b, r + 1)) else None
    decreases |s| - j
  {
    if j < |s| && IsReadingChar(s[j]) {
      ScanReading(s, i, j + 1, b);
    }
  }

  lemma {:induction false} ScanKana(s: string, i: nat, j: nat)
    requires i < j <= |s|
    ensures var b := RunEnd(s, j, IsKana);
      Scan(s, i, j, Kana) == if b < |s| && s[b] == '[' then Scan(s, i, b + 1, Reading(b)) else None
    decreases |s| - j
  {
    if j < |s| && IsKana(s[j]) {
      ScanKana(s, i, j + 1);
    }
  }

  lemma {:induction false} ScanKanji(s: string, i: nat, j: nat)
    requires i < j <= |s|
    ensures Scan(s, i, j, Kanji) == Scan(s, i, RunEnd(s, j, IsKanji), Kana)
    decreases |s| - j
  {
    if j < |s| && IsKanji(s[j]) {
      ScanKanji(s, i, j + 1);
    }
  }

  /** The matcher agrees with the greedy runs of the three character classes. */
  lemma MatchAtRuns(s: string, i: nat)
    requires i <= |s|
    ensures var k := RunEnd(s, i, IsKanji);
      var b := RunEnd(s, k, IsKana);
      var r := if b < |s| then RunEnd(s, b + 1, IsReadingChar) else b;
      MatchAt(s, i) ==
        if k == i || b == |s| || s[b] != '[' || r == b + 1 || r == |s| || s[r] != ']' then None
        else Some(Match(i, b, r + 1))
  {
    var k := RunEnd(s, i, IsKanji);
    if k > i {
      assert RunEnd(s, i + 1, IsKanji) == k;
      ScanKanji(s, i, i + 1);
      assert MatchAt(s, i) == Scan(s, i, k, Kana);
      ScanKana(s, i, k);
      var b := RunEnd(s, k, IsKana);
      if b < |s| && s[b] == '[' {
        assert MatchAt(s, i) == Scan(s, i, b + 1, Reading(b));
        ScanReading(s, i, b + 1, b);
      } else {
        assert MatchAt(s, i) == None;
      }
    } else {
      assert MatchAt(s, i) == None;
    }
  }

  /** Every match of the pattern is the one the greedy runs find: the
      character classes are disjoint and exclude the brackets, so
      backtracking never changes the outcome. */
  lemma PatternRuns(s: string, i: nat, q: nat, b: nat, e: nat)
    requires Pattern(s, i, q, b, e)
    ensures RunEnd(s, i, IsKanji) == q
    ensures RunEnd(s, q, IsKana) == b
    ensures RunEnd(s, b + 1, IsReadingChar) == e - 1
  {
    RunEndUnique(s, i, IsKanji, q);
    RunEndUnique(s, q, IsKana, b);
    RunEndUnique(s, b + 1, IsReadingChar, e - 1);
  }

  /** The scanner step agrees with the pattern: it reports exactly the
      matches of the regular expression at `i`, and there is at most one. */
  lemma MatchAtCharacterised(s: string, i: nat, b: nat, e: nat)
    requires i <= |s|
    ensures MatchAt(s, i) == Some(Match(i, b, e)) <==> IsMatch(s, i, b, e)
  {
    MatchAtRuns(s, i);
    if IsMatch(s, i, b, e) {
      var q :| Pattern(s, i, q, b, e);
      PatternRuns(s, i, q, b, e);
    }
    if MatchAt(s, i) == Some(Match(i, b, e)) {
      var q := RunEnd(s, i, IsKanji);
      RunEndSpec(s, i, IsKanji);
      RunEndSpec(s, q, IsKana);
      RunEndSpec(s, b + 1, IsReadingChar);
      assert Pattern(s, i, q, b, e);
    }
  }
}
