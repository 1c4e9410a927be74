/** Character classes the layout pipeline distinguishes, by code point. */
module Chars {

  /** `[一-龯]`: the CJK ideographs U+4E00 to U+9FAF. */
  predicate IsKanji(c: char) {
    '\U{4E00}' <= c <= '\U{9FAF}'
  }

  /** `[ぁ-ゟァ-ヿ]`: hiragana U+3041 to U+309F and katakana U+30A1 to U+30FF. */
  predicate IsKana(c: char) {
    ('\U{3041}' <= c <= '\U{309F}') || ('\U{30A1}' <= c <= '\U{30FF}')
  }

  /** `[ぁ-ゟァ-ヿー]`: the kana above or the prolonged sound mark U+30FC. */
  predicate IsReadingChar(c: char) {
    IsKana(c) || c == '\U{30FC}'
  }

  /** Python's `str.isspace` on a single code point: the characters whose
      bidirectional class is WS, B or S, or whose category is Zs. */
  predicate IsPySpace(c: char) {
    ('\t' <= c <= '\r') || ('\U{1C}' <= c <= ' ')
    || c == '\U{85}' || c == '\U{A0}' || c == '\U{1680}'
    || ('\U{2000}' <= c <= '\U{200A}')
    || c == '\U{2028}' || c == '\U{2029}' || c == '\U{202F}' || c == '\U{205F}'
    || c == '\U{3000}'
  }

  /** Python's `str.isspace` on a string: non-empty and made of whitespace only. */
  predicate IsSpace(s: string) {
    |s| > 0 && forall k :: 0 <= k < |s| ==> IsPySpace(s[k])
  }

  predicate AllSatisfy(w: string, p: char -> bool) {
    forall k :: 0 <= k < |w| ==> p(w[k])
  }

  /** The end of the maximal run of `p`-characters that starts at `i`
      (what a greedy `[...]*` consumes from there). */
  function RunEnd(s: string, i: nat, p: char -> bool): (j: nat)
    requires i <= |s|
    ensures i <= j <= |s|
    decreases |s| - i
  {
    if i < |s| && p(s[i]) then RunEnd(s, i + 1, p) else i
  }

  /** The run is maximal: every character in it satisfies `p`, and the
      character that ends it (if any) does not. */
  lemma {:induction false} RunEndSpec(s: string, i: nat, p: char -> bool)
    requires i <= |s|
    ensures forall k :: i <= k < RunEnd(s, i, p) ==> p(s[k])
    ensures RunEnd(s, i, p) < |s| ==> !p(s[RunEnd(s, i, p)])
    decreases |s| - i
  {
    if i < |s| && p(s[i]) {
      RunEndSpec(s, i + 1, p);
    }
  }

  /** A run is determined by where it starts: any `j` with the two run
      properties is the one RunEnd finds. */
  lemma {:induction false} RunEndUnique(s: string, i: nat, p: char -> bool, j: nat)
    requires i <= j <= |s|
    requires forall k :: i <= k < j ==> p(s[k])
    requires j < |s| ==> !p(s[j])
    ensures RunEnd(s, i, p) == j
    decreases j - i
  {
    if i < j {
      RunEndUnique(s, i + 1, p, j);
    }
  }
}
