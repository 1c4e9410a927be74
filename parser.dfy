/** parse_furigana_text: splits text into plain-text and furigana segments,
    taking the matches of the furigana pattern leftmost-first and without
    overlaps, the way `re.finditer` walks a string.

    The walk is written for any matcher, a function that says what the
    pattern matches at each position; Parse instantiates it with
    Matching.MatchAt. */
module Parser {
  import opened Chars
  import opened Items
  import opened Matching

  type Matcher = (string, nat) -> Option<Match>

  /** A match reported at `i` starts at `i`, has a non-empty base and a
      non-empty reading, and lies within the text. */
  ghost predicate IsMatcher(mt: Matcher) {
    forall s: string, i: nat :: mt(s, i).Some? ==>
      mt(s, i).value.start == i < mt(s, i).value.baseEnd
      && mt(s, i).value.baseEnd + 2 < mt(s, i).value.end <= |s|
  }

  lemma MatchAtIsMatcher()
    ensures IsMatcher(MatchAt)
  {
  }

  /** No match starts anywhere in `[lo, hi)`. */
  ghost predicate NoMatchIn(mt: Matcher, s: string, lo: nat, hi: nat)
    decreases hi - lo
  {
    lo >= hi || lo > |s| || (mt(s, lo) == None && NoMatchIn(mt, s, lo + 1, hi))
  }

  lemma {:induction false} NoMatchInAt(mt: Matcher, s: string, lo: nat, hi: nat, p: nat)
    requires NoMatchIn(mt, s, lo, hi) && lo <= p < hi && p <= |s|
    ensures mt(s, p) == None
    decreases p - lo
  {
    if lo < p {
      NoMatchInAt(mt, s, lo + 1, hi, p);
    }
  }

  lemma {:induction false} NoMatchInFromAll(mt: Matcher, s: string, lo: nat, hi: nat)
    requires forall p :: lo <= p < hi && p <= |s| ==> mt(s, p) == None
    ensures NoMatchIn(mt, s, lo, hi)
    decreases hi - lo
  {
    if lo < hi && lo <= |s| {
      NoMatchInFromAll(mt, s, lo + 1, hi);
    }
  }

  /** For the furigana pattern, NoMatchIn says that the regular expression
      matches nowhere in `[lo, hi)`. */
  lemma NoMatchInMeans(s: string, lo: nat, hi: nat)
    ensures NoMatchIn(MatchAt, s, lo, hi) <==> forall p, b, e :: lo <= p < hi ==> !IsMatch(s, p, b, e)
  {
    if NoMatchIn(MatchAt, s, lo, hi) {
      forall p, b, e | lo <= p < hi && IsMatch(s, p, b, e)
        ensures false
      {
        var q :| Pattern(s, p, q, b, e);
        MatchAtCharacterised(s, p, b, e);
        NoMatchInAt(MatchAt, s, lo, hi, p);
      }
    } else if forall p, b, e :: lo <= p < hi ==> !IsMatch(s, p, b, e) {
      forall p | lo <= p < hi && p <= |s|
        ensures MatchAt(s, p) == None
      {
        if MatchAt(s, p).Some? {
          MatchAtCharacterised(s, p, MatchAt(s, p).value.baseEnd, MatchAt(s, p).value.end);
        }
      }
      NoMatchInFromAll(MatchAt, s, lo, hi);
    }
  }

  /** The next match of `re.finditer`: the leftmost one starting at or after `from`. */
  function Search(mt: Matcher, s: string, from: nat): (r: Option<Match>)
    requires IsMatcher(mt) && from <= |s|
    ensures r.Some? ==> from <= r.value.start <= |s| && mt(s, r.value.start) == r
    ensures r.Some? ==> NoMatchIn(mt, s, from, r.value.start)
    ensures r.None? ==> NoMatchIn(mt, s, from, |s|)
    decreases |s| - from
  {
    match mt(s, from)
    case Some(m) => Some(m)
    case None => if from == |s| then None else Search(mt, s, from + 1)
  }

  /** A match at `p` with none before it in `[from, p)` is what the search finds. */
  lemma {:induction false} SearchFinds(mt: Matcher, s: string, from: nat, p: nat)
    requires IsMatcher(mt) && from <= p <= |s| && mt(s, p).Some? && NoMatchIn(mt, s, from, p)
    ensures Search(mt, s, from) == mt(s, p)
    decreases p - from
  {
    if from < p {
      SearchFinds(mt, s, from + 1, p);
    }
  }

  /** With no match in `[from, |s|)`, the search finds nothing. */
  lemma {:induction false} SearchNone(mt: Matcher, s: string, from: nat)
    requires IsMatcher(mt) && from <= |s| && NoMatchIn(mt, s, from, |s|)
    ensures Search(mt, s, from) == None
    decreases |s| - from
  {
    if from < |s| {
      SearchNone(mt, s, from + 1);
    }
  }

  /** The segments of `s[from..]`: the text before the next match, the
      match, then the segments after it. */
  function Segments(mt: Matcher, s: string, from: nat): seq<Item>
    requires IsMatcher(mt) && from <= |s|
    decreases |s| - from
  {
    match Search(mt, s, from)
    case None => if from < |s| then [Text(s[from..])] else []
    case Some(m) =>
      (if from < m.start then [Text(s[from..m.start])] else [])
      + [Furigana(s[m.start..m.baseEnd], s[m.baseEnd + 1..m.end - 1])]
      + Segments(mt, s, m.end)
  }

  /** A match at `i` becomes a furigana segment. */
  lemma SegmentsAtMatch(mt: Matcher, s: string, i: nat)
    requires IsMatcher(mt) && i <= |s| && mt(s, i).Some?
    ensures var m := mt(s, i).value;
      Segments(mt, s, i) == [Furigana(s[i..m.baseEnd], s[m.baseEnd + 1..m.end - 1])] + Segments(mt, s, m.end)
  {
    SearchFinds(mt, s, i, i);
  }

  /** The text before the next match becomes a text segment. */
  lemma SegmentsBeforeMatch(mt: Matcher, s: string, from: nat, q: nat)
    requires IsMatcher(mt) && from < q <= |s| && NoMatchIn(mt, s, from, q) && mt(s, q).Some?
    ensures Segments(mt, s, from) == [Text(s[from..q])] + Segments(mt, s, q)
  {
    SearchFinds(mt, s, from, q);
    SearchFinds(mt, s, q, q);
  }

  /** One step of the walk: the text before the next match (when there is
      any), then the match. */
  lemma SegmentsAtSearch(mt: Matcher, s: string, from: nat)
    requires IsMatcher(mt) && from <= |s| && Search(mt, s, from).Some?
    ensures var m := Search(mt, s, from).value;
      from <= m.start < m.baseEnd && m.baseEnd + 2 < m.end <= |s|
      && Segments(mt, s, from) ==
        (if from < m.start then [Text(s[from..m.start])] else [])
        + [Furigana(s[m.start..m.baseEnd], s[m.baseEnd + 1..m.end - 1])]
        + Segments(mt, s, m.end)
  {
    var m := Search(mt, s, from).value;
    SegmentsAtMatch(mt, s, m.start);
    if from < m.start {
      SegmentsBeforeMatch(mt, s, from, m.start);
    }
  }

  /** With no match left, the rest of the text becomes one text segment. */
  lemma SegmentsAtEnd(mt: Matcher, s: string, from: nat)
    requires IsMatcher(mt) && from <= |s| && NoMatchIn(mt, s, from, |s|)
    ensures Segments(mt, s, from) == if from < |s| then [Text(s[from..])] else []
  {
    SearchNone(mt, s, from);
  }

  /** parse_furigana_text as a function of its input. */
  function Parse(s: string): seq<Item> {
    MatchAtIsMatcher();
    Segments(MatchAt, s, 0)
  }

  /** A declarative reading of the parser's contract: `segs` cover
      `s[from..]` in order; every text segment is non-empty, holds the start
      of no match and is followed by a furigana segment or the end; every
      furigana segment is the match at its position. */
  ghost predicate IsParse(mt: Matcher, s: string, from: nat, segs: seq<Item>)
    requires from <= |s|
    decreases |segs|
  {
    if segs == [] then from == |s|
    else if segs[0].Text? then
      var c := segs[0].content;
      c != [] && from + |c| <= |s| && s[from..from + |c|] == c
      && NoMatchIn(mt, s, from, from + |c|)
      && (|segs| > 1 ==> segs[1].Furigana?)
      && IsParse(mt, s, from + |c|, segs[1..])
    else if segs[0].Furigana? then
      var k, r := segs[0].kanji, segs[0].reading;
      var e := from + |k| + |r| + 2;
      e <= |s| && s[from..from + |k|] == k && s[from + |k| + 1..e - 1] == r
      && mt(s, from) == Some(Match(from, from + |k|, e))
      && IsParse(mt, s, e, segs[1..])
    else false
  }

  lemma IsParseFurigana(mt: Matcher, s: string, i: nat, rest: seq<Item>)
    requires IsMatcher(mt) && i <= |s| && mt(s, i).Some?
    requires IsParse(mt, s, mt(s, i).value.end, rest)
    ensures var m := mt(s, i).value;
      IsParse(mt, s, i, [Furigana(s[i..m.baseEnd], s[m.baseEnd + 1..m.end - 1])] + rest)
  {
    var m := mt(s, i).value;
    var segs := [Furigana(s[i..m.baseEnd], s[m.baseEnd + 1..m.end - 1])] + rest;
    assert segs[1..] == rest;
  }

  lemma IsParseText(mt: Matcher, s: string, from: nat, q: nat, rest: seq<Item>)
    requires from < q <= |s| && NoMatchIn(mt, s, from, q) && IsParse(mt, s, q, rest)
    requires rest == [] || rest[0].Furigana?
    ensures IsParse(mt, s, from, [Text(s[from..q])] + rest)
  {
    var segs := [Text(s[from..q])] + rest;
    assert segs[1..] == rest;
  }

  /** A segmentation that IsParse admits and that starts with a furigana
      segment starts at a match. */
  lemma IsParseAtFurigana(mt: Matcher, s: string, from: nat, segs: seq<Item>)
    requires from <= |s| && IsParse(mt, s, from, segs) && segs != [] && segs[0].Furigana?
    ensures mt(s, from).Some?
    ensures var m := mt(s, from).value;
      m.end <= |s| && segs[0] == Furigana(s[from..m.baseEnd], s[m.baseEnd + 1..m.end - 1])
      && IsParse(mt, s, m.end, segs[1..])
  {
  }

  /** A segmentation that IsParse admits and that starts with a text
      segment starts with text holding no match, up to a match or the end. */
  lemma IsParseAtText(mt: Matcher, s: string, from: nat, segs: seq<Item>)
    requires from <= |s| && IsParse(mt, s, from, segs) && segs != [] && segs[0].Text?
    ensures var q := from + |segs[0].content|;
      from < q <= |s| && segs[0] == Text(s[from..q]) && NoMatchIn(mt, s, from, q)
      && IsParse(mt, s, q, segs[1..])
      && (segs[1..] == [] ==> q == |s|)
      && (segs[1..] != [] ==> segs[1..][0].Furigana?)
  {
  }

  lemma {:induction false} SegmentsIsParse(mt: Matcher, s: string, from: nat)
    requires IsMatcher(mt) && from <= |s|
    ensures IsParse(mt, s, from, Segments(mt, s, from))
    decreases |s| - from, 2
  {
    if Search(mt, s, from).Some? {
      SegmentsIsParseAtSearch(mt, s, from);
    } else {
      SegmentsAtEnd(mt, s, from);
      if from < |s| {
        IsParseText(mt, s, from, |s|, []);
      }
    }
  }

  lemma {:induction false} SegmentsIsParseAtSearch(mt: Matcher, s: string, from: nat)
    requires IsMatcher(mt) && from <= |s| && Search(mt, s, from).Some?
    ensures IsParse(mt, s, from, Segments(mt, s, from))
    decreases |s| - from, 1
  {
    var m := Search(mt, s, from).value;
    if from < m.start {
      SegmentsIsParseAtMatch(mt, s, m.start);
      SegmentsBeforeMatch(mt, s, from, m.start);
      IsParseText(mt, s, from, m.start, Segments(mt, s, m.start));
    } else {
      SegmentsIsParseAtMatch(mt, s, from);
    }
  }

  lemma {:induction false} SegmentsIsParseAtMatch(mt: Matcher, s: string, i: nat)
    requires IsMatcher(mt) && i <= |s| && mt(s, i).Some?
    ensures IsParse(mt, s, i, Segments(mt, s, i))
    ensures Segments(mt, s, i) != [] && Segments(mt, s, i)[0].Furigana?
    decreases |s| - i, 0
  {
    var m := mt(s, i).value;
    SegmentsAtMatch(mt, s, i);
    SegmentsIsParse(mt, s, m.end);
    IsParseFurigana(mt, s, i, Segments(mt, s, m.end));
  }

  lemma {:induction false} IsParseUnique(mt: Matcher, s: string, from: nat, segs: seq<Item>)
    requires IsMatcher(mt) && from <= |s| && IsParse(mt, s, from, segs)
    ensures segs == Segments(mt, s, from)
    decreases |segs|, 1
  {
    if segs == [] {
      SegmentsAtEnd(mt, s, from);
    } else if segs[0].Text? {
      IsParseUniqueText(mt, s, from, segs);
    } else {
      IsParseUniqueFurigana(mt, s, from, segs);
    }
  }

  lemma {:induction false} IsParseUniqueText(mt: Matcher, s: string, from: nat, segs: seq<Item>)
    requires IsMatcher(mt) && from <= |s| && IsParse(mt, s, from, segs) && segs != [] && segs[0].Text?
    ensures segs == Segments(mt, s, from)
    decreases |segs|, 0
  {
    IsParseAtText(mt, s, from, segs);
    var q := from + |segs[0].content|;
    var rest := segs[1..];
    IsParseUnique(mt, s, q, rest);
    if rest == [] {
      SegmentsAtEnd(mt, s, from);
      assert s[from..q] == s[from..];
    } else {
      IsParseAtFurigana(mt, s, q, rest);
      SegmentsBeforeMatch(mt, s, from, q);
    }
    assert segs == [segs[0]] + rest;
  }

  lemma {:induction false} IsParseUniqueFurigana(mt: Matcher, s: string, from: nat, segs: seq<Item>)
    requires IsMatcher(mt) && from <= |s| && IsParse(mt, s, from, segs) && segs != [] && segs[0].Furigana?
    ensures segs == Segments(mt, s, from)
    decreases |segs|, 0
  {
    IsParseAtFurigana(mt, s, from, segs);
    var m := mt(s, from).value;
    IsParseUnique(mt, s, m.end, segs[1..]);
    SegmentsAtMatch(mt, s, from);
    assert segs == [segs[0]] + segs[1..];
  }

  /** The annotated text a match of the furigana pattern spans. */
  lemma MatchSource(s: string, i: nat)
    requires i <= |s| && MatchAt(s, i).Some?
    ensures var m := MatchAt(s, i).value;
      s[i..] == s[i..m.baseEnd] + "[" + s[m.baseEnd + 1..m.end - 1] + "]" + s[m.end..]
  {
    var m := MatchAt(s, i).value;
    var b, e := m.baseEnd, m.end;
    MatchAtCharacterised(s, i, b, e);
    var q :| Pattern(s, i, q, b, e);
    assert s[i..] == s[i..b] + [s[b]] + s[b + 1..e - 1] + [s[e - 1]] + s[e..];
  }

  /** A matcher whose matches are spelled `base[reading]` in the text: the
      text from a match on is the match's furigana written out, then the rest. */
  ghost predicate KeepsSource(mt: Matcher)
  {
    forall s: string, i: nat :: SpelledAt(mt, s, i)
  }

  /** If `mt` matches at `i`, the text from `i` on is the match's furigana
      written out, then the rest. */
  ghost predicate SpelledAt(mt: Matcher, s: string, i: nat) {
    i <= |s| && mt(s, i).Some? ==>
      var m := mt(s, i).value;
      i <= m.baseEnd && m.baseEnd + 1 <= m.end - 1 && m.end <= |s| &&
      s[i..] == Source(Furigana(s[i..m.baseEnd], s[m.baseEnd + 1..m.end - 1])) + s[m.end..]
  }

  lemma MatchSpelled(s: string, i: nat)
    ensures SpelledAt(MatchAt, s, i)
  {
    if i <= |s| && MatchAt(s, i).Some? {
      var m := MatchAt(s, i).value;
      MatchSource(s, i);
      assert Source(Furigana(s[i..m.baseEnd], s[m.baseEnd + 1..m.end - 1]))
        == s[i..m.baseEnd] + "[" + s[m.baseEnd + 1..m.end - 1] + "]";
    }
  }

  lemma MatchAtKeepsSource()
    ensures KeepsSource(MatchAt)
  {
    forall s: string, i: nat
      ensures SpelledAt(MatchAt, s, i)
    {
      MatchSpelled(s, i);
    }
  }

  lemma {:induction false} IsParseFlatten(mt: Matcher, s: string, from: nat, segs: seq<Item>)
    requires KeepsSource(mt) && from <= |s| && IsParse(mt, s, from, segs)
    ensures Flatten(segs) == s[from..]
    decreases |segs|, 1
  {
    if segs == [] {
    } else if segs[0].Text? {
      IsParseFlattenText(mt, s, from, segs);
    } else {
      IsParseFlattenFurigana(mt, s, from, segs);
    }
  }

  lemma {:induction false} IsParseFlattenText(mt: Matcher, s: string, from: nat, segs: seq<Item>)
    requires KeepsSource(mt) && from <= |s| && IsParse(mt, s, from, segs)
    requires segs != [] && segs[0].Text?
    ensures Flatten(segs) == s[from..]
    decreases |segs|, 0
  {
    IsParseAtText(mt, s, from, segs);
    var q := from + |segs[0].content|;
    IsParseFlatten(mt, s, q, segs[1..]);
    assert Flatten(segs) == s[from..q] + Flatten(segs[1..]);
    assert s[from..] == s[from..q] + s[q..];
  }

  lemma {:induction false} IsParseFlattenFurigana(mt: Matcher, s: string, from: nat, segs: seq<Item>)
    requires KeepsSource(mt) && from <= |s| && IsParse(mt, s, from, segs)
    requires segs != [] && segs[0].Furigana?
    ensures Flatten(segs) == s[from..]
    decreases |segs|, 0
  {
    IsParseAtFurigana(mt, s, from, segs);
    var m := mt(s, from).value;
    assert SpelledAt(mt, s, from);
    IsParseFlatten(mt, s, m.end, segs[1..]);
  }

  /** The parser is characterised by IsParse: its output satisfies it, and it
      is the only segmentation that does. */
  lemma ParseCharacterised(s: string, segs: seq<Item>)
    ensures IsParse(MatchAt, s, 0, Parse(s))
    ensures IsParse(MatchAt, s, 0, segs) <==> segs == Parse(s)
  {
    MatchAtIsMatcher();
    SegmentsIsParse(MatchAt, s, 0);
    if IsParse(MatchAt, s, 0, segs) {
      IsParseUnique(MatchAt, s, 0, segs);
    }
  }

  /** Writing the segments back out (furigana as `kanji[reading]`) gives the input. */
  lemma ParseReconstructs(s: string)
    ensures Flatten(Parse(s)) == s
  {
    ParseCharacterised(s, Parse(s));
    MatchAtKeepsSource();
    IsParseFlatten(MatchAt, s, 0, Parse(s));
  }

  /** The shape every segment of a parse has: text is non-empty, and a
      furigana segment carries a base and a non-empty reading. */
  ghost predicate WellShaped(seg: Item)
  {
    match seg
    case Text(c) => c != []
    case Furigana(k, r) => IsBase(k) && r != [] && AllSatisfy(r, IsReadingChar)
    case LineBreak => true
  }

  lemma {:induction false} IsParseShapes(s: string, from: nat, segs: seq<Item>)
    requires from <= |s| && IsParse(MatchAt, s, from, segs)
    ensures forall i :: 0 <= i < |segs| ==> WellShaped(segs[i])
    decreases |segs|, 2
  {
    if segs != [] {
      if segs[0].Text? {
        IsParseShapesText(s, from, segs);
      } else {
        IsParseShapesFurigana(s, from, segs);
      }
    }
  }

  lemma {:induction false} IsParseShapesText(s: string, from: nat, segs: seq<Item>)
    requires from <= |s| && IsParse(MatchAt, s, from, segs) && segs != [] && segs[0].Text?
    ensures forall i :: 0 <= i < |segs| ==> WellShaped(segs[i])
    decreases |segs|, 1
  {
    var q := from + |segs[0].content|;
    IsParseShapes(s, q, segs[1..]);
    assert forall i :: 1 <= i < |segs| ==> segs[i] == segs[1..][i - 1];
  }

  lemma {:induction false} IsParseShapesFurigana(s: string, from: nat, segs: seq<Item>)
    requires from <= |s| && IsParse(MatchAt, s, from, segs) && segs != [] && segs[0].Furigana?
    ensures forall i :: 0 <= i < |segs| ==> WellShaped(segs[i])
    decreases |segs|, 1
  {
    IsParseAtFurigana(MatchAt, s, from, segs);
    var m := MatchAt(s, from).value;
    IsParseShapes(s, m.end, segs[1..]);
    MatchAtCharacterised(s, from, m.baseEnd, m.end);
    MatchGroups(s, from, m.baseEnd, m.end);
    assert forall i :: 1 <= i < |segs| ==> segs[i] == segs[1..][i - 1];
  }

  /** Every text segment is non-empty; every furigana segment has a base of
      kanji then kana and a non-empty reading of reading characters. */
  lemma ParseShapes(s: string)
    ensures forall seg :: seg in Parse(s) && seg.Text? ==> seg.content != []
    ensures forall seg :: seg in Parse(s) && seg.Furigana? ==>
      IsBase(seg.kanji) && seg.reading != [] && AllSatisfy(seg.reading, IsReadingChar)
  {
    ParseCharacterised(s, Parse(s));
    IsParseShapes(s, 0, Parse(s));
    forall seg | seg in Parse(s)
      ensures WellShaped(seg)
    {
      var i :| 0 <= i < |Parse(s)| && Parse(s)[i] == seg;
    }
  }

  /** Input holding no match, such as a `[` with no qualifying base, comes back
      as one text segment (none for empty input), and only such input does. */
  lemma ParseNoMatch(s: string)
    ensures Parse(s) == (if s == [] then [] else [Text(s)])
      <==> forall p, b, e :: 0 <= p < |s| ==> !IsMatch(s, p, b, e)
  {
    MatchAtIsMatcher();
    NoMatchInMeans(s, 0, |s|);
    if NoMatchIn(MatchAt, s, 0, |s|) {
      SegmentsAtEnd(MatchAt, s, 0);
    } else {
      SegmentsAtSearch(MatchAt, s, 0);
      var m := Search(MatchAt, s, 0).value;
      if 0 < m.start {
        assert Parse(s)[1].Furigana?;
      } else {
        assert Parse(s)[0].Furigana?;
      }
    }
  }

  /** One turn of parse_furigana_text's loop, as a step of Segments: the
      segments so far, then the text before the match (when there is any) and
      the match, followed by the segments after the match, are still all the
      segments. */
  lemma WalkStep(mt: Matcher, s: string, lastEnd: nat, done: seq<Item>, next: seq<Item>)
    requires IsMatcher(mt) && lastEnd <= |s| && Search(mt, s, lastEnd).Some?
    requires done + Segments(mt, s, lastEnd) == Segments(mt, s, 0)
    requires var m := Search(mt, s, lastEnd).value;
      next == (if lastEnd < m.start then done + [Text(s[lastEnd..m.start])] else done)
        + [Furigana(s[m.start..m.baseEnd], s[m.baseEnd + 1..m.end - 1])]
    ensures var m := Search(mt, s, lastEnd).value;
      lastEnd < m.end <= |s| && next + Segments(mt, s, m.end) == Segments(mt, s, 0)
  {
    SegmentsAtSearch(mt, s, lastEnd);
  }

  /** The end of parse_furigana_text's loop: the text after the last match. */
  lemma WalkEnd(mt: Matcher, s: string, lastEnd: nat, done: seq<Item>)
    requires IsMatcher(mt) && lastEnd <= |s| && Search(mt, s, lastEnd).None?
    ensures done + Segments(mt, s, lastEnd) ==
      if lastEnd < |s| then done + [Text(s[lastEnd..])] else done
  {
    SegmentsAtEnd(mt, s, lastEnd);
  }

  /** The loop of parse_furigana_text, for any matcher: walks the matches,
      emitting the text before each one (when non-empty) and the match, then
      the text after the last. */
  method WalkMatches(pattern: Matcher, text: string) returns (segments: seq<Item>)
    requires IsMatcher(pattern)
    ensures segments == Segments(pattern, text, 0)
  {
    segments := [];
    var lastEnd: nat := 0;
    var next := Search(pattern, text, 0);
    while next.Some?
      invariant lastEnd <= |text|
      invariant next == Search(pattern, text, lastEnd)
      invariant segments + Segments(pattern, text, lastEnd) == Segments(pattern, text, 0)
      decreases |text| - lastEnd
    {
      var m := next.value;
      ghost var done := segments;
      if m.start > lastEnd {
        var plainText := text[lastEnd..m.start];
        if |plainText| > 0 {
          segments := segments + [Text(plainText)];
        }
      }
      segments := segments + [Furigana(text[m.start..m.baseEnd], text[m.baseEnd + 1..m.end - 1])];
      WalkStep(pattern, text, lastEnd, done, segments);
      lastEnd := m.end;
      next := Search(pattern, text, lastEnd);
    }
    WalkEnd(pattern, text, lastEnd, segments);
    if lastEnd < |text| {
      var remainingText := text[lastEnd..];
      if |remainingText| > 0 {
        segments := segments + [Text(remainingText)];
      }
    }
  }

  /** parse_furigana_text: the walk over the matches of the furigana pattern. */
  method ParseFuriganaText(text: string) returns (segments: seq<Item>)
    ensures segments == Parse(text)
  {
    MatchAtIsMatcher();
    segments := WalkMatches(MatchAt, text);
  }
}
