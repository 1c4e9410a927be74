/** draw_line and create_furigana_image: where each piece of text is drawn.
    A draw is recorded as its position, its text and its font; the pixels
    are not modelled. */
module Render {
  import opened Chars
  import opened Items
  import opened Measure
  import opened Layout

  /** One draw.text call. Positions are reals: a reading is centred with a
      true division and lifted by 2.5 pixels. */
  datatype TextDraw = TextDraw(x: real, y: real, text: string, font: Font)

  /** The width draw_line moves past for a token. It never measures a line
      break, which the layout does not hand it. */
  function Width(t: Item, m: Measure): nat {
    if t.LineBreak? then 0 else SegmentWidth(t, m)
  }

  /** The gap after a token: none after a whitespace text token, which
      brings its own spacing, 2 pixels after anything else. */
  function Gap(t: Item): nat {
    if t.Text? && IsSpace(t.content) then 0 else 2
  }

  /** How far draw_line moves the cursor past a token. */
  function Advance(t: Item, m: Measure): nat {
    Width(t, m) + Gap(t)
  }

  /** How far draw_line moves the cursor past a line of tokens. */
  function LineAdvance(ts: seq<Item>, m: Measure): nat
    decreases |ts|
  {
    if ts == [] then 0 else LineAdvance(ts[..|ts| - 1], m) + Advance(ts[|ts| - 1], m)
  }

  /** The draws for one token with the cursor at `x` on row `y`: text at the
      cursor; for furigana, the reading in the small font centred over the
      base and lifted above the row, then the base at the cursor. */
  function TokenDraws(t: Item, x: int, y: int, furiganaSize: nat, m: Measure): seq<TextDraw> {
    match t
    case Text(c) => [TextDraw(x as real, y as real, c, MainFont)]
    case Furigana(k, r) =>
      var kw, fw := m(k, MainFont), m(r, FuriganaFont);
      [TextDraw(x as real + (kw - fw) as real / 2.0, (y - furiganaSize) as real + 2.5, r, FuriganaFont),
       TextDraw(x as real, y as real, k, MainFont)]
    case LineBreak => []
  }

  /** The draws of draw_line for a line starting at `x` on row `y`. */
  function LineDraws(ts: seq<Item>, x: int, y: int, furiganaSize: nat, m: Measure): seq<TextDraw>
    decreases |ts|
  {
    if ts == [] then []
    else
      var init := ts[..|ts| - 1];
      LineDraws(init, x, y, furiganaSize, m) + TokenDraws(ts[|ts| - 1], x + LineAdvance(init, m), y, furiganaSize, m)
  }

  /** Extending a line by one token: the draws and the cursor advance of
      the longer prefix. */
  lemma LineStep(ts: seq<Item>, n: nat, x: int, y: int, furiganaSize: nat, m: Measure)
    requires n < |ts|
    ensures LineDraws(ts[..n + 1], x, y, furiganaSize, m)
      == LineDraws(ts[..n], x, y, furiganaSize, m) + TokenDraws(ts[n], x + LineAdvance(ts[..n], m), y, furiganaSize, m)
    ensures LineAdvance(ts[..n + 1], m) == LineAdvance(ts[..n], m) + Advance(ts[n], m)
  {
    assert ts[..n + 1][..n] == ts[..n];
  }

  lemma LineStepAt(ts: seq<Item>, n: nat, x: int, y: int, furiganaSize: nat, m: Measure,
                   d0: seq<TextDraw>, x0: int, d1: seq<TextDraw>, x1: int)
    requires n < |ts|
    requires d0 == LineDraws(ts[..n], x, y, furiganaSize, m) && x0 == x + LineAdvance(ts[..n], m)
    requires d1 == d0 + TokenDraws(ts[n], x0, y, furiganaSize, m) && x1 == x0 + Advance(ts[n], m)
    ensures d1 == LineDraws(ts[..n + 1], x, y, furiganaSize, m) && x1 == x + LineAdvance(ts[..n + 1], m)
  {
    LineStep(ts, n, x, y, furiganaSize, m);
  }

  /** The body of draw_line's loop for one token: its draws with the cursor
      at `x`, and the cursor past it. */
  method DrawToken(word: Item, x: int, y: int, furiganaSize: nat, m: Measure)
    returns (draws: seq<TextDraw>, next: int)
    ensures draws == TokenDraws(word, x, y, furiganaSize, m)
    ensures next == x + Advance(word, m)
  {
    draws := [];
    next := x;
    if word.Text? {
      draws := draws + [TextDraw(x as real, y as real, word.content, MainFont)];
      next := next + m(word.content, MainFont);
    } else if word.Furigana? {
      var kanjiWidth: int := m(word.kanji, MainFont);
      var furiganaWidth: int := m(word.reading, FuriganaFont);
      var kanjiX := x;
      var furiganaX := x as real + (kanjiWidth - furiganaWidth) as real / 2.0;
      draws := draws + [TextDraw(furiganaX, (y - furiganaSize) as real + 2.5, word.reading, FuriganaFont)];
      draws := draws + [TextDraw(kanjiX as real, y as real, word.kanji, MainFont)];
      next := next + if kanjiWidth >= furiganaWidth then kanjiWidth else furiganaWidth;
    }
    if !(word.Text? && IsSpace(word.content)) {
      next := next + 2;
    }
  }

  /** draw_line: draws every token of the line at the cursor and moves the
      cursor past it. Returns the draws and the final cursor. */
  method DrawLine(lineWords: seq<Item>, startX: int, y: int, furiganaSize: nat, m: Measure)
    returns (draws: seq<TextDraw>, x: int)
    ensures draws == LineDraws(lineWords, startX, y, furiganaSize, m)
    ensures x == startX + LineAdvance(lineWords, m)
  {
    draws := [];
    x := startX;
    for n := 0 to |lineWords|
      invariant draws == LineDraws(lineWords[..n], startX, y, furiganaSize, m)
      invariant x == startX + LineAdvance(lineWords[..n], m)
    {
      ghost var d0, x0 := draws, x;
      var tokenDraws;
      tokenDraws, x := DrawToken(lineWords[n], x, y, furiganaSize, m);
      draws := draws + tokenDraws;
      LineStepAt(lineWords, n, startX, y, furiganaSize, m, d0, x0, draws, x);
    }
    assert lineWords[..|lineWords|] == lineWords;
  }

  /** Where draw_line puts token `k` of a line that starts at `x`. */
  function CursorAt(ts: seq<Item>, k: nat, x: int, m: Measure): int
    requires k <= |ts|
  {
    x + LineAdvance(ts[..k], m)
  }

  lemma {:induction false} LineAdvanceAppend(a: seq<Item>, b: seq<Item>, m: Measure)
    ensures LineAdvance(a + b, m) == LineAdvance(a, m) + LineAdvance(b, m)
    decreases |b|
  {
    if b == [] {
      assert a + b == a;
    } else {
      var init := b[..|b| - 1];
      assert (a + b)[..|a + b| - 1] == a + init;
      LineAdvanceAppend(a, init, m);
    }
  }

  lemma {:induction false} LineDrawsAppend(a: seq<Item>, b: seq<Item>, x: int, y: int, furiganaSize: nat, m: Measure)
    ensures LineDraws(a + b, x, y, furiganaSize, m)
      == LineDraws(a, x, y, furiganaSize, m) + LineDraws(b, x + LineAdvance(a, m), y, furiganaSize, m)
    decreases |b|
  {
    if b == [] {
      assert a + b == a;
    } else {
      var init := b[..|b| - 1];
      assert (a + b)[..|a + b| - 1] == a + init;
      LineDrawsAppend(a, init, x, y, furiganaSize, m);
      LineAdvanceAppend(a, init, m);
    }
  }

  /** Drawing a line extended by one token. */
  lemma LineDrawsSnoc(a: seq<Item>, t: Item, x: int, y: int, furiganaSize: nat, m: Measure)
    ensures LineDraws(a + [t], x, y, furiganaSize, m)
      == LineDraws(a, x, y, furiganaSize, m) + TokenDraws(t, x + LineAdvance(a, m), y, furiganaSize, m)
    ensures LineAdvance(a + [t], m) == LineAdvance(a, m) + Advance(t, m)
  {
    var head := a + [t];
    assert head[..|head| - 1] == a;
    assert head[|head| - 1] == t;
  }

  /** Drawing a line is drawing what comes before a token, then the token
      at the cursor those tokens leave, then the rest of the line past it. */
  lemma LineDrawsSplit(a: seq<Item>, t: Item, b: seq<Item>, x: int, y: int, furiganaSize: nat, m: Measure)
    ensures LineDraws(a + [t] + b, x, y, furiganaSize, m)
      == LineDraws(a, x, y, furiganaSize, m)
         + TokenDraws(t, x + LineAdvance(a, m), y, furiganaSize, m)
         + LineDraws(b, x + LineAdvance(a, m) + Advance(t, m), y, furiganaSize, m)
  {
    LineDrawsSnoc(a, t, x, y, furiganaSize, m);
    LineDrawsAppend(a + [t], b, x, y, furiganaSize, m);
  }

  /** The cursor moves past each token by exactly its width plus the gap,
      and the gap is missing only after a whitespace text token. */
  lemma CursorSteps(ts: seq<Item>, k: nat, x: int, m: Measure)
    requires k < |ts|
    ensures CursorAt(ts, k + 1, x, m) == CursorAt(ts, k, x, m) + Width(ts[k], m) + Gap(ts[k])
    ensures Gap(ts[k]) == 0 <==> (ts[k].Text? && IsSpace(ts[k].content))
    ensures Gap(ts[k]) != 0 ==> Gap(ts[k]) == 2
  {
    LineStep(ts, k, x, 0, 0, m);
  }

  /** Tokens are drawn left to right without overlapping: each token's box
      ends before any later token's box starts. */
  lemma BoxesInOrder(ts: seq<Item>, k: nat, l: nat, x: int, m: Measure)
    requires k < l < |ts|
    ensures CursorAt(ts, k, x, m) + Width(ts[k], m) <= CursorAt(ts, l, x, m)
  {
    assert ts[..l] == ts[..k + 1] + ts[k + 1..l];
    LineAdvanceAppend(ts[..k + 1], ts[k + 1..l], m);
    LineStep(ts, k, x, 0, 0, m);
  }

  /** The cursor passes a non-empty run of tokens in at most their span plus
      one trailing gap. */
  lemma {:induction false} AdvanceWithinSpan(ts: seq<Item>, m: Measure)
    requires ts != [] && NoBreaks(ts)
    ensures LineAdvance(ts, m) <= Span(ts, m) + 2
    decreases |ts|
  {
    var init := ts[..|ts| - 1];
    if |ts| == 1 {
      assert init == [];
    } else {
      assert NoBreaks(init);
      AdvanceWithinSpan(init, m);
    }
  }

  /** A prefix of a line spans no more than the whole line. */
  lemma {:induction false} SpanPrefix(ts: seq<Item>, j: nat, m: Measure)
    requires NoBreaks(ts) && 1 <= j <= |ts|
    ensures NoBreaks(ts[..j]) && Span(ts[..j], m) <= Span(ts, m)
    decreases |ts|
  {
    if j < |ts| {
      var init := ts[..|ts| - 1];
      assert ts[..j] == init[..j];
      assert NoBreaks(init);
      SpanPrefix(init, j, m);
    } else {
      assert ts[..j] == ts;
    }
  }

  /** The span of a line's first `k + 1` tokens, from the span of its first `k`. */
  lemma SpanStep(ts: seq<Item>, k: nat, m: Measure)
    requires NoBreaks(ts) && k < |ts|
    ensures NoBreaks(ts[..k]) && NoBreaks(ts[..k + 1])
    ensures Span(ts[..k + 1], m) == if k == 0 then Width(ts[k], m) else Span(ts[..k], m) + 2 + Width(ts[k], m)
  {
    var p := ts[..k + 1];
    assert p[..|p| - 1] == ts[..k];
    assert p[|p| - 1] == ts[k];
  }

  /** Every token of a line ends within the line's span from the start. */
  lemma TokenWithinSpan(ts: seq<Item>, k: nat, x: int, m: Measure)
    requires NoBreaks(ts) && k < |ts|
    ensures x <= CursorAt(ts, k, x, m)
    ensures CursorAt(ts, k, x, m) + Width(ts[k], m) <= x + Span(ts, m)
  {
    SpanStep(ts, k, m);
    SpanPrefix(ts, k + 1, m);
    if k > 0 {
      AdvanceWithinSpan(ts[..k], m);
    } else {
      assert ts[..k] == [];
    }
  }

  /** The reading of a furigana token is centred over its base: the two
      have the same midpoint. The base sits on the row at the cursor and the
      reading is lifted by the furigana size less 2.5 pixels. */
  lemma ReadingCentred(kanji: string, reading: string, x: int, y: int, furiganaSize: nat, m: Measure)
    ensures var ds := TokenDraws(Furigana(kanji, reading), x, y, furiganaSize, m);
      |ds| == 2
      && ds[1] == TextDraw(x as real, y as real, kanji, MainFont)
      && ds[0].text == reading && ds[0].font == FuriganaFont
      && ds[0].y == y as real - furiganaSize as real + 2.5
      && ds[0].x + m(reading, FuriganaFont) as real / 2.0 == ds[1].x + m(kanji, MainFont) as real / 2.0
  {
  }
}
