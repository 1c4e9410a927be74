/** create_furigana_image: parse, split into tokens, group into lines and
    draw each line from the left margin. What the page shows is the list of
    draws; the image buffer and the fonts are not modelled. */
module Image {
  import opened Chars
  import opened Items
  import opened Matching
  import opened Parser
  import opened Tokenizer
  import opened Measure
  import opened Layout
  import opened LayoutRule
  import opened Render

  /** The draws of a sequence of lines, each drawn from the left margin on
      its row, in order. */
  function PageDraws(ds: seq<LineDraw>, furiganaSize: nat, m: Measure): seq<TextDraw>
    decreases |ds|
  {
    if ds == [] then []
    else
      var last := ds[|ds| - 1];
      PageDraws(ds[..|ds| - 1], furiganaSize, m) + LineDraws(last.tokens, Margin, last.y, furiganaSize, m)
  }

  /** The token stream the layout works on. */
  function Words(text: string): seq<Item> {
    Tokenize(Parse(text))
  }

  /** Everything create_furigana_image draws for `text`. */
  function Page(text: string, cfg: Config, m: Measure): seq<TextDraw> {
    PageDraws(Lines(cfg, m, Words(text)).lines, cfg.furiganaSize, m)
  }

  lemma PageStep(ds: seq<LineDraw>, n: nat, furiganaSize: nat, m: Measure, before: seq<TextDraw>, after: seq<TextDraw>)
    requires n < |ds|
    requires before == PageDraws(ds[..n], furiganaSize, m)
    requires after == before + LineDraws(ds[n].tokens, Margin, ds[n].y, furiganaSize, m)
    ensures after == PageDraws(ds[..n + 1], furiganaSize, m)
  {
    assert ds[..n + 1][..n] == ds[..n];
  }

  /** create_furigana_image: the three stages, then draw_line for every line
      the layout produced, from the left margin on that line's row. */
  method CreateFuriganaImage(text: string, cfg: Config, m: Measure) returns (draws: seq<TextDraw>)
    ensures draws == Page(text, cfg, m)
  {
    var segments := ParseFuriganaText(text);
    var words := BreakTextIntoWords(segments);
    var lines := GroupIntoLines(words, cfg, m);
    draws := [];
    for n := 0 to |lines|
      invariant draws == PageDraws(lines[..n], cfg.furiganaSize, m)
    {
      ghost var before := draws;
      var lineDraws, _ := DrawLine(lines[n].tokens, Margin, lines[n].y, cfg.furiganaSize, m);
      draws := draws + lineDraws;
      PageStep(lines, n, cfg.furiganaSize, m, before, draws);
    }
    assert lines[..|lines|] == lines;
  }

  /** The token stream still spells the input, annotations included, and
      keeps its furigana in order. */
  lemma WordsKeepText(text: string)
    ensures Flatten(Words(text)) == text
    ensures FuriganaOf(Words(text)) == FuriganaOf(Parse(text))
  {
    ParseReconstructs(text);
    TokenizeFlatten(Parse(text));
    TokenizeFurigana(Parse(text));
  }

  /** The input with its newlines removed. */
  function DropNewlines(s: string): (r: string)
    ensures '\n' !in r
    ensures |r| <= |s|
    decreases |s|
  {
    if s == [] then []
    else (if s[0] == '\n' then [] else [s[0]]) + DropNewlines(s[1..])
  }

  lemma {:induction false} DropNewlinesAppend(a: string, b: string)
    ensures DropNewlines(a + b) == DropNewlines(a) + DropNewlines(b)
    decreases |a|
  {
    if a != [] {
      assert (a + b)[1..] == a[1..] + b;
      DropNewlinesAppend(a[1..], b);
    } else {
      assert a + b == b;
    }
  }

  /** A string without newlines is left as it is. */
  lemma {:induction false} DropNewlinesNone(s: string)
    requires '\n' !in s
    ensures DropNewlines(s) == s
    decreases |s|
  {
    if s != [] {
      assert s == [s[0]] + s[1..];
      DropNewlinesNone(s[1..]);
    }
  }

  /** Only line breaks stand for a newline. */
  ghost predicate NewlinesAreBreaks(ts: seq<Item>) {
    forall t :: t in ts && !t.LineBreak? ==> '\n' !in Source(t)
  }

  /** Leaving out the line breaks leaves out exactly the newlines. */
  lemma {:induction false} FlattenPrintable(ts: seq<Item>)
    requires NewlinesAreBreaks(ts)
    ensures Flatten(Printable(ts)) == DropNewlines(Flatten(ts))
    decreases |ts|
  {
    if ts != [] {
      var head := if ts[0].LineBreak? then [] else [ts[0]];
      assert NewlinesAreBreaks(ts[1..]);
      FlattenPrintable(ts[1..]);
      FlattenAppend(head, Printable(ts[1..]));
      DropNewlinesAppend(Source(ts[0]), Flatten(ts[1..]));
      if ts[0].LineBreak? {
        assert DropNewlines("\n") == [];
      } else {
        DropNewlinesNone(Source(ts[0]));
        assert Flatten(head) == Source(ts[0]);
      }
    }
  }

  /** A furigana token of the stream is a furigana segment of the parse. */
  lemma {:induction false} FuriganaOfHas(ts: seq<Item>, t: Item)
    requires t in ts && t.Furigana?
    ensures t in FuriganaOf(ts)
    decreases |ts|
  {
    if ts[0] != t {
      FuriganaOfHas(ts[1..], t);
    }
  }

  lemma {:induction false} FuriganaOfIn(ts: seq<Item>, t: Item)
    requires t in FuriganaOf(ts)
    ensures t in ts
    decreases |ts|
  {
    if ts != [] && !(ts[0].Furigana? && t == ts[0]) {
      FuriganaOfIn(ts[1..], t);
    }
  }

  lemma TokenNoNewline(t: Item)
    requires t.Text? && IsToken(t)
    ensures '\n' !in Source(t)
  {
    if IsWord(t) {
      assert forall k :: 0 <= k < |t.content| ==> IsWordChar(t.content[k]);
      assert !IsWordChar('\n');
    }
  }

  lemma FuriganaNoNewline(t: Item)
    requires t.Furigana? && IsBase(t.kanji) && AllSatisfy(t.reading, IsReadingChar)
    ensures '\n' !in Source(t)
  {
    var w := t.kanji;
    var q :| 1 <= q <= |w| && AllSatisfy(w[..q], IsKanji) && AllSatisfy(w[q..], IsKana);
    assert Source(t) == w[..q] + w[q..] + "[" + t.reading + "]";
    assert '\n' !in w[..q] by {
      assert forall k :: 0 <= k < q ==> IsKanji(w[..q][k]);
    }
    assert '\n' !in w[q..] by {
      assert forall k :: 0 <= k < |w| - q ==> IsKana(w[q..][k]);
    }
    assert '\n' !in t.reading by {
      assert forall k :: 0 <= k < |t.reading| ==> IsReadingChar(t.reading[k]);
    }
  }

  /** No token of the stream holds a newline except a line break. */
  lemma WordsNewlines(text: string)
    ensures NewlinesAreBreaks(Words(text))
  {
    var segs := Parse(text);
    var words := Words(text);
    forall t | t in words && !t.LineBreak?
      ensures '\n' !in Source(t)
    {
      if t.Text? {
        TokenizeShapes(segs);
        TokenNoNewline(t);
      } else {
        TokenizeFurigana(segs);
        FuriganaOfHas(words, t);
        FuriganaOfIn(segs, t);
        ParseShapes(text);
        FuriganaNoNewline(t);
      }
    }
  }

  lemma FlattenPrefix(full: seq<Item>, p: nat)
    requires p <= |full|
    ensures Flatten(full[..p]) <= Flatten(full)
  {
    assert full == full[..p] + full[p..];
    FlattenAppend(full[..p], full[p..]);
  }

  lemma ConcatInit(ds: seq<LineDraw>)
    requires ds != []
    ensures Concat(ds) == Concat(ds[..|ds| - 1]) + ds[|ds| - 1].tokens
  {
    var n := |ds| - 1;
    assert ds == ds[..n] + [ds[n]];
    ConcatAppend(ds[..n], [ds[n]]);
    assert Concat([ds[n]]) == ds[n].tokens;
  }

  lemma CancelRight<T>(a: seq<T>, b: seq<T>, c: seq<T>)
    requires a + c == b + c
    ensures a == b
  {
    assert |a| == |b|;
    assert a == (a + c)[..|a|];
    assert b == (b + c)[..|b|];
  }

  /** A page that stopped early spells a prefix of what it would have drawn,
      unless it drew its last line twice, in which case the lines before
      the last spell that prefix. */
  lemma StoppedPrefix(ds: seq<LineDraw>, full: seq<Item>, p: nat)
    requires p <= |full|
    requires Concat(ds) == full[..p] || (Redrawn(ds) && Concat(ds) == full[..p] + ds[|ds| - 1].tokens)
    ensures Flatten(Concat(ds)) <= Flatten(full)
      || (Redrawn(ds) && Flatten(Concat(ds[..|ds| - 1])) <= Flatten(full))
  {
    FlattenPrefix(full, p);
    if Concat(ds) != full[..p] {
      ConcatInit(ds);
      CancelRight(Concat(ds[..|ds| - 1]), full[..p], ds[|ds| - 1].tokens);
    }
  }

  /** What the page shows, end to end: when the text fits, the drawn tokens
      spell the whole input with its newlines turned into row changes; when
      the page runs out of rows, they spell a prefix of it, except that a
      page ending on an overflow draws its last line twice. */
  lemma PageText(text: string, cfg: Config, m: Measure)
    ensures var o := Lines(cfg, m, Words(text));
      (!o.stopped ==> Flatten(Concat(o.lines)) == DropNewlines(text))
      && (o.stopped ==>
            Flatten(Concat(o.lines)) <= DropNewlines(text)
            || (Redrawn(o.lines) && Flatten(Concat(o.lines[..|o.lines| - 1])) <= DropNewlines(text)))
  {
    var words := Words(text);
    var o := Lines(cfg, m, words);
    var full := Printable(words);
    WordsKeepText(text);
    WordsNewlines(text);
    FlattenPrintable(words);
    assert Flatten(full) == DropNewlines(text);
    LinesTokens(cfg, m, words);
    if o.stopped {
      var p :| 0 <= p <= |full|
        && (Concat(o.lines) == full[..p]
            || (Redrawn(o.lines) && Concat(o.lines) == full[..p] + o.lines[|o.lines| - 1].tokens));
      StoppedPrefix(o.lines, full, p);
    }
  }

  /** Every line of more than one token lies between the margins: each of
      its tokens starts at or after the left margin and ends by the right
      one. A single token wider than the page is drawn as it is. */
  lemma PageInsideMargins(cfg: Config, m: Measure, words: seq<Item>)
    ensures forall d, k :: d in Lines(cfg, m, words).lines && 0 <= k < |d.tokens| ==>
      Margin <= CursorAt(d.tokens, k, Margin, m)
      && (|d.tokens| > 1 ==> CursorAt(d.tokens, k, Margin, m) + Width(d.tokens[k], m) <= cfg.width - Margin)
  {
    LinesWellFormed(cfg, m, words);
    forall d, k | d in Lines(cfg, m, words).lines && 0 <= k < |d.tokens|
      ensures Margin <= CursorAt(d.tokens, k, Margin, m)
      ensures |d.tokens| > 1 ==> CursorAt(d.tokens, k, Margin, m) + Width(d.tokens[k], m) <= cfg.width - Margin
    {
      TokenWithinSpan(d.tokens, k, Margin, m);
    }
  }
}
