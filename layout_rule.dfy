/** The layout loop of create_furigana_image follows the layout rule of
    module Layout, proved by induction over the loop's turns. The rule is
    handled here as one fact, `Follows`, so that each turn of the proof
    passes it along whole. */
module LayoutRule {
  import opened Items
  import opened Measure
  import opened Layout

  /** The loop from `from` on row `y` drew `o` by the layout rule. */
  predicate Follows(cfg: Config, m: Measure, words: seq<Item>, from: nat, y: int, o: Outcome, bs: seq<Bound>, stop: nat) {
    LaidOut(cfg, m, words, from, y, o, bs, stop)
  }

  /** A line drawn in front of a layout that follows the rule. */
  lemma FollowsPrepend(cfg: Config, m: Measure, words: seq<Item>, s: nat, e: nat, y: int, f: nat, y': int,
                       o: Outcome, bs: seq<Bound>, stop: nat, o': Outcome)
    requires y' == Below(cfg, y, Moves(e, f))
    requires Follows(cfg, m, words, f, y', o, bs, stop)
    requires Printing(words, Bound(s, e)) && e <= f && AllBreaks(words, e, f)
    requires o' == Prepend([LineDraw(y, words[s..e])], o)
    requires e - s > 1 ==> Tracked(m, words, Bound(s, e)) <= MaxLineWidth(cfg)
    requires e == f ==> (bs != [] && bs[0].start == f
      && Tracked(m, words, Bound(s, e)) + SegmentWidth(words[f], m) + 2 > MaxLineWidth(cfg))
    ensures Follows(cfg, m, words, s, y, o', [Bound(s, e)] + bs, stop)
  {
    PrependLine(cfg, m, words, s, e, y, f, y', o, bs, stop, o');
  }

  /** A line break read with no line pending, in front of a layout that
      follows the rule. */
  lemma FollowsGap(cfg: Config, m: Measure, words: seq<Item>, f: nat, y: int, o: Outcome, bs: seq<Bound>, stop: nat)
    requires 0 < f <= |words| && words[f - 1].LineBreak?
    requires Follows(cfg, m, words, f, y + LineHeight(cfg), o, bs, stop)
    ensures Follows(cfg, m, words, f - 1, y, o, bs, stop)
  {
    GapExtend(cfg, m, words, f, y, o, bs, stop);
  }

  /** The loop from token `i`, with the current line starting at `s`,
      follows the layout rule. */
  lemma {:induction false} RunFollows(cfg: Config, m: Measure, words: seq<Item>, s: nat, i: nat, line: seq<Item>, lw: int, y: int)
    returns (bs: seq<Bound>, stop: nat)
    requires LoopState(cfg, m, words, s, i, line, lw, y)
    ensures Follows(cfg, m, words, s, y, Run(cfg, m, words, i, line, lw, y), bs, stop)
    ensures line != [] ==> bs != [] && bs[0].start == s
    decreases |words| - i, 1
  {
    if Stops(cfg, m, words, i, line, lw, y) {
      bs, stop := StopLaidOut(cfg, m, words, s, i, line, lw, y);
    } else if words[i].LineBreak? && line == [] {
      bs, stop := BlankFollows(cfg, m, words, i, y);
    } else if words[i].LineBreak? {
      bs, stop := FlushFollows(cfg, m, words, s, i, line, lw, y);
    } else if line != [] && lw + SegmentWidth(words[i], m) + 2 > MaxLineWidth(cfg) {
      bs, stop := OverflowFollows(cfg, m, words, s, i, line, lw, y);
    } else {
      bs, stop := AppendFollows(cfg, m, words, s, i, line, lw, y);
    }
  }

  /** A token that fits joins the line. */
  lemma {:induction false} AppendFollows(cfg: Config, m: Measure, words: seq<Item>, s: nat, i: nat, line: seq<Item>, lw: int, y: int)
    returns (bs: seq<Bound>, stop: nat)
    requires LoopState(cfg, m, words, s, i, line, lw, y) && i < |words| && !words[i].LineBreak?
    requires line != [] ==> lw + SegmentWidth(words[i], m) + 2 <= MaxLineWidth(cfg)
    ensures Follows(cfg, m, words, s, y, Run(cfg, m, words, i, line, lw, y), bs, stop)
    ensures bs != [] && bs[0].start == s
    decreases |words| - i, 0
  {
    AppendState(cfg, m, words, s, i, line, lw, y);
    bs, stop := RunFollows(cfg, m, words, s, i + 1, line + [words[i]], lw + SegmentWidth(words[i], m) + 2, y);
  }

  /** A line break on an empty line only moves down a row. */
  lemma {:induction false} BlankFollows(cfg: Config, m: Measure, words: seq<Item>, i: nat, y: int)
    returns (bs: seq<Bound>, stop: nat)
    requires LoopState(cfg, m, words, i, i, [], 0, y) && i < |words| && words[i].LineBreak?
    requires !OutOfRoom(cfg, y + LineHeight(cfg))
    ensures Follows(cfg, m, words, i, y, Run(cfg, m, words, i, [], 0, y), bs, stop)
    decreases |words| - i, 0
  {
    BlankState(cfg, m, words, i, y);
    bs, stop := RunFollows(cfg, m, words, i + 1, i + 1, [], 0, y + LineHeight(cfg));
    FollowsGap(cfg, m, words, i + 1, y, Run(cfg, m, words, i + 1, [], 0, y + LineHeight(cfg)), bs, stop);
  }

  /** A line break after some tokens draws them and moves down a row. */
  lemma {:induction false} FlushFollows(cfg: Config, m: Measure, words: seq<Item>, s: nat, i: nat, line: seq<Item>, lw: int, y: int)
    returns (bs: seq<Bound>, stop: nat)
    requires LoopState(cfg, m, words, s, i, line, lw, y) && i < |words| && words[i].LineBreak?
    requires line != [] && !OutOfRoom(cfg, y + LineHeight(cfg))
    ensures Follows(cfg, m, words, s, y, Run(cfg, m, words, i, line, lw, y), bs, stop)
    ensures bs != [] && bs[0].start == s
    decreases |words| - i, 0
  {
    var next := y + LineHeight(cfg);
    FlushState(cfg, m, words, s, i, line, lw, y);
    var rbs, rstop := RunFollows(cfg, m, words, i + 1, i + 1, [], 0, next);
    FollowsPrepend(cfg, m, words, s, i, y, i + 1, next, Run(cfg, m, words, i + 1, [], 0, next), rbs, rstop,
      Run(cfg, m, words, i, line, lw, y));
    bs, stop := [Bound(s, i)] + rbs, rstop;
  }

  /** A token that does not fit flushes the line and starts the next one. */
  lemma {:induction false} OverflowFollows(cfg: Config, m: Measure, words: seq<Item>, s: nat, i: nat, line: seq<Item>, lw: int, y: int)
    returns (bs: seq<Bound>, stop: nat)
    requires LoopState(cfg, m, words, s, i, line, lw, y) && i < |words| && !words[i].LineBreak?
    requires line != [] && lw + SegmentWidth(words[i], m) + 2 > MaxLineWidth(cfg)
    requires !OutOfRoom(cfg, y + LineHeight(cfg))
    ensures Follows(cfg, m, words, s, y, Run(cfg, m, words, i, line, lw, y), bs, stop)
    ensures bs != [] && bs[0].start == s
    decreases |words| - i, 0
  {
    var next := y + LineHeight(cfg);
    var w := SegmentWidth(words[i], m);
    OverflowState(cfg, m, words, s, i, line, lw, y);
    var rbs, rstop := RunFollows(cfg, m, words, i, i + 1, [words[i]], w, next);
    FollowsPrepend(cfg, m, words, s, i, y, i, next, Run(cfg, m, words, i + 1, [words[i]], w, next), rbs, rstop,
      Run(cfg, m, words, i, line, lw, y));
    bs, stop := [Bound(s, i)] + rbs, rstop;
  }

  /** create_furigana_image lays the whole token stream out by the layout
      rule: some bounds `bs` and a stopping token `stop` describe its lines
      exactly. */
  lemma LinesLaidOut(cfg: Config, m: Measure, words: seq<Item>) returns (bs: seq<Bound>, stop: nat)
    ensures LaidOut(cfg, m, words, 0, StartY(cfg), Lines(cfg, m, words), bs, stop)
  {
    assert Placed(cfg, StartY(cfg));
    assert words[0..0] == [];
    bs, stop := RunFollows(cfg, m, words, 0, 0, [], 0, StartY(cfg));
  }

  /** Every line create_furigana_image draws is non-empty and free of line
      breaks, and a line of two or more tokens fits max_line_width with the
      2-pixel gaps between its tokens. */
  lemma LinesWellFormed(cfg: Config, m: Measure, words: seq<Item>)
    ensures forall d :: d in Lines(cfg, m, words).lines ==>
      d.tokens != [] && NoBreaks(d.tokens) && (|d.tokens| > 1 ==> Span(d.tokens, m) <= MaxLineWidth(cfg))
  {
    var o := Lines(cfg, m, words);
    var bs, stop := LinesLaidOut(cfg, m, words);
    forall d | d in o.lines
      ensures WellFormedLine(cfg, m, d)
    {
      var k :| 0 <= k < |o.lines| && o.lines[k] == d;
      var j := if k < |bs| then k else |bs| - 1;
      BoundWellFormed(cfg, m, words, bs[j], d);
    }
  }

  /** The tokens of one line of a layout, drawn on any row, make a
      well-formed line: the tracked width is never below the span. */
  lemma BoundWellFormed(cfg: Config, m: Measure, words: seq<Item>, b: Bound, d: LineDraw)
    requires Printing(words, b) && d.tokens == words[b.start..b.end]
    requires b.end - b.start > 1 ==> Tracked(m, words, b) <= MaxLineWidth(cfg)
    ensures WellFormedLine(cfg, m, d)
  {
    forall k | 0 <= k < |d.tokens|
      ensures !d.tokens[k].LineBreak?
    {
      assert d.tokens[k] == words[b.start + k];
    }
  }

}
