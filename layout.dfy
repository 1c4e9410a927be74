/** The line-grouping loop of create_furigana_image: tokens are laid out
    greedily into lines of bounded width, one row of `line_height` pixels
    per line, until the page runs out of rows. Each draw_line call is
    recorded as the row it is drawn at and the tokens it draws. */
module Layout {
  import opened Items
  import opened Measure

  /** The image parameters of create_furigana_image. */
  datatype Config = Config(width: int, height: int, mainSize: nat, furiganaSize: nat)

  const DefaultConfig: Config := Config(1264, 1680, 32, 16)

  const Margin: int := 50

  /** Room for a line of main text and the readings above it. */
  function LineHeight(cfg: Config): (h: nat)
    ensures h >= 10
  {
    cfg.mainSize + cfg.furiganaSize + 10
  }

  function MaxLineWidth(cfg: Config): int {
    cfg.width - 2 * Margin
  }

  /** The baseline row of the first line, low enough for its readings. */
  function StartY(cfg: Config): int {
    Margin + cfg.furiganaSize + 5
  }

  /** A line at row `y` would reach into the bottom margin. */
  predicate OutOfRoom(cfg: Config, y: int) {
    y + cfg.mainSize > cfg.height - Margin
  }

  /** One draw_line call: the row and the tokens drawn on it. */
  datatype LineDraw = LineDraw(y: int, tokens: seq<Item>)

  /** The draw_line calls, whether the loop left early because the page
      was full, and the row `y` the loop ended on. */
  datatype Outcome = Outcome(lines: seq<LineDraw>, stopped: bool, endY: int)

  predicate NoBreaks(ts: seq<Item>) {
    forall k :: 0 <= k < |ts| ==> !ts[k].LineBreak?
  }

  /** The width a line's tokens take with the 2-pixel gap between
      neighbours. */
  function Span(ts: seq<Item>, m: Measure): int
    requires NoBreaks(ts)
    decreases |ts|
  {
    if ts == [] then 0
    else if |ts| == 1 then SegmentWidth(ts[0], m)
    else Span(ts[..|ts| - 1], m) + 2 + SegmentWidth(ts[|ts| - 1], m)
  }

  /** The draw_line call that flushes the current line, if it has tokens. */
  function Flush(line: seq<Item>, y: int): seq<LineDraw> {
    if line != [] then [LineDraw(y, line)] else []
  }

  function Prepend(ds: seq<LineDraw>, o: Outcome): Outcome {
    Outcome(ds + o.lines, o.stopped, o.endY)
  }

  /** The loop from token `i` on, with `line` the current line, `lw` its
      tracked width and `y` the current row. A line break flushes the line
      and moves down a row; a token that would overflow a non-empty line
      flushes it and starts the next line with that token, whether or not
      the token may start a line (both branches of the source do the same);
      any other token joins the line and counts its width plus 2. Moving
      down a row into the bottom margin stops the loop without clearing the
      line, so a line flushed by a width break is drawn again on the
      overflowed row by the final flush. */
  function Run(cfg: Config, m: Measure, words: seq<Item>, i: nat, line: seq<Item>, lw: int, y: int): Outcome
    requires i <= |words|
    decreases |words| - i
  {
    if i == |words| then Outcome(Flush(line, y), false, y)
    else if words[i].LineBreak? then
      var next := y + LineHeight(cfg);
      if OutOfRoom(cfg, next) then Outcome(Flush(line, y), true, next)
      else Prepend(Flush(line, y), Run(cfg, m, words, i + 1, [], 0, next))
    else
      var w := SegmentWidth(words[i], m);
      if line != [] && lw + w + 2 > MaxLineWidth(cfg) then
        var next := y + LineHeight(cfg);
        if OutOfRoom(cfg, next) then Outcome([LineDraw(y, line), LineDraw(next, line)], true, next)
        else Prepend([LineDraw(y, line)], Run(cfg, m, words, i + 1, [words[i]], w, next))
      else Run(cfg, m, words, i + 1, line + [words[i]], lw + w + 2, y)
  }

  /** The draw_line calls of create_furigana_image for a token stream. */
  function Lines(cfg: Config, m: Measure, words: seq<Item>): Outcome {
    Run(cfg, m, words, 0, [], 0, StartY(cfg))
  }

  // ---------------------------------------------------------------------
  // Steps of the loop, one per way a turn can go

  lemma LineBreakStep(cfg: Config, m: Measure, words: seq<Item>, i: nat, line: seq<Item>, lw: int, y: int,
                      lines: seq<LineDraw>, total: seq<LineDraw>, next: seq<LineDraw>)
    requires i < |words| && words[i].LineBreak?
    requires lines + Run(cfg, m, words, i, line, lw, y).lines == total
    requires next == if line != [] then lines + [LineDraw(y, line)] else lines
    ensures OutOfRoom(cfg, y + LineHeight(cfg)) ==> next == total
    ensures !OutOfRoom(cfg, y + LineHeight(cfg)) ==>
      next + Run(cfg, m, words, i + 1, [], 0, y + LineHeight(cfg)).lines == total
  {
    assert next == lines + Flush(line, y);
    assert lines + (Flush(line, y) + Run(cfg, m, words, i + 1, [], 0, y + LineHeight(cfg)).lines)
      == lines + Flush(line, y) + Run(cfg, m, words, i + 1, [], 0, y + LineHeight(cfg)).lines;
  }

  lemma OverflowStep(cfg: Config, m: Measure, words: seq<Item>, i: nat, line: seq<Item>, lw: int, y: int,
                     lines: seq<LineDraw>, total: seq<LineDraw>)
    requires i < |words| && !words[i].LineBreak? && line != []
    requires lw + SegmentWidth(words[i], m) + 2 > MaxLineWidth(cfg)
    requires lines + Run(cfg, m, words, i, line, lw, y).lines == total
    ensures var next := y + LineHeight(cfg);
      (OutOfRoom(cfg, next) ==> lines + [LineDraw(y, line)] + [LineDraw(next, line)] == total)
      && (!OutOfRoom(cfg, next) ==>
        lines + [LineDraw(y, line)] + Run(cfg, m, words, i + 1, [words[i]], SegmentWidth(words[i], m), next).lines
        == total)
  {
    var next := y + LineHeight(cfg);
    assert lines + [LineDraw(y, line)] + [LineDraw(next, line)] == lines + [LineDraw(y, line), LineDraw(next, line)];
    var rest := Run(cfg, m, words, i + 1, [words[i]], SegmentWidth(words[i], m), next).lines;
    assert lines + ([LineDraw(y, line)] + rest) == lines + [LineDraw(y, line)] + rest;
  }

  lemma EndStep(cfg: Config, m: Measure, words: seq<Item>, line: seq<Item>, lw: int, y: int,
                lines: seq<LineDraw>, total: seq<LineDraw>, next: seq<LineDraw>)
    requires lines + Run(cfg, m, words, |words|, line, lw, y).lines == total
    requires next == if line != [] then lines + [LineDraw(y, line)] else lines
    ensures next == total
  {
    assert next == lines + Flush(line, y);
  }

  /** The grouping loop of create_furigana_image, with each draw_line call
      recorded. The break predicate is consulted as in the source; the
      result does not depend on it. */
  method GroupIntoLines(words: seq<Item>, cfg: Config, m: Measure) returns (lines: seq<LineDraw>)
    ensures lines == Lines(cfg, m, words).lines
  {
    ghost var total := Lines(cfg, m, words).lines;
    lines := [];
    var y := Margin + cfg.furiganaSize + 5;
    var lineHeight := cfg.mainSize + cfg.furiganaSize + 10;
    var maxLineWidth := cfg.width - 2 * Margin;
    var currentLine: seq<Item> := [];
    var currentLineWidth := 0;
    var i := 0;
    while i < |words|
      invariant i <= |words|
      invariant currentLine == [] ==> currentLineWidth == 0
      invariant lines + Run(cfg, m, words, i, currentLine, currentLineWidth, y).lines == total
    {
      var word := words[i];
      if word.LineBreak? {
        ghost var before, line, lw := lines, currentLine, currentLineWidth;
        if |currentLine| > 0 {
          lines := lines + [LineDraw(y, currentLine)];
          currentLine := [];
          currentLineWidth := 0;
        }
        LineBreakStep(cfg, m, words, i, line, lw, y, before, total, lines);
        y := y + lineHeight;
        if y + cfg.mainSize > cfg.height - Margin {
          break;
        }
        i := i + 1;
        continue;
      }
      var wordWidth := SegmentWidth(word, m);
      if |currentLine| > 0 && currentLineWidth + wordWidth + 2 > maxLineWidth {
        OverflowStep(cfg, m, words, i, currentLine, currentLineWidth, y, lines, total);
        if CanBreakBefore(word) {
          lines := lines + [LineDraw(y, currentLine)];
          y := y + lineHeight;
          if y + cfg.mainSize > cfg.height - Margin {
            break;
          }
          currentLine := [word];
          currentLineWidth := wordWidth;
        } else {
          if |currentLine| > 0 {
            lines := lines + [LineDraw(y, currentLine)];
            y := y + lineHeight;
            if y + cfg.mainSize > cfg.height - Margin {
              break;
            }
          }
          currentLine := [word];
          currentLineWidth := wordWidth;
        }
      } else {
        currentLine := currentLine + [word];
        currentLineWidth := currentLineWidth + wordWidth + 2;
      }
      i := i + 1;
    }
    ghost var before := lines;
    if |currentLine| > 0 {
      lines := lines + [LineDraw(y, currentLine)];
    }
    if i == |words| {
      EndStep(cfg, m, words, currentLine, currentLineWidth, y, before, total, lines);
    }
  }

  // ---------------------------------------------------------------------
  // Every drawn line is non-empty, holds no line break, and fits the width
  // unless it is a single token

  /** A line as draw_line receives it: tokens, no line break, and either a
      single token or tokens that fit the line width with their gaps. */
  predicate WellFormedLine(cfg: Config, m: Measure, d: LineDraw) {
    d.tokens != [] && NoBreaks(d.tokens)
    && (|d.tokens| > 1 ==> Span(d.tokens, m) <= MaxLineWidth(cfg))
  }

  lemma SpanAppend(line: seq<Item>, t: Item, m: Measure)
    requires NoBreaks(line) && !t.LineBreak?
    ensures NoBreaks(line + [t])
    ensures Span(line + [t], m) == if line == [] then SegmentWidth(t, m) else Span(line, m) + 2 + SegmentWidth(t, m)
  {
    assert (line + [t])[..|line|] == line;
  }

  // ---------------------------------------------------------------------
  // Rows: lines sit on the grid of line heights, go strictly down the
  // page, and stay out of the bottom margin except a line drawn after the
  // loop stopped

  /** `y` is the first row plus a whole number of line heights. */
  predicate OnGrid(cfg: Config, y: int)
    decreases y - StartY(cfg)
  {
    y == StartY(cfg) || (y > StartY(cfg) && OnGrid(cfg, y - LineHeight(cfg)))
  }

  /** A row a line may be drawn on while the loop runs: the first row, or a
      row the loop moved to and found room on. */
  predicate Placed(cfg: Config, y: int) {
    OnGrid(cfg, y) && (y == StartY(cfg) || !OutOfRoom(cfg, y))
  }

  /** The rows of `o`, a run begun on row `y`: its lines and the row it
      ended on are on the grid below `y`; the loop stops exactly when it
      moves from a placed row into the bottom margin. */
  predicate RowsFrom(cfg: Config, o: Outcome, y: int) {
    (forall k :: 0 <= k < |o.lines| ==>
      OnGrid(cfg, o.lines[k].y) && y <= o.lines[k].y <= o.endY
      && (Placed(cfg, o.lines[k].y) || (o.stopped && k == |o.lines| - 1)))
    && (forall k :: 0 <= k < |o.lines| - 1 ==> o.lines[k].y < o.lines[k + 1].y)
    && y <= o.endY && OnGrid(cfg, o.endY)
    && (!o.stopped ==> Placed(cfg, o.endY))
    && (o.stopped ==> OutOfRoom(cfg, o.endY) && Placed(cfg, o.endY - LineHeight(cfg)))
  }

  lemma RowsPrepend(cfg: Config, ds: seq<LineDraw>, y: int, rest: Outcome)
    requires |ds| <= 1 && (ds != [] ==> ds[0].y == y && Placed(cfg, y))
    requires RowsFrom(cfg, rest, y + LineHeight(cfg)) && OnGrid(cfg, y)
    ensures RowsFrom(cfg, Prepend(ds, rest), y)
  {
    var o := Prepend(ds, rest);
    assert forall k :: |ds| <= k < |o.lines| ==> o.lines[k] == rest.lines[k - |ds|];
  }

  lemma {:induction false} RunRows(cfg: Config, m: Measure, words: seq<Item>, i: nat, line: seq<Item>, lw: int, y: int)
    requires i <= |words| && Placed(cfg, y)
    ensures RowsFrom(cfg, Run(cfg, m, words, i, line, lw, y), y)
    decreases |words| - i
  {
    if i < |words| {
      var next := y + LineHeight(cfg);
      assert OnGrid(cfg, next);
      if words[i].LineBreak? {
        if !OutOfRoom(cfg, next) {
          RunRows(cfg, m, words, i + 1, [], 0, next);
          RowsPrepend(cfg, Flush(line, y), y, Run(cfg, m, words, i + 1, [], 0, next));
        }
      } else {
        var w := SegmentWidth(words[i], m);
        if line != [] && lw + w + 2 > MaxLineWidth(cfg) {
          if !OutOfRoom(cfg, next) {
            RunRows(cfg, m, words, i + 1, [words[i]], w, next);
            RowsPrepend(cfg, [LineDraw(y, line)], y, Run(cfg, m, words, i + 1, [words[i]], w, next));
          }
        } else {
          RunRows(cfg, m, words, i + 1, line + [words[i]], lw + w + 2, y);
        }
      }
    }
  }

  /** Lines are drawn on the rows StartY + n * line_height, strictly down the
      page, and each is clear of the bottom margin (or on the first row),
      except the line the final flush draws after the loop stopped. The loop
      stops exactly when it has moved off the first row into the bottom
      margin, and the row it moved from had room. */
  lemma LinesRows(cfg: Config, m: Measure, words: seq<Item>)
    ensures var o := Lines(cfg, m, words);
      (forall k :: 0 <= k < |o.lines| ==>
        OnGrid(cfg, o.lines[k].y) && o.lines[k].y <= o.endY
        && (o.lines[k].y == StartY(cfg) || !OutOfRoom(cfg, o.lines[k].y) || (o.stopped && k == |o.lines| - 1)))
      && (forall k :: 0 <= k < |o.lines| - 1 ==> o.lines[k].y < o.lines[k + 1].y)
      && OnGrid(cfg, o.endY)
      && (o.stopped <==> o.endY != StartY(cfg) && OutOfRoom(cfg, o.endY))
      && (o.stopped ==> Placed(cfg, o.endY - LineHeight(cfg)))
  {
    var o := Lines(cfg, m, words);
    RunRows(cfg, m, words, 0, [], 0, StartY(cfg));
    if o.stopped {
      assert OnGrid(cfg, o.endY - LineHeight(cfg));
    }
  }

  // ---------------------------------------------------------------------
  // Tokens: the lines draw the tokens in order, up to where the page ran
  // out, with the last line possibly drawn twice

  /** The tokens of a stream other than line breaks, in order. */
  function Printable(ws: seq<Item>): seq<Item>
    decreases |ws|
  {
    if ws == [] then []
    else (if ws[0].LineBreak? then [] else [ws[0]]) + Printable(ws[1..])
  }

  /** The tokens of a sequence of lines, in order. */
  function Concat(ds: seq<LineDraw>): seq<Item>
    decreases |ds|
  {
    if ds == [] then [] else ds[0].tokens + Concat(ds[1..])
  }

  lemma {:induction false} ConcatAppend(a: seq<LineDraw>, b: seq<LineDraw>)
    ensures Concat(a + b) == Concat(a) + Concat(b)
    decreases |a|
  {
    if a != [] {
      assert (a + b)[1..] == a[1..] + b;
      ConcatAppend(a[1..], b);
    } else {
      assert a + b == b;
    }
  }

  /** The last two lines hold the same tokens. */
  predicate Redrawn(ds: seq<LineDraw>) {
    |ds| >= 2 && ds[|ds| - 1].tokens == ds[|ds| - 2].tokens
  }

  /** The lines drew `full` if the loop ran to the end, and otherwise its
      first `p` tokens, possibly followed by the last line once more. */
  predicate DrewPrefix(o: Outcome, full: seq<Item>, p: nat) {
    p <= |full|
    && (!o.stopped ==> Concat(o.lines) == full)
    && (o.stopped ==>
          Concat(o.lines) == full[..p]
          || (Redrawn(o.lines) && Concat(o.lines) == full[..p] + o.lines[|o.lines| - 1].tokens))
  }

  /** Lines put in front of an outcome keep its last two lines. */
  lemma RedrawnPrepend(ds: seq<LineDraw>, rest: seq<LineDraw>)
    requires Redrawn(rest)
    ensures Redrawn(ds + rest)
    ensures (ds + rest)[|ds + rest| - 1] == rest[|rest| - 1]
  {
    var all := ds + rest;
    assert all[|all| - 1] == rest[|rest| - 1];
    assert all[|all| - 2] == rest[|rest| - 2];
  }

  /** An outcome that draws `line` before what `rest` draws, stops when
      `rest` does and ends on the same lines, drew `line` before the prefix
      `rest` drew. */
  lemma DrewPrefixExtend(o: Outcome, rest: Outcome, line: seq<Item>, full: seq<Item>, p: nat)
    requires Concat(o.lines) == line + Concat(rest.lines) && o.stopped == rest.stopped
    requires Redrawn(rest.lines) ==> Redrawn(o.lines) && o.lines[|o.lines| - 1] == rest.lines[|rest.lines| - 1]
    requires DrewPrefix(rest, full, p)
    ensures DrewPrefix(o, line + full, |line| + p)
  {
    assert (line + full)[..|line| + p] == line + full[..p];
  }

  lemma DrewPrefixPrepend(ds: seq<LineDraw>, line: seq<Item>, rest: Outcome, full: seq<Item>, p: nat)
    requires Concat(ds) == line && |ds| <= 1
    requires DrewPrefix(rest, full, p)
    ensures DrewPrefix(Prepend(ds, rest), line + full, |line| + p)
  {
    ConcatAppend(ds, rest.lines);
    if Redrawn(rest.lines) {
      RedrawnPrepend(ds, rest.lines);
    }
    DrewPrefixExtend(Prepend(ds, rest), rest, line, full, p);
  }

  lemma PrintableFrom(words: seq<Item>, i: nat)
    requires i < |words|
    ensures Printable(words[i..]) ==
      (if words[i].LineBreak? then [] else [words[i]]) + Printable(words[i + 1..])
  {
    assert words[i..][1..] == words[i + 1..];
  }

  lemma ConcatFlush(line: seq<Item>, y: int)
    ensures Concat(Flush(line, y)) == line
  {
    if line != [] {
      assert [LineDraw(y, line)][1..] == [];
    }
  }

  lemma {:induction false} RunTokens(cfg: Config, m: Measure, words: seq<Item>, i: nat, line: seq<Item>, lw: int, y: int)
    returns (p: nat)
    requires i <= |words|
    ensures DrewPrefix(Run(cfg, m, words, i, line, lw, y), line + Printable(words[i..]), p)
    decreases |words| - i, 1
  {
    var full := line + Printable(words[i..]);
    ConcatFlush(line, y);
    if i == |words| {
      assert words[i..] == [];
      assert full == line;
      p := |line|;
    } else if words[i].LineBreak? {
      PrintableFrom(words, i);
      var next := y + LineHeight(cfg);
      assert full == line + Printable(words[i + 1..]);
      if OutOfRoom(cfg, next) {
        p := |line|;
        assert full[..p] == line;
      } else {
        var q := RunTokens(cfg, m, words, i + 1, [], 0, next);
        assert [] + Printable(words[i + 1..]) == Printable(words[i + 1..]);
        DrewPrefixPrepend(Flush(line, y), line, Run(cfg, m, words, i + 1, [], 0, next), Printable(words[i + 1..]), q);
        p := |line| + q;
      }
    } else {
      p := RunTokensAtToken(cfg, m, words, i, line, lw, y);
    }
  }

  lemma {:induction false} RunTokensAtToken(cfg: Config, m: Measure, words: seq<Item>, i: nat, line: seq<Item>, lw: int, y: int)
    returns (p: nat)
    requires i < |words| && !words[i].LineBreak?
    ensures DrewPrefix(Run(cfg, m, words, i, line, lw, y), line + Printable(words[i..]), p)
    decreases |words| - i, 0
  {
    PrintableFrom(words, i);
    var next := y + LineHeight(cfg);
    var w := SegmentWidth(words[i], m);
    var rest := [words[i]] + Printable(words[i + 1..]);
    var o := Run(cfg, m, words, i, line, lw, y);
    if line != [] && lw + w + 2 > MaxLineWidth(cfg) {
      if OutOfRoom(cfg, next) {
        p := |line|;
        OverflowStopTokens(line, rest, y, next);
        assert o == Outcome([LineDraw(y, line), LineDraw(next, line)], true, next);
      } else {
        var q := RunTokens(cfg, m, words, i + 1, [words[i]], w, next);
        var tail := Run(cfg, m, words, i + 1, [words[i]], w, next);
        DrewPrefixPrepend([LineDraw(y, line)], line, tail, rest, q);
        p := |line| + q;
        assert o == Prepend([LineDraw(y, line)], tail);
      }
    } else {
      p := RunTokens(cfg, m, words, i + 1, line + [words[i]], lw + w + 2, y);
      assert (line + [words[i]]) + Printable(words[i + 1..]) == line + rest;
      assert o == Run(cfg, m, words, i + 1, line + [words[i]], lw + w + 2, y);
    }
  }

  lemma OverflowStopTokens(line: seq<Item>, rest: seq<Item>, y: int, next: int)
    requires line != []
    ensures DrewPrefix(Outcome([LineDraw(y, line), LineDraw(next, line)], true, next), line + rest, |line|)
  {
    assert (line + rest)[..|line|] == line;
    assert [LineDraw(y, line), LineDraw(next, line)][1..] == [LineDraw(next, line)];
    ConcatFlush(line, next);
  }

  /** If the page does not run out, every token other than a line break is
      drawn, once and in order; if it does, the lines draw a prefix of the
      tokens, and the last line may be a second copy of the line before. */
  lemma LinesTokens(cfg: Config, m: Measure, words: seq<Item>)
    ensures var o := Lines(cfg, m, words);
      (!o.stopped ==> Concat(o.lines) == Printable(words))
      && (o.stopped ==>
            exists p :: 0 <= p <= |Printable(words)|
              && (Concat(o.lines) == Printable(words)[..p]
                  || (Redrawn(o.lines) && Concat(o.lines) == Printable(words)[..p] + o.lines[|o.lines| - 1].tokens)))
  {
    var p := RunTokens(cfg, m, words, 0, [], 0, StartY(cfg));
    assert [] + Printable(words[0..]) == Printable(words);
  }

  // ---------------------------------------------------------------------
  // The layout rule: which tokens each line holds, why it ends where it
  // does, which row it is drawn on, and where the loop stops

  /** A line of a layout holds the tokens words[start..end]. */
  datatype Bound = Bound(start: nat, end: nat)

  /** The 2 pixels the loop counts in front of a line begun on an empty
      line (the first line, or one after a line break). A line begun by an
      overflow is counted without them. */
  function Lead(words: seq<Item>, s: nat): nat
    requires s <= |words|
  {
    if s == 0 || words[s - 1].LineBreak? then 2 else 0
  }

  /** A non-empty run of tokens without a line break. */
  predicate Printing(words: seq<Item>, b: Bound) {
    b.start < b.end <= |words| && forall j :: b.start <= j < b.end ==> !words[j].LineBreak?
  }

  /** current_line_width for the line words[b.start..b.end]. */
  function Tracked(m: Measure, words: seq<Item>, b: Bound): int
    requires Printing(words, b)
  {
    Span(words[b.start..b.end], m) + Lead(words, b.start)
  }

  /** The gaps of a layout: before the first line from `from`, between
      neighbouring lines, and after the last line up to `stop`. */
  function GapStart(bs: seq<Bound>, k: nat, from: nat): nat
    requires k <= |bs|
  {
    if k == 0 then from else bs[k - 1].end
  }

  function GapEnd(bs: seq<Bound>, k: nat, stop: nat): nat
    requires k <= |bs|
  {
    if k == |bs| then stop else bs[k].start
  }

  predicate AllBreaks(words: seq<Item>, a: nat, b: nat) {
    forall j :: a <= j < b && j < |words| ==> words[j].LineBreak?
  }

  predicate AllPrinting(words: seq<Item>, bs: seq<Bound>) {
    forall k :: 0 <= k < |bs| ==> Printing(words, bs[k])
  }

  /** Line k starts after the gap before it and ends by `stop`. */
  predicate LineAt(bs: seq<Bound>, k: nat, from: nat, stop: nat)
    requires k < |bs|
  {
    GapStart(bs, k, from) <= bs[k].start && bs[k].end <= stop
  }

  /** Gap k holds only line breaks. */
  predicate GapAt(words: seq<Item>, bs: seq<Bound>, k: nat, from: nat, stop: nat)
    requires k <= |bs|
  {
    AllBreaks(words, GapStart(bs, k, from), GapEnd(bs, k, stop))
  }

  /** The lines take the tokens from `from` up to `stop` in order, and
      everything before, between and after them is line breaks. */
  predicate Covers(words: seq<Item>, from: nat, stop: nat, bs: seq<Bound>) {
    from <= stop <= |words| && AllPrinting(words, bs)
    && (forall k :: 0 <= k < |bs| ==> LineAt(bs, k, from, stop))
    && (forall k :: 0 <= k <= |bs| ==> GapAt(words, bs, k, from, stop))
  }

  /** Line k holds the tokens words[bs[k].start..bs[k].end]. */
  predicate Drawn(words: seq<Item>, o: Outcome, bs: seq<Bound>) {
    |bs| <= |o.lines|
    && forall k :: 0 <= k < |bs| ==>
      bs[k].start <= bs[k].end <= |words| && o.lines[k].tokens == words[bs[k].start..bs[k].end]
  }

  /** A line of two or more tokens fits, counted as the loop counts it. */
  predicate Fits(cfg: Config, m: Measure, words: seq<Item>, bs: seq<Bound>)
    requires AllPrinting(words, bs)
  {
    forall k :: 0 <= k < |bs| && bs[k].end - bs[k].start > 1 ==> Tracked(m, words, bs[k]) <= MaxLineWidth(cfg)
  }

  /** Line k, if the next token follows it with no line break between,
      ended because that token did not fit. */
  predicate BrokenAt(cfg: Config, m: Measure, words: seq<Item>, bs: seq<Bound>, k: nat)
    requires AllPrinting(words, bs) && k + 1 < |bs|
  {
    bs[k].end == bs[k + 1].start ==>
      Tracked(m, words, bs[k]) + SegmentWidth(words[bs[k].end], m) + 2 > MaxLineWidth(cfg)
  }

  predicate Broken(cfg: Config, m: Measure, words: seq<Item>, bs: seq<Bound>)
    requires AllPrinting(words, bs)
  {
    forall k :: 0 <= k < |bs| - 1 ==> BrokenAt(cfg, m, words, bs, k)
  }

  /** The row `n` line heights below row `y` (row `y` itself when `n` is
      not positive). */
  function Below(cfg: Config, y: int, n: int): int
    decreases n
  {
    if n <= 0 then y else Below(cfg, y, n - 1) + LineHeight(cfg)
  }

  /** A line break straight after a line, or an overflow, moves one row. */
  lemma OneRowDown(cfg: Config, y: int, a: nat, b: nat)
    requires a <= b <= a + 1
    ensures Below(cfg, y, Moves(a, b)) == y + LineHeight(cfg)
  {
    assert Below(cfg, y, 1) == Below(cfg, y, 0) + LineHeight(cfg);
  }

  lemma {:induction false} BelowIsMultiple(cfg: Config, y: int, n: nat)
    ensures Below(cfg, y, n) == y + n * LineHeight(cfg)
  {
    if n > 0 {
      BelowIsMultiple(cfg, y, n - 1);
    }
  }

  lemma {:induction false} BelowShift(cfg: Config, y: int, n: nat)
    ensures Below(cfg, y + LineHeight(cfg), n) == Below(cfg, y, n + 1)
  {
    if n > 0 {
      BelowShift(cfg, y, n - 1);
    }
  }

  lemma {:induction false} BelowAdd(cfg: Config, y: int, a: nat, b: nat)
    ensures Below(cfg, Below(cfg, y, a), b) == Below(cfg, y, a + b)
  {
    if b > 0 {
      BelowAdd(cfg, y, a, b - 1);
    }
  }

  /** The rows between a line ending at `a` and the next starting at `b`:
      one per line break between them, or one for the overflow when there
      is none. */
  function Moves(a: nat, b: nat): nat {
    if a < b then b - a else 1
  }

  /** The row the loop is on after the lines and the line breaks up to
      `stop`. */
  function RowAfter(cfg: Config, o: Outcome, bs: seq<Bound>, from: nat, y: int, stop: nat): int
    requires |bs| <= |o.lines|
  {
    Below(cfg, if bs == [] then y else o.lines[|bs| - 1].y, stop - GapStart(bs, |bs|, from))
  }

  /** Line k + 1 is `Moves` rows below line k. */
  predicate RowStep(cfg: Config, o: Outcome, bs: seq<Bound>, k: nat)
    requires k + 1 < |bs| <= |o.lines|
  {
    o.lines[k + 1].y == Below(cfg, o.lines[k].y, Moves(bs[k].end, bs[k + 1].start))
  }

  /** The first line is one row down per line break before it, and each
      later line is `Moves` rows below the one before. */
  predicate RowsOf(cfg: Config, o: Outcome, bs: seq<Bound>, from: nat, y: int)
    requires |bs| <= |o.lines|
  {
    (bs != [] ==> o.lines[0].y == Below(cfg, y, bs[0].start - from))
    && forall k :: 0 <= k < |bs| - 1 ==> RowStep(cfg, o, bs, k)
  }

  /** Without a stop every token was read and the loop ends on the row
      after the trailing line breaks, drawing nothing more. With a stop the
      token at `stop` moved the loop down one more row: a line break, or a
      token that did not fit the last line, which is then drawn again on
      that row. */
  predicate Ends(cfg: Config, m: Measure, words: seq<Item>, from: nat, y: int, o: Outcome, bs: seq<Bound>, stop: nat)
    requires AllPrinting(words, bs) && |bs| <= |o.lines|
  {
    (!o.stopped ==> stop == |words| && |o.lines| == |bs| && o.endY == RowAfter(cfg, o, bs, from, y, stop))
    && (o.stopped ==>
          stop < |words| && o.endY == RowAfter(cfg, o, bs, from, y, stop) + LineHeight(cfg)
          && (words[stop].LineBreak? ==> |o.lines| == |bs|)
          && (!words[stop].LineBreak? ==>
                bs != [] && bs[|bs| - 1].end == stop
                && Tracked(m, words, bs[|bs| - 1]) + SegmentWidth(words[stop], m) + 2 > MaxLineWidth(cfg)
                && |o.lines| == |bs| + 1 && o.lines[|bs|] == LineDraw(o.endY, o.lines[|bs| - 1].tokens)))
  }

  /** The loop, started at token `from` on row `y` with an empty line or a
      line beginning at `from`, drew the lines `bs` and stopped at token
      `stop`, following the rules above. */
  predicate LaidOut(cfg: Config, m: Measure, words: seq<Item>, from: nat, y: int, o: Outcome, bs: seq<Bound>, stop: nat) {
    Covers(words, from, stop, bs) && Drawn(words, o, bs)
    && Fits(cfg, m, words, bs) && Broken(cfg, m, words, bs)
    && RowsOf(cfg, o, bs, from, y) && Ends(cfg, m, words, from, y, o, bs, stop)
  }

  /** What the loop keeps true at token `i`: the current line is the
      tokens from `s` up to `i`, it is empty only at the start or after a
      line break, its tracked width is `Tracked`, a line of two or more
      tokens fits, and the current row is one a line may be drawn on. */
  predicate LoopState(cfg: Config, m: Measure, words: seq<Item>, s: nat, i: nat, line: seq<Item>, lw: int, y: int) {
    s <= i <= |words| && line == words[s..i]
    && (line == [] ==> lw == 0 && (i == 0 || words[i - 1].LineBreak?))
    && (line != [] ==> Printing(words, Bound(s, i)) && lw == Tracked(m, words, Bound(s, i)))
    && (|line| > 1 ==> lw <= MaxLineWidth(cfg))
    && Placed(cfg, y)
  }

  // Steps of the layout rule: a line break read with no line pending, and
  // a line drawn in front of the rest of the layout

  lemma CoversGap(words: seq<Item>, f: nat, stop: nat, bs: seq<Bound>)
    requires 0 < f <= |words| && words[f - 1].LineBreak? && Covers(words, f, stop, bs)
    ensures Covers(words, f - 1, stop, bs)
  {
    var g := f - 1;
    forall k | 0 <= k < |bs|
      ensures LineAt(bs, k, g, stop)
    {
      assert LineAt(bs, k, f, stop);
    }
    forall k | 0 <= k <= |bs|
      ensures GapAt(words, bs, k, g, stop)
    {
      assert GapAt(words, bs, k, f, stop);
    }
  }

  lemma RowsGap(cfg: Config, o: Outcome, bs: seq<Bound>, f: nat, y: int)
    requires 0 < f && |bs| <= |o.lines| && (bs != [] ==> f <= bs[0].start)
    requires RowsOf(cfg, o, bs, f, y + LineHeight(cfg))
    ensures RowsOf(cfg, o, bs, f - 1, y)
  {
    if bs != [] {
      BelowShift(cfg, y, bs[0].start - f);
    }
  }

  lemma EndsGap(cfg: Config, m: Measure, words: seq<Item>, f: nat, y: int, o: Outcome, bs: seq<Bound>, stop: nat)
    requires 0 < f <= stop && AllPrinting(words, bs) && |bs| <= |o.lines|
    requires Ends(cfg, m, words, f, y + LineHeight(cfg), o, bs, stop)
    ensures Ends(cfg, m, words, f - 1, y, o, bs, stop)
  {
    if bs == [] {
      BelowShift(cfg, y, stop - f);
      assert RowAfter(cfg, o, bs, f - 1, y, stop) == RowAfter(cfg, o, bs, f, y + LineHeight(cfg), stop);
    }
  }

  /** A line break read with no line pending adds a row to the gap before
      the first line. */
  lemma GapExtend(cfg: Config, m: Measure, words: seq<Item>, f: nat, y: int, o: Outcome, bs: seq<Bound>, stop: nat)
    requires 0 < f <= |words| && words[f - 1].LineBreak?
    requires LaidOut(cfg, m, words, f, y + LineHeight(cfg), o, bs, stop)
    ensures LaidOut(cfg, m, words, f - 1, y, o, bs, stop)
  {
    CoversGap(words, f, stop, bs);
    if bs != [] {
      assert LineAt(bs, 0, f, stop);
    }
    RowsGap(cfg, o, bs, f, y);
    EndsGap(cfg, m, words, f, y, o, bs, stop);
  }

  lemma CoversPrepend(words: seq<Item>, b: Bound, f: nat, stop: nat, bs: seq<Bound>)
    requires Covers(words, f, stop, bs)
    requires Printing(words, b) && b.end <= f && AllBreaks(words, b.end, f)
    ensures Covers(words, b.start, stop, [b] + bs)
  {
    var all := [b] + bs;
    assert forall k :: 0 < k < |all| ==> all[k] == bs[k - 1];
    forall k | 0 <= k < |all|
      ensures LineAt(all, k, b.start, stop)
    {
      if k > 0 {
        assert LineAt(bs, k - 1, f, stop);
      }
    }
    forall k | 0 <= k <= |all|
      ensures GapAt(words, all, k, b.start, stop)
    {
      if k > 0 {
        assert GapAt(words, bs, k - 1, f, stop);
      }
    }
  }

  lemma DrawnPrepend(words: seq<Item>, b: Bound, y: int, o: Outcome, bs: seq<Bound>)
    requires Drawn(words, o, bs) && b.start <= b.end <= |words|
    ensures Drawn(words, Prepend([LineDraw(y, words[b.start..b.end])], o), [b] + bs)
  {
    var all := [b] + bs;
    var p := Prepend([LineDraw(y, words[b.start..b.end])], o);
    assert forall k :: 0 < k < |all| ==> all[k] == bs[k - 1] && p.lines[k] == o.lines[k - 1];
  }

  lemma FitsPrepend(cfg: Config, m: Measure, words: seq<Item>, b: Bound, bs: seq<Bound>)
    requires AllPrinting(words, bs) && Printing(words, b) && Fits(cfg, m, words, bs)
    requires b.end - b.start > 1 ==> Tracked(m, words, b) <= MaxLineWidth(cfg)
    ensures AllPrinting(words, [b] + bs) && Fits(cfg, m, words, [b] + bs)
  {
    var all := [b] + bs;
    assert forall k :: 0 < k < |all| ==> all[k] == bs[k - 1];
  }

  lemma BrokenPrepend(cfg: Config, m: Measure, words: seq<Item>, b: Bound, bs: seq<Bound>)
    requires AllPrinting(words, bs) && Printing(words, b) && Broken(cfg, m, words, bs)
    requires bs != [] && b.end == bs[0].start ==>
      Tracked(m, words, b) + SegmentWidth(words[b.end], m) + 2 > MaxLineWidth(cfg)
    ensures AllPrinting(words, [b] + bs) && Broken(cfg, m, words, [b] + bs)
  {
    var all := [b] + bs;
    assert forall k :: 0 < k < |all| ==> all[k] == bs[k - 1];
    forall k | 0 <= k < |all| - 1
      ensures BrokenAt(cfg, m, words, all, k)
    {
      if k > 0 {
        assert BrokenAt(cfg, m, words, bs, k - 1);
      }
    }
  }

  lemma RowsPrependLine(cfg: Config, b: Bound, y: int, f: nat, line: seq<Item>, o: Outcome, bs: seq<Bound>)
    requires |bs| <= |o.lines| && RowsOf(cfg, o, bs, f, Below(cfg, y, Moves(b.end, f)))
    requires b.end <= f && (bs != [] ==> f <= bs[0].start) && (b.end == f ==> bs != [] && bs[0].start == f)
    ensures RowsOf(cfg, Prepend([LineDraw(y, line)], o), [b] + bs, b.start, y)
  {
    var all := [b] + bs;
    var p := Prepend([LineDraw(y, line)], o);
    assert forall k :: 0 < k < |all| ==> all[k] == bs[k - 1] && p.lines[k] == o.lines[k - 1];
    if bs != [] {
      BelowAdd(cfg, y, Moves(b.end, f), bs[0].start - f);
    }
    forall k | 0 <= k < |all| - 1
      ensures RowStep(cfg, p, all, k)
    {
      if k > 0 {
        assert RowStep(cfg, o, bs, k - 1);
      }
    }
  }

  lemma EndsPrependLine(cfg: Config, m: Measure, words: seq<Item>, b: Bound, y: int, f: nat,
                        o: Outcome, bs: seq<Bound>, stop: nat)
    requires AllPrinting(words, bs) && Printing(words, b) && |bs| <= |o.lines|
    requires Ends(cfg, m, words, f, Below(cfg, y, Moves(b.end, f)), o, bs, stop)
    requires b.end <= f <= stop && (b.end == f ==> bs != [])
    ensures AllPrinting(words, [b] + bs)
    ensures Ends(cfg, m, words, b.start, y, Prepend([LineDraw(y, words[b.start..b.end])], o), [b] + bs, stop)
  {
    var all := [b] + bs;
    var p := Prepend([LineDraw(y, words[b.start..b.end])], o);
    assert forall k :: 0 < k < |all| ==> all[k] == bs[k - 1];
    assert forall k :: 0 < k < |p.lines| ==> p.lines[k] == o.lines[k - 1];
    if bs == [] {
      BelowAdd(cfg, y, Moves(b.end, f), stop - f);
    }
    assert RowAfter(cfg, p, all, b.start, y, stop) == RowAfter(cfg, o, bs, f, Below(cfg, y, Moves(b.end, f)), stop);
  }

  /** A line drawn in front of a layout that starts where the line's gap
      of line breaks ends: the line is words[s..e] and the layout starts at
      token `f`. */
  lemma PrependLine(cfg: Config, m: Measure, words: seq<Item>, s: nat, e: nat, y: int, f: nat, y': int,
                    o: Outcome, bs: seq<Bound>, stop: nat, o': Outcome)
    requires y' == Below(cfg, y, Moves(e, f))
    requires LaidOut(cfg, m, words, f, y', o, bs, stop)
    requires Printing(words, Bound(s, e)) && e <= f && AllBreaks(words, e, f)
    requires o' == Prepend([LineDraw(y, words[s..e])], o)
    requires e - s > 1 ==> Tracked(m, words, Bound(s, e)) <= MaxLineWidth(cfg)
    requires e == f ==> (bs != [] && bs[0].start == f
      && Tracked(m, words, Bound(s, e)) + SegmentWidth(words[f], m) + 2 > MaxLineWidth(cfg))
    ensures LaidOut(cfg, m, words, s, y, o', [Bound(s, e)] + bs, stop)
  {
    var b := Bound(s, e);
    CoversPrepend(words, b, f, stop, bs);
    DrawnPrepend(words, b, y, o, bs);
    FitsPrepend(cfg, m, words, b, bs);
    BrokenPrepend(cfg, m, words, b, bs);
    if bs != [] {
      assert LineAt(bs, 0, f, stop);
    }
    assert RowsOf(cfg, o, bs, f, Below(cfg, y, Moves(b.end, f)));
    assert Ends(cfg, m, words, f, Below(cfg, y, Moves(b.end, f)), o, bs, stop);
    RowsPrependLine(cfg, b, y, f, words[b.start..b.end], o, bs);
    EndsPrependLine(cfg, m, words, b, y, f, o, bs, stop);
  }

  // The loop follows the layout rule

  /** Appending a token keeps the loop's state. */
  lemma AppendState(cfg: Config, m: Measure, words: seq<Item>, s: nat, i: nat, line: seq<Item>, lw: int, y: int)
    requires LoopState(cfg, m, words, s, i, line, lw, y) && i < |words| && !words[i].LineBreak?
    requires line != [] ==> lw + SegmentWidth(words[i], m) + 2 <= MaxLineWidth(cfg)
    ensures LoopState(cfg, m, words, s, i + 1, line + [words[i]], lw + SegmentWidth(words[i], m) + 2, y)
    ensures Run(cfg, m, words, i, line, lw, y)
      == Run(cfg, m, words, i + 1, line + [words[i]], lw + SegmentWidth(words[i], m) + 2, y)
  {
    assert words[s..i + 1] == line + [words[i]];
    SpanAppend(line, words[i], m);
    assert Printing(words, Bound(s, i + 1));
  }

  /** A line break read with no line pending only moves down a row. */
  lemma BlankState(cfg: Config, m: Measure, words: seq<Item>, i: nat, y: int)
    requires LoopState(cfg, m, words, i, i, [], 0, y) && i < |words| && words[i].LineBreak?
    requires !OutOfRoom(cfg, y + LineHeight(cfg))
    ensures LoopState(cfg, m, words, i + 1, i + 1, [], 0, y + LineHeight(cfg))
    ensures 0 < i + 1 <= |words| && words[i + 1 - 1].LineBreak?
    ensures Run(cfg, m, words, i, [], 0, y) == Run(cfg, m, words, i + 1, [], 0, y + LineHeight(cfg))
  {
    assert OnGrid(cfg, y + LineHeight(cfg));
  }

  /** A line break after some tokens draws them and moves down a row. */
  lemma FlushState(cfg: Config, m: Measure, words: seq<Item>, s: nat, i: nat, line: seq<Item>, lw: int, y: int)
    requires LoopState(cfg, m, words, s, i, line, lw, y) && i < |words| && words[i].LineBreak?
    requires line != [] && !OutOfRoom(cfg, y + LineHeight(cfg))
    ensures LoopState(cfg, m, words, i + 1, i + 1, [], 0, y + LineHeight(cfg))
    ensures y + LineHeight(cfg) == Below(cfg, y, Moves(i, i + 1))
    ensures Printing(words, Bound(s, i)) && i <= i + 1 && AllBreaks(words, i, i + 1)
    ensures Run(cfg, m, words, i, line, lw, y)
      == Prepend([LineDraw(y, words[s..i])], Run(cfg, m, words, i + 1, [], 0, y + LineHeight(cfg)))
    ensures i - s > 1 ==> Tracked(m, words, Bound(s, i)) <= MaxLineWidth(cfg)
  {
    assert OnGrid(cfg, y + LineHeight(cfg));
    OneRowDown(cfg, y, i, i + 1);
  }

  /** Starting the next line with an overflowing token keeps the loop's
      state: the new line is counted without the 2-pixel lead. */
  lemma OverflowState(cfg: Config, m: Measure, words: seq<Item>, s: nat, i: nat, line: seq<Item>, lw: int, y: int)
    requires LoopState(cfg, m, words, s, i, line, lw, y) && i < |words| && !words[i].LineBreak?
    requires line != [] && lw + SegmentWidth(words[i], m) + 2 > MaxLineWidth(cfg)
    requires !OutOfRoom(cfg, y + LineHeight(cfg))
    ensures LoopState(cfg, m, words, i, i + 1, [words[i]], SegmentWidth(words[i], m), y + LineHeight(cfg))
    ensures y + LineHeight(cfg) == Below(cfg, y, Moves(i, i))
    ensures Printing(words, Bound(s, i)) && i <= i && AllBreaks(words, i, i)
    ensures Run(cfg, m, words, i, line, lw, y)
      == Prepend([LineDraw(y, words[s..i])], Run(cfg, m, words, i + 1, [words[i]], SegmentWidth(words[i], m), y + LineHeight(cfg)))
    ensures i - s > 1 ==> Tracked(m, words, Bound(s, i)) <= MaxLineWidth(cfg)
    ensures Tracked(m, words, Bound(s, i)) + SegmentWidth(words[i], m) + 2 > MaxLineWidth(cfg)
  {
    assert OnGrid(cfg, y + LineHeight(cfg));
    assert words[i - 1] == line[|line| - 1];
    assert words[i..i + 1] == [words[i]];
    assert Printing(words, Bound(i, i + 1));
    OneRowDown(cfg, y, i, i);
  }

  /** The turns on which the loop ends: the tokens run out, or a line
      break or an overflow moves into the bottom margin. */
  predicate Stops(cfg: Config, m: Measure, words: seq<Item>, i: nat, line: seq<Item>, lw: int, y: int)
    requires i <= |words|
  {
    i == |words|
    || (words[i].LineBreak? && OutOfRoom(cfg, y + LineHeight(cfg)))
    || (!words[i].LineBreak? && line != [] && lw + SegmentWidth(words[i], m) + 2 > MaxLineWidth(cfg)
        && OutOfRoom(cfg, y + LineHeight(cfg)))
  }

  /** The last line, words[s..i], or none when s == i. */
  function LastBounds(s: nat, i: nat): seq<Bound> {
    if s == i then [] else [Bound(s, i)]
  }

  lemma LastCovers(words: seq<Item>, s: nat, i: nat)
    requires s <= i <= |words| && (s < i ==> Printing(words, Bound(s, i)))
    ensures Covers(words, s, i, LastBounds(s, i))
  {
    var bs := LastBounds(s, i);
    assert forall k :: 0 <= k <= |bs| ==> GapStart(bs, k, s) == GapEnd(bs, k, i);
  }

  lemma LastLines(cfg: Config, m: Measure, words: seq<Item>, s: nat, i: nat, y: int, o: Outcome)
    requires s <= i <= |words| && (s < i ==> Printing(words, Bound(s, i)))
    requires s < i ==> (|o.lines| > 0 && o.lines[0] == LineDraw(y, words[s..i])
      && (i - s > 1 ==> Tracked(m, words, Bound(s, i)) <= MaxLineWidth(cfg)))
    ensures AllPrinting(words, LastBounds(s, i)) && Drawn(words, o, LastBounds(s, i))
    ensures Fits(cfg, m, words, LastBounds(s, i)) && Broken(cfg, m, words, LastBounds(s, i))
    ensures RowsOf(cfg, o, LastBounds(s, i), s, y)
  {
  }

  lemma LastEnds(cfg: Config, m: Measure, words: seq<Item>, s: nat, i: nat, y: int, o: Outcome)
    requires s <= i <= |words| && (s < i ==> Printing(words, Bound(s, i)))
    requires s < i ==> |o.lines| > 0 && o.lines[0].y == y
    requires !o.stopped ==> i == |words| && o.endY == y && |o.lines| == |LastBounds(s, i)|
    requires o.stopped ==> (i < |words| && o.endY == y + LineHeight(cfg)
      && (words[i].LineBreak? ==> |o.lines| == |LastBounds(s, i)|)
      && (!words[i].LineBreak? ==> (s < i && Tracked(m, words, Bound(s, i)) + SegmentWidth(words[i], m) + 2 > MaxLineWidth(cfg)
            && o.lines == [LineDraw(y, words[s..i]), LineDraw(o.endY, words[s..i])])))
    ensures AllPrinting(words, LastBounds(s, i)) && |LastBounds(s, i)| <= |o.lines|
    ensures Ends(cfg, m, words, s, y, o, LastBounds(s, i), i)
  {
    assert RowAfter(cfg, o, LastBounds(s, i), s, y, i) == y;
  }

  /** The loop's last line, drawn at the end of the tokens (`o` does not
      stop) or where the page ran out at token `i`. */
  lemma LastLaidOut(cfg: Config, m: Measure, words: seq<Item>, s: nat, i: nat, line: seq<Item>, lw: int, y: int, o: Outcome)
    returns (bs: seq<Bound>, stop: nat)
    requires LoopState(cfg, m, words, s, i, line, lw, y)
    requires !o.stopped ==> i == |words| && o == Outcome(Flush(line, y), false, y)
    requires o.stopped ==> (i < |words| && o.endY == y + LineHeight(cfg)
      && (words[i].LineBreak? ==> o.lines == Flush(line, y))
      && (!words[i].LineBreak? ==> (line != [] && lw + SegmentWidth(words[i], m) + 2 > MaxLineWidth(cfg)
            && o.lines == [LineDraw(y, line), LineDraw(o.endY, line)])))
    ensures LaidOut(cfg, m, words, s, y, o, bs, stop)
    ensures line != [] ==> bs != [] && bs[0].start == s
  {
    stop := i;
    bs := LastBounds(s, i);
    LastCovers(words, s, i);
    LastLines(cfg, m, words, s, i, y, o);
    LastEnds(cfg, m, words, s, i, y, o);
  }

  /** The turn on which the loop ends follows the layout rule. */
  lemma StopLaidOut(cfg: Config, m: Measure, words: seq<Item>, s: nat, i: nat, line: seq<Item>, lw: int, y: int)
    returns (bs: seq<Bound>, stop: nat)
    requires LoopState(cfg, m, words, s, i, line, lw, y) && Stops(cfg, m, words, i, line, lw, y)
    ensures LaidOut(cfg, m, words, s, y, Run(cfg, m, words, i, line, lw, y), bs, stop)
    ensures line != [] ==> bs != [] && bs[0].start == s
  {
    bs, stop := LastLaidOut(cfg, m, words, s, i, line, lw, y, Run(cfg, m, words, i, line, lw, y));
  }

  // ---------------------------------------------------------------------
  // Two behaviours of the source, on concrete inputs

  /** A page with room for two rows: the second token overflows the first
      line, the move to the second row runs into the bottom margin, and the
      final flush draws the first line again on that row. */
  lemma LastLineDrawnTwice()
    ensures var cfg := Config(1264, 200, 32, 16);
      var a := Text("a");
      Lines(cfg, (s: string, f: Font) => 700, [a, Text("b")])
        == Outcome([LineDraw(71, [a]), LineDraw(129, [a])], true, 129)
  {
    var cfg := Config(1264, 200, 32, 16);
    var m := (s: string, f: Font) => 700;
    var words := [Text("a"), Text("b")];
    assert [] + [Text("a")] == [Text("a")];
    assert Run(cfg, m, words, 0, [], 0, 71) == Run(cfg, m, words, 1, [Text("a")], 702, 71);
  }

  /** A closing mark that may not start a line still starts one: the break
      predicate refuses it, and the overflow breaks the line before it all
      the same. */
  lemma ClosingMarkStartsLine()
    ensures !CanBreakBefore(Text("。"))
    ensures var a, mark := Text("a"), Text("。");
      Lines(DefaultConfig, (s: string, f: Font) => 700, [a, mark])
        == Outcome([LineDraw(71, [a]), LineDraw(129, [mark])], false, 129)
  {
    var m := (s: string, f: Font) => 700;
    var words := [Text("a"), Text("。")];
    assert [] + [Text("a")] == [Text("a")];
    assert Run(DefaultConfig, m, words, 0, [], 0, 71) == Run(DefaultConfig, m, words, 1, [Text("a")], 702, 71);
    assert Run(DefaultConfig, m, words, 1, [Text("a")], 702, 71)
      == Prepend([LineDraw(71, [Text("a")])], Run(DefaultConfig, m, words, 2, [Text("。")], 700, 129));
  }

  /** A line break flushes the line and moves one row; each further line
      break moves one more. Lines around one line break are one row apart,
      around two line breaks two rows apart. */
  lemma LineBreaksMoveOneRowEach()
    ensures var a, b := Text("a"), Text("b");
      Lines(DefaultConfig, (s: string, f: Font) => 10, [a, LineBreak, b])
        == Outcome([LineDraw(71, [a]), LineDraw(129, [b])], false, 129)
    ensures var a, b := Text("a"), Text("b");
      Lines(DefaultConfig, (s: string, f: Font) => 10, [a, LineBreak, LineBreak, b])
        == Outcome([LineDraw(71, [a]), LineDraw(187, [b])], false, 187)
  {
    var m := (s: string, f: Font) => 10;
    var one := [Text("a"), LineBreak, Text("b")];
    var two := [Text("a"), LineBreak, LineBreak, Text("b")];
    assert [] + [Text("a")] == [Text("a")];
    assert [] + [Text("b")] == [Text("b")];
    assert Run(DefaultConfig, m, one, 0, [], 0, 71) == Run(DefaultConfig, m, one, 1, [Text("a")], 12, 71);
    assert Run(DefaultConfig, m, one, 1, [Text("a")], 12, 71)
      == Prepend([LineDraw(71, [Text("a")])], Run(DefaultConfig, m, one, 2, [], 0, 129));
    assert Run(DefaultConfig, m, one, 2, [], 0, 129) == Run(DefaultConfig, m, one, 3, [Text("b")], 12, 129);
    assert Run(DefaultConfig, m, two, 0, [], 0, 71) == Run(DefaultConfig, m, two, 1, [Text("a")], 12, 71);
    assert Run(DefaultConfig, m, two, 1, [Text("a")], 12, 71)
      == Prepend([LineDraw(71, [Text("a")])], Run(DefaultConfig, m, two, 2, [], 0, 129));
    assert Run(DefaultConfig, m, two, 2, [], 0, 129) == Run(DefaultConfig, m, two, 3, [], 0, 187);
    assert Run(DefaultConfig, m, two, 3, [], 0, 187) == Run(DefaultConfig, m, two, 4, [Text("b")], 12, 187);
  }

  /** Two tokens whose widths and gap fill the line exactly share it: the
      test is strictly greater than the maximum width. */
  lemma ExactFitShares()
    ensures var a, b := Text("a"), Text("b");
      Lines(DefaultConfig, (s: string, f: Font) => 580, [a, b])
        == Outcome([LineDraw(71, [a, b])], false, 71)
  {
    var m := (s: string, f: Font) => 580;
    var words := [Text("a"), Text("b")];
    assert [] + [Text("a")] == [Text("a")];
    assert [Text("a")] + [Text("b")] == [Text("a"), Text("b")];
    assert Run(DefaultConfig, m, words, 0, [], 0, 71) == Run(DefaultConfig, m, words, 1, [Text("a")], 582, 71);
    assert Run(DefaultConfig, m, words, 1, [Text("a")], 582, 71) == Run(DefaultConfig, m, words, 2, [Text("a"), Text("b")], 1164, 71);
  }

  /** The first token of the page, or of a line begun by a line break,
      counts 2 more than its width, so a line can break before a token that
      would have fitted by its span: here `a` and `b` span exactly the
      maximum width, yet `b` starts the next line, while `b` and `c`, the
      same widths on a line begun by a width break, share one. */
  lemma LeadingGapBreaksEarly()
    ensures var a, b := Text("a"), Text("b");
      Span([a, b], (s: string, f: Font) => 581) == MaxLineWidth(DefaultConfig)
    ensures var a, b, c := Text("a"), Text("b"), Text("c");
      Lines(DefaultConfig, (s: string, f: Font) => 581, [a, b, c])
        == Outcome([LineDraw(71, [a]), LineDraw(129, [b, c])], false, 129)
  {
    var m := (s: string, f: Font) => 581;
    var words := [Text("a"), Text("b"), Text("c")];
    assert [Text("a"), Text("b")][..1] == [Text("a")];
    assert [] + [Text("a")] == [Text("a")];
    assert [Text("b")] + [Text("c")] == [Text("b"), Text("c")];
    assert Run(DefaultConfig, m, words, 0, [], 0, 71) == Run(DefaultConfig, m, words, 1, [Text("a")], 583, 71);
    assert Run(DefaultConfig, m, words, 1, [Text("a")], 583, 71)
      == Prepend([LineDraw(71, [Text("a")])], Run(DefaultConfig, m, words, 2, [Text("b")], 581, 129));
    assert Run(DefaultConfig, m, words, 2, [Text("b")], 581, 129) == Run(DefaultConfig, m, words, 3, [Text("b"), Text("c")], 1164, 129);
  }
}
