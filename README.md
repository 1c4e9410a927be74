# Furigana text layout, modelled in Dafny

This project models the text-layout pipeline of `app/process.py`. The pipeline turns Japanese text with
inline reading annotations, written `漢字[かんじ]`, into the draws of a page image.

It has four stages, each in its own module:

- **Parsing** (`Matching`, `Parser`). `parse_furigana_text` splits the text into plain-text segments and
  furigana segments. A furigana segment is a base of kanji then kana, plus its reading.
  - The pattern `([一-龯]+[ぁ-ゟァ-ヿ]*)\[([ぁ-ゟァ-ヿー]+)\]` is modelled twice: as a declarative predicate
    (`Pattern`, `IsMatch`) and as a deterministic scanner (`MatchAt`). The two are proved equivalent.
  - The `re.finditer` loop is a method (`WalkMatches`) that is proved equal to a recursive specification
    (`Segments`). That specification is proved to be the only segmentation meeting the parser's declarative
    contract (`IsParse`).
- **Tokenizing** (`Tokenizer`). `break_text_into_words` splits text segments into line breaks,
  one-character tokens and maximal ASCII words. Furigana segments pass through unchanged.
- **Measuring and break permission** (`Measure`). These are `calculate_segment_width` and `can_break_before`.
  The glyph width `textbbox` gives is a parameter: a function from a string and a font to a natural number.
- **Layout and drawing** (`Layout`, `Render`, `Image`).
  - The line-grouping loop of `create_furigana_image` produces the sequence of `draw_line` calls as
    `(row, tokens)` pairs.
  - `draw_line` turns one line into text draws at an advancing cursor.
  - `create_furigana_image` composes the stages.

The layout loop is specified twice. `Layout.Run` follows the loop branch by branch. `Layout.LaidOut`
is a separate description of the result, with these parts:

- which tokens each line holds;
- the width the loop tracks for a line: the gaps between neighbouring tokens, plus 2 for a line begun
  on an empty line;
- why each line ends: a line break, or a next token that does not fit;
- the row each line is drawn on;
- where the loop stops.

`LayoutRule.LinesLaidOut` proves that `Run` meets that description on every input.

Four behaviours of the source are reproduced as written:

- The two branches taken on an overflow do the same thing, so `can_break_before` never changes the
  output. `Layout.GroupIntoLines` shows this for all inputs: the loop equals `Layout.Lines`, which never
  consults the predicate. `Layout.ClosingMarkStartsLine` shows it on one page.
- When an overflow moves the row into the bottom margin, the pending line is not cleared. The final flush
  then draws it a second time, on the overflowed row (`Layout.LastLineDrawnTwice`).
- A line started by an overflow counts its first token without the 2-pixel gap, while a line begun on an
  empty line counts it. So two tokens that exactly fill the maximum width cannot share the first line, yet
  share a line begun by an overflow (`Layout.LeadingGapBreaksEarly`). An exact fit otherwise stays on the
  line (`Layout.ExactFitShares`).
- `draw_line` leaves out the gap after a whitespace token, which the layout counts.
  `Render.TokenWithinSpan` bounds `draw_line`'s advance by the gaps between neighbours (`Layout.Span`).
  That is never more than the width the layout tracks.

The comment at app/process.py:137 says a line may not start with spaces. The test at app/process.py:138,
`content.isspace()`, refuses only content that is entirely whitespace, not content that merely starts
with whitespace. The model follows the test. `Measure.TokenCanBreakBefore` shows the two readings agree
on the tokens the tokenizer produces.

## Model

| member | source | states |
|---|---|---|
| Matching.MatchAt | app/process.py:29 | a match found at position i starts at i, has a non-empty base followed by `[`, a non-empty reading and `]`, and ends inside the text |
| Matching.MatchAtCharacterised | app/process.py:29 | the scanner reports a match at i with base end b and end e exactly when the pattern matches `s[i..e]` with group 1 `s[i..b]` (both directions) |
| Matching.MatchAtRuns | app/process.py:29 | the scanner takes the maximal kanji run, then the maximal kana run, then `[`, a maximal non-empty reading run and `]`, and fails otherwise |
| Matching.PatternRuns | app/process.py:29 | any match of the pattern consists of those maximal runs, so backtracking cannot yield another match at the same position |
| Matching.MatchGroups | app/process.py:42-43 | group 1 is one or more kanji followed by kana, and group 2 is one or more reading characters |
| Parser.Search | app/process.py:34 | finditer's next match from a position is the leftmost: it is a match, and no match starts between the position and it; no result means no match in the rest of the text |
| Parser.WalkMatches | app/process.py:31-58 | the cursor loop over the matches returns exactly the recursive segmentation, for any matcher |
| Parser.ParseFuriganaText | app/process.py:27-58 | parse_furigana_text returns the specification `Parse` of its input |
| Parser.ParseCharacterised | app/process.py:31-58 | `Parse(s)` meets the declarative contract (text runs with no match in them, each followed by a furigana segment read at a match or by the end), and no other segmentation does |
| Parser.ParseReconstructs | app/process.py:31-58 | joining the text segments and each furigana's `base[reading]` in order gives back the input |
| Parser.ParseShapes | app/process.py:36-56 | no text segment is empty; every base is kanji then kana, and every reading is a non-empty run of reading characters |
| Parser.ParseNoMatch | app/process.py:53-56 | the input comes back as one text segment (none when empty) exactly when the pattern matches nowhere in it |
| Parser.MatchSource | app/process.py:42-50 | the text a match covers is its base, `[`, its reading and `]` |
| Tokenizer.AppendTextWords | app/process.py:77-118 | the buffer-and-flush loop over one text segment appends exactly the token list `TokensFrom(content, 0)` |
| Tokenizer.BreakTextIntoWords | app/process.py:72-123 | break_text_into_words returns `Tokenize(segments)`: each text segment's tokens in order, and every other segment unchanged |
| Tokenizer.WordRun | app/process.py:95-105 | a word token is the maximal run of ASCII non-whitespace characters starting at its position |
| Tokenizer.TokensFlatten | app/process.py:83-118 | a segment's tokens, with a line break read as `\n`, spell its content exactly |
| Tokenizer.TokensLineBreaks | app/process.py:87-93 | a segment yields one line break for each `\n` it contains |
| Tokenizer.TokensShapes | app/process.py:83-118 | every token is a line break, a word, one ASCII whitespace character other than `\n`, or one character from U+0080 on; no two words are adjacent; the first token is a word exactly when the text starts with a word character |
| Tokenizer.TokensNoFurigana | app/process.py:83-118 | a text segment yields no furigana token |
| Tokenizer.TokenizeFlatten | app/process.py:72-123 | the token stream spells the same annotated text as the segments |
| Tokenizer.TokenizeFurigana | app/process.py:119-121 | the furigana segments come out unchanged and in the same order |
| Tokenizer.TokenizeShapes | app/process.py:76-118 | every text token of the stream has one of the token shapes above |
| Measure.SegmentWidth | app/process.py:60-70 | a text token is as wide as its content in the main font; a furigana token's width is at least both its base's and its reading's width and equal to one of them |
| Measure.CanBreakBefore | app/process.py:125-146 | a line may start with any token except non-empty text that is all whitespace or starts with one of `。、）】』」！？` (both directions) |
| Measure.TokenCanBreakBefore | app/process.py:137-144 | on tokenizer output, only a single whitespace character or a single closing mark refuses to start a line |
| Layout.GroupIntoLines | app/process.py:164-234 | the line-grouping loop makes exactly the draw_line calls of the specification `Lines`, in order |
| LayoutRule.LinesLaidOut | app/process.py:164-234 | the lines follow the layout rule `LaidOut`. They take the tokens in order, with only line breaks around them. A line of two or more tokens has a tracked width within the maximum. The tracked width is its gaps plus 2 when it begins on an empty line. A line followed directly by the next line's first token ended because that token did not fit. The first line is one row down per leading line break. Each later line is one row below the previous per line break between them, or one row after an overflow. Without a stop every token was read. With a stop, the token at the stop moved one row further, and an overflowing token leaves the last line drawn again there |
| LayoutRule.LinesWellFormed | app/process.py:181-234 | every line drawn is non-empty and holds no line break, and a line of two or more tokens fits the maximum line width with the gaps between its tokens |
| Layout.BelowIsMultiple | app/process.py:189 | moving down n rows adds n line heights |
| Layout.LinesRows | app/process.py:166-224 | rows are the first row plus whole line heights, and strictly increasing. Each line is drawn on the first row or one with room, except a line drawn after the stop. The loop stops exactly when the row it moved to is off the first row and out of room, and the row it left had room |
| Layout.ExactFitShares | app/process.py:201-228 | on a concrete page, two tokens whose tracked width is exactly the maximum share the first line |
| Layout.LineBreaksMoveOneRowEach | app/process.py:181-195 | on concrete pages, lines around one line break are one row apart and around two line breaks two rows apart: the flush and the first move share a line break |
| Layout.LeadingGapBreaksEarly | app/process.py:201-228 | on a concrete page, two tokens spanning exactly the maximum width are split on the first line, while two of the same width after an overflow share a line |
| Layout.LinesTokens | app/process.py:177-234 | with room to spare, the lines draw every non-line-break token once, in order; after a stop, a prefix of them, possibly followed by the last line once more |
| Layout.LastLineDrawnTwice | app/process.py:205-234 | on a concrete page, the overflow stop leaves the pending line in place and the final flush draws it again on the next row |
| Layout.ClosingMarkStartsLine | app/process.py:201-224 | on a concrete page, a closing mark the break predicate refuses still starts the second line |
| Render.DrawToken | app/process.py:242-270 | one iteration of draw_line's loop yields the token's draws at the cursor and moves the cursor by its width plus the gap |
| Render.DrawLine | app/process.py:238-270 | draw_line yields the draws of the specification `LineDraws` and leaves the cursor at the start plus the line's total advance |
| Render.LineDrawsSplit | app/process.py:240-270 | in any line, each token is drawn right after the tokens before it, at the cursor they leave |
| Render.CursorSteps | app/process.py:247-270 | the cursor moves past each token by exactly its width plus a gap that is 2, or 0 exactly for a whitespace text token |
| Render.BoxesInOrder | app/process.py:240-270 | tokens are drawn left to right: each token's advance box, from the cursor to the cursor plus its width, ends before any later token's advance box begins |
| Render.TokenWithinSpan | app/process.py:240-270 | every token of a line starts at or after the line's start and ends within the span the layout measured for the line |
| Render.ReadingCentred | app/process.py:249-264 | a reading is drawn in the small font with its midpoint over the base's midpoint, lifted by the furigana size less 2.5, while the base sits at the cursor on the row |
| Image.CreateFuriganaImage | app/process.py:148-236 | create_furigana_image draws each line the layout makes, from the left margin on its row, in order |
| Image.WordsKeepText | app/process.py:161-162 | the token stream the layout receives spells the input, annotations included, and keeps its furigana in order |
| Image.WordsNewlines | app/process.py:161-162 | in that stream, only line breaks stand for a newline |
| Image.PageText | app/process.py:148-236 | when the page has room, the drawn tokens spell the whole input with its newlines removed; otherwise they spell a prefix of it, with the last line possibly repeated |
| Image.PageInsideMargins | app/process.py:164-234 | each token of a multi-token line lies between the left margin and the right margin |

## Left out

- `get_font_path`, `load_text` and the `__main__` block of `app/process.py`, and all of `app/serve.py`, are not modelled. They are file-system probing, environment variables, a network call to a text generator, image saving and an HTTP server.
- Font loading, `Image.new` and the pixels `draw.text` produces are not modelled. A draw is recorded as position, text and font (`Render.TextDraw`).
- The model does not compute `textbbox` widths. Measure is a parameter returning a natural number, so every glyph box is taken to have a non-negative width.
- Python's float positions for readings are modelled as exact reals. Float rounding is not modelled.
- Measure.SegmentWidth: requires a token that is not a line break. The source would fail with a missing-key error on one, and the layout never measures one.
- The source calls `draw_line` from inside the grouping loop. In the model the loop returns the list of calls and `Image.CreateFuriganaImage` then draws them in the same order. The draws are the same, but their interleaving with the grouping is not modelled.
- The reading class `[ぁ-ゟァ-ヿー]` is modelled as written (`Chars.IsReadingChar`). U+30FC already lies in `ァ-ヿ`, so it accepts the same characters as the kana class.
- Image.PageInsideMargins: says nothing about a line of a single token wider than the page, which the source draws past the right margin. It also ignores a reading wider than its base, which extends half the difference to the left of the cursor.
- Render.BoxesInOrder: orders the advance boxes only. A reading wider than its base is drawn half the difference left of the cursor (app/process.py:257), so neighbouring readings may overlap.
