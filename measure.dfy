/** calculate_segment_width and can_break_before: how wide a token is drawn
    and whether a line may start with it. */
module Measure {
  import opened Chars
  import opened Items
  import opened Tokenizer

  /** The two fonts the image is drawn with: the main font and the smaller
      font the readings are set in. */
  datatype Font = MainFont | FuriganaFont

  /** The width of a string drawn in a font: right minus left edge of its
      bounding box. The glyph metrics belong to the font file, so the
      measure is a parameter of the model. */
  type Measure = (string, Font) -> nat

  /** calculate_segment_width: a text token is as wide as its content in the
      main font; a furigana token takes the wider of its base (main font)
      and its reading (furigana font). Line breaks are never measured. */
  function SegmentWidth(seg: Item, m: Measure): (w: nat)
    requires !seg.LineBreak?
    ensures seg.Text? ==> w == m(seg.content, MainFont)
    ensures seg.Furigana? ==>
      w >= m(seg.kanji, MainFont) && w >= m(seg.reading, FuriganaFont)
      && (w == m(seg.kanji, MainFont) || w == m(seg.reading, FuriganaFont))
  {
    match seg
    case Text(c) => m(c, MainFont)
    case Furigana(k, r) =>
      var kw, fw := m(k, MainFont), m(r, FuriganaFont);
      if kw >= fw then kw else fw
  }

  /** The closing punctuation no line should start with. */
  const NoBreakStart: string := "。、）】』」！？"

  /** can_break_before: a line may start with any token except text that is
      all whitespace or starts with closing punctuation. */
  function CanBreakBefore(word: Item): (b: bool)
    ensures !b <==> (word.Text? && word.content != []
                     && (IsSpace(word.content) || word.content[0] in NoBreakStart))
  {
    match word
    case Furigana(_, _) => true
    case LineBreak => true
    case Text(content) =>
      if content == [] then true
      else if IsSpace(content) then false
      else if content[0] in NoBreakStart then false
      else true
  }

  /** On the tokens break_text_into_words produces, only a single whitespace
      character or a single closing punctuation mark refuses a line start:
      words are ASCII and so never start with that punctuation. */
  lemma TokenCanBreakBefore(t: Item)
    requires IsToken(t)
    ensures !CanBreakBefore(t) <==>
      (t.Text? && |t.content| == 1 && (IsPySpace(t.content[0]) || t.content[0] in NoBreakStart))
  {
    if t.Text? && IsWord(t) {
      assert IsWordChar(t.content[0]);
      assert !IsSpace(t.content);
    }
  }
}
