/** break_text_into_words: text segments are cut into tokens a line may
    break between; furigana segments pass through whole. */
module Tokenizer {
  import opened Chars
  import opened Items

  /** A character that extends an English word: ASCII and not whitespace. */
  predicate IsWordChar(c: char) {
    c < '\U{80}' && !IsPySpace(c)
  }

  /** The token a character that is not a word character becomes on its own:
      a line break for `\n`, otherwise a one-character text token. */
  function Single(c: char): Item {
    if c == '\n' then LineBreak else Text([c])
  }

  /** The tokens of `c` from position `i` on: a maximal run of word
      characters is one token, every other character is a token of its own. */
  function TokensFrom(c: string, i: nat): seq<Item>
    requires i <= |c|
    decreases |c| - i
  {
    if i == |c| then []
    else if IsWordChar(c[i]) then
      var j := RunEnd(c, i, IsWordChar);
      [Text(c[i..j])] + TokensFrom(c, j)
    else [Single(c[i])] + TokensFrom(c, i + 1)
  }

  /** The tokens one segment contributes. */
  function TokensOf(seg: Item): seq<Item> {
    if seg.Text? then TokensFrom(seg.content, 0) else [seg]
  }

  /** The token stream of a sequence of segments, in order. */
  function Tokenize(segs: seq<Item>): seq<Item>
    decreases |segs|
  {
    if segs == [] then [] else Tokenize(segs[..|segs| - 1]) + TokensOf(segs[|segs| - 1])
  }

  /** The number of line-break items in a sequence. */
  function LineBreaks(items: seq<Item>): nat
    decreases |items|
  {
    if items == [] then 0
    else (if items[0].LineBreak? then 1 else 0) + LineBreaks(items[1..])
  }

  /** A word token: a non-empty run of word characters. */
  predicate IsWord(t: Item) {
    t.Text? && t.content != [] && AllSatisfy(t.content, IsWordChar)
  }

  /** The shapes a text segment's token can take: a line break, a single
      ASCII whitespace character other than `\n`, a single character from
      U+0080 on, or a word. */
  predicate IsToken(t: Item) {
    t.LineBreak? || IsWord(t)
    || (t.Text? && |t.content| == 1
        && (t.content[0] >= '\U{80}' || (IsPySpace(t.content[0]) && t.content[0] != '\n')))
  }

  // Step lemmas for the loop: how the tokens from the start of the pending
  // word `w` continue once the scan reaches a character that ends it.

  lemma TokensAtBreak(c: string, w: nat, i: nat)
    requires w <= i < |c| && !IsWordChar(c[i])
    requires forall k :: w <= k < i ==> IsWordChar(c[k])
    ensures TokensFrom(c, w) ==
      (if w < i then [Text(c[w..i])] else []) + [Single(c[i])] + TokensFrom(c, i + 1)
  {
    if w < i {
      RunEndUnique(c, w, IsWordChar, i);
    }
  }

  lemma TokensAtEnd(c: string, w: nat)
    requires w <= |c|
    requires forall k :: w <= k < |c| ==> IsWordChar(c[k])
    ensures TokensFrom(c, w) == if w < |c| then [Text(c[w..])] else []
  {
    if w < |c| {
      RunEndUnique(c, w, IsWordChar, |c|);
      assert c[w..|c|] == c[w..];
    }
  }

  lemma SliceExtend(c: string, w: nat, i: nat)
    requires w <= i < |c|
    ensures c[w..i + 1] == c[w..i] + [c[i]]
  {
  }

  lemma AppendAssoc(a: seq<Item>, b: seq<Item>, c: seq<Item>)
    ensures (a + b) + c == a + (b + c)
  {
  }

  /** A flush in the loop keeps its invariant: the tokens emitted so far,
      followed by the tokens from the start of the pending word, are the
      tokens of the whole segment. */
  lemma FlushStep(c: string, w: nat, i: nat, words: seq<Item>, before: seq<Item>, next: seq<Item>)
    requires w <= i < |c| && !IsWordChar(c[i])
    requires AllSatisfy(c[w..i], IsWordChar)
    requires words + TokensFrom(c, w) == before + TokensFrom(c, 0)
    requires next == (if w < i then words + [Text(c[w..i])] else words) + [Single(c[i])]
    ensures next + TokensFrom(c, i + 1) == before + TokensFrom(c, 0)
  {
    assert forall k :: w <= k < i ==> c[k] == c[w..i][k - w];
    TokensAtBreak(c, w, i);
    var pending := if w < i then [Text(c[w..i])] else [];
    assert (if w < i then words + [Text(c[w..i])] else words) == words + pending;
    AppendAssoc(words, pending + [Single(c[i])], TokensFrom(c, i + 1));
    AppendAssoc(words, pending, [Single(c[i])]);
  }

  lemma FlushEnd(c: string, w: nat, words: seq<Item>, before: seq<Item>, next: seq<Item>)
    requires w <= |c|
    requires AllSatisfy(c[w..], IsWordChar)
    requires words + TokensFrom(c, w) == before + TokensFrom(c, 0)
    requires next == if w < |c| then words + [Text(c[w..])] else words
    ensures next == before + TokensFrom(c, 0)
  {
    assert forall k :: w <= k < |c| ==> c[k] == c[w..][k - w];
    TokensAtEnd(c, w);
  }

  /** The text branch of break_text_into_words: a buffer collects ASCII word
      characters and is flushed whenever a newline, an ASCII whitespace
      character or a character from U+0080 on is met, and at the end; every
      token is appended to `words`. */
  method AppendTextWords(words0: seq<Item>, content: string) returns (words: seq<Item>)
    ensures words == words0 + TokensFrom(content, 0)
  {
    words := words0;
    var i := 0;
    var currentWord := "";
    ghost var w := 0;
    while i < |content|
      invariant w <= i <= |content|
      invariant currentWord == content[w..i]
      invariant AllSatisfy(currentWord, IsWordChar)
      invariant words + TokensFrom(content, w) == words0 + TokensFrom(content, 0)
    {
      var character := content[i];
      ghost var emitted := words;
      if character == '\n' {
        if |currentWord| > 0 {
          words := words + [Text(currentWord)];
          currentWord := "";
        }
        words := words + [LineBreak];
        FlushStep(content, w, i, emitted, words0, words);
        w := i + 1;
      } else if character < '\U{80}' {
        if IsPySpace(character) {
          if |currentWord| > 0 {
            words := words + [Text(currentWord)];
            currentWord := "";
          }
          words := words + [Text([character])];
          FlushStep(content, w, i, emitted, words0, words);
          w := i + 1;
        } else {
          SliceExtend(content, w, i);
          currentWord := currentWord + [character];
        }
      } else {
        if |currentWord| > 0 {
          words := words + [Text(currentWord)];
          currentWord := "";
        }
        words := words + [Text([character])];
        FlushStep(content, w, i, emitted, words0, words);
        w := i + 1;
      }
      i := i + 1;
    }
    ghost var emitted := words;
    assert currentWord == content[w..];
    if |currentWord| > 0 {
      words := words + [Text(currentWord)];
    }
    FlushEnd(content, w, emitted, words0, words);
  }

  /** break_text_into_words: text segments are tokenized, every other
      segment is kept as it is. */
  method BreakTextIntoWords(segments: seq<Item>) returns (words: seq<Item>)
    ensures words == Tokenize(segments)
  {
    words := [];
    for n := 0 to |segments|
      invariant words == Tokenize(segments[..n])
    {
      var segment := segments[n];
      assert segments[..n + 1][..n] == segments[..n];
      if segment.Text? {
        words := AppendTextWords(words, segment.content);
      } else {
        words := words + [segment];
      }
    }
    assert segments[..|segments|] == segments;
  }

  // ---------------------------------------------------------------------
  // Properties of the token stream

  lemma {:induction false} LineBreaksAppend(a: seq<Item>, b: seq<Item>)
    ensures LineBreaks(a + b) == LineBreaks(a) + LineBreaks(b)
    decreases |a|
  {
    if a != [] {
      assert (a + b)[1..] == a[1..] + b;
      LineBreaksAppend(a[1..], b);
    } else {
      assert a + b == b;
    }
  }

  /** The word starting at a word character ends where the run does, and
      the run is made of word characters. */
  lemma WordRun(c: string, i: nat)
    requires i < |c| && IsWordChar(c[i])
    ensures var j := RunEnd(c, i, IsWordChar);
      i < j && AllSatisfy(c[i..j], IsWordChar) && (j < |c| ==> !IsWordChar(c[j]))
  {
    RunEndSpec(c, i, IsWordChar);
    var j := RunEnd(c, i, IsWordChar);
    assert forall k :: 0 <= k < j - i ==> c[i..j][k] == c[i + k];
  }

  /** Joining the tokens, with a line break read as `\n`, gives the text back. */
  lemma {:induction false} TokensFlatten(c: string, i: nat)
    requires i <= |c|
    ensures Flatten(TokensFrom(c, i)) == c[i..]
    decreases |c| - i
  {
    if i < |c| {
      if IsWordChar(c[i]) {
        var j := RunEnd(c, i, IsWordChar);
        WordRun(c, i);
        TokensFlatten(c, j);
        FlattenAppend([Text(c[i..j])], TokensFrom(c, j));
        assert c[i..] == c[i..j] + c[j..];
      } else {
        TokensFlatten(c, i + 1);
        FlattenAppend([Single(c[i])], TokensFrom(c, i + 1));
        assert c[i..] == [c[i]] + c[i + 1..];
      }
    }
  }

  /** There are exactly as many line-break tokens as `\n` characters. */
  lemma {:induction false} TokensLineBreaks(c: string, i: nat)
    requires i <= |c|
    ensures LineBreaks(TokensFrom(c, i)) == multiset(c[i..])['\n']
    decreases |c| - i
  {
    if i < |c| {
      if IsWordChar(c[i]) {
        var j := RunEnd(c, i, IsWordChar);
        WordRun(c, i);
        TokensLineBreaks(c, j);
        LineBreaksAppend([Text(c[i..j])], TokensFrom(c, j));
        assert c[i..] == c[i..j] + c[j..];
        assert '\n' !in c[i..j];
      } else {
        TokensLineBreaks(c, i + 1);
        LineBreaksAppend([Single(c[i])], TokensFrom(c, i + 1));
        assert c[i..] == [c[i]] + c[i + 1..];
      }
    }
  }

  /** No two word tokens are next to each other. */
  ghost predicate NoAdjacentWords(ts: seq<Item>) {
    forall k :: 0 <= k < |ts| - 1 ==> !(IsWord(ts[k]) && IsWord(ts[k + 1]))
  }

  /** Every token of a text has one of the token shapes, and a word is
      always followed by a token that is not a word, so every word is a
      maximal run of word characters. */
  lemma {:induction false} TokensShapes(c: string, i: nat)
    requires i <= |c|
    ensures forall k :: 0 <= k < |TokensFrom(c, i)| ==> IsToken(TokensFrom(c, i)[k])
    ensures NoAdjacentWords(TokensFrom(c, i))
    ensures TokensFrom(c, i) != [] ==> (IsWord(TokensFrom(c, i)[0]) <==> IsWordChar(c[i]))
    decreases |c| - i
  {
    if i < |c| {
      var ts := TokensFrom(c, i);
      if IsWordChar(c[i]) {
        var j := RunEnd(c, i, IsWordChar);
        WordRun(c, i);
        TokensShapes(c, j);
        ConsShapes(Text(c[i..j]), TokensFrom(c, j));
        assert TokensFrom(c, j) != [] ==> !IsWord(TokensFrom(c, j)[0]);
      } else {
        TokensShapes(c, i + 1);
        ConsShapes(Single(c[i]), TokensFrom(c, i + 1));
      }
    }
  }

  lemma ConsShapes(t: Item, ts: seq<Item>)
    requires IsToken(t)
    requires forall k :: 0 <= k < |ts| ==> IsToken(ts[k])
    requires NoAdjacentWords(ts)
    requires ts != [] && IsWord(t) ==> !IsWord(ts[0])
    ensures forall k :: 0 <= k < |[t] + ts| ==> IsToken(([t] + ts)[k])
    ensures NoAdjacentWords([t] + ts)
  {
    var r := [t] + ts;
    assert forall k :: 1 <= k < |r| ==> r[k] == ts[k - 1];
  }

  lemma {:induction false} TokensNoFurigana(c: string, i: nat)
    requires i <= |c|
    ensures FuriganaOf(TokensFrom(c, i)) == []
    decreases |c| - i
  {
    if i < |c| {
      if IsWordChar(c[i]) {
        var j := RunEnd(c, i, IsWordChar);
        TokensNoFurigana(c, j);
        FuriganaOfAppend([Text(c[i..j])], TokensFrom(c, j));
      } else {
        TokensNoFurigana(c, i + 1);
        FuriganaOfAppend([Single(c[i])], TokensFrom(c, i + 1));
      }
    }
  }

  /** Tokenizing keeps the annotated text: every text segment is replaced by
      tokens that join back to it, and everything else is kept. */
  lemma {:induction false} TokenizeFlatten(segs: seq<Item>)
    ensures Flatten(Tokenize(segs)) == Flatten(segs)
    decreases |segs|
  {
    if segs != [] {
      var n := |segs| - 1;
      var init, last := segs[..n], segs[n];
      TokenizeFlatten(init);
      assert Flatten(segs) == Flatten(init) + Source(last) by {
        assert segs == init + [last];
        FlattenAppend(init, [last]);
        FlattenSingle(last);
      }
      assert Flatten(TokensOf(last)) == Source(last) by {
        if last.Text? {
          TokensFlatten(last.content, 0);
          assert last.content[0..] == last.content;
        } else {
          FlattenSingle(last);
        }
      }
      FlattenAppend(Tokenize(init), TokensOf(last));
    }
  }

  lemma FlattenSingle(t: Item)
    ensures Flatten([t]) == Source(t)
  {
    assert [t][1..] == [];
  }

  /** The furigana segments come out unchanged and in the same order. */
  lemma {:induction false} TokenizeFurigana(segs: seq<Item>)
    ensures FuriganaOf(Tokenize(segs)) == FuriganaOf(segs)
    decreases |segs|
  {
    if segs != [] {
      var n := |segs| - 1;
      TokenizeFurigana(segs[..n]);
      FuriganaOfAppend(Tokenize(segs[..n]), TokensOf(segs[n]));
      assert segs == segs[..n] + [segs[n]];
      FuriganaOfAppend(segs[..n], [segs[n]]);
      if segs[n].Text? {
        TokensNoFurigana(segs[n].content, 0);
      }
    }
  }

  /** Every text token in the stream has one of the token shapes. */
  lemma {:induction false} TokenizeShapes(segs: seq<Item>)
    ensures forall t :: t in Tokenize(segs) && t.Text? ==> IsToken(t)
    decreases |segs|
  {
    if segs != [] {
      var n := |segs| - 1;
      TokenizeShapes(segs[..n]);
      if segs[n].Text? {
        TokensShapes(segs[n].content, 0);
      }
    }
  }
}
