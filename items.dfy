/** The records that flow through the layout pipeline: the source's
    dictionaries with a 'type' key of 'text', 'furigana' or 'line_break'. */
module Items {

  datatype Option<T> = None | Some(value: T)

  datatype Item =
    | Text(content: string)
    | Furigana(kanji: string, reading: string)
    | LineBreak

  /** The annotated source text an item stands for. */
  function Source(i: Item): string {
    match i
    case Text(c) => c
    case Furigana(k, r) => k + "[" + r + "]"
    case LineBreak => "\n"
  }

  /** The annotated source text of a sequence of items, in order. */
  function Flatten(items: seq<Item>): string
    decreases |items|
  {
    if items == [] then [] else Source(items[0]) + Flatten(items[1..])
  }

  lemma {:induction false} FlattenAppend(a: seq<Item>, b: seq<Item>)
    ensures Flatten(a + b) == Flatten(a) + Flatten(b)
    decreases |a|
  {
    if a != [] {
      assert (a + b)[1..] == a[1..] + b;
      FlattenAppend(a[1..], b);
    } else {
      assert a + b == b;
    }
  }

  /** The furigana items of a sequence, in order. */
  function FuriganaOf(items: seq<Item>): seq<Item>
    decreases |items|
  {
    if items == [] then []
    else (if items[0].Furigana? then [items[0]] else []) + FuriganaOf(items[1..])
  }

  lemma {:induction false} FuriganaOfAppend(a: seq<Item>, b: seq<Item>)
    ensures FuriganaOf(a + b) == FuriganaOf(a) + FuriganaOf(b)
    decreases |a|
  {
    if a != [] {
      assert (a + b)[1..] == a[1..] + b;
      FuriganaOfAppend(a[1..], b);
    } else {
      assert a + b == b;
    }
  }
}
