/** Splitting a string of card codes into two-character chunks. */
module CardParser {
  import opened Base

  function Min(a: int, b: int): int {
    if a <= b then a else b
  }

  /** `[cards[i:i + 2] for i in range(0, len(cards), 2)]`. */
  function ParseCards(cards: string): (chunks: seq<string>)
    ensures |chunks| == (|cards| + 1) / 2
  {
    seq((|cards| + 1) / 2, i requires 0 <= i < (|cards| + 1) / 2 => cards[2 * i..Min(2 * i + 2, |cards|)])
  }

  /** Past the first two characters, the chunks are the first chunk and the chunks of the rest. */
  lemma ParseCardsUnfold(cards: string)
    requires |cards| > 2
    ensures ParseCards(cards) == [cards[..2]] + ParseCards(cards[2..])
  {
    var rest := cards[2..];
    forall i | 1 <= i < |ParseCards(cards)|
      ensures ParseCards(cards)[i] == ParseCards(rest)[i - 1]
    {
      assert cards[2 * i..Min(2 * i + 2, |cards|)] == rest[2 * (i - 1)..Min(2 * (i - 1) + 2, |rest|)];
    }
  }

  /** Concatenating the chunks gives back the input. */
  lemma {:induction false} ChunksConcat(cards: string)
    ensures Flatten(ParseCards(cards)) == cards
    decreases |cards|
  {
    if |cards| > 2 {
      ParseCardsUnfold(cards);
      ChunksConcat(cards[2..]);
      assert cards == cards[..2] + cards[2..];
    } else if |cards| > 0 {
      assert ParseCards(cards)[0] == cards[0..Min(2, |cards|)] == cards;
      assert ParseCards(cards) == [cards];
    }
  }

  /**
    Chunk `i` is `cards[2i .. 2i + 2]`; every chunk has two characters except the last chunk
    of an odd-length input, which has one; an empty input gives no chunk.
   */
  lemma ChunkShape(cards: string)
    ensures |cards| == 0 <==> ParseCards(cards) == []
    ensures forall i :: 0 <= i < |ParseCards(cards)| ==>
      2 * i < |cards| && ParseCards(cards)[i] == cards[2 * i..Min(2 * i + 2, |cards|)]
    ensures forall i :: 0 <= i < |ParseCards(cards)| ==>
      |ParseCards(cards)[i]| == (if |cards| % 2 == 1 && i == |ParseCards(cards)| - 1 then 1 else 2)
  {
  }

  /** Chunking the concatenation of two-character codes gives back the codes. */
  lemma {:induction false} ParseConcatenated(codes: seq<string>)
    requires forall i :: 0 <= i < |codes| ==> |codes[i]| == 2
    ensures ParseCards(Flatten(codes)) == codes
    decreases |codes|
  {
    if |codes| > 1 {
      ParseConcatenated(codes[1..]);
      FlattenUniformLength(codes[1..], 2);
      var s := Flatten(codes);
      assert s == codes[0] + Flatten(codes[1..]);
      ParseCardsUnfold(s);
      assert s[..2] == codes[0] && s[2..] == Flatten(codes[1..]);
      assert codes == [codes[0]] + codes[1..];
    } else if |codes| == 1 {
      assert Flatten(codes) == codes[0];
    }
  }
}
