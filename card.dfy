/** The card model: suits, ranks, cards and the table of all 52 card codes. */
module Cards {
  import opened Base

  datatype Suit = Hearts | Diamonds | Clubs | Spades

  /** The one-letter code of a suit, the value of the string enum. */
  function SuitCode(s: Suit): char {
    match s
    case Hearts => 'h'
    case Diamonds => 'd'
    case Clubs => 'c'
    case Spades => 's'
  }

  /** The suits in declaration order. */
  const Suits: seq<Suit> := [Hearts, Diamonds, Clubs, Spades]

  datatype Rank = Two | Three | Four | Five | Six | Seven | Eight | Nine | Ten | Jack | Queen | King | Ace

  /** The integer value of a rank; an ace is high. */
  function RankValue(r: Rank): int {
    match r
    case Two => 2
    case Three => 3
    case Four => 4
    case Five => 5
    case Six => 6
    case Seven => 7
    case Eight => 8
    case Nine => 9
    case Ten => 10
    case Jack => 11
    case Queen => 12
    case King => 13
    case Ace => 14
  }

  /** The character that stands for a rank in a card code. */
  function RankLetter(r: Rank): char {
    match r
    case Two => '2'
    case Three => '3'
    case Four => '4'
    case Five => '5'
    case Six => '6'
    case Seven => '7'
    case Eight => '8'
    case Nine => '9'
    case Ten => 'T'
    case Jack => 'J'
    case Queen => 'Q'
    case King => 'K'
    case Ace => 'A'
  }

  /** The ranks in declaration order. */
  const Ranks: seq<Rank> := [Two, Three, Four, Five, Six, Seven, Eight, Nine, Ten, Jack, Queen, King, Ace]

  datatype Card = Card(suit: Suit, rank: Rank, raw: string)

  /** Both `str` and `repr` of a card give its raw code. */
  function Show(c: Card): string {
    c.raw
  }

  /** The code of the card with rank `r` and suit `s`, e.g. "Ah". */
  function Code(r: Rank, s: Suit): string {
    [RankLetter(r), SuitCode(s)]
  }

  /** The order in which the table lists ranks within one suit: the ace first. */
  const TableRanks: seq<Rank> := [Ace, Two, Three, Four, Five, Six, Seven, Eight, Nine, Ten, Jack, Queen, King]

  /** Entry `i` of the table: suits in declaration order, thirteen ranks per suit. */
  function TableCard(i: nat): Card
    requires i < 52
  {
    var r, s := TableRanks[i % 13], Suits[i / 13];
    Card(s, r, Code(r, s))
  }

  /** The table keys in the order the table lists them. */
  const TableKeys: seq<string> := seq(52, i requires 0 <= i < 52 => TableCard(i).raw)

  /** The rank whose letter is `c`; letters outside the table read as an ace. */
  function RankOfLetter(c: char): Rank {
    match c
    case '2' => Two
    case '3' => Three
    case '4' => Four
    case '5' => Five
    case '6' => Six
    case '7' => Seven
    case '8' => Eight
    case '9' => Nine
    case 'T' => Ten
    case 'J' => Jack
    case 'Q' => Queen
    case 'K' => King
    case _ => Ace
  }

  /** The suit whose code is `c`; codes outside the table read as spades. */
  function SuitOfCode(c: char): Suit {
    match c
    case 'h' => Hearts
    case 'd' => Diamonds
    case 'c' => Clubs
    case _ => Spades
  }

  /** The card a two-character table key stands for. */
  function CardOfCode(k: string): Card
    requires |k| == 2
  {
    Card(SuitOfCode(k[1]), RankOfLetter(k[0]), k)
  }

  /** The lookup table from card code to card. */
  const CARDS: map<string, Card> := map k | k in TableKeys :: CardOfCode(k)

  lemma CodeInjective(r1: Rank, s1: Suit, r2: Rank, s2: Suit)
    requires Code(r1, s1) == Code(r2, s2)
    ensures r1 == r2 && s1 == s2
  {
    assert RankLetter(r1) == Code(r1, s1)[0] && SuitCode(s1) == Code(r1, s1)[1];
  }

  lemma TableCardInjective(i: nat, j: nat)
    requires i < 52 && j < 52 && TableCard(i).raw == TableCard(j).raw
    ensures i == j
  {
    CodeInjective(TableRanks[i % 13], Suits[i / 13], TableRanks[j % 13], Suits[j / 13]);
    assert Distinct(TableRanks);
    assert i % 13 == j % 13 && i / 13 == j / 13;
  }

  /** Position of a rank in `TableRanks`. */
  function TableRankIndex(r: Rank): (a: nat)
    ensures a < 13 && TableRanks[a] == r
  {
    match r
    case Ace => 0
    case Two => 1
    case Three => 2
    case Four => 3
    case Five => 4
    case Six => 5
    case Seven => 6
    case Eight => 7
    case Nine => 8
    case Ten => 9
    case Jack => 10
    case Queen => 11
    case King => 12
  }

  /** Position of a suit in `Suits`. */
  function SuitIndex(s: Suit): (b: nat)
    ensures b < 4 && Suits[b] == s
  {
    match s
    case Hearts => 0
    case Diamonds => 1
    case Clubs => 2
    case Spades => 3
  }

  lemma TableKeysDistinct()
    ensures Distinct(TableKeys)
  {
    forall i, j | 0 <= i < j < 52 ensures TableKeys[i] != TableKeys[j] {
      if TableKeys[i] == TableKeys[j] {
        TableCardInjective(i, j);
      }
    }
  }

  lemma CardOfTableCode(r: Rank, s: Suit)
    ensures CardOfCode(Code(r, s)) == Card(s, r, Code(r, s))
  {
  }

  lemma CardsEntry(k: string)
    requires k in CARDS
    ensures exists r: Rank, s: Suit :: k == Code(r, s) && CARDS[k] == Card(s, r, k)
  {
    var i :| 0 <= i < 52 && TableKeys[i] == k;
    var r, s := TableRanks[i % 13], Suits[i / 13];
    assert k == Code(r, s);
    CardOfTableCode(r, s);
  }

  lemma CardsSize()
    ensures |CARDS| == 52
  {
    TableKeysDistinct();
    DistinctCardinality(TableKeys);
    assert CARDS.Keys == Elements(TableKeys);
  }

  lemma CardsCover(r: Rank, s: Suit)
    ensures Code(r, s) in CARDS && CARDS[Code(r, s)] == Card(s, r, Code(r, s))
  {
    var a, b := TableRankIndex(r), SuitIndex(s);
    var i := 13 * b + a;
    assert i % 13 == a && i / 13 == b;
    assert TableKeys[i] == Code(r, s);
    CardOfTableCode(r, s);
  }

  /**
    The table has 52 entries, one for every rank and suit. Each key is the code of its
    card: its first character the rank letter, its second the suit code.
   */
  lemma CardsTable()
    ensures |CARDS| == 52
    ensures forall k :: k in CARDS ==> CARDS[k].raw == k && Show(CARDS[k]) == k
    ensures forall k :: k in CARDS ==>
      |k| == 2 && k[0] == RankLetter(CARDS[k].rank) && k[1] == SuitCode(CARDS[k].suit)
    ensures forall r: Rank, s: Suit :: Code(r, s) in CARDS && CARDS[Code(r, s)] == Card(s, r, Code(r, s))
  {
    CardsSize();
    forall k | k in CARDS
      ensures CARDS[k].raw == k
      ensures |k| == 2 && k[0] == RankLetter(CARDS[k].rank) && k[1] == SuitCode(CARDS[k].suit)
    {
      CardsEntry(k);
    }
    forall r: Rank, s: Suit ensures Code(r, s) in CARDS && CARDS[Code(r, s)] == Card(s, r, Code(r, s)) {
      CardsCover(r, s);
    }
  }

  /** Rank values are exactly 2 to 14, pairwise distinct and increasing in declaration order. */
  lemma RankValues()
    ensures forall i :: 0 <= i < |Ranks| ==> RankValue(Ranks[i]) == i + 2
    ensures forall r: Rank :: 2 <= RankValue(r) <= 14 && Ranks[RankValue(r) - 2] == r
  {
  }

  /** The suit codes are exactly h, d, c and s, one per suit. */
  lemma SuitCodes()
    ensures forall s: Suit :: s in Suits
    ensures Distinct(Suits) && Distinct(seq(4, i requires 0 <= i < 4 => SuitCode(Suits[i])))
    ensures forall s: Suit :: SuitCode(s) in "hdcs"
  {
    forall s: Suit ensures s in Suits {
      assert Suits[SuitIndex(s)] == s;
    }
  }
}
