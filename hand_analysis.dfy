/**
  The five-card classifier: from the concatenated text of a candidate hand, its ranks and
  suits, then the category flags and the tie-break ranks.
 */
module HandAnalysis {
  import opened Base
  import opened Cards
  import opened InputReader

  /** `list.join("")` of the hand's card codes. */
  function HandString(hand: seq<string>): string {
    Flatten(hand)
  }

  /** The value a rank character is replaced by: its digit, or 10 to 14 for T J Q K A. */
  function RankCharValue(c: char): (v: int)
    requires IsRankChar(c)
    ensures 2 <= v <= 14
  {
    if c == 'T' then 10
    else if c == 'J' then 11
    else if c == 'Q' then 12
    else if c == 'K' then 13
    else if c == 'A' then 14
    else c as int - '0' as int
  }

  /** The rank character of a card stands for the value of its rank. */
  lemma RankCharValueOfLetter(r: Rank)
    ensures IsRankChar(RankLetter(r)) && RankCharValue(RankLetter(r)) == RankValue(r)
  {
  }

  /** The matches of `[2-9TJQKA]` in the text, each replaced by its value. */
  function Ranks(s: string): seq<int>
    decreases |s|
  {
    if |s| == 0 then []
    else (if IsRankChar(s[0]) then [RankCharValue(s[0])] else []) + Ranks(s[1..])
  }

  /** The matches of `[hdcs]` in the text. */
  function Suits(s: string): seq<char>
    decreases |s|
  {
    if |s| == 0 then []
    else (if IsSuitChar(s[0]) then [s[0]] else []) + Suits(s[1..])
  }

  /** The distinct values of `ranks` from `v` to 14, ascending. */
  function UniqueFrom(ranks: seq<int>, v: int): seq<int>
    decreases 15 - v
  {
    if v > 14 then []
    else if v in ranks then [v] + UniqueFrom(ranks, v + 1)
    else UniqueFrom(ranks, v + 1)
  }

  /** `list.unique()` of the sorted ranks: the distinct ranks in ascending order. */
  function UniqueRanks(ranks: seq<int>): seq<int> {
    UniqueFrom(ranks, 2)
  }

  /** `unique_counts()`: how often each distinct rank occurs, in the order of `UniqueRanks`. */
  function RankCounts(ranks: seq<int>): seq<nat> {
    var u := UniqueRanks(ranks);
    seq(|u|, i requires 0 <= i < |u| => Count(ranks, u[i]))
  }

  /** Position of the first `x` in `s`. */
  function IndexOf<T(==)>(s: seq<T>, x: T): (i: nat)
    requires x in s
    ensures i < |s| && s[i] == x && forall j :: 0 <= j < i ==> s[j] != x
  {
    if s[0] == x then 0 else 1 + IndexOf(s[1..], x)
  }

  /** The eight category flags, in the order of the columns. */
  datatype Flags = Flags(
    flush: bool, straight: bool, straightFlush: bool, pair: bool,
    twoPair: bool, trips: bool, quads: bool, fullHouse: bool)

  /** The flags of a candidate and its tie-break ranks; `None` is a null cell. */
  datatype Features = Features(
    flags: Flags,
    pairRank: Option<int>,
    fullHousePairRank: Option<int>,
    flushRank: Option<int>,
    straightRank: Option<int>,
    setRank: Option<int>)

  /** `n_unique` of the suits is 1. */
  predicate FlushFlag(suits: seq<char>) {
    |Elements(suits)| == 1
  }

  /** Five distinct ranks whose maximum is four above their minimum. */
  predicate StraightFlag(ranks: seq<int>) {
    var u := UniqueRanks(ranks);
    |u| == 5 && u[4] - u[0] == 4
  }

  /** Some distinct rank occurs exactly `n` times. */
  predicate HasCount(ranks: seq<int>, n: nat) {
    n in RankCounts(ranks)
  }

  /** The distinct rank at the first position whose count is `n`. */
  function RankWithCount(ranks: seq<int>, n: nat): Option<int> {
    var c := RankCounts(ranks);
    if n in c then Some(UniqueRanks(ranks)[IndexOf(c, n)]) else None
  }

  /** The first distinct rank, the lowest. */
  function LowestRank(ranks: seq<int>): Option<int> {
    var u := UniqueRanks(ranks);
    if |u| > 0 then Some(u[0]) else None
  }

  /** The columns `analyze_data` and `construct_poker_results` compute, from the ranks and suits. */
  function ClassifyRanks(ranks: seq<int>, suits: seq<char>): Features {
    var flush, straight := FlushFlag(suits), StraightFlag(ranks);
    var pair, trips := HasCount(ranks, 2), HasCount(ranks, 3);
    Features(
      Flags(flush, straight, straight && flush, pair, pair && |UniqueRanks(ranks)| == 3,
        trips, HasCount(ranks, 4), trips && pair),
      RankWithCount(ranks, 2),
      if trips && pair then RankWithCount(ranks, 2) else None,
      if flush then LowestRank(ranks) else None,
      if straight then LowestRank(ranks) else None,
      RankWithCount(ranks, 3))
  }

  /** The classification of one candidate hand. */
  function Classify(hand: seq<string>): Features {
    var s := HandString(hand);
    ClassifyRanks(Ranks(s), Suits(s))
  }


  // Ranks and suits of well-formed hands

  lemma SuitNotRank(c: char)
    ensures IsSuitChar(c) ==> !IsRankChar(c)
    ensures IsRankChar(c) ==> !IsSuitChar(c)
  {
  }

  lemma {:induction false} RanksAppend(a: string, b: string)
    ensures Ranks(a + b) == Ranks(a) + Ranks(b)
    ensures Suits(a + b) == Suits(a) + Suits(b)
    decreases |a|
  {
    if |a| == 0 {
      assert a + b == b;
    } else {
      assert (a + b)[1..] == a[1..] + b;
      RanksAppend(a[1..], b);
    }
  }

  lemma CodeRanks(k: string)
    requires IsCardCode(k)
    ensures Ranks(k) == [RankCharValue(k[0])] && Suits(k) == [k[1]]
  {
    SuitNotRank(k[0]);
    SuitNotRank(k[1]);
    assert k[1..] == [k[1]];
    assert [k[1]][1..] == [];
    assert Ranks([k[1]]) == [];
    assert Suits([k[1]]) == [k[1]];
  }

  /** The hand consists of card codes, as every candidate the reader builds from matched text. */
  predicate WellFormed(hand: seq<string>) {
    forall i :: 0 <= i < |hand| ==> IsCardCode(hand[i])
  }

  /** The ranks of a well-formed hand are its cards' rank values, the suits its cards' suit codes, in order. */
  lemma {:induction false} WellFormedRanks(hand: seq<string>)
    requires WellFormed(hand)
    ensures Ranks(HandString(hand)) == seq(|hand|, i requires 0 <= i < |hand| => RankCharValue(hand[i][0]))
    ensures Suits(HandString(hand)) == seq(|hand|, i requires 0 <= i < |hand| => hand[i][1])
    decreases |hand|
  {
    if |hand| > 0 {
      var rest := hand[1..];
      assert WellFormed(rest) by {
        forall i | 0 <= i < |rest| ensures IsCardCode(rest[i]) {
          assert rest[i] == hand[i + 1];
        }
      }
      WellFormedRanks(rest);
      assert HandString(hand) == hand[0] + HandString(rest);
      RanksAppend(hand[0], HandString(rest));
      CodeRanks(hand[0]);
      CardValuesCons(hand);
    }
  }

  /** The rank values and suit codes of a hand are those of its first card, then those of the rest. */
  lemma CardValuesCons(hand: seq<string>)
    requires WellFormed(hand) && |hand| > 0
    ensures WellFormed(hand[1..])
    ensures seq(|hand|, i requires 0 <= i < |hand| => RankCharValue(hand[i][0])) ==
      [RankCharValue(hand[0][0])] + seq(|hand[1..]|, i requires 0 <= i < |hand[1..]| => RankCharValue(hand[1..][i][0]))
    ensures seq(|hand|, i requires 0 <= i < |hand| => hand[i][1]) ==
      [hand[0][1]] + seq(|hand[1..]|, i requires 0 <= i < |hand[1..]| => hand[1..][i][1])
  {
    var rest := hand[1..];
    assert WellFormed(rest) by {
      forall i | 0 <= i < |rest| ensures IsCardCode(rest[i]) {
        assert rest[i] == hand[i + 1];
      }
    }
  }

  lemma {:induction false} RanksInRange(s: string)
    ensures forall x :: x in Ranks(s) ==> 2 <= x <= 14
    decreases |s|
  {
    if |s| > 0 {
      RanksInRange(s[1..]);
    }
  }

  // The distinct ranks and their counts

  /** The distinct ranks from `v` on are strictly ascending and are exactly the ranks from `v` to 14. */
  lemma {:induction false} UniqueFromShape(ranks: seq<int>, v: int)
    ensures forall i, j :: 0 <= i < j < |UniqueFrom(ranks, v)| ==> UniqueFrom(ranks, v)[i] < UniqueFrom(ranks, v)[j]
    ensures forall x :: x in UniqueFrom(ranks, v) <==> x in ranks && v <= x <= 14
    decreases 15 - v
  {
    if v <= 14 {
      UniqueFromShape(ranks, v + 1);
      var rest := UniqueFrom(ranks, v + 1);
      if v in ranks {
        assert UniqueFrom(ranks, v) == [v] + rest;
        forall j | 0 <= j < |rest| ensures v < rest[j] {
          assert rest[j] in rest;
        }
      }
    }
  }

  /** The distinct ranks of rank values 2 to 14: strictly ascending, and exactly the ranks. */
  lemma UniqueRanksShape(ranks: seq<int>)
    requires forall x :: x in ranks ==> 2 <= x <= 14
    ensures forall i, j :: 0 <= i < j < |UniqueRanks(ranks)| ==> UniqueRanks(ranks)[i] < UniqueRanks(ranks)[j]
    ensures forall x :: x in UniqueRanks(ranks) <==> x in ranks
  {
    UniqueFromShape(ranks, 2);
  }

  /** In a strictly ascending sequence a smaller element sits at an earlier position. */
  lemma AscendingIndex(u: seq<int>, j: nat, k: nat)
    requires forall a, b :: 0 <= a < b < |u| ==> u[a] < u[b]
    requires j < |u| && k < |u| && u[j] < u[k]
    ensures j < k
  {
  }

  /** Two strictly ascending sequences with the same elements are equal. */
  lemma {:induction false} RunUnique(u: seq<int>, run: seq<int>)
    requires forall i, j :: 0 <= i < j < |u| ==> u[i] < u[j]
    requires forall i, j :: 0 <= i < j < |run| ==> run[i] < run[j]
    requires forall v :: v in u <==> v in run
    ensures u == run
    decreases |u| + |run|
  {
    if |u| > 0 {
      assert u[0] in u;
    }
    if |run| > 0 {
      assert run[0] in run;
    }
    if |u| > 0 && |run| > 0 {
      assert u[0] == run[0] by {
        var i :| 0 <= i < |run| && run[i] == u[0];
        var j :| 0 <= j < |u| && u[j] == run[0];
        assert u[0] <= u[j] && run[0] <= run[i];
      }
      forall v ensures v in u[1..] <==> v in run[1..] {
        if v in u[1..] {
          var i :| 1 <= i < |u| && u[i] == v;
          assert v in run && v != run[0];
          var j :| 0 <= j < |run| && run[j] == v;
          assert run[1..][j - 1] == v;
        }
        if v in run[1..] {
          var i :| 1 <= i < |run| && run[i] == v;
          assert v in u && v != u[0];
          var j :| 0 <= j < |u| && u[j] == v;
          assert u[1..][j - 1] == v;
        }
      }
      RunUnique(u[1..], run[1..]);
      assert u == [u[0]] + u[1..] && run == [run[0]] + run[1..];
    }
  }

  /** The distinct ranks are the given ascending sequence when it holds exactly the ranks. */
  lemma UniqueRanksOf(ranks: seq<int>, u: seq<int>)
    requires forall x :: x in ranks ==> 2 <= x <= 14
    requires forall i, j :: 0 <= i < j < |u| ==> u[i] < u[j]
    requires forall x :: x in u <==> x in ranks
    ensures UniqueRanks(ranks) == u
  {
    UniqueRanksShape(ranks);
    RunUnique(UniqueRanks(ranks), u);
  }

  function Sum(c: seq<nat>): nat {
    if |c| == 0 then 0 else c[0] + Sum(c[1..])
  }

  /** Occurrences of the values from `v` to 14. */
  function CountFrom(ranks: seq<int>, v: int): nat
    decreases 15 - v
  {
    if v > 14 then 0 else Count(ranks, v) + CountFrom(ranks, v + 1)
  }

  lemma {:induction false} CountFromCons(x: int, rest: seq<int>, v: int)
    ensures CountFrom([x] + rest, v) == CountFrom(rest, v) + (if v <= x <= 14 then 1 else 0)
    decreases 15 - v
  {
    if v <= 14 {
      CountFromCons(x, rest, v + 1);
      assert ([x] + rest)[1..] == rest;
    }
  }

  lemma {:induction false} CountFromEmpty(v: int)
    ensures CountFrom([], v) == 0
    decreases 15 - v
  {
    if v <= 14 {
      CountFromEmpty(v + 1);
    }
  }

  lemma {:induction false} CountFromAll(ranks: seq<int>)
    requires forall x :: x in ranks ==> 2 <= x <= 14
    ensures CountFrom(ranks, 2) == |ranks|
  {
    if |ranks| > 0 {
      var rest := ranks[1..];
      assert ranks == [ranks[0]] + rest;
      assert ranks[0] in ranks;
      assert forall x :: x in rest ==> x in ranks;
      CountFromAll(rest);
      CountFromCons(ranks[0], rest, 2);
      calc {
        CountFrom(ranks, 2);
        CountFrom([ranks[0]] + rest, 2);
        CountFrom(rest, 2) + 1;
      }
    } else {
      CountFromEmpty(2);
    }
  }

  /** The counts of the distinct ranks from `v` on. */
  function CountsFrom(ranks: seq<int>, v: int): seq<nat> {
    var u := UniqueFrom(ranks, v);
    seq(|u|, i requires 0 <= i < |u| => Count(ranks, u[i]))
  }

  lemma {:induction false} SumCountsFrom(ranks: seq<int>, v: int)
    ensures Sum(CountsFrom(ranks, v)) == CountFrom(ranks, v)
    decreases 15 - v
  {
    if v <= 14 {
      SumCountsFrom(ranks, v + 1);
      var rest := UniqueFrom(ranks, v + 1);
      var counts := CountsFrom(ranks, v);
      if v in ranks {
        assert UniqueFrom(ranks, v) == [v] + rest;
        assert counts[0] == Count(ranks, v);
        assert counts[1..] == CountsFrom(ranks, v + 1);
      } else {
        assert UniqueFrom(ranks, v) == rest;
        assert counts == CountsFrom(ranks, v + 1);
      }
    }
  }

  /** The counts add up to the number of ranks: every rank is counted once. */
  lemma RankCountsSum(ranks: seq<int>)
    requires forall x :: x in ranks ==> 2 <= x <= 14
    ensures Sum(RankCounts(ranks)) == |ranks|
  {
    SumCountsFrom(ranks, 2);
    CountFromAll(ranks);
    assert RankCounts(ranks) == CountsFrom(ranks, 2);
  }

  /** Every distinct rank occurs at least once. */
  lemma RankCountsPositive(ranks: seq<int>)
    requires forall x :: x in ranks ==> 2 <= x <= 14
    ensures forall i :: 0 <= i < |RankCounts(ranks)| ==> RankCounts(ranks)[i] >= 1
  {
    UniqueRanksShape(ranks);
    var u := UniqueRanks(ranks);
    forall i | 0 <= i < |u| ensures Count(ranks, u[i]) >= 1 {
      assert u[i] in u;
    }
  }

  /** A count occurs among the counts exactly when some rank occurs that often. */
  lemma HasCountIff(ranks: seq<int>, n: nat)
    requires n >= 1 && forall x :: x in ranks ==> 2 <= x <= 14
    ensures HasCount(ranks, n) <==> exists v :: v in ranks && Count(ranks, v) == n
  {
    UniqueRanksShape(ranks);
    var u, counts := UniqueRanks(ranks), RankCounts(ranks);
    if exists v :: v in ranks && Count(ranks, v) == n {
      var v :| v in ranks && Count(ranks, v) == n;
      assert v in u;
      var i :| 0 <= i < |u| && u[i] == v;
      assert counts[i] == n;
    }
  }

  /** Two distinct positions of positive counts, plus one for every other position, are at most the sum. */
  lemma {:induction false} SumAtLeast(c: seq<nat>, a: nat, b: nat)
    requires a < |c| && b < |c| && a != b
    requires forall i :: 0 <= i < |c| ==> c[i] >= 1
    ensures Sum(c) >= c[a] + c[b] + (|c| - 2)
  {
    if a > 0 && b > 0 {
      SumAtLeast(c[1..], a - 1, b - 1);
    } else if a == 0 {
      SumAtLeastOne(c[1..], b - 1);
    } else {
      SumAtLeastOne(c[1..], a - 1);
    }
  }

  lemma {:induction false} SumAtLeastOne(c: seq<nat>, a: nat)
    requires a < |c|
    requires forall i :: 0 <= i < |c| ==> c[i] >= 1
    ensures Sum(c) >= c[a] + (|c| - 1)
  {
    if a > 0 {
      SumAtLeastOne(c[1..], a - 1);
    } else {
      SumAtLeastLength(c[1..]);
    }
  }

  lemma {:induction false} SumAtLeastLength(c: seq<nat>)
    requires forall i :: 0 <= i < |c| ==> c[i] >= 1
    ensures Sum(c) >= |c|
  {
    if |c| > 0 {
      SumAtLeastLength(c[1..]);
    }
  }

  /** Positive counts of which `n` are 2 add up to at least the length plus `n`. */
  lemma {:induction false} CountAtLeast(c: seq<nat>, n: nat)
    requires forall i :: 0 <= i < |c| ==> c[i] >= 1
    requires Count(c, 2) == n
    ensures Sum(c) >= |c| + n
    decreases |c|
  {
    if |c| > 0 {
      CountAtLeast(c[1..], Count(c[1..], 2));
    }
  }

  lemma SumThree(a: nat, b: nat, d: nat)
    ensures Sum([a, b, d]) == a + b + d
    ensures Count([a, b, d], 2 as nat) == Count([a], 2 as nat) + Count([b], 2 as nat) + Count([d], 2 as nat)
  {
    assert [a, b, d][1..] == [b, d];
    assert [b, d][1..] == [d];
    assert [d][1..] == [];
    assert Sum([d]) == d;
    assert Sum([b, d]) == b + d;
    assert [a][1..] == [] && [b][1..] == [];
  }

  /** Three positive counts adding up to five with a 2 among them hold exactly two 2s. */
  lemma CountThree(c: seq<nat>)
    requires |c| == 3 && 2 in c && Sum(c) == 5
    requires forall i :: 0 <= i < |c| ==> c[i] >= 1
    ensures Count(c, 2) == 2
  {
    assert c == [c[0], c[1], c[2]];
    SumThree(c[0], c[1], c[2]);
  }

  // The flags

  /** A single distinct element is a non-empty sequence of equal elements. */
  lemma SingleElement<T>(s: seq<T>)
    ensures |Elements(s)| == 1 <==> |s| > 0 && forall i :: 0 <= i < |s| ==> s[i] == s[0]
  {
    if |s| > 0 && forall i :: 0 <= i < |s| ==> s[i] == s[0] {
      assert Elements(s) == {s[0]};
    }
    if |Elements(s)| == 1 {
      assert s[0] in Elements(s);
      var rest := Elements(s) - {s[0]};
      assert |rest| == 0;
      assert rest == {};
      forall i | 0 <= i < |s| ensures s[i] == s[0] {
        assert s[i] in Elements(s) && s[i] !in rest;
      }
    }
    if |s| == 0 {
      assert Elements(s) == {};
    }
  }

  /** `is_flush` holds exactly when there is a suit and all suits are the same. */
  lemma FlushIff(ranks: seq<int>, suits: seq<char>)
    ensures ClassifyRanks(ranks, suits).flags.flush <==> |suits| > 0 && forall i :: 0 <= i < |suits| ==> suits[i] == suits[0]
  {
    SingleElement(suits);
  }

  /** A well-formed hand is a flush exactly when it has a card and all its cards share its first card's suit. */
  lemma FlushSameSuit(hand: seq<string>)
    requires WellFormed(hand)
    ensures Classify(hand).flags.flush <==> |hand| > 0 && forall i :: 0 <= i < |hand| ==> hand[i][1] == hand[0][1]
  {
    WellFormedRanks(hand);
    var suits := Suits(HandString(hand));
    SingleElement(suits);
    assert forall i :: 0 <= i < |hand| ==> suits[i] == hand[i][1];
  }

  /** The ranks are exactly the five values from `lo` up. */
  ghost predicate RunFrom(ranks: seq<int>, lo: int) {
    forall v :: v in ranks <==> lo <= v <= lo + 4
  }

  /** Five strictly ascending values spanning four are consecutive. */
  lemma ConsecutiveRun(u: seq<int>)
    requires |u| == 5 && forall i, j :: 0 <= i < j < 5 ==> u[i] < u[j]
    requires u[4] - u[0] == 4
    ensures u == [u[0], u[0] + 1, u[0] + 2, u[0] + 3, u[0] + 4]
  {
    assert u[0] < u[1] < u[2] < u[3] < u[4];
  }

  /** Five ascending values spanning four, holding exactly the ranks, make the ranks a run. */
  lemma AscendingRun(u: seq<int>, ranks: seq<int>)
    requires forall i, j :: 0 <= i < j < |u| ==> u[i] < u[j]
    requires forall x :: x in u <==> x in ranks
    requires |u| == 5 && u[4] - u[0] == 4
    ensures RunFrom(ranks, u[0])
  {
    ConsecutiveRun(u);
    var lo := u[0];
    forall v ensures v in ranks <==> lo <= v <= lo + 4 {
      assert v in u <==> v == lo || v == lo + 1 || v == lo + 2 || v == lo + 3 || v == lo + 4;
    }
  }

  /** Ascending values holding exactly the ranks of a run are that run. */
  lemma RunAscending(u: seq<int>, ranks: seq<int>, lo: int)
    requires forall i, j :: 0 <= i < j < |u| ==> u[i] < u[j]
    requires forall x :: x in u <==> x in ranks
    requires RunFrom(ranks, lo)
    ensures u == [lo, lo + 1, lo + 2, lo + 3, lo + 4]
  {
    var run := [lo, lo + 1, lo + 2, lo + 3, lo + 4];
    forall v ensures v in u <==> v in run {
      assert v in run <==> lo <= v <= lo + 4;
    }
    RunUnique(u, run);
  }

  /** A straight's ranks are the run from its lowest distinct rank. */
  lemma StraightFlagRun(ranks: seq<int>)
    requires forall x :: x in ranks ==> 2 <= x <= 14
    requires StraightFlag(ranks)
    ensures RunFrom(ranks, UniqueRanks(ranks)[0])
  {
    UniqueRanksShape(ranks);
    AscendingRun(UniqueRanks(ranks), ranks);
  }

  /** Ranks making a run pass the straight test, with the run's start as lowest distinct rank. */
  lemma RunStraightFlag(ranks: seq<int>, lo: int)
    requires forall x :: x in ranks ==> 2 <= x <= 14
    requires RunFrom(ranks, lo)
    ensures StraightFlag(ranks) && UniqueRanks(ranks)[0] == lo
  {
    UniqueRanksShape(ranks);
    RunAscending(UniqueRanks(ranks), ranks, lo);
  }

  /** The straight test: the ranks are exactly the five values from some lowest rank up. */
  lemma StraightFlagIff(ranks: seq<int>)
    requires forall x :: x in ranks ==> 2 <= x <= 14
    ensures StraightFlag(ranks) <==> exists lo :: RunFrom(ranks, lo)
    ensures StraightFlag(ranks) ==> RunFrom(ranks, UniqueRanks(ranks)[0])
  {
    if StraightFlag(ranks) {
      StraightFlagRun(ranks);
    }
    if exists lo :: RunFrom(ranks, lo) {
      var lo :| RunFrom(ranks, lo);
      RunStraightFlag(ranks, lo);
    }
  }

  /**
    `is_straight` holds exactly when the ranks are the five values from the lowest rank up,
    with the ace as 14 only, so A-2-3-4-5 is not a straight; a straight flush is both.
   */
  lemma StraightIff(ranks: seq<int>, suits: seq<char>)
    requires forall x :: x in ranks ==> 2 <= x <= 14
    ensures ClassifyRanks(ranks, suits).flags.straight <==> exists lo :: RunFrom(ranks, lo)
    ensures ClassifyRanks(ranks, suits).flags.straightFlush <==>
      ClassifyRanks(ranks, suits).flags.straight && ClassifyRanks(ranks, suits).flags.flush
  {
    StraightFlagIff(ranks);
  }

  /**
    The count flags: a pair, trips or quads are a rank occurring exactly two, three or four
    times; two pair is a pair among three distinct ranks; a full house is trips and a pair.
   */
  lemma CountFlagsIff(ranks: seq<int>, suits: seq<char>)
    requires forall x :: x in ranks ==> 2 <= x <= 14
    ensures var fl := ClassifyRanks(ranks, suits).flags;
      && (fl.pair <==> exists v :: v in ranks && Count(ranks, v) == 2)
      && (fl.trips <==> exists v :: v in ranks && Count(ranks, v) == 3)
      && (fl.quads <==> exists v :: v in ranks && Count(ranks, v) == 4)
      && (fl.twoPair <==> fl.pair && |UniqueRanks(ranks)| == 3)
      && (fl.fullHouse <==> fl.trips && fl.pair)
  {
    HasCountIff(ranks, 2);
    HasCountIff(ranks, 3);
    HasCountIff(ranks, 4);
  }

  /** Counts of a five-card hand: positive and adding up to five. */
  predicate FiveCounts(c: seq<nat>) {
    Sum(c) == 5 && forall i :: 0 <= i < |c| ==> c[i] >= 1
  }

  lemma QuadsNoPair(c: seq<nat>)
    requires FiveCounts(c) && 4 in c
    ensures 2 !in c
  {
    if 2 in c {
      SumAtLeast(c, IndexOf(c, 4), IndexOf(c, 2));
    }
  }

  lemma FullHouseCounts(c: seq<nat>)
    requires FiveCounts(c)
    ensures 3 in c && 2 in c <==> c == [3, 2] || c == [2, 3]
  {
    if 3 in c && 2 in c {
      var a, b := IndexOf(c, 3), IndexOf(c, 2);
      SumAtLeast(c, a, b);
      assert |c| == 2;
      assert c == [c[0], c[1]];
    }
  }

  lemma LengthTwo(c: seq<nat>)
    ensures |c| == 2 ==> Sum(c) == c[0] + c[1]
    ensures |c| == 2 ==> Count(c, 2) == (if c[0] == 2 then 1 else 0) + (if c[1] == 2 then 1 else 0)
  {
    if |c| == 2 {
      var t := c[1..];
      assert t[1..] == [];
      assert Sum(t) == c[1] + Sum(t[1..]);
      assert Count(t, 2) == (if c[1] == 2 then 1 else 0) + Count(t[1..], 2);
    }
  }

  lemma TwoPairCounts(c: seq<nat>)
    requires FiveCounts(c)
    ensures 2 in c && |c| == 3 <==> Count(c, 2) == 2
  {
    if 2 in c && |c| == 3 {
      CountThree(c);
    }
    LengthTwo(c);
    if Count(c, 2) == 2 {
      CountAtLeast(c, 2);
    }
  }

  /**
    With five ranks: quads are never also a pair; a full house is exactly the counts 3 and 2;
    two pair is exactly two ranks occurring twice.
   */
  lemma FiveCardCounts(ranks: seq<int>, suits: seq<char>)
    requires |ranks| == 5 && forall x :: x in ranks ==> 2 <= x <= 14
    ensures var fl := ClassifyRanks(ranks, suits).flags;
      && (fl.quads ==> !fl.pair)
      && (fl.fullHouse <==> RankCounts(ranks) == [3, 2] || RankCounts(ranks) == [2, 3])
      && (fl.twoPair <==> Count(RankCounts(ranks), 2) == 2)
  {
    RankCountsSum(ranks);
    RankCountsPositive(ranks);
    var c := RankCounts(ranks);
    assert |c| == |UniqueRanks(ranks)|;
    if 4 in c {
      QuadsNoPair(c);
    }
    FullHouseCounts(c);
    TwoPairCounts(c);
  }

  // The tie-break ranks

  /** The rank at the first position of count `n` is the lowest rank occurring `n` times. */
  lemma RankWithCountLowest(ranks: seq<int>, n: nat)
    requires n >= 1 && forall x :: x in ranks ==> 2 <= x <= 14
    ensures RankWithCount(ranks, n).Some? <==> HasCount(ranks, n)
    ensures RankWithCount(ranks, n).Some? ==>
      var v := RankWithCount(ranks, n).value;
      Count(ranks, v) == n && forall w :: w < v ==> Count(ranks, w) != n
  {
    if HasCount(ranks, n) {
      UniqueRanksShape(ranks);
      var u, c := UniqueRanks(ranks), RankCounts(ranks);
      var k := IndexOf(c, n);
      var v := u[k];
      forall w | w < v ensures Count(ranks, w) != n {
        if w in u {
          var j :| 0 <= j < |u| && u[j] == w;
          AscendingIndex(u, j, k);
          assert c[j] == Count(ranks, w);
        } else {
          assert w !in ranks;
        }
      }
    }
  }

  /** The lowest distinct rank is the minimum of the ranks, present exactly when there is a rank. */
  lemma LowestRankMin(ranks: seq<int>)
    requires forall x :: x in ranks ==> 2 <= x <= 14
    ensures LowestRank(ranks).Some? <==> |ranks| > 0
    ensures LowestRank(ranks).Some? ==>
      LowestRank(ranks).value in ranks && forall w :: w in ranks ==> LowestRank(ranks).value <= w
  {
    UniqueRanksShape(ranks);
    var u := UniqueRanks(ranks);
    if |ranks| > 0 {
      assert ranks[0] in ranks;
      assert ranks[0] in u;
    }
    if |u| > 0 {
      assert u[0] in u;
      forall w | w in ranks ensures u[0] <= w {
        assert w in u;
        var j :| 0 <= j < |u| && u[j] == w;
        assert j == 0 || u[0] < u[j];
      }
    }
  }

  /**
    `pair_rank` is present exactly for a pair and is the lowest rank occurring twice;
    `set_rank` likewise for trips; `full_house_pair_rank` is the pair rank of a full house;
    `flush_rank` and `straight_rank` are the lowest rank, present for a flush with some rank
    and for a straight.
   */
  lemma TieBreakRanks(ranks: seq<int>, suits: seq<char>)
    requires forall x :: x in ranks ==> 2 <= x <= 14
    ensures var f := ClassifyRanks(ranks, suits);
      && (f.pairRank.Some? <==> f.flags.pair)
      && (f.pairRank.Some? ==>
        Count(ranks, f.pairRank.value) == 2 && forall w :: w < f.pairRank.value ==> Count(ranks, w) != 2)
      && (f.setRank.Some? <==> f.flags.trips)
      && (f.setRank.Some? ==>
        Count(ranks, f.setRank.value) == 3 && forall w :: w < f.setRank.value ==> Count(ranks, w) != 3)
      && (f.fullHousePairRank.Some? <==> f.flags.fullHouse)
      && (f.fullHousePairRank.Some? ==> f.fullHousePairRank == f.pairRank)
      && (f.flushRank.Some? <==> f.flags.flush && |ranks| > 0)
      && (f.straightRank.Some? <==> f.flags.straight)
      && (f.flushRank.Some? ==> f.flushRank.value in ranks && forall w :: w in ranks ==> f.flushRank.value <= w)
      && (f.straightRank.Some? ==> f.straightRank == f.flushRank || !f.flags.flush)
  {
    RankWithCountLowest(ranks, 2);
    RankWithCountLowest(ranks, 3);
    LowestRankMin(ranks);
    if StraightFlag(ranks) {
      assert |UniqueRanks(ranks)| == 5;
      UniqueRanksShape(ranks);
      assert UniqueRanks(ranks)[0] in ranks;
    }
  }

  /** `straight_rank` is the lowest rank of the straight. */
  lemma StraightRankLowest(ranks: seq<int>, suits: seq<char>)
    requires forall x :: x in ranks ==> 2 <= x <= 14
    ensures var f := ClassifyRanks(ranks, suits);
      f.straightRank.Some? ==> RunFrom(ranks, f.straightRank.value)
  {
    StraightFlagIff(ranks);
  }

  // Examples

  /** The counts are the given ones when they are the counts of the given distinct ranks. */
  lemma RankCountsOf(ranks: seq<int>, u: seq<int>, counts: seq<nat>)
    requires UniqueRanks(ranks) == u && |counts| == |u|
    requires forall i :: 0 <= i < |u| ==> Count(ranks, u[i]) == counts[i]
    ensures RankCounts(ranks) == counts
  {
  }

  lemma CountCons<T>(y: T, rest: seq<T>, x: T)
    ensures Count([y] + rest, x) == (if y == x then 1 else 0) + Count(rest, x)
  {
    assert ([y] + rest)[1..] == rest;
  }

  lemma CountFive<T>(a: T, b: T, c: T, d: T, e: T, x: T)
    ensures Count([a, b, c, d, e], x) ==
      (if a == x then 1 else 0) + (if b == x then 1 else 0) + (if c == x then 1 else 0)
      + (if d == x then 1 else 0) + (if e == x then 1 else 0)
  {
    assert [a, b, c, d, e] == [a] + [b, c, d, e];
    assert [b, c, d, e] == [b] + [c, d, e];
    assert [c, d, e] == [c] + [d, e];
    assert [d, e] == [d] + [e];
    assert [e] == [e] + [];
    CountCons(a, [b, c, d, e], x);
    CountCons(b, [c, d, e], x);
    CountCons(c, [d, e], x);
    CountCons(d, [e], x);
    CountCons(e, [], x);
  }

  /** Trips of `t` with a pair of `p`: a full house whose set rank is `t` and pair rank `p`. */
  lemma ClassifyFullHouse(t: int, p: int, suits: seq<char>)
    requires 2 <= t <= 14 && 2 <= p <= 14 && t != p
    requires |suits| == 5 && suits[0] != suits[1]
    ensures var f := ClassifyRanks([t, t, t, p, p], suits);
      && f.flags == Flags(false, false, false, true, false, true, false, true)
      && f.setRank == Some(t) && f.pairRank == Some(p) && f.fullHousePairRank == Some(p)
      && f.flushRank == None && f.straightRank == None
  {
    var ranks: seq<int> := [t, t, t, p, p];
    CountFive(t, t, t, p, p, p);
    CountFive(t, t, t, p, p, t);
    var u, c := if p < t then [p, t] else [t, p], if p < t then [2, 3] else [3, 2];
    assert UniqueRanks(ranks) == u by {
      assert forall x :: x in ranks <==> x == t || x == p;
      UniqueRanksOf(ranks, u);
    }
    RankCountsOf(ranks, u, c);
    assert !FlushFlag(suits) by {
      SingleElement(suits);
    }
    assert !StraightFlag(ranks);
    assert HasCount(ranks, 2) && HasCount(ranks, 3) && !HasCount(ranks, 4);
    assert RankWithCount(ranks, 2) == Some(p) && RankWithCount(ranks, 3) == Some(t);
  }

  /** Five consecutive ranks of one suit: a straight flush ranked by its lowest card. */
  lemma ClassifyStraightFlush(lo: int, suit: char)
    requires 2 <= lo <= 10
    ensures var f := ClassifyRanks([lo, lo + 1, lo + 2, lo + 3, lo + 4], [suit, suit, suit, suit, suit]);
      && f.flags == Flags(true, true, true, false, false, false, false, false)
      && f.straightRank == Some(lo) && f.flushRank == Some(lo) && f.pairRank == None
  {
    var ranks: seq<int> := [lo, lo + 1, lo + 2, lo + 3, lo + 4];
    var ones: seq<nat> := [1, 1, 1, 1, 1];
    assert UniqueRanks(ranks) == ranks by {
      UniqueRanksOf(ranks, ranks);
    }
    assert RankCounts(ranks) == ones by {
      forall i | 0 <= i < 5 ensures Count(ranks, ranks[i]) == ones[i] {
        CountFive(lo, lo + 1, lo + 2, lo + 3, lo + 4, ranks[i]);
      }
      RankCountsOf(ranks, ranks, ones);
    }
    assert FlushFlag([suit, suit, suit, suit, suit]) by {
      assert Elements([suit, suit, suit, suit, suit]) == {suit};
    }
    assert StraightFlag(ranks);
    assert forall n: nat :: n in ones ==> n == 1;
    assert !HasCount(ranks, 2) && !HasCount(ranks, 3) && !HasCount(ranks, 4);
  }

  /** A-2-3-4-5 is not a straight: the ace only counts high. */
  lemma ClassifyNoWheel()
    ensures !ClassifyRanks([14, 2, 3, 4, 5], "dhcsh").flags.straight
  {
    var ranks: seq<int> := [14, 2, 3, 4, 5];
    UniqueRanksOf(ranks, [2, 3, 4, 5, 14]);
  }

  /** A well-formed hand is classified by its cards' rank values and suit codes. */
  lemma ClassifyWellFormed(hand: seq<string>)
    requires WellFormed(hand)
    ensures Classify(hand) == ClassifyRanks(
      seq(|hand|, i requires 0 <= i < |hand| => RankCharValue(hand[i][0])),
      seq(|hand|, i requires 0 <= i < |hand| => hand[i][1]))
  {
    WellFormedRanks(hand);
  }
}
