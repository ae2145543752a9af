/** The columns of a parsed range, the KPI operators, the best-hand table and KPI requirements. */
module Kpi {
  import opened Base
  import opened Strings

  /** The columns of the parsed data, declared in the order of the string enum. */
  datatype Column =
    | Action | Weight | CommunityCards | HoleCards
    | IsFlush | IsStraight | IsStraightFlush | IsPair | IsTwoPair | IsTrips | IsQuads | IsFullHouse
    | PairRank | FullHousePairRank | FlushRank | StraightRank | SetRank
    | BestHand | BestHandValue | DrawStraightOuts | DrawFlushRank

  /** The column's name in the data, the value of the string enum. */
  function Name(c: Column): string {
    match c
    case Action => "action"
    case Weight => "weight"
    case CommunityCards => "community_cards"
    case HoleCards => "hole_cards"
    case IsFlush => "is_flush"
    case IsStraight => "is_straight"
    case IsStraightFlush => "is_straight_flush"
    case IsPair => "is_pair"
    case IsTwoPair => "is_two_pair"
    case IsTrips => "is_trips"
    case IsQuads => "is_quads"
    case IsFullHouse => "is_full_house"
    case PairRank => "pair_rank"
    case FullHousePairRank => "full_house_pair_rank"
    case FlushRank => "flush_rank"
    case StraightRank => "straight_rank"
    case SetRank => "set_rank"
    case BestHand => "best_hand"
    case BestHandValue => "best_hand_value"
    case DrawStraightOuts => "draw_straight_outs"
    case DrawFlushRank => "draw_flush_rank"
  }

  /** Looking a column up by its name, as the enum constructor does; `None` for an unknown name. */
  function ColumnOfName(s: string): (r: Option<Column>)
    ensures r.Some? ==> Name(r.value) == s
  {
    if s == "action" then Some(Action)
    else if s == "weight" then Some(Weight)
    else if s == "community_cards" then Some(CommunityCards)
    else if s == "hole_cards" then Some(HoleCards)
    else if s == "is_flush" then Some(IsFlush)
    else if s == "is_straight" then Some(IsStraight)
    else if s == "is_straight_flush" then Some(IsStraightFlush)
    else if s == "is_pair" then Some(IsPair)
    else if s == "is_two_pair" then Some(IsTwoPair)
    else if s == "is_trips" then Some(IsTrips)
    else if s == "is_quads" then Some(IsQuads)
    else if s == "is_full_house" then Some(IsFullHouse)
    else if s == "pair_rank" then Some(PairRank)
    else if s == "full_house_pair_rank" then Some(FullHousePairRank)
    else if s == "flush_rank" then Some(FlushRank)
    else if s == "straight_rank" then Some(StraightRank)
    else if s == "set_rank" then Some(SetRank)
    else if s == "best_hand" then Some(BestHand)
    else if s == "best_hand_value" then Some(BestHandValue)
    else if s == "draw_straight_outs" then Some(DrawStraightOuts)
    else if s == "draw_flush_rank" then Some(DrawFlushRank)
    else None
  }

  /** Every column is found by its name, so no two columns share a name. */
  lemma ColumnOfNameInverse(c: Column)
    ensures ColumnOfName(Name(c)) == Some(c)
  {
    if c in {Action, Weight, CommunityCards, HoleCards, IsFlush, IsStraight, IsStraightFlush} {
      DataColumnsFound(c);
    } else if c in {IsPair, IsTwoPair, IsTrips, IsQuads, IsFullHouse, PairRank, FullHousePairRank} {
      FlagColumnsFound(c);
    } else if c in {FlushRank, StraightRank, SetRank, BestHand} {
      LaterColumnsFound(c);
    } else {
      DerivedColumnsFound(c);
    }
  }

  /** Lookup by name finds the data columns and the first flags. */
  lemma DataColumnsFound(c: Column)
    requires c in {Action, Weight, CommunityCards, HoleCards, IsFlush, IsStraight, IsStraightFlush}
    ensures ColumnOfName(Name(c)) == Some(c)
  {
  }

  /** Lookup by name finds the remaining flags and the first rank columns. */
  lemma FlagColumnsFound(c: Column)
    requires c in {IsPair, IsTwoPair, IsTrips, IsQuads, IsFullHouse, PairRank, FullHousePairRank}
    ensures ColumnOfName(Name(c)) == Some(c)
  {
  }

  /** Lookup by name finds the last rank columns and the best-hand label column. */
  lemma LaterColumnsFound(c: Column)
    requires c in {FlushRank, StraightRank, SetRank, BestHand}
    ensures ColumnOfName(Name(c)) == Some(c)
  {
  }

  /** Lookup by name finds the columns no shown code computes. */
  lemma DerivedColumnsFound(c: Column)
    requires c in {BestHandValue, DrawStraightOuts, DrawFlushRank}
    ensures ColumnOfName(Name(c)) == Some(c)
  {
  }

  /** Column names are single words. */
  lemma ColumnNameNoSpace(c: Column)
    ensures ' ' !in Name(c)
  {
  }

  datatype Operation = Equals | NotEquals | GreaterThan | GreaterThanOrEquals | LessThan | LessThanOrEquals
    | Includes | NotIncludes

  /** The operator's code in a KPI definition. */
  function Code(op: Operation): string {
    match op
    case Equals => "eq"
    case NotEquals => "ne"
    case GreaterThan => "gt"
    case GreaterThanOrEquals => "gte"
    case LessThan => "lt"
    case LessThanOrEquals => "lte"
    case Includes => "in"
    case NotIncludes => "ni"
  }

  /** Looking an operator up by its code; `None` for an unknown code. */
  function OperationOfCode(s: string): (r: Option<Operation>)
    ensures r.Some? ==> Code(r.value) == s
  {
    if s == "eq" then Some(Equals)
    else if s == "ne" then Some(NotEquals)
    else if s == "gt" then Some(GreaterThan)
    else if s == "gte" then Some(GreaterThanOrEquals)
    else if s == "lt" then Some(LessThan)
    else if s == "lte" then Some(LessThanOrEquals)
    else if s == "in" then Some(Includes)
    else if s == "ni" then Some(NotIncludes)
    else None
  }

  /** The codes are exactly eq, ne, gt, gte, lt, lte, in and ni, one per operator. */
  lemma OperationCodes(op: Operation)
    ensures OperationOfCode(Code(op)) == Some(op)
    ensures Code(op) in ["eq", "ne", "gt", "gte", "lt", "lte", "in", "ni"]
    ensures ' ' !in Code(op)
  {
  }

  /** The hand-category flags and their labels, strongest first. */
  const BestHands: seq<(Column, string)> := [
    (IsStraightFlush, "Straight Flush"),
    (IsQuads, "Four of a Kind"),
    (IsFullHouse, "Full House"),
    (IsFlush, "Flush"),
    (IsStraight, "Straight"),
    (IsTrips, "Three of a Kind"),
    (IsTwoPair, "Two Pair"),
    (IsPair, "One Pair")
  ]

  /** The label a hand gets when no flag holds. */
  const HighCard: string := "High Card"

  /** The first entry of `table` for `c`, or the default label. */
  function Lookup(table: seq<(Column, string)>, c: Column): (text: string)
    ensures text == HighCard || exists i :: 0 <= i < |table| && table[i] == (c, text)
    ensures (forall i :: 0 <= i < |table| ==> table[i].0 != c) ==> text == HighCard
  {
    if |table| == 0 then HighCard
    else if table[0].0 == c then table[0].1
    else Lookup(table[1..], c)
  }

  datatype Requirement = Requirement(column: Column, operation: Operation, value: Value)

  /** A requirement's value as the configuration gives it. */
  datatype Value = VNone | VBool(b: bool) | VInt(i: int) | VStr(s: string)

  /** The best-hand label of the requirement's column, "High Card" for a non-flag column. */
  function RequirementBestHand(r: Requirement): string {
    Lookup(BestHands, r.column)
  }

  /** The table holds exactly the eight flag columns, in precedence order SF, 4K, FH, F, S, 3K, 2P, 1P. */
  lemma BestHandsTable()
    ensures |BestHands| == 8
    ensures forall i, j :: 0 <= i < j < |BestHands| ==> BestHands[i].0 != BestHands[j].0
    ensures forall i :: 0 <= i < |BestHands| ==> Lookup(BestHands, BestHands[i].0) == BestHands[i].1
  {
    BestHandsDistinct();
    LookupDistinct(BestHands);
  }

  /** No flag column occurs twice in the table. */
  lemma BestHandsDistinct()
    ensures |BestHands| == 8
    ensures forall i, j :: 0 <= i < j < |BestHands| ==> BestHands[i].0 != BestHands[j].0
  {
  }

  /** In a table without repeated columns, every entry is the one the lookup finds. */
  lemma LookupDistinct(table: seq<(Column, string)>)
    requires forall i, j :: 0 <= i < j < |table| ==> table[i].0 != table[j].0
    ensures forall i :: 0 <= i < |table| ==> Lookup(table, table[i].0) == table[i].1
  {
    forall i | 0 <= i < |table| ensures Lookup(table, table[i].0) == table[i].1 {
      LookupFirst(table, i);
    }
  }

  /** An entry whose column does not occur earlier is the one the lookup finds. */
  lemma {:induction false} LookupFirst(table: seq<(Column, string)>, i: nat)
    requires i < |table| && forall j :: 0 <= j < i ==> table[j].0 != table[i].0
    ensures Lookup(table, table[i].0) == table[i].1
    decreases i
  {
    if i > 0 {
      LookupFirst(table[1..], i - 1);
    }
  }

  /** The label of each flag column, and "High Card" for every other column. */
  lemma RequirementBestHandLabels(r: Requirement)
    ensures r.column == IsStraightFlush ==> RequirementBestHand(r) == "Straight Flush"
    ensures r.column == IsQuads ==> RequirementBestHand(r) == "Four of a Kind"
    ensures r.column == IsFullHouse ==> RequirementBestHand(r) == "Full House"
    ensures r.column == IsFlush ==> RequirementBestHand(r) == "Flush"
    ensures r.column == IsStraight ==> RequirementBestHand(r) == "Straight"
    ensures r.column == IsTrips ==> RequirementBestHand(r) == "Three of a Kind"
    ensures r.column == IsTwoPair ==> RequirementBestHand(r) == "Two Pair"
    ensures r.column == IsPair ==> RequirementBestHand(r) == "One Pair"
    ensures r.column !in {IsStraightFlush, IsQuads, IsFullHouse, IsFlush, IsStraight, IsTrips, IsTwoPair, IsPair}
      ==> RequirementBestHand(r) == HighCard
  {
  }

  /** Python's `str` of a configuration value. */
  function ShowValue(v: Value): string {
    match v
    case VNone => "None"
    case VBool(b) => if b then "True" else "False"
    case VInt(i) => IntToString(i)
    case VStr(s) => s
  }

  /** `str(requirement)`: "column <name> <code> <value>". */
  function RequirementString(r: Requirement): string {
    "column" + " " + Name(r.column) + " " + Code(r.operation) + " " + ShowValue(r.value)
  }

  /** Three space-free words and a text, joined by spaces, split back into the words and the text. */
  lemma SplitThreeWords(a: string, b: string, c: string, v: string)
    requires ' ' !in a && ' ' !in b && ' ' !in c
    ensures var parts := Split(a + " " + b + " " + c + " " + v, ' ');
      |parts| >= 4 && parts[0] == a && parts[1] == b && parts[2] == c && Join(parts[3..], ' ') == v
  {
    assert a + " " + b + " " + c + " " + v == a + [' '] + (b + [' '] + (c + [' '] + v));
    SplitPrefix(a, b + [' '] + (c + [' '] + v), ' ');
    SplitPrefix(b, c + [' '] + v, ' ');
    SplitPrefix(c, v, ' ');
    var parts := Split(a + " " + b + " " + c + " " + v, ' ');
    assert parts == [a, b, c] + Split(v, ' ');
    assert parts[0] == a && parts[1] == b && parts[2] == c;
    assert parts[3..] == Split(v, ' ');
    JoinSplit(v, ' ');
  }

  /**
    Splitting the rendering at spaces gives "column", the column's name and the operator's
    code, then the value's text; so the column and the operator can be read back.
   */
  lemma RequirementStringFields(r: Requirement)
    ensures var parts := Split(RequirementString(r), ' ');
      && |parts| >= 4
      && parts[0] == "column"
      && ColumnOfName(parts[1]) == Some(r.column)
      && OperationOfCode(parts[2]) == Some(r.operation)
      && Join(parts[3..], ' ') == ShowValue(r.value)
  {
    var name, code := Name(r.column), Code(r.operation);
    ColumnOfNameInverse(r.column);
    ColumnNameNoSpace(r.column);
    OperationCodes(r.operation);
    SplitThreeWords("column", name, code, ShowValue(r.value));
  }

  lemma RequirementStringExample()
    ensures RequirementString(Requirement(IsPair, Equals, VBool(true))) == "column is_pair eq True"
    ensures RequirementString(Requirement(PairRank, Includes, VInt(9))) == "column pair_rank in 9"
  {
  }

  /** A KPI: a display name and the requirements a row must meet. */
  datatype KPI = KPI(displayName: string, requirements: seq<Requirement>)
}
