/**
  From candidates to parsed rows: classify every candidate, collapse the candidates of one
  input line into one row, and label the row with its best hand.
 */
module Collapse {
  import opened Base
  import opened Actions
  import Kpi
  import opened FileModel
  import opened InputReader
  import opened HandAnalysis

  /** A candidate with the columns the classifier adds to it. */
  datatype Analyzed = Analyzed(candidate: Candidate, features: Features)

  /** `analyze_data` followed by `construct_poker_results`, row by row. */
  function Analyze(cs: seq<Candidate>): seq<Analyzed> {
    seq(|cs|, i requires 0 <= i < |cs| => Analyzed(cs[i], Classify(cs[i].hand)))
  }

  /**
    One row of `collapse_on_index`: the first candidate's fields, the OR of every flag, and for
    each tie-break column the distinct values of the candidates whose governing flag holds.
   */
  datatype CollapsedRow = CollapsedRow(
    action: Action,
    weight: Option<real>,
    communityCards: seq<string>,
    holeCards: seq<string>,
    flags: Flags,
    pairRanks: set<Option<int>>,
    fullHousePairRanks: set<Option<int>>,
    flushRanks: set<Option<int>>,
    straightRanks: set<Option<int>>,
    setRanks: set<Option<int>>)

  /** A collapsed row with its `best_hand` label. */
  datatype ParsedRow = ParsedRow(row: CollapsedRow, bestHand: string)

  /** The flag a flag column holds; `false` for any other column. */
  function Flag(fl: Flags, c: Kpi.Column): bool {
    match c
    case IsFlush => fl.flush
    case IsStraight => fl.straight
    case IsStraightFlush => fl.straightFlush
    case IsPair => fl.pair
    case IsTwoPair => fl.twoPair
    case IsTrips => fl.trips
    case IsQuads => fl.quads
    case IsFullHouse => fl.fullHouse
    case _ => false
  }

  /** The tie-break value a rank column holds; `None` for any other column. */
  function RankOf(f: Features, c: Kpi.Column): Option<int> {
    match c
    case PairRank => f.pairRank
    case FullHousePairRank => f.fullHousePairRank
    case FlushRank => f.flushRank
    case StraightRank => f.straightRank
    case SetRank => f.setRank
    case _ => None
  }

  /** The flag a rank column is filtered by before its values are collected. */
  function Governing(c: Kpi.Column): Kpi.Column {
    match c
    case PairRank => Kpi.IsPair
    case FullHousePairRank => Kpi.IsFullHouse
    case FlushRank => Kpi.IsFlush
    case StraightRank => Kpi.IsStraight
    case SetRank => Kpi.IsTrips
    case _ => Kpi.BestHand
  }

  const NoFlags := Flags(false, false, false, false, false, false, false, false)

  function OrFlags(a: Flags, b: Flags): Flags {
    Flags(a.flush || b.flush, a.straight || b.straight, a.straightFlush || b.straightFlush,
      a.pair || b.pair, a.twoPair || b.twoPair, a.trips || b.trips, a.quads || b.quads,
      a.fullHouse || b.fullHouse)
  }

  /** `any()` of every flag over a group. */
  function AnyFlags(group: seq<Analyzed>): Flags {
    if |group| == 0 then NoFlags else OrFlags(group[0].features.flags, AnyFlags(group[1..]))
  }

  /** `filter(flag).unique()` of a rank column over a group. */
  function RankSet(group: seq<Analyzed>, c: Kpi.Column): set<Option<int>> {
    set i | 0 <= i < |group| && Flag(group[i].features.flags, Governing(c)) :: RankOf(group[i].features, c)
  }

  /** The aggregation of one group, whose first element gives the untouched fields. */
  function CollapseGroup(group: seq<Analyzed>): CollapsedRow
    requires |group| > 0
  {
    var first := group[0].candidate;
    CollapsedRow(first.action, first.weight, first.communityCards, first.holeCards,
      AnyFlags(group),
      RankSet(group, Kpi.PairRank), RankSet(group, Kpi.FullHousePairRank), RankSet(group, Kpi.FlushRank),
      RankSet(group, Kpi.StraightRank), RankSet(group, Kpi.SetRank))
  }

  /** The `row_idx` column. */
  function Keys(rows: seq<Analyzed>): seq<nat> {
    seq(|rows|, i requires 0 <= i < |rows| => rows[i].candidate.rowIdx)
  }

  /** The rows of one `row_idx`, in order. */
  function GroupOf(rows: seq<Analyzed>, k: nat): seq<Analyzed>
    decreases |rows|
  {
    if |rows| == 0 then []
    else if rows[0].candidate.rowIdx == k then [rows[0]] + GroupOf(rows[1..], k)
    else GroupOf(rows[1..], k)
  }

  /** `group_by("row_idx").agg(...)` then `drop("row_idx")`, groups in order of first appearance. */
  function CollapseOnIndex(rows: seq<Analyzed>): seq<CollapsedRow> {
    var keys := FirstAppearance(Keys(rows));
    KeysHaveGroups(rows);
    seq(|keys|, i requires 0 <= i < |keys| => CollapseGroup(GroupOf(rows, keys[i])))
  }

  /** The label of a flag column in the best-hand table. */
  function Label(c: Kpi.Column): string {
    Kpi.Lookup(Kpi.BestHands, c)
  }

  /** The first-true chain of `assign_best_hand`. */
  function BestHandLabel(fl: Flags): string {
    if fl.straightFlush then Label(Kpi.IsStraightFlush)
    else if fl.quads then Label(Kpi.IsQuads)
    else if fl.fullHouse then Label(Kpi.IsFullHouse)
    else if fl.flush then Label(Kpi.IsFlush)
    else if fl.straight then Label(Kpi.IsStraight)
    else if fl.trips then Label(Kpi.IsTrips)
    else if fl.twoPair then Label(Kpi.IsTwoPair)
    else if fl.pair then Label(Kpi.IsPair)
    else Kpi.HighCard
  }

  /** The precedence index of the best hand, 1 for a straight flush to 9 for a high card. */
  function Strength(fl: Flags): (n: nat)
    ensures 1 <= n <= 9
  {
    if fl.straightFlush then 1
    else if fl.quads then 2
    else if fl.fullHouse then 3
    else if fl.flush then 4
    else if fl.straight then 5
    else if fl.trips then 6
    else if fl.twoPair then 7
    else if fl.pair then 8
    else 9
  }

  function AssignBestHand(rows: seq<CollapsedRow>): seq<ParsedRow> {
    seq(|rows|, i requires 0 <= i < |rows| => ParsedRow(rows[i], BestHandLabel(rows[i].flags)))
  }

  /** The parsed rows of one range file: read, classify, collapse and label. */
  function ProcessFile(f: File, lines: seq<string>): seq<ParsedRow> {
    AssignBestHand(CollapseOnIndex(Analyze(ReadFile(f, lines))))
  }

  /** `read_input_files`: the files' parsed rows stacked in order; `None` when there is no file. */
  function ReadInputFiles(inputs: seq<(File, seq<string>)>): Option<seq<ParsedRow>> {
    if |inputs| == 0 then None
    else Some(Flatten(FileOutputs(inputs)))
  }

  /** The fields the `Settings` model declares; reading any other attribute raises `AttributeError`. */
  const SettingsFields: set<string> := {
    "MOVE_FILES_TO_PROCESSED_FOLDER", "ADD_TIMESTAMP_TO_PROCESSED_FILES", "CARD_IMAGE_FOLDER",
    "INPUT_FOLDER", "OUTPUT_FOLDER", "LOG_TO_FILE", "SAVE_CACHE", "SAVE_CACHE_COPY_AS_CSV",
    "TIMESTAMP", "TIMESTAMP_LABEL", "INPUT_FILE_REGEX", "KPIS"}

  datatype SettingsError = AttributeError(name: string)

  /**
    `read_input_files` as written: once there is an output, the CSV switch is read from the
    setting `SAVE_PARSED_AS_CSV` before the output is returned.
   */
  function ReadInputFilesAsWritten(inputs: seq<(File, seq<string>)>): Result<Option<seq<ParsedRow>>, SettingsError> {
    match ReadInputFiles(inputs)
    case None => Ok(None)
    case Some(output) =>
      if "SAVE_PARSED_AS_CSV" in SettingsFields then Ok(Some(output))
      else Err(AttributeError("SAVE_PARSED_AS_CSV"))
  }

  function FileOutputs(inputs: seq<(File, seq<string>)>): (r: seq<seq<ParsedRow>>)
    ensures |r| == |inputs|
  {
    seq(|inputs|, i requires 0 <= i < |inputs| => ProcessFile(inputs[i].0, inputs[i].1))
  }

  // Grouping

  lemma {:induction false} GroupOfMember(rows: seq<Analyzed>, k: nat, a: Analyzed)
    ensures a in GroupOf(rows, k) <==> a in rows && a.candidate.rowIdx == k
    decreases |rows|
  {
    if |rows| > 0 {
      GroupOfMember(rows[1..], k, a);
      assert rows == [rows[0]] + rows[1..];
    }
  }

  /** The group of a key that occurs starts with the first row carrying that key. */
  lemma {:induction false} GroupOfFirst(rows: seq<Analyzed>, k: nat, n: nat)
    requires n < |rows| && rows[n].candidate.rowIdx == k
    requires forall m :: 0 <= m < n ==> rows[m].candidate.rowIdx != k
    ensures |GroupOf(rows, k)| > 0 && GroupOf(rows, k)[0] == rows[n]
    decreases |rows|
  {
    if n > 0 {
      GroupOfFirst(rows[1..], k, n - 1);
    }
  }

  /** Position of the first row carrying key `k`. */
  lemma FirstWithKey(rows: seq<Analyzed>, k: nat) returns (n: nat)
    requires k in Keys(rows)
    ensures n < |rows| && rows[n].candidate.rowIdx == k
    ensures forall m :: 0 <= m < n ==> rows[m].candidate.rowIdx != k
  {
    var ks := Keys(rows);
    n := IndexOf(ks, k);
    forall m | 0 <= m < n ensures rows[m].candidate.rowIdx != k {
      assert ks[m] != k;
    }
  }

  lemma KeysHaveGroups(rows: seq<Analyzed>)
    ensures forall i :: 0 <= i < |FirstAppearance(Keys(rows))| ==> |GroupOf(rows, FirstAppearance(Keys(rows))[i])| > 0
  {
    var keys := FirstAppearance(Keys(rows));
    FirstAppearanceShape(Keys(rows));
    forall i | 0 <= i < |keys| ensures |GroupOf(rows, keys[i])| > 0 {
      assert keys[i] in keys;
      var n := FirstWithKey(rows, keys[i]);
      GroupOfFirst(rows, keys[i], n);
    }
  }

  // Flags

  lemma {:induction false} AnyFlagsIff(group: seq<Analyzed>, c: Kpi.Column)
    ensures Flag(AnyFlags(group), c) <==> exists i :: 0 <= i < |group| && Flag(group[i].features.flags, c)
    decreases |group|
  {
    if |group| > 0 {
      AnyFlagsIff(group[1..], c);
      if exists i :: 0 <= i < |group[1..]| && Flag(group[1..][i].features.flags, c) {
        var i :| 0 <= i < |group[1..]| && Flag(group[1..][i].features.flags, c);
        assert group[1..][i] == group[i + 1];
      }
      if exists i :: 0 <= i < |group| && Flag(group[i].features.flags, c) {
        var i :| 0 <= i < |group| && Flag(group[i].features.flags, c);
        if i > 0 {
          assert group[1..][i - 1] == group[i];
        }
      }
    }
  }

  /** A rank column of a group is non-empty exactly when its governing flag holds for the group. */
  lemma RankSetNonEmpty(group: seq<Analyzed>, c: Kpi.Column)
    ensures RankSet(group, c) != {} <==> Flag(AnyFlags(group), Governing(c))
  {
    AnyFlagsIff(group, Governing(c));
    if exists i :: 0 <= i < |group| && Flag(group[i].features.flags, Governing(c)) {
      var i :| 0 <= i < |group| && Flag(group[i].features.flags, Governing(c));
      assert RankOf(group[i].features, c) in RankSet(group, c);
    }
  }

  /** A candidate's tie-break values are present whenever their governing flags hold. */
  predicate Consistent(f: Features) {
    && (f.flags.pair ==> f.pairRank.Some?)
    && (f.flags.fullHouse ==> f.fullHousePairRank.Some?)
    && (f.flags.flush ==> f.flushRank.Some?)
    && (f.flags.straight ==> f.straightRank.Some?)
    && (f.flags.trips ==> f.setRank.Some?)
  }

  lemma ConsistentAt(f: Features, c: Kpi.Column)
    requires Consistent(f) && Flag(f.flags, Governing(c))
    ensures RankOf(f, c).Some?
  {
  }

  /** The values of a rank column are the tie-break values of candidates whose flag holds. */
  lemma RankSetMember(group: seq<Analyzed>, c: Kpi.Column, v: Option<int>)
    ensures v in RankSet(group, c) <==>
      exists i :: 0 <= i < |group| && Flag(group[i].features.flags, Governing(c)) && RankOf(group[i].features, c) == v
  {
  }

  /** Collected from consistent candidates, the rank columns hold no null. */
  lemma RankSetPresent(group: seq<Analyzed>, c: Kpi.Column)
    requires forall i :: 0 <= i < |group| ==> Consistent(group[i].features)
    ensures forall v :: v in RankSet(group, c) ==> v.Some?
  {
    forall v | v in RankSet(group, c) ensures v.Some? {
      RankSetMember(group, c, v);
      var i :| 0 <= i < |group| && Flag(group[i].features.flags, Governing(c)) && RankOf(group[i].features, c) == v;
      ConsistentAt(group[i].features, c);
    }
  }

  /** A non-empty hand of card codes is classified consistently. */
  lemma ClassifyConsistent(hand: seq<string>)
    requires WellFormed(hand) && |hand| > 0
    ensures Consistent(Classify(hand))
  {
    ClassifyWellFormed(hand);
    var ranks := seq(|hand|, i requires 0 <= i < |hand| => RankCharValue(hand[i][0]));
    var suits := seq(|hand|, i requires 0 <= i < |hand| => hand[i][1]);
    assert forall x :: x in ranks ==> 2 <= x <= 14;
    TieBreakRanks(ranks, suits);
  }

  // Collapsing

  /** One row per distinct `row_idx`, each aggregated over exactly the candidates of that index. */
  lemma CollapseOnIndexRows(rows: seq<Analyzed>)
    ensures |CollapseOnIndex(rows)| == |Elements(Keys(rows))|
    ensures forall k :: k in FirstAppearance(Keys(rows)) <==> k in Keys(rows)
    ensures Distinct(FirstAppearance(Keys(rows)))
  {
    var keys := FirstAppearance(Keys(rows));
    FirstAppearanceShape(Keys(rows));
    DistinctCardinality(keys);
    assert Elements(keys) == Elements(Keys(rows));
  }

  /**
    The row of key `k` keeps the fields of the first candidate of that index, ORs the flags of
    exactly its candidates, and has a non-empty rank column exactly when the governing flag
    holds.
   */
  lemma CollapseOnIndexRow(rows: seq<Analyzed>, i: nat)
    requires i < |FirstAppearance(Keys(rows))|
    ensures var k := FirstAppearance(Keys(rows))[i];
      exists n :: 0 <= n < |rows| && rows[n].candidate.rowIdx == k
        && (forall m :: 0 <= m < n ==> rows[m].candidate.rowIdx != k)
        && CollapseOnIndex(rows)[i].action == rows[n].candidate.action
        && CollapseOnIndex(rows)[i].weight == rows[n].candidate.weight
        && CollapseOnIndex(rows)[i].communityCards == rows[n].candidate.communityCards
        && CollapseOnIndex(rows)[i].holeCards == rows[n].candidate.holeCards
    ensures var k := FirstAppearance(Keys(rows))[i];
      forall c: Kpi.Column :: Flag(CollapseOnIndex(rows)[i].flags, c) <==>
        exists a :: a in rows && a.candidate.rowIdx == k && Flag(a.features.flags, c)
  {
    var keys := FirstAppearance(Keys(rows));
    var k := keys[i];
    FirstAppearanceShape(Keys(rows));
    assert k in keys;
    var n := FirstWithKey(rows, k);
    GroupOfFirst(rows, k, n);
    var group := GroupOf(rows, k);
    KeysHaveGroups(rows);
    assert CollapseOnIndex(rows)[i] == CollapseGroup(group);
    forall c: Kpi.Column
      ensures Flag(CollapseOnIndex(rows)[i].flags, c) <==>
        exists a :: a in rows && a.candidate.rowIdx == k && Flag(a.features.flags, c)
    {
      AnyFlagsIff(group, c);
      if exists a :: a in rows && a.candidate.rowIdx == k && Flag(a.features.flags, c) {
        var a :| a in rows && a.candidate.rowIdx == k && Flag(a.features.flags, c);
        GroupOfMember(rows, k, a);
        var j :| 0 <= j < |group| && group[j] == a;
      }
      if exists j :: 0 <= j < |group| && Flag(group[j].features.flags, c) {
        var j :| 0 <= j < |group| && Flag(group[j].features.flags, c);
        assert group[j] in group;
        GroupOfMember(rows, k, group[j]);
      }
    }
  }

  /** The value set a collapsed row holds in a rank column; empty for any other column. */
  function RankColumn(r: CollapsedRow, c: Kpi.Column): set<Option<int>> {
    match c
    case PairRank => r.pairRanks
    case FullHousePairRank => r.fullHousePairRanks
    case FlushRank => r.flushRanks
    case StraightRank => r.straightRanks
    case SetRank => r.setRanks
    case _ => {}
  }

  lemma CollapseGroupRanks(group: seq<Analyzed>, c: Kpi.Column)
    requires |group| > 0
    ensures RankColumn(CollapseGroup(group), c) == RankSet(group, c)
  {
    if RankColumn(CollapseGroup(group), c) == {} {
      forall v | v in RankSet(group, c) ensures false {
        RankSetMember(group, c, v);
      }
    }
  }

  /** The values of a rank column over a key's group are those of the key's candidates. */
  lemma RankSetOfKey(rows: seq<Analyzed>, k: nat, c: Kpi.Column, v: Option<int>)
    ensures v in RankSet(GroupOf(rows, k), c) <==>
      exists a :: a in rows && a.candidate.rowIdx == k && Flag(a.features.flags, Governing(c)) && RankOf(a.features, c) == v
  {
    var group := GroupOf(rows, k);
    RankSetMember(group, c, v);
    if v in RankSet(group, c) {
      var j :| 0 <= j < |group| && Flag(group[j].features.flags, Governing(c)) && RankOf(group[j].features, c) == v;
      assert group[j] in group;
      GroupOfMember(rows, k, group[j]);
    }
    if exists a :: a in rows && a.candidate.rowIdx == k && Flag(a.features.flags, Governing(c)) && RankOf(a.features, c) == v {
      var a :| a in rows && a.candidate.rowIdx == k && Flag(a.features.flags, Governing(c)) && RankOf(a.features, c) == v;
      GroupOfMember(rows, k, a);
      var j :| 0 <= j < |group| && group[j] == a;
    }
  }

  /**
    Each rank column of the row of key `k` holds exactly the tie-break values of the candidates
    of that index whose governing flag holds: `pair_rank` under `is_pair`, `full_house_pair_rank`
    under `is_full_house`, `flush_rank` under `is_flush`, `straight_rank` under `is_straight` and
    `set_rank` under `is_trips`.
   */
  lemma CollapseOnIndexRanks(rows: seq<Analyzed>, i: nat)
    requires i < |FirstAppearance(Keys(rows))|
    ensures forall c: Kpi.Column, v :: v in RankColumn(CollapseOnIndex(rows)[i], c) <==>
      exists a :: a in rows && a.candidate.rowIdx == FirstAppearance(Keys(rows))[i]
        && Flag(a.features.flags, Governing(c)) && RankOf(a.features, c) == v
  {
    var keys := FirstAppearance(Keys(rows));
    var k := keys[i];
    var group := GroupOf(rows, k);
    KeysHaveGroups(rows);
    assert CollapseOnIndex(rows)[i] == CollapseGroup(group);
    forall c: Kpi.Column, v
      ensures v in RankColumn(CollapseOnIndex(rows)[i], c) <==>
        exists a :: a in rows && a.candidate.rowIdx == k && Flag(a.features.flags, Governing(c)) && RankOf(a.features, c) == v
    {
      CollapseGroupRanks(group, c);
      RankSetOfKey(rows, k, c, v);
    }
  }

  // Best hand

  /** The table's entries, strongest first. */
  lemma TableShape()
    ensures |Kpi.BestHands| == 8
    ensures Kpi.BestHands[0] == (Kpi.IsStraightFlush, "Straight Flush")
    ensures Kpi.BestHands[1] == (Kpi.IsQuads, "Four of a Kind")
    ensures Kpi.BestHands[2] == (Kpi.IsFullHouse, "Full House")
    ensures Kpi.BestHands[3] == (Kpi.IsFlush, "Flush")
    ensures Kpi.BestHands[4] == (Kpi.IsStraight, "Straight")
    ensures Kpi.BestHands[5] == (Kpi.IsTrips, "Three of a Kind")
    ensures Kpi.BestHands[6] == (Kpi.IsTwoPair, "Two Pair")
    ensures Kpi.BestHands[7] == (Kpi.IsPair, "One Pair")
  {
  }

  /** The label of each flag column. */
  lemma TableEntries()
    ensures Label(Kpi.IsStraightFlush) == "Straight Flush" && Label(Kpi.IsQuads) == "Four of a Kind"
    ensures Label(Kpi.IsFullHouse) == "Full House" && Label(Kpi.IsFlush) == "Flush"
    ensures Label(Kpi.IsStraight) == "Straight" && Label(Kpi.IsTrips) == "Three of a Kind"
    ensures Label(Kpi.IsTwoPair) == "Two Pair" && Label(Kpi.IsPair) == "One Pair"
  {
    Kpi.BestHandsTable();
    TableShape();
  }

  /** The label is the table's label at the precedence index, "High Card" past its end. */
  lemma StrengthLabel(fl: Flags)
    ensures Strength(fl) == 9 ==> BestHandLabel(fl) == Kpi.HighCard
    ensures Strength(fl) < 9 ==> BestHandLabel(fl) == Kpi.BestHands[Strength(fl) - 1].1 != Kpi.HighCard
  {
    TableShape();
    TableEntries();
    var n := Strength(fl);
    if n < 9 {
      var e := Kpi.BestHands[n - 1];
      assert BestHandLabel(fl) == Label(e.0);
    }
  }

  /** The precedence index points at the first flag of the table that holds. */
  lemma StrengthFirstTrue(fl: Flags)
    ensures |Kpi.BestHands| == 8
    ensures Strength(fl) < 9 ==> Flag(fl, Kpi.BestHands[Strength(fl) - 1].0)
    ensures forall j :: 0 <= j < Strength(fl) - 1 ==> !Flag(fl, Kpi.BestHands[j].0)
  {
    TableShape();
  }

  /**
    The label is "High Card" exactly when no flag of the table holds, and otherwise the label of
    the first table entry whose flag holds.
   */
  lemma BestHandFirstTrue(fl: Flags)
    ensures BestHandLabel(fl) == Kpi.HighCard <==> forall j :: 0 <= j < |Kpi.BestHands| ==> !Flag(fl, Kpi.BestHands[j].0)
    ensures forall j :: (0 <= j < |Kpi.BestHands| && Flag(fl, Kpi.BestHands[j].0)
      && forall m :: 0 <= m < j ==> !Flag(fl, Kpi.BestHands[m].0)) ==> BestHandLabel(fl) == Kpi.BestHands[j].1
  {
    StrengthLabel(fl);
    StrengthFirstTrue(fl);
    var n := Strength(fl);
    forall j | 0 <= j < |Kpi.BestHands| && Flag(fl, Kpi.BestHands[j].0)
      && (forall m :: 0 <= m < j ==> !Flag(fl, Kpi.BestHands[m].0))
      ensures BestHandLabel(fl) == Kpi.BestHands[j].1
    {
      assert j == n - 1;
    }
  }

  /** The OR of two sets of flags is as strong as the stronger of the two. */
  lemma StrengthOr(a: Flags, b: Flags)
    ensures Strength(OrFlags(a, b)) == if Strength(a) <= Strength(b) then Strength(a) else Strength(b)
  {
  }

  /** Equally strong flags get the same label. */
  lemma StrengthDeterminesLabel(a: Flags, b: Flags)
    requires Strength(a) == Strength(b)
    ensures BestHandLabel(a) == BestHandLabel(b)
  {
    StrengthLabel(a);
    StrengthLabel(b);
  }

  /** The OR over a group is as strong as its strongest candidate. */
  lemma {:induction false} StrengthAny(group: seq<Analyzed>)
    requires |group| > 0
    ensures forall i :: 0 <= i < |group| ==> Strength(AnyFlags(group)) <= Strength(group[i].features.flags)
    ensures exists i :: 0 <= i < |group| && Strength(AnyFlags(group)) == Strength(group[i].features.flags)
    decreases |group|
  {
    var head := group[0].features.flags;
    if |group| == 1 {
      assert AnyFlags(group) == OrFlags(head, NoFlags);
      StrengthOr(head, NoFlags);
    } else {
      var rest := group[1..];
      StrengthAny(rest);
      StrengthOr(head, AnyFlags(rest));
      forall i | 0 <= i < |group| ensures Strength(AnyFlags(group)) <= Strength(group[i].features.flags) {
        if i > 0 {
          assert rest[i - 1] == group[i];
        }
      }
      var j :| 0 <= j < |rest| && Strength(AnyFlags(rest)) == Strength(rest[j].features.flags);
      assert rest[j] == group[j + 1];
    }
  }

  /**
    A collapsed row's label is the label of its strongest candidate: `assign_best_hand` on the
    OR of the flags agrees with taking the best per-candidate label.
   */
  lemma BestHandOfGroup(group: seq<Analyzed>)
    requires |group| > 0
    ensures exists i :: (0 <= i < |group|
      && BestHandLabel(CollapseGroup(group).flags) == BestHandLabel(group[i].features.flags)
      && (forall j :: 0 <= j < |group| ==> Strength(group[i].features.flags) <= Strength(group[j].features.flags)))
  {
    StrengthAny(group);
    var i :| 0 <= i < |group| && Strength(AnyFlags(group)) == Strength(group[i].features.flags);
    StrengthDeterminesLabel(AnyFlags(group), group[i].features.flags);
  }

  /**
    `assign_best_hand` keeps the rows in order and labels each with the first table entry whose
    flag holds for it, or "High Card" when none does.
   */
  lemma AssignBestHandRows(rows: seq<CollapsedRow>)
    ensures |AssignBestHand(rows)| == |rows|
    ensures forall i :: 0 <= i < |rows| ==> AssignBestHand(rows)[i].row == rows[i]
    ensures forall i :: 0 <= i < |rows| ==>
      (AssignBestHand(rows)[i].bestHand == Kpi.HighCard <==>
        forall j :: 0 <= j < |Kpi.BestHands| ==> !Flag(rows[i].flags, Kpi.BestHands[j].0))
    ensures forall i, j :: (0 <= i < |rows| && 0 <= j < |Kpi.BestHands| && Flag(rows[i].flags, Kpi.BestHands[j].0)
      && forall m :: 0 <= m < j ==> !Flag(rows[i].flags, Kpi.BestHands[m].0)) ==>
      AssignBestHand(rows)[i].bestHand == Kpi.BestHands[j].1
  {
    forall i | 0 <= i < |rows|
      ensures AssignBestHand(rows)[i].bestHand == Kpi.HighCard <==>
        forall j :: 0 <= j < |Kpi.BestHands| ==> !Flag(rows[i].flags, Kpi.BestHands[j].0)
      ensures forall j :: (0 <= j < |Kpi.BestHands| && Flag(rows[i].flags, Kpi.BestHands[j].0)
        && forall m :: 0 <= m < j ==> !Flag(rows[i].flags, Kpi.BestHands[m].0)) ==>
        AssignBestHand(rows)[i].bestHand == Kpi.BestHands[j].1
    {
      BestHandFirstTrue(rows[i].flags);
    }
  }

  // The whole file

  /** The `row_idx` values of a file's candidates are the lines that yield a candidate. */
  lemma ReadFileKeys(f: File, lines: seq<string>)
    ensures forall k: nat :: k in Keys(Analyze(ReadFile(f, lines))) <==> k < |lines| && |RowCandidates(f, k, lines[k])| > 0
  {
    var cs := ReadFile(f, lines);
    var rows := Analyze(cs);
    forall k: nat ensures k in Keys(rows) <==> k < |lines| && |RowCandidates(f, k, lines[k])| > 0 {
      if k in Keys(rows) {
        var n :| 0 <= n < |rows| && Keys(rows)[n] == k;
        assert cs[n] in cs;
        ReadFileMember(f, lines, cs[n]);
      }
      if k < |lines| && |RowCandidates(f, k, lines[k])| > 0 {
        var c := RowCandidates(f, k, lines[k])[0];
        assert c in RowCandidates(f, k, lines[k]);
        RowCandidatesIndex(f, k, lines[k], c);
        ReadFileMember(f, lines, c);
        var n :| 0 <= n < |cs| && cs[n] == c;
        assert Keys(rows)[n] == k;
      }
    }
  }

  /** A file yields one parsed row per line that has a candidate. */
  lemma ProcessFileRows(f: File, lines: seq<string>)
    ensures |ProcessFile(f, lines)| == |set k | 0 <= k < |lines| && |RowCandidates(f, k, lines[k])| > 0|
  {
    var rows := Analyze(ReadFile(f, lines));
    CollapseOnIndexRows(rows);
    ReadFileKeys(f, lines);
    assert Elements(Keys(rows)) == set k | 0 <= k < |lines| && |RowCandidates(f, k, lines[k])| > 0;
  }

  /**
    As written, the undeclared setting makes `read_input_files` raise for every non-empty list
    of files; with no file it returns `None`.
   */
  lemma ReadInputFilesAsWrittenFails(inputs: seq<(File, seq<string>)>)
    ensures |inputs| > 0 ==> ReadInputFilesAsWritten(inputs) == Err(AttributeError("SAVE_PARSED_AS_CSV"))
    ensures |inputs| == 0 ==> ReadInputFilesAsWritten(inputs) == Ok(None)
  {
    assert "SAVE_PARSED_AS_CSV" !in SettingsFields;
  }

  /** The stacked output holds exactly the rows of the files' outputs. */
  lemma ReadInputFilesMember(inputs: seq<(File, seq<string>)>, r: ParsedRow)
    requires |inputs| > 0
    ensures ReadInputFiles(inputs).Some?
    ensures r in ReadInputFiles(inputs).value <==> exists i :: 0 <= i < |inputs| && r in ProcessFile(inputs[i].0, inputs[i].1)
  {
    FlattenMember(FileOutputs(inputs), r);
    assert forall i :: 0 <= i < |inputs| ==> FileOutputs(inputs)[i] == ProcessFile(inputs[i].0, inputs[i].1);
  }
}
