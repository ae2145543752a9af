# poker_analyzer, modelled in Dafny

poker_analyzer reads poker range files and charts how the hands in them
are played. Each file is named after the board and the action taken
(`AhKd7c_call.txt`). Each line of a file holds `weight:holecards`.

The pipeline works in five steps:

1. Every unordered pair of a line's hole cards is crossed with every
   three-card subset of the board, giving five-card candidate hands.
2. Each candidate is classified into flush, straight, pair, two pair,
   trips, quads, full house and straight-flush flags, together with
   tie-break ranks.
3. The candidates of one line are collapsed back into one row: the flags
   are or-ed and the distinct tie-break ranks are collected.
4. Each row is labelled with its best hand.
5. `get_chart_data` runs a list of KPIs (named conjunctions of column
   requirements) over the rows. The rows a KPI matches are removed for
   the KPI that follows it. For each KPI the function records each
   action's share of the matched weight.

The project models each step as Dafny functions. The KPI loop is modelled
as a method.

| file | module | models |
|---|---|---|
| base.dfy | Base | Option/Result, counts, distinctness, flattening, first-appearance order |
| strings.dfy | Strings | `str.split`, `casefold` onto ASCII letters, substring search, lexicographic order, decimal rendering |
| card.dfy | Cards | `Suit`, `Rank`, `Card` and the 52-entry `CARDS` table |
| action.dfy | Actions | the `Action` enum |
| card_parser.dfy | CardParser | `parse_cards` |
| combinations.dfy | Combinatorics | `itertools.combinations` and binomial counts |
| file.dfy | FileModel | `File.__init__` (stem to board and action) and `File.combos` |
| kpi.dfy | Kpi | `InputColumn`, `KPIOperation`, `BEST_HANDS`, `KPIRequirement`, `KPI` |
| input_reader.dfy | InputReader | `generate_hands` and the row expansion of `read_file` |
| hand_analysis.dfy | HandAnalysis | `analyze_data` and `construct_poker_results` |
| collapse.dfy | Collapse | `collapse_on_index`, `assign_best_hand`, `read_input_files` |
| analyzer.dfy | Analyzer | `get_requirement_condition`, `apply_requirement`, `get_chart_data` |

Where the code and the documented intent differ, the model follows the
code:

- A-2-3-4-5 is not a straight. `ranks_reversed` is computed but never
  used (`HandAnalysis.ClassifyNoWheel`).
- `flush_rank` and `straight_rank` are the lowest rank of the hand.
- `pair_rank` is the lowest rank that occurs exactly twice.
- After a non-empty match, the pool becomes the base population minus
  that match. It is not the previous pool minus the match. Rows that an
  earlier KPI matched can therefore come back, and only consecutive KPIs
  are proved disjoint (`Analyzer.ConsecutiveDisjoint`). KPI buckets do
  not partition the population.
- A line may carry any number of hole cards. Every pair of them in
  increasing string order is used.

The polars operations are modelled as follows:

- **Row indices and group order.** `row_idx` is the line number. Groups
  are taken in order of first appearance.
- **Collapsed rank columns.** `filter(flag).unique()` becomes a set of
  optional ranks.
- **Filters.** A `filter` keeps only rows whose condition is true. A false
  or null condition drops the row.
- **Anti-join.** It compares whole rows. With the default `join_nulls`, a
  row whose weight is null never matches, so it is never removed from the
  pool.
- **Sums.** `sum` skips null weights.
- **Division by zero.** A Python `ZeroDivisionError` is the error result
  `ZeroDivision`. Requirements that polars or the code reject become
  `BadRequirement`:
  - a missing column;
  - `in` or `ni` on a column that is not a list or a string;
  - a value of the wrong type.

## Model

| member | source | states |
|---|---|---|
| Base.FirstAppearanceShape | src/analyzer.py:62 | the distinct-action list has no duplicates and holds exactly the actions that occur |
| Strings.ContainsOccurs | src/analyzer.py:30 | substring containment holds iff the pattern occurs at some position |
| Strings.SplitCount | src/models/File.py:11 | splitting on `_` gives one more part than there are separators |
| Strings.JoinSplit | src/models/File.py:11 | joining the parts of a split with the separator gives back the original stem |
| Strings.SplitJoin | src/models/File.py:11 | splitting a join of separator-free parts gives back the parts |
| Strings.CaseFoldIdempotent | src/models/File.py:13 | case-folding twice is the same as case-folding once |
| Strings.LexTrichotomy | src/input_reader.py:105 | string `<` on card codes is a strict total order (with LexIrreflexive, LexAsymmetric, LexTransitive) |
| Strings.LexTransitive | src/input_reader.py:105 | string `<` is transitive |
| Strings.NatToStringValue | src/analyzer.py:65 | the decimal text of `i` reads back as `i` |
| Cards.RankValues | src/models/Card.py:12-25 | the ranks TWO..ACE have the values 2..14 in increasing order, and every rank lies in 2..14 |
| Cards.SuitCodes | src/models/Card.py:5-9 | there are exactly four distinct suits with the distinct codes h, d, c, s |
| Cards.CardsSize | src/models/Card.py:41-94 | `CARDS` has 52 entries |
| Cards.CardsCover | src/models/Card.py:41-94 | every (rank, suit) pair has a `CARDS` entry keyed by its two-letter code |
| Cards.CardsEntry | src/models/Card.py:42-93 | every key is a rank letter and a suit code, and its card has that rank and suit and that key as `raw` |
| Cards.CardsTable | src/models/Card.py:34-38 | for every key, `raw` and `str` of its card equal the key; with CardsSize and CardsCover, the whole table |
| Cards.CodeInjective | src/models/Card.py:41-94 | different (rank, suit) pairs have different codes |
| Actions.Parse | src/models/Action.py:4-9 | a successful parse returns the action whose value is the text |
| Actions.ParseValue | src/models/Action.py:4-9 | every action parses back from its value |
| CardParser.ParseCards | src/card_parser.py:4-5 | the number of chunks is the length halved, rounded up |
| CardParser.ChunksConcat | src/card_parser.py:4-5 | concatenating the chunks gives back the input |
| CardParser.ChunkShape | src/card_parser.py:4-5 | chunk i is `cards[2i:2i+2]`, every chunk has length 2 except the last one of odd-length input, and empty input gives no chunks |
| CardParser.ParseConcatenated | src/card_parser.py:4-5 | chunking a concatenation of two-letter codes gives back those codes |
| FileModel.FromStemOk | src/models/File.py:11-13 | a stem is accepted iff it has exactly one `_` and its case-folded second part is an action; the cards then re-join to the first part; any other number of parts is an unpacking error |
| FileModel.FromStemRoundTrip | src/models/File.py:11-13 | the stem written from cards and an action parses back to the same file |
| FileModel.FromStemOfParts | src/models/File.py:11-13 | a board and an action part without `_` give the chunked board and the parsed, case-folded action |
| FileModel.FromStemExampleUpperCase | src/models/File.py:13 | `AhKd7c_CALL` gives the board Ah Kd 7c and the action call |
| FileModel.FromStemExampleTooManyParts | src/models/File.py:11 | `Ah_Kd7c_call` fails with three parts |
| FileModel.FromStemExampleNoAction | src/models/File.py:11 | `AhKd7c` fails with one part |
| FileModel.FromStemExampleLongS | src/models/File.py:13 | `AhKd7c_raiſe` gives a raise, because the long s folds to `s` |
| FileModel.FromStemExampleSizedBet | src/models/File.py:13 | `AhKd7c_bet1` fails because `bet1` is not an action |
| FileModel.CombosShape | src/models/File.py:18-20 | there are C(n,3) board triples, each with three cards taken in increasing position, and every such choice occurs |
| FileModel.CombosCounts | src/models/File.py:18-20 | boards of 3, 4 and 5 cards give 1, 4 and 10 triples |
| Kpi.ColumnOfName | src/models/InputColumn.py:4-25 | a successful lookup returns the column with that name |
| Kpi.ColumnOfNameInverse | src/models/InputColumn.py:4-25 | every column is found from its name |
| Kpi.OperationOfCode | src/models/KPI.py:7-15 | a successful lookup returns the operation with that code |
| Kpi.OperationCodes | src/models/KPI.py:7-15 | every operation is found from its code, and the codes are exactly eq, ne, gt, gte, lt, lte, in, ni |
| Kpi.Lookup | src/models/KPI.py:39-41 | the result is a table entry for the column, or "High Card" when the column is absent |
| Kpi.BestHandsTable | src/models/KPI.py:18-27 | `BEST_HANDS` has eight entries with distinct columns, and each column looks up its own label |
| Kpi.RequirementBestHandLabels | src/models/KPI.py:39-41 | `best_hand` gives the label of each of the eight flag columns and "High Card" for every other column |
| Kpi.RequirementStringFields | src/models/KPI.py:36-37 | the rendering splits into "column", the column name, the operation code and the value text |
| Kpi.RequirementStringExample | src/models/KPI.py:36-37 | two concrete renderings, e.g. `column is_pair eq True` |
| Combinatorics.Combinations | src/input_reader.py:41-42 | there are C(n,k) selections |
| Combinatorics.CombinationIndices | src/input_reader.py:41-42 | every selection has k items taken at strictly increasing positions |
| Combinatorics.SelectionIsCombination | src/input_reader.py:41-42 | every choice of strictly increasing positions is one of the selections |
| Combinatorics.CombinationsDistinct | src/input_reader.py:41-42 | from distinct items, no selection occurs twice |
| Combinatorics.BinomialTwo | src/input_reader.py:29 | C(n,2) = n(n-1)/2 |
| InputReader.GenerateHandsAt | src/input_reader.py:27-38 | there are C(h,2)·C(b,3) hands; hand i·C(b,3)+j is hole pair i followed by board triple j |
| InputReader.GenerateHandsMember | src/input_reader.py:27-38 | a hand is generated iff it is a hole pair followed by a board triple |
| InputReader.GenerateHandsLength | src/input_reader.py:27-38 | every generated hand has five cards |
| InputReader.SplitExactFields | src/input_reader.py:72-78 | the weight text is everything before the first `:`; the hole text is null iff there is no `:`, and otherwise it runs up to the next `:` |
| InputReader.ParseWeightDecimal | src/input_reader.py:79-82 | a decimal `i.f` casts to its value |
| InputReader.ParseWeightWhole | src/input_reader.py:79-82 | a digit string casts to its integer value |
| InputReader.ParseWeightNat | src/input_reader.py:79-82 | `n` and `-n` cast to n and -n |
| InputReader.ParseWeightNoDigit | src/input_reader.py:79-82 | text without digits casts to null |
| InputReader.ParseWeightExamples | src/input_reader.py:79-82 | `0.5` gives 0.5, `12` gives 12, `abc` gives null |
| InputReader.CardCodeInTable | src/input_reader.py:84-88 | a two-letter text matches `[2-9TJQKA][hdcs]` iff it is a key of `CARDS` |
| InputReader.ExtractedAreCodes | src/input_reader.py:84-88 | every extracted hole card is a card code |
| InputReader.ExtractConcatenated | src/input_reader.py:84-88 | extracting from a concatenation of codes gives back the codes in order |
| InputReader.ExtractSkips | src/input_reader.py:84-88 | leading text without rank letters is skipped |
| InputReader.HolePairsMember | src/input_reader.py:96-110 | a pair is produced iff both cards are hole cards of the row and the first is less than the second as a string |
| InputReader.HolePairsCount | src/input_reader.py:96-110 | distinct hole cards give C(n,2) pairs, i.e. every unordered pair once |
| InputReader.RowCandidatesAt | src/input_reader.py:115-131 | a row yields |triples|·|pairs| candidates; candidate i·|pairs|+j is pair j followed by triple i, with the row's index, the file's action and board, the cast weight and the hole cards |
| InputReader.RowCandidatesMember | src/input_reader.py:115-131 | a candidate belongs to a row iff the row has hole text and the candidate is one of those pair-plus-triple records |
| InputReader.RowCandidateHand | src/input_reader.py:129-131 | every candidate hand has five cards |
| InputReader.RowCandidatesIndex | src/input_reader.py:58-60 | every candidate carries its line's index |
| InputReader.ReadFileMember | src/input_reader.py:45-131 | a candidate is read from a file iff its index is a line of the file and it is one of that line's candidates |
| HandAnalysis.RankCharValue | src/input_reader.py:177-182 | a rank letter has a value in 2..14 |
| HandAnalysis.RankCharValueOfLetter | src/input_reader.py:177-182 | each rank letter maps to its rank's value (T=10, J=11, Q=12, K=13, A=14) |
| HandAnalysis.ClassifyWellFormed | src/input_reader.py:142-158 | for a hand of card codes, the extracted ranks and suits are those of its cards, in order |
| HandAnalysis.RanksInRange | src/input_reader.py:149-182 | every extracted rank lies in 2..14 |
| HandAnalysis.UniqueRanksShape | src/input_reader.py:199-203 | the unique ranks are strictly ascending and are exactly the ranks that occur |
| HandAnalysis.RankCountsSum | src/input_reader.py:208-214 | the rank counts add up to the number of cards |
| HandAnalysis.RankCountsPositive | src/input_reader.py:208-214 | every rank count is at least one |
| HandAnalysis.IndexOf | src/input_reader.py:320 | `index_of` returns the first position of the value |
| HandAnalysis.FlushIff | src/input_reader.py:219-246 | the flush flag holds iff there is at least one suit and all suits are equal |
| HandAnalysis.FlushSameSuit | src/input_reader.py:219-246 | for a hand of card codes, the flush flag holds iff every card has the first card's suit |
| HandAnalysis.StraightFlagIff | src/input_reader.py:251-256 | the straight test holds iff the ranks are five consecutive values, each once; the run then starts at the lowest rank |
| HandAnalysis.StraightIff | src/input_reader.py:251-265 | the straight flag holds iff the ranks are five consecutive values, and the straight-flush flag holds iff that is so and the hand is a flush |
| HandAnalysis.ClassifyNoWheel | src/input_reader.py:187-194 | A-2-3-4-5 is not a straight |
| HandAnalysis.CountFlagsIff | src/input_reader.py:270-309 | pair, trips and quads hold iff some rank occurs exactly 2, 3 and 4 times; two pair iff pair and three distinct ranks; full house iff trips and pair |
| HandAnalysis.FiveCardCounts | src/input_reader.py:270-309 | for five cards: quads excludes pair, full house holds iff the counts are 3 and 2, two pair holds iff two counts equal 2 |
| HandAnalysis.RankWithCountLowest | src/input_reader.py:314-326 | the rank picked for a count exists iff some rank has that count, and it is the lowest such rank |
| HandAnalysis.LowestRankMin | src/input_reader.py:343-351 | the lowest rank exists iff there is a rank, and it is the minimum |
| HandAnalysis.TieBreakRanks | src/input_reader.py:314-381 | each tie-break rank is present iff its flag holds; pair_rank and set_rank are the lowest ranks with count 2 and 3; full_house_pair_rank equals pair_rank; flush_rank is the minimum rank |
| HandAnalysis.StraightRankLowest | src/input_reader.py:356-364 | straight_rank is the start of the five-rank run |
| HandAnalysis.ClassifyFullHouse | src/input_reader.py:239-384 | t-t-t-p-p classifies as full house, trips and pair, set_rank t and both pair ranks p (a 9-9-9-6-6 hand gives 9 and 6) |
| HandAnalysis.ClassifyStraightFlush | src/input_reader.py:239-384 | a five-card suited run from lo classifies as straight flush with straight and flush ranks lo |
| Collapse.GroupOfMember | src/input_reader.py:387-388 | a group holds exactly the candidates with its row index |
| Collapse.AnyFlagsIff | src/input_reader.py:393-400 | a collapsed flag holds iff it holds for some candidate |
| Collapse.CollapseOnIndexRanks | src/input_reader.py:387-408 | each rank column of the row of an index holds exactly the tie-break values of that index's candidates whose governing flag holds (`is_pair`, `is_full_house`, `is_flush`, `is_straight`, `is_trips`) |
| Collapse.RankSetNonEmpty | src/input_reader.py:401-405 | a rank column is non-empty iff its governing flag holds after collapsing |
| Collapse.RankSetPresent | src/input_reader.py:401-405 | for classified candidates, a collapsed rank column holds no null |
| Collapse.ClassifyConsistent | src/input_reader.py:314-381 | a classified hand has every tie-break rank whose governing flag holds |
| Collapse.CollapseOnIndexRows | src/input_reader.py:387-408 | one row per distinct row index, each index once |
| Collapse.CollapseOnIndexRow | src/input_reader.py:387-400 | a collapsed row takes action, weight and cards from the first candidate with its index, and each flag is the OR over that index's candidates |
| Collapse.TableShape | src/models/KPI.py:18-27 | `BEST_HANDS` lists SF, quads, FH, flush, straight, trips, two pair, pair with their labels, in that order |
| Collapse.TableEntries | src/input_reader.py:411-432 | each branch of the chain uses the `BEST_HANDS` label of its flag |
| Collapse.StrengthLabel | src/models/InputColumn.py:23 | hand value 9 is "High Card", and value n < 9 is the label of the n-th `BEST_HANDS` entry |
| Collapse.StrengthFirstTrue | src/input_reader.py:411-432 | the hand value names the first flag that holds in precedence order, and no earlier flag holds |
| Collapse.BestHandFirstTrue | src/input_reader.py:411-432 | the label is "High Card" iff no `BEST_HANDS` flag holds, and otherwise the label of the first `BEST_HANDS` entry whose flag holds |
| Collapse.StrengthOr | src/input_reader.py:393-432 | the hand value of or-ed flags is the smaller of the two values |
| Collapse.StrengthAny | src/input_reader.py:393-432 | the collapsed hand value is the minimum over the candidates |
| Collapse.BestHandOfGroup | src/input_reader.py:411-432 | the collapsed row's label is the label of its strongest candidate |
| Collapse.AssignBestHandRows | src/input_reader.py:411-432 | rows keep their order; a row is labelled "High Card" iff none of its `BEST_HANDS` flags holds, and otherwise with the label of the first entry whose flag holds |
| Collapse.ReadFileKeys | src/input_reader.py:96-115 | the row indices that reach the collapse are exactly the lines with at least one candidate |
| Collapse.ProcessFileRows | src/input_reader.py:460-464 | a file gives one parsed row per line that yields a candidate |
| Collapse.ReadInputFilesMember | src/input_reader.py:456-479 | corrected: with at least one file the result exists, and a row is in it iff it is a row of one of the files |
| Collapse.ReadInputFilesAsWrittenFails | src/input_reader.py:471-479 | as written, every non-empty list of files ends in `AttributeError` on `SAVE_PARSED_AS_CSV`, which `Settings` (src/settings.py:12-24) does not declare; no file gives `None` |
| Analyzer.NotIncludesComplement | src/analyzer.py:26-39 | `ni` is accepted wherever `in` is, is true exactly where `in` is false, and is null exactly where `in` is null |
| Analyzer.FilterMaskIsMatching | src/analyzer.py:43-45 | filtering by the row conditions keeps exactly the matching rows, in order |
| Analyzer.ApplyRequirementMeaning | src/analyzer.py:13-45 | a rejected requirement fails with that rejection; otherwise the result is the rows that meet it |
| Analyzer.ApplyAllMeaning | src/analyzer.py:72-75 | the requirement loop succeeds iff every requirement is accepted, then keeps the rows meeting all of them; a failure is the first rejected requirement's error |
| Analyzer.MatchingMember | src/analyzer.py:43-45 | a row is kept iff it is an input row meeting every requirement; the result is no longer than the input |
| Analyzer.MatchingCompose | src/analyzer.py:72-75 | filtering by a, then by b, equals filtering by a followed by b |
| Analyzer.AcceptedConcat | src/analyzer.py:72-75 | a concatenation of requirements is accepted iff both parts are |
| Analyzer.MeetsAllConcat | src/analyzer.py:72-75 | a row meets a concatenation iff it meets both parts |
| Analyzer.MatchingEmpty | src/analyzer.py:72-75 | a KPI without requirements matches the whole pool |
| Analyzer.AcceptedSameRequirements | src/analyzer.py:72-75 | requirement lists with the same members are accepted alike |
| Analyzer.MeetsAllSameRequirements | src/analyzer.py:72-75 | a row meets requirement lists with the same members alike |
| Analyzer.MatchingSameRequirements | src/analyzer.py:72-75 | requirement lists with the same members match the same rows |
| Analyzer.RequirementOrder | src/analyzer.py:72-75 | the order of accepted requirements within a KPI does not change the result |
| Analyzer.FilterRequirements | src/analyzer.py:72-75 | the loop over requirements computes the conjunction filter or its first error |
| Analyzer.WeightsByAction | src/analyzer.py:84-86 | each action's entry is the summed weight of matched rows with that action |
| Analyzer.Shares | src/analyzer.py:88-96 | with a zero total and some action, division by zero; otherwise each action's percentage of the total, and the same entries for the bet actions only |
| Analyzer.Normalise | src/analyzer.py:98-104 | with a zero divisor and some key, division by zero; otherwise each listed entry divided and the others unchanged |
| Analyzer.ProcessMatched | src/analyzer.py:84-112 | shares, normalisation, re-keying and anti-join of a non-empty match give the specified step |
| Analyzer.ChartData | src/analyzer.py:53-117 | the KPI loop computes the specified charts or error |
| Analyzer.AntiJoinMember | src/analyzer.py:112 | a row stays iff it is a base row and not a matched row with a weight |
| Analyzer.MatchedFromPool | src/analyzer.py:72-75 | every matched row is a row of the current pool |
| Analyzer.StepPool | src/analyzer.py:77-112 | on an empty match the pool is unchanged and both charts get zeros under the plain name; otherwise the pool is the base minus the weighted matched rows |
| Analyzer.StepPoolWithin | src/analyzer.py:58 | every pool stays within the base population |
| Analyzer.ConsecutiveDisjoint | src/analyzer.py:112 | a weighted row matched by a KPI is not matched by the next KPI |
| Analyzer.DistinctActionsCover | src/analyzer.py:62 | the actions are distinct, cover every row and are all action values |
| Analyzer.SumActionWeightsTotal | src/analyzer.py:84-86 | over the distinct actions, the per-action weights add up to the total matched weight |
| Analyzer.SumOverPercentages | src/analyzer.py:90-98 | the percentages add up to 100 × summed weight / total |
| Analyzer.SumOverDivided | src/analyzer.py:98-104 | dividing every entry by d divides their sum by d |
| Analyzer.MatchedShares | src/analyzer.py:90-104 | `total_percentage` is 100 × matched weight / total; each normalised entry is the action's weight over the matched weight, and the entries sum to 1 |
| Analyzer.MatchedStepColumn | src/analyzer.py:88-107 | a successful step re-keys the general chart with the normalised column under the name and `total_percentage` |
| Analyzer.StepShares | src/analyzer.py:84-107 | after a non-empty match the general chart has a column keyed by the name and 100 × matched weight / total; its entries are the action shares of the matched weight, summing to 1 |
| Analyzer.RekeySteps | src/analyzer.py:106-110 | assigning the column, copying it to the annotated key and deleting the plain key equals one re-key |
| Analyzer.RekeyNames | src/analyzer.py:106-110 | re-keying adds the KPI's name to the chart's column names |
| Analyzer.StepColumnNames | src/analyzer.py:77-110 | each step adds its KPI's name to both charts |
| Analyzer.RunColumnNames | src/analyzer.py:68-112 | the loop adds exactly the KPI names to both charts |
| Analyzer.ChartColumns | src/analyzer.py:114-117 | the general chart's columns are the KPI names; the bet chart is returned iff there is a KPI, and then has the same columns |
| Analyzer.BetCandidateAt | src/analyzer.py:65 | the candidate list has 101 names, and entry i is `bet` followed by i |
| Analyzer.BetCandidatesDistinct | src/analyzer.py:65 | the candidate names are distinct |
| Analyzer.RestrictWithin | src/analyzer.py:63-66 | the filtered list holds exactly the candidates that occur among the actions |
| Analyzer.RestrictDistinct | src/analyzer.py:63-66 | filtering distinct candidates keeps them distinct |
| Analyzer.SizedBetNotAction | src/models/Action.py:4-9 | no action's value is `bet` followed by a number |
| Analyzer.BetActionsOnlyBet | src/analyzer.py:63-66 | over action values, the bet actions are `["bet"]` when bet occurs and empty otherwise |
| Analyzer.BaseBetActions | src/analyzer.py:62-66 | the bet actions are `["bet"]` iff some row's action is bet |
| Analyzer.StepBetZeroDivision | src/analyzer.py:95-104 | with bet among the actions, a KPI whose matched rows carry no bet weight fails with division by zero |
| Analyzer.StepBetShare | src/analyzer.py:102-110 | when bet occurs, a non-empty match gives a bet column mapping bet to 1 |
| Analyzer.SizedBetsAsWrittenFails | src/analyzer.py:65 | as written, building the sized bet names fails at `Action("bet1")` |
| Analyzer.GetChartDataAsWrittenFails | src/analyzer.py:63-66 | as written, `get_chart_data` fails with the invalid action `bet1` for every loaded population |

## Left out

- File and directory I/O: CSV reading, parquet and CSV writing, `os.rename` in `mark_as_processed`, `save_to_csv`, timing and logging. Files arrive as a stem plus a sequence of lines. A line of the model is the first CSV field (`column_1`) of a line of the file, which is all `read_file` parses; text after a comma is not part of it.
- The `Path.stem` computation and the directory scan of `read_input_files`. Its file-name filter (`INPUT_FILE_REGEX` in src/settings.py) is configuration: the caller supplies the accepted files.
- The parquet branch of `get_chart_data` (src/analyzer.py:49-52). The population is passed in as an optional sequence of rows, and a missing population is the `NoInput` error.
- The settings YAML and the KPI list in `SETTINGS.KPIS` are passed in as a parameter.
- The plotter, the CLI in `main.py`, the logger and the tests are not part of this model.
- Floating point: weights are `real`, not `Float32`. Rounding, infinities and NaN are not modelled. Weight text is cast as an optional sign, digits and an optional fraction. Exponent forms and `inf`/`nan` text are not modelled and cast to null.
- Display formatting: the annotated chart key keeps the exact `total_percentage` as a `real`. The `"\n{:.2f}%"` text is not produced, so two keys that collide only after rounding stay distinct.
- Dict and frame row order: charts are maps. The order of `unique()` and of `group_by` groups is modelled as first appearance, which polars does not guarantee. Collapsed rank lists are sets because `unique().reverse()` has no specified order.
- `str.contains` is a regular-expression search. It is modelled as a plain substring test.
- Requirement values: float values are not modelled. Comparisons between bool, int and string kinds are rejected as `IncompatibleValue` instead of following polars casting. A `None` requirement value compares as null, so the filter drops every row.
- `best_hand_value`, `draw_straight_outs` and `draw_flush_rank`: no shown code computes them, so a requirement on them is rejected as a missing column.
- InputReader.ReadFile: for a board of fewer than three cards the model yields no candidate, so the line's rows are dropped, where polars' `explode` of the empty combination list gives a null row. The source's file filter `INPUT_FILE_REGEX` (src/settings.py:23) admits only boards of three to five cards, so such a board does not reach `read_file`.
- Collapse.CollapseOnIndex: fixes the group order to first appearance, where polars only promises some order.
- Collapse.ReadInputFilesMember: states which rows are in the stacked output, not the order that `vstack` gives them in; the function itself concatenates in file order.
- Strings.CaseFold: folds only the characters that `str.casefold` sends to ASCII letters (A to Z, U+017F and U+212A). Other Unicode folds, such as `ß` to `ss`, are not modelled; none of them yields an action name.
- Analyzer.GetChartData: keeps the division by zero at src/analyzer.py:104 when the matched rows of a KPI carry no bet weight while bet is an action (Analyzer.StepBetZeroDivision). The code gives no hint of the intended bet column in that case, so the model follows the code.
- Concurrency (`POLARS_MAX_THREADS`) is irrelevant to the results and is not modelled.

## Findings

| source | as written | input that shows it | evidently intended | confidence | as-written member | corrected member |
|---|---|---|---|---|---|---|
| src/analyzer.py:65 | `Action(f"bet{i}")` for i in 1..100 raises `ValueError`, because `Action` (src/models/Action.py:4-9) has only call, fold, raise, check and bet; `get_chart_data` fails for every population it loads | any population, e.g. one row whose action is call | the candidate names `bet`, `bet1` … `bet100` kept as plain strings, filtered by the actions present | not executed | Analyzer.GetChartDataAsWrittenFails | Analyzer.BaseBetActions |
| src/input_reader.py:476 | `SETTINGS.SAVE_PARSED_AS_CSV` names no field of `Settings` (src/settings.py:12-24), so the pydantic model raises `AttributeError` right after `write_parquet`, and `read_input_files` never returns its output | any non-empty list of input files | the stacked output returned, with the CSV copy controlled by a declared setting | not executed | Collapse.ReadInputFilesAsWrittenFails | Collapse.ReadInputFilesMember |
