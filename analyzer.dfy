/**
  The analysis of the parsed rows: KPI requirements as row filters, and the chart loop that
  gives every KPI its share of each action's weight.
 */
module Analyzer {
  import opened Base
  import opened Strings
  import opened Actions
  import Kpi
  import opened HandAnalysis
  import opened Collapse

  // Cells

  /** The dtype of a column of the parsed data. */
  datatype Kind = BoolKind | FloatKind | StringKind | StringListKind | IntListKind

  /** A cell of the parsed data. */
  datatype Cell =
    | BoolCell(b: bool)
    | FloatCell(x: Option<real>)
    | StringCell(s: string)
    | StringListCell(items: seq<string>)
    | IntListCell(values: set<Option<int>>)

  function KindOfCell(cell: Cell): Kind {
    match cell
    case BoolCell(_) => BoolKind
    case FloatCell(_) => FloatKind
    case StringCell(_) => StringKind
    case StringListCell(_) => StringListKind
    case IntListCell(_) => IntListKind
  }

  /** The dtype of each column the parsed data has; `None` for the columns it lacks. */
  function KindOf(c: Kpi.Column): Option<Kind> {
    match c
    case Action | BestHand => Some(StringKind)
    case Weight => Some(FloatKind)
    case CommunityCards | HoleCards => Some(StringListKind)
    case IsFlush | IsStraight | IsStraightFlush | IsPair | IsTwoPair | IsTrips | IsQuads | IsFullHouse =>
      Some(BoolKind)
    case PairRank | FullHousePairRank | FlushRank | StraightRank | SetRank => Some(IntListKind)
    case BestHandValue | DrawStraightOuts | DrawFlushRank => None
  }

  /** The cell of a row in a column the data has; it has the column's dtype. */
  function CellOf(r: ParsedRow, c: Kpi.Column): (cell: Cell)
    requires KindOf(c).Some?
    ensures KindOfCell(cell) == KindOf(c).value
  {
    match c
    case Action => StringCell(Value(r.row.action))
    case BestHand => StringCell(r.bestHand)
    case Weight => FloatCell(r.row.weight)
    case CommunityCards => StringListCell(r.row.communityCards)
    case HoleCards => StringListCell(r.row.holeCards)
    case PairRank => IntListCell(r.row.pairRanks)
    case FullHousePairRank => IntListCell(r.row.fullHousePairRanks)
    case FlushRank => IntListCell(r.row.flushRanks)
    case StraightRank => IntListCell(r.row.straightRanks)
    case SetRank => IntListCell(r.row.setRanks)
    case _ => BoolCell(Flag(r.row.flags, c))
  }

  // Requirements

  /** Why a requirement cannot be evaluated on the parsed data. */
  datatype RequirementError =
    | ColumnNotFound(column: Kpi.Column)
    | NotListOrString(column: Kpi.Column)
    | IncompatibleValue(column: Kpi.Column)

  predicate IsInclusion(op: Kpi.Operation) {
    op == Kpi.Includes || op == Kpi.NotIncludes
  }

  /** A comparison operator applies to a missing value, or to a value of the column's own type. */
  predicate CompareApplies(k: Kind, v: Kpi.Value) {
    v.VNone? || (k == BoolKind && v.VBool?) || (k == FloatKind && v.VInt?) || (k == StringKind && v.VStr?)
  }

  /** Containment applies to a missing value, to text in text, and to an element of a list. */
  predicate ContainsApplies(k: Kind, v: Kpi.Value) {
    v.VNone? || (k == StringKind && v.VStr?) || (k == StringListKind && v.VStr?) || (k == IntListKind && v.VInt?)
  }

  /**
    The errors `get_requirement_condition` raises, which depend on the requirement and the
    dtypes alone: a missing column, containment on a column that is neither a list nor text,
    a value the column's dtype cannot be compared with.
   */
  function Rejection(req: Kpi.Requirement): Option<RequirementError> {
    match KindOf(req.column)
    case None => Some(ColumnNotFound(req.column))
    case Some(k) =>
      if IsInclusion(req.operation) then
        if k !in {StringKind, StringListKind, IntListKind} then Some(NotListOrString(req.column))
        else if ContainsApplies(k, req.value) then None
        else Some(IncompatibleValue(req.column))
      else if CompareApplies(k, req.value) then None
      else Some(IncompatibleValue(req.column))
  }

  /** The outcome of a comparison operator, given whether the cell is below or equal to the value. */
  function Order(op: Kpi.Operation, below: bool, equal: bool): bool {
    match op
    case Equals => equal
    case NotEquals => !equal
    case GreaterThan => !below && !equal
    case GreaterThanOrEquals => !below
    case LessThan => below
    case LessThanOrEquals => below || equal
    case _ => false
  }

  /** A comparison on one cell; `None` is a null result. */
  function CompareCell(op: Kpi.Operation, cell: Cell, v: Kpi.Value): Option<bool> {
    match (cell, v)
    case (BoolCell(b), VBool(w)) => Some(Order(op, !b && w, b == w))
    case (FloatCell(Some(x)), VInt(i)) => Some(Order(op, x < i as real, x == i as real))
    case (StringCell(s), VStr(t)) => Some(Order(op, LexLess(s, t), s == t))
    case _ => None
  }

  /** `list.contains` on a list cell and `str.contains` on a text cell; `None` is a null result. */
  function ContainsCell(cell: Cell, v: Kpi.Value): Option<bool> {
    match (cell, v)
    case (StringCell(s), VStr(t)) => Some(Contains(s, t))
    case (StringListCell(items), VStr(t)) => Some(t in items)
    case (IntListCell(values), VInt(i)) => Some(Some(i) in values)
    case _ => None
  }

  function Negate(b: Option<bool>): Option<bool> {
    if b.Some? then Some(!b.value) else None
  }

  /** The requirement's condition on one row. */
  function RowCondition(r: ParsedRow, req: Kpi.Requirement): Option<bool>
    requires KindOf(req.column).Some?
  {
    var cell := CellOf(r, req.column);
    if req.operation == Kpi.Includes then ContainsCell(cell, req.value)
    else if req.operation == Kpi.NotIncludes then Negate(ContainsCell(cell, req.value))
    else CompareCell(req.operation, cell, req.value)
  }

  /** `get_requirement_condition`: the boolean mask of a requirement, or the error it raises. */
  function GetRequirementCondition(rows: seq<ParsedRow>, req: Kpi.Requirement): Result<seq<Option<bool>>, RequirementError> {
    match Rejection(req)
    case Some(e) => Err(e)
    case None => Ok(seq(|rows|, i requires 0 <= i < |rows| => RowCondition(rows[i], req)))
  }

  /** `filter`: the rows whose mask entry is true; false and null both drop the row. */
  function FilterMask(rows: seq<ParsedRow>, mask: seq<Option<bool>>): seq<ParsedRow>
    requires |mask| == |rows|
    decreases |rows|
  {
    if |rows| == 0 then []
    else if mask[0] == Some(true) then [rows[0]] + FilterMask(rows[1..], mask[1..])
    else FilterMask(rows[1..], mask[1..])
  }

  /** `apply_requirement`. */
  function ApplyRequirement(rows: seq<ParsedRow>, req: Kpi.Requirement): Result<seq<ParsedRow>, RequirementError> {
    match GetRequirementCondition(rows, req)
    case Err(e) => Err(e)
    case Ok(mask) => Ok(FilterMask(rows, mask))
  }

  /** The requirements of a KPI applied one after the other. */
  function ApplyAll(rows: seq<ParsedRow>, reqs: seq<Kpi.Requirement>): Result<seq<ParsedRow>, RequirementError>
    decreases |reqs|
  {
    if |reqs| == 0 then Ok(rows)
    else match ApplyRequirement(rows, reqs[0])
      case Err(e) => Err(e)
      case Ok(next) => ApplyAll(next, reqs[1..])
  }

  /** Every requirement can be evaluated. */
  predicate Accepted(reqs: seq<Kpi.Requirement>) {
    forall i :: 0 <= i < |reqs| ==> Rejection(reqs[i]).None?
  }

  /** The row satisfies every requirement: the reference meaning of a KPI. */
  predicate MeetsAll(r: ParsedRow, reqs: seq<Kpi.Requirement>)
    requires Accepted(reqs)
  {
    forall i :: 0 <= i < |reqs| ==> RowCondition(r, reqs[i]) == Some(true)
  }

  /** The rows that satisfy every requirement, in order. */
  function Matching(rows: seq<ParsedRow>, reqs: seq<Kpi.Requirement>): seq<ParsedRow>
    requires Accepted(reqs)
    decreases |rows|
  {
    if |rows| == 0 then []
    else if MeetsAll(rows[0], reqs) then [rows[0]] + Matching(rows[1..], reqs)
    else Matching(rows[1..], reqs)
  }

  // The chart loop

  /** A chart column: a KPI's name, later annotated with its total percentage. */
  datatype ChartKey = Plain(name: string) | Annotated(name: string, percentage: real)

  /** A chart: one column per KPI, holding a share per action. */
  type Chart = map<ChartKey, map<string, real>>

  /** What the loop carries from one KPI to the next. */
  datatype LoopState = LoopState(pool: seq<ParsedRow>, general: Chart, bet: Chart)

  /** The bar chart, and the line chart of bet actions unless it has no column. */
  datatype Charts = Charts(general: Chart, bet: Option<Chart>)

  datatype AnalyzerError =
    | NoInput
    | InvalidAction(text: string)
    | BadRequirement(error: RequirementError)
    | ZeroDivision

  /** The action column's values. */
  function ActionNames(rows: seq<ParsedRow>): seq<string> {
    seq(|rows|, i requires 0 <= i < |rows| => Value(rows[i].row.action))
  }

  /** `dataframe["action"].unique().to_list()`, in order of first appearance. */
  function DistinctActions(rows: seq<ParsedRow>): seq<string> {
    FirstAppearance(ActionNames(rows))
  }

  /** A row's weight, with a null counting as nothing. */
  function RowWeight(r: ParsedRow): real {
    if r.row.weight.Some? then r.row.weight.value else 0.0
  }

  /** The non-null weights summed, as `["weight"].sum()` does. */
  function WeightSum(rows: seq<ParsedRow>): real
    decreases |rows|
  {
    if |rows| == 0 then 0.0 else RowWeight(rows[0]) + WeightSum(rows[1..])
  }

  /** The rows of one action, in order. */
  function OfAction(rows: seq<ParsedRow>, a: string): seq<ParsedRow>
    decreases |rows|
  {
    if |rows| == 0 then []
    else if Value(rows[0].row.action) == a then [rows[0]] + OfAction(rows[1..], a)
    else OfAction(rows[1..], a)
  }

  /** `dataframe.filter(dataframe["action"] == action)["weight"].sum()`. */
  function ActionWeight(rows: seq<ParsedRow>, a: string): real {
    WeightSum(OfAction(rows, a))
  }

  /** The sum of a map's values over some of its keys. */
  function SumOver(m: map<string, real>, keys: seq<string>): real
    requires forall k :: k in keys ==> k in m
    decreases |keys|
  {
    if |keys| == 0 then 0.0 else SumOver(m, keys[..|keys| - 1]) + m[keys[|keys| - 1]]
  }

  /** The elements of `xs` that are in `ys`, in the order of `xs`. */
  function Restrict(xs: seq<string>, ys: seq<string>): seq<string>
    decreases |xs|
  {
    if |xs| == 0 then []
    else if xs[0] in ys then [xs[0]] + Restrict(xs[1..], ys)
    else Restrict(xs[1..], ys)
  }

  /** The bet action names the loop offers: "bet", then "bet1" to "bet100". */
  function BetCandidates(): seq<string> {
    ["bet"] + seq(100, i requires 0 <= i < 100 => "bet" + NatToString(i + 1))
  }

  /** `bet_actions`, built from the names of the sized bets. */
  function BetActions(actions: seq<string>): seq<string> {
    Restrict(BetCandidates(), actions)
  }

  /** The list of sized bets as written: `Action(f"bet{i}")` for `i` from `from` to 100. */
  function SizedBetsAsWritten(from: nat): Result<seq<string>, AnalyzerError>
    decreases 101 - from
  {
    if from > 100 then Ok([])
    else match Parse("bet" + NatToString(from))
      case None => Err(InvalidAction("bet" + NatToString(from)))
      case Some(a) =>
        match SizedBetsAsWritten(from + 1)
        case Err(e) => Err(e)
        case Ok(rest) => Ok([Value(a)] + rest)
  }

  /** `bet_actions` as written, constructing an action from each sized bet name. */
  function BetActionsAsWritten(actions: seq<string>): Result<seq<string>, AnalyzerError> {
    match SizedBetsAsWritten(1)
    case Err(e) => Err(e)
    case Ok(sized) => Ok(Restrict([Value(Bet)] + sized, actions))
  }

  function Zeros(keys: seq<string>): map<string, real> {
    map a | a in keys :: 0.0
  }

  /** Each action's weight among `rows` as a percentage of `total`. */
  function Percentages(rows: seq<ParsedRow>, names: seq<string>, total: real): map<string, real>
    requires |names| > 0 ==> total != 0.0
  {
    map a | a in names :: ActionWeight(rows, a) / total * 100.0
  }

  /** The map with the entries of `keys` divided by `t`. */
  function Normalised(m: map<string, real>, keys: seq<string>, t: real): map<string, real>
    requires |keys| > 0 ==> t != 0.0
  {
    map a | a in m :: if a in keys then m[a] / t else m[a]
  }

  /** The entries of `m` whose keys are in `keys`. */
  function Only(m: map<string, real>, keys: seq<string>): map<string, real> {
    map a | a in m && a in keys :: m[a]
  }

  /** A column moved from its plain key to its annotated key. */
  function Rekey(chart: Chart, name: string, t: real, column: map<string, real>): Chart {
    chart[Annotated(name, t) := column] - {Plain(name)}
  }

  /** The rows of `base` not in `matched`; a row with a null weight equals no row. */
  function AntiJoin(base: seq<ParsedRow>, matched: seq<ParsedRow>): seq<ParsedRow>
    decreases |base|
  {
    if |base| == 0 then []
    else if base[0].row.weight.Some? && base[0] in matched then AntiJoin(base[1..], matched)
    else [base[0]] + AntiJoin(base[1..], matched)
  }

  /** The columns a KPI gets from its non-empty matched rows, and the pool left for the next KPI. */
  function MatchedStep(base: seq<ParsedRow>, names: seq<string>, betNames: seq<string>, total: real,
                       st: LoopState, name: string, matched: seq<ParsedRow>): Result<LoopState, AnalyzerError>
  {
    if |names| > 0 && total == 0.0 then Err(ZeroDivision)
    else
      var pct := Percentages(matched, names, total);
      var betPct := Only(pct, betNames);
      var t := SumOver(pct, names);
      if |names| > 0 && t == 0.0 then Err(ZeroDivision)
      else
        RestrictWithin(names, betNames);
        var bt := SumOver(betPct, Restrict(names, betNames));
        if |betNames| > 0 && bt == 0.0 then Err(ZeroDivision)
        else
          Ok(LoopState(AntiJoin(base, matched),
            Rekey(st.general, name, t, Normalised(pct, names, t)),
            Rekey(st.bet, name, bt, Normalised(betPct, betNames, bt))))
  }

  /** One pass of the KPI loop. */
  function KpiStep(base: seq<ParsedRow>, names: seq<string>, betNames: seq<string>, total: real,
                   st: LoopState, kpi: Kpi.KPI): Result<LoopState, AnalyzerError>
  {
    match ApplyAll(st.pool, kpi.requirements)
    case Err(e) => Err(BadRequirement(e))
    case Ok(matched) =>
      if |matched| == 0 then
        Ok(LoopState(st.pool, st.general[Plain(kpi.displayName) := Zeros(names)],
          st.bet[Plain(kpi.displayName) := Zeros(betNames)]))
      else MatchedStep(base, names, betNames, total, st, kpi.displayName, matched)
  }

  /** The KPI loop over the remaining KPIs. */
  function RunFrom(base: seq<ParsedRow>, names: seq<string>, betNames: seq<string>, total: real,
                   st: LoopState, kpis: seq<Kpi.KPI>): Result<LoopState, AnalyzerError>
    decreases |kpis|
  {
    if |kpis| == 0 then Ok(st)
    else match KpiStep(base, names, betNames, total, st, kpis[0])
      case Err(e) => Err(e)
      case Ok(next) => RunFrom(base, names, betNames, total, next, kpis[1..])
  }

  function Finish(st: LoopState): Charts {
    Charts(st.general, if |st.bet| > 0 then Some(st.bet) else None)
  }

  /** `get_chart_data` with the bet actions taken by name. */
  function GetChartData(input: Option<seq<ParsedRow>>, kpis: seq<Kpi.KPI>): Result<Charts, AnalyzerError> {
    if input.None? then Err(NoInput)
    else
      var base := input.value;
      var names := DistinctActions(base);
      match RunFrom(base, names, BetActions(names), WeightSum(base), LoopState(base, map[], map[]), kpis)
      case Err(e) => Err(e)
      case Ok(st) => Ok(Finish(st))
  }

  /** `get_chart_data` as written, whose bet actions are built by the action constructor. */
  function GetChartDataAsWritten(input: Option<seq<ParsedRow>>, kpis: seq<Kpi.KPI>): Result<Charts, AnalyzerError> {
    if input.None? then Err(NoInput)
    else
      var base := input.value;
      var names := DistinctActions(base);
      match BetActionsAsWritten(names)
      case Err(e) => Err(e)
      case Ok(betNames) =>
        match RunFrom(base, names, betNames, WeightSum(base), LoopState(base, map[], map[]), kpis)
        case Err(e) => Err(e)
        case Ok(st) => Ok(Finish(st))
  }

  // The imperative loop

  /** The requirement loop of one KPI. */
  method FilterRequirements(pool: seq<ParsedRow>, reqs: seq<Kpi.Requirement>) returns (r: Result<seq<ParsedRow>, RequirementError>)
    ensures r == ApplyAll(pool, reqs)
  {
    var rows := pool;
    var j := 0;
    while j < |reqs|
      invariant 0 <= j <= |reqs|
      invariant ApplyAll(pool, reqs) == ApplyAll(rows, reqs[j..])
    {
      assert reqs[j..][0] == reqs[j] && reqs[j..][1..] == reqs[j + 1..];
      var step := ApplyRequirement(rows, reqs[j]);
      if step.Err? {
        return Err(step.error);
      }
      rows := step.value;
      j := j + 1;
    }
    assert reqs[j..] == [];
    return Ok(rows);
  }

  /** The weight of each action among the matched rows. */
  method WeightsByAction(rows: seq<ParsedRow>, names: seq<string>) returns (w: map<string, real>)
    ensures w == map a | a in names :: ActionWeight(rows, a)
  {
    w := map[];
    var i := 0;
    while i < |names|
      invariant 0 <= i <= |names|
      invariant w == map a | a in names[..i] :: ActionWeight(rows, a)
    {
      assert names[..i + 1] == names[..i] + [names[i]];
      w := w[names[i] := ActionWeight(rows, names[i])];
      i := i + 1;
    }
    assert names[..i] == names;
  }

  /** The percentage of every action, and of the bet actions apart. */
  method Shares(w: map<string, real>, names: seq<string>, betNames: seq<string>, total: real)
    returns (r: Result<(map<string, real>, map<string, real>), AnalyzerError>)
    requires forall a :: a in names ==> a in w
    ensures |names| > 0 && total == 0.0 ==> r == Err(ZeroDivision)
    ensures !(|names| > 0 && total == 0.0) ==>
      r == Ok((map a | a in names :: w[a] / total * 100.0,
               map a | a in names && a in betNames :: w[a] / total * 100.0))
  {
    var general: map<string, real> := map[];
    var bet: map<string, real> := map[];
    var i := 0;
    while i < |names|
      invariant 0 <= i <= |names|
      invariant i > 0 ==> total != 0.0
      invariant general == map a | a in names[..i] :: w[a] / total * 100.0
      invariant bet == map a | a in names[..i] && a in betNames :: w[a] / total * 100.0
    {
      if total == 0.0 {
        return Err(ZeroDivision);
      }
      assert names[..i + 1] == names[..i] + [names[i]];
      var percentage := w[names[i]] / total * 100.0;
      general := general[names[i] := percentage];
      if names[i] in betNames {
        bet := bet[names[i] := percentage];
      }
      i := i + 1;
    }
    assert names[..i] == names;
    return Ok((general, bet));
  }

  /** Divides the entries of `keys` by `t`, one key at a time. */
  method Normalise(m: map<string, real>, keys: seq<string>, t: real) returns (r: Result<map<string, real>, AnalyzerError>)
    requires Distinct(keys) && forall k :: k in keys ==> k in m
    ensures |keys| > 0 && t == 0.0 ==> r == Err(ZeroDivision)
    ensures !(|keys| > 0 && t == 0.0) ==> r == Ok(Normalised(m, keys, t))
  {
    var out := m;
    var i := 0;
    while i < |keys|
      invariant 0 <= i <= |keys|
      invariant i > 0 ==> t != 0.0
      invariant out.Keys == m.Keys
      invariant forall a :: a in m ==> out[a] == if a in keys[..i] then m[a] / t else m[a]
    {
      if t == 0.0 {
        return Err(ZeroDivision);
      }
      assert keys[..i + 1] == keys[..i] + [keys[i]];
      assert keys[i] !in keys[..i];
      out := out[keys[i] := out[keys[i]] / t];
      i := i + 1;
    }
    assert keys[..i] == keys;
    assert out == Normalised(m, keys, t);
    return Ok(out);
  }

  /** Lines 84 to 112 of one pass: shares, normalisation, re-keying and the anti-join. */
  method ProcessMatched(base: seq<ParsedRow>, names: seq<string>, betNames: seq<string>, total: real,
                        pool: seq<ParsedRow>, general: Chart, bet: Chart, name: string, rows: seq<ParsedRow>)
    returns (r: Result<LoopState, AnalyzerError>)
    requires Distinct(names) && Distinct(betNames)
    requires forall a :: a in betNames ==> a in names
    ensures r == MatchedStep(base, names, betNames, total, LoopState(pool, general, bet), name, rows)
  {
    var weights := WeightsByAction(rows, names);
    var shares := Shares(weights, names, betNames, total);
    if shares.Err? {
      return Err(shares.error);
    }
    var (pct, betPct) := shares.value;
    SharesOfWeights(rows, names, betNames, total, weights);
    var t := SumOver(pct, names);
    var normal := Normalise(pct, names, t);
    if normal.Err? {
      return Err(normal.error);
    }
    RestrictWithin(names, betNames);
    var bt := SumOver(betPct, Restrict(names, betNames));
    var betNormal := Normalise(betPct, betNames, bt);
    if betNormal.Err? {
      return Err(betNormal.error);
    }
    var g, b := general, bet;
    g := g[Plain(name) := normal.value];
    g := g[Annotated(name, t) := g[Plain(name)]];
    g := g - {Plain(name)};
    b := b[Plain(name) := betNormal.value];
    b := b[Annotated(name, bt) := b[Plain(name)]];
    b := b - {Plain(name)};
    RekeySteps(general, name, t, normal.value);
    RekeySteps(bet, name, bt, betNormal.value);
    return Ok(LoopState(AntiJoin(base, rows), g, b));
  }

  /** `get_chart_data`: the KPI loop over a pool of rows, proved against `GetChartData`. */
  method ChartData(input: Option<seq<ParsedRow>>, kpis: seq<Kpi.KPI>) returns (r: Result<Charts, AnalyzerError>)
    ensures r == GetChartData(input, kpis)
  {
    if input.None? {
      return Err(NoInput);
    }
    var base := input.value;
    var names := DistinctActions(base);
    var betNames := BetActions(names);
    var total := WeightSum(base);
    FirstAppearanceShape(ActionNames(base));
    RestrictWithin(BetCandidates(), names);
    BetCandidatesDistinct();
    RestrictDistinct(BetCandidates(), names);
    ghost var init := LoopState(base, map[], map[]);
    var pool := base;
    var general: Chart := map[];
    var bet: Chart := map[];
    var k := 0;
    while k < |kpis|
      invariant 0 <= k <= |kpis|
      invariant RunFrom(base, names, betNames, total, init, kpis) ==
        RunFrom(base, names, betNames, total, LoopState(pool, general, bet), kpis[k..])
    {
      ghost var st := LoopState(pool, general, bet);
      assert kpis[k..][0] == kpis[k] && kpis[k..][1..] == kpis[k + 1..];
      var kpi := kpis[k];
      var start := pool;
      var filtered := FilterRequirements(pool, kpi.requirements);
      if filtered.Err? {
        return Err(BadRequirement(filtered.error));
      }
      var rows := filtered.value;
      if |rows| == 0 {
        general := general[Plain(kpi.displayName) := Zeros(names)];
        bet := bet[Plain(kpi.displayName) := Zeros(betNames)];
        pool := start;
      } else {
        var next := ProcessMatched(base, names, betNames, total, pool, general, bet, kpi.displayName, rows);
        if next.Err? {
          return Err(next.error);
        }
        pool, general, bet := next.value.pool, next.value.general, next.value.bet;
      }
      k := k + 1;
    }
    assert kpis[k..] == [];
    return Ok(Finish(LoopState(pool, general, bet)));
  }

  // Requirements as filters

  /** `filter` keeps exactly the rows whose condition is true, in order. */
  lemma {:induction false} FilterMaskIsMatching(rows: seq<ParsedRow>, req: Kpi.Requirement)
    requires Rejection(req).None?
    ensures Accepted([req])
    ensures FilterMask(rows, seq(|rows|, i requires 0 <= i < |rows| => RowCondition(rows[i], req))) == Matching(rows, [req])
    decreases |rows|
  {
    var mask := seq(|rows|, i requires 0 <= i < |rows| => RowCondition(rows[i], req));
    if |rows| > 0 {
      FilterMaskIsMatching(rows[1..], req);
      assert mask[1..] == seq(|rows[1..]|, i requires 0 <= i < |rows[1..]| => RowCondition(rows[1..][i], req));
      MeetsSingle(rows[0], req);
    }
  }

  /** Meeting a one-requirement list is meeting that requirement. */
  lemma MeetsSingle(r: ParsedRow, req: Kpi.Requirement)
    requires Rejection(req).None?
    ensures Accepted([req])
    ensures MeetsAll(r, [req]) <==> RowCondition(r, req) == Some(true)
  {
    assert [req][0] == req;
  }

  /** `apply_requirement` raises exactly the requirement's rejection, and otherwise keeps the rows that meet it. */
  lemma ApplyRequirementMeaning(rows: seq<ParsedRow>, req: Kpi.Requirement)
    ensures Rejection(req).Some? ==> ApplyRequirement(rows, req) == Err(Rejection(req).value)
    ensures Rejection(req).None? ==> Accepted([req]) && ApplyRequirement(rows, req) == Ok(Matching(rows, [req]))
  {
    if Rejection(req).None? {
      FilterMaskIsMatching(rows, req);
    }
  }

  lemma AcceptedConcat(a: seq<Kpi.Requirement>, b: seq<Kpi.Requirement>)
    ensures Accepted(a + b) <==> Accepted(a) && Accepted(b)
  {
    assert forall i :: 0 <= i < |a| ==> (a + b)[i] == a[i];
    assert forall i :: 0 <= i < |b| ==> (a + b)[|a| + i] == b[i];
    if Accepted(a) && Accepted(b) {
      forall i | 0 <= i < |a + b| ensures Rejection((a + b)[i]).None? {
        if i >= |a| {
          assert (a + b)[i] == b[i - |a|];
        }
      }
    }
  }

  lemma MeetsAllConcat(r: ParsedRow, a: seq<Kpi.Requirement>, b: seq<Kpi.Requirement>)
    requires Accepted(a) && Accepted(b)
    ensures Accepted(a + b)
    ensures MeetsAll(r, a + b) <==> MeetsAll(r, a) && MeetsAll(r, b)
  {
    AcceptedConcat(a, b);
    assert forall i :: 0 <= i < |a| ==> (a + b)[i] == a[i];
    assert forall i :: 0 <= i < |b| ==> (a + b)[|a| + i] == b[i];
    if MeetsAll(r, a) && MeetsAll(r, b) {
      forall i | 0 <= i < |a + b| ensures RowCondition(r, (a + b)[i]) == Some(true) {
        if i >= |a| {
          assert (a + b)[i] == b[i - |a|];
        }
      }
    }
  }

  /** Filtering by `a` and then by `b` is filtering by both. */
  lemma {:induction false} MatchingCompose(rows: seq<ParsedRow>, a: seq<Kpi.Requirement>, b: seq<Kpi.Requirement>)
    requires Accepted(a + b)
    ensures Accepted(a) && Accepted(b)
    ensures Matching(Matching(rows, a), b) == Matching(rows, a + b)
    decreases |rows|
  {
    AcceptedConcat(a, b);
    if |rows| > 0 {
      MeetsAllConcat(rows[0], a, b);
      MatchingCompose(rows[1..], a, b);
      if MeetsAll(rows[0], a) {
        var rest := Matching(rows[1..], a);
        assert Matching(rows, a) == [rows[0]] + rest;
        assert ([rows[0]] + rest)[1..] == rest;
      }
    }
  }

  /**
    Applying a KPI's requirements in turn succeeds exactly when every requirement can be
    evaluated, and then keeps the rows that meet all of them; otherwise it raises the error of
    the first requirement that cannot.
   */
  lemma {:induction false} ApplyAllMeaning(rows: seq<ParsedRow>, reqs: seq<Kpi.Requirement>)
    ensures ApplyAll(rows, reqs).Ok? <==> Accepted(reqs)
    ensures Accepted(reqs) ==> ApplyAll(rows, reqs) == Ok(Matching(rows, reqs))
    ensures ApplyAll(rows, reqs).Err? ==>
      exists i :: (0 <= i < |reqs| && Rejection(reqs[i]).Some?
        && ApplyAll(rows, reqs).error == Rejection(reqs[i]).value
        && forall j :: 0 <= j < i ==> Rejection(reqs[j]).None?)
    decreases |reqs|
  {
    if |reqs| == 0 {
      MatchingEmpty(rows);
    } else {
      ApplyRequirementMeaning(rows, reqs[0]);
      assert reqs == [reqs[0]] + reqs[1..];
      if Rejection(reqs[0]).None? {
        var next := Matching(rows, [reqs[0]]);
        ApplyAllMeaning(next, reqs[1..]);
        if Accepted(reqs) {
          MatchingCompose(rows, [reqs[0]], reqs[1..]);
        }
        if ApplyAll(rows, reqs).Err? {
          var i :| 0 <= i < |reqs[1..]| && Rejection(reqs[1..][i]).Some?
            && ApplyAll(next, reqs[1..]).error == Rejection(reqs[1..][i]).value
            && forall j :: 0 <= j < i ==> Rejection(reqs[1..][j]).None?;
          assert reqs[i + 1] == reqs[1..][i];
          forall j | 0 <= j < i + 1 ensures Rejection(reqs[j]).None? {
            if j > 0 {
              assert reqs[j] == reqs[1..][j - 1];
            }
          }
        }
      }
    }
  }

  lemma {:induction false} MatchingEmpty(rows: seq<ParsedRow>)
    ensures Accepted([]) && Matching(rows, []) == rows
    decreases |rows|
  {
    if |rows| > 0 {
      MatchingEmpty(rows[1..]);
    }
  }

  /** The matching rows are the rows that meet every requirement, a subsequence of the input. */
  lemma {:induction false} MatchingMember(rows: seq<ParsedRow>, reqs: seq<Kpi.Requirement>, x: ParsedRow)
    requires Accepted(reqs)
    ensures x in Matching(rows, reqs) <==> x in rows && MeetsAll(x, reqs)
    ensures |Matching(rows, reqs)| <= |rows|
    decreases |rows|
  {
    if |rows| > 0 {
      MatchingMember(rows[1..], reqs, x);
      assert rows == [rows[0]] + rows[1..];
    }
  }

  /** Whether a row meets a KPI depends only on which requirements it has. */
  lemma AcceptedSameRequirements(a: seq<Kpi.Requirement>, b: seq<Kpi.Requirement>)
    requires forall q :: q in a <==> q in b
    ensures Accepted(a) <==> Accepted(b)
  {
    if Accepted(a) {
      forall j | 0 <= j < |b| ensures Rejection(b[j]).None? {
        assert b[j] in a;
      }
    }
    if Accepted(b) {
      forall j | 0 <= j < |a| ensures Rejection(a[j]).None? {
        assert a[j] in b;
      }
    }
  }

  lemma MeetsAllSameRequirements(r: ParsedRow, a: seq<Kpi.Requirement>, b: seq<Kpi.Requirement>)
    requires Accepted(a) && Accepted(b) && forall q :: q in a <==> q in b
    ensures MeetsAll(r, a) <==> MeetsAll(r, b)
  {
    if MeetsAll(r, a) {
      forall j | 0 <= j < |b| ensures RowCondition(r, b[j]) == Some(true) {
        assert b[j] in a;
      }
    }
    if MeetsAll(r, b) {
      forall j | 0 <= j < |a| ensures RowCondition(r, a[j]) == Some(true) {
        assert a[j] in b;
      }
    }
  }

  lemma {:induction false} MatchingSameRequirements(rows: seq<ParsedRow>, a: seq<Kpi.Requirement>, b: seq<Kpi.Requirement>)
    requires Accepted(a) && forall q :: q in a <==> q in b
    ensures Accepted(b)
    ensures Matching(rows, a) == Matching(rows, b)
    decreases |rows|
  {
    AcceptedSameRequirements(a, b);
    if |rows| > 0 {
      MeetsAllSameRequirements(rows[0], a, b);
      MatchingSameRequirements(rows[1..], a, b);
    }
  }

  /** The order in which a KPI lists its requirements does not change the rows it selects. */
  lemma RequirementOrder(rows: seq<ParsedRow>, a: seq<Kpi.Requirement>, b: seq<Kpi.Requirement>)
    requires Accepted(a) && forall q :: q in a <==> q in b
    ensures ApplyAll(rows, a) == ApplyAll(rows, b)
  {
    MatchingSameRequirements(rows, a, b);
    ApplyAllMeaning(rows, a);
    ApplyAllMeaning(rows, b);
  }

  /**
    "ni" negates "in" and keeps nulls null: a row meets "ni" exactly when its "in" condition is
    false, so no row meets both, and a null condition meets neither.
   */
  lemma NotIncludesComplement(r: ParsedRow, c: Kpi.Column, v: Kpi.Value)
    requires Rejection(Kpi.Requirement(c, Kpi.Includes, v)).None?
    ensures Rejection(Kpi.Requirement(c, Kpi.NotIncludes, v)).None?
    ensures RowCondition(r, Kpi.Requirement(c, Kpi.NotIncludes, v)) == Some(true) <==>
      RowCondition(r, Kpi.Requirement(c, Kpi.Includes, v)) == Some(false)
    ensures RowCondition(r, Kpi.Requirement(c, Kpi.Includes, v)).None? <==>
      RowCondition(r, Kpi.Requirement(c, Kpi.NotIncludes, v)).None?
  {
  }

  // The pool

  lemma {:induction false} AntiJoinMember(base: seq<ParsedRow>, matched: seq<ParsedRow>, x: ParsedRow)
    ensures x in AntiJoin(base, matched) <==> x in base && !(x.row.weight.Some? && x in matched)
    decreases |base|
  {
    if |base| > 0 {
      AntiJoinMember(base[1..], matched, x);
      assert base == [base[0]] + base[1..];
    }
  }

  /**
    After a pass the pool is unchanged when no row matched and the column holds zeros; otherwise
    the pool is the base rows the pass did not match, so rows matched by earlier KPIs return.
   */
  lemma StepPool(base: seq<ParsedRow>, names: seq<string>, betNames: seq<string>, total: real,
                 st: LoopState, kpi: Kpi.KPI)
    requires KpiStep(base, names, betNames, total, st, kpi).Ok?
    ensures ApplyAll(st.pool, kpi.requirements).Ok?
    ensures var matched := ApplyAll(st.pool, kpi.requirements).value;
      var next := KpiStep(base, names, betNames, total, st, kpi).value;
      && (|matched| == 0 ==>
            next.pool == st.pool
            && next.general == st.general[Plain(kpi.displayName) := Zeros(names)]
            && next.bet == st.bet[Plain(kpi.displayName) := Zeros(betNames)])
      && (|matched| > 0 ==> forall x :: x in next.pool <==> x in base && !(x.row.weight.Some? && x in matched))
  {
    var matched := ApplyAll(st.pool, kpi.requirements).value;
    var next := KpiStep(base, names, betNames, total, st, kpi).value;
    if |matched| > 0 {
      assert next.pool == AntiJoin(base, matched);
      forall x ensures x in next.pool <==> x in base && !(x.row.weight.Some? && x in matched) {
        AntiJoinMember(base, matched, x);
      }
    }
  }

  /** The rows a KPI matches are rows of the pool it starts from. */
  lemma MatchedFromPool(pool: seq<ParsedRow>, reqs: seq<Kpi.Requirement>)
    requires ApplyAll(pool, reqs).Ok?
    ensures forall x :: x in ApplyAll(pool, reqs).value ==> x in pool
  {
    ApplyAllMeaning(pool, reqs);
    forall x | x in ApplyAll(pool, reqs).value ensures x in pool {
      MatchingMember(pool, reqs, x);
    }
  }

  /** The pool never holds a row that is not in the base data. */
  lemma StepPoolWithin(base: seq<ParsedRow>, names: seq<string>, betNames: seq<string>, total: real,
                       st: LoopState, kpi: Kpi.KPI)
    requires forall x :: x in st.pool ==> x in base
    requires KpiStep(base, names, betNames, total, st, kpi).Ok?
    ensures forall x :: x in KpiStep(base, names, betNames, total, st, kpi).value.pool ==> x in base
  {
    StepPool(base, names, betNames, total, st, kpi);
  }

  /**
    A KPI that matched rows takes them out of the next KPI's reach: no row with a weight is
    matched by two consecutive KPIs.
   */
  lemma ConsecutiveDisjoint(base: seq<ParsedRow>, names: seq<string>, betNames: seq<string>, total: real,
                            st: LoopState, first: Kpi.KPI, second: Kpi.KPI)
    requires KpiStep(base, names, betNames, total, st, first).Ok?
    requires ApplyAll(st.pool, first.requirements).Ok? && |ApplyAll(st.pool, first.requirements).value| > 0
    requires ApplyAll(KpiStep(base, names, betNames, total, st, first).value.pool, second.requirements).Ok?
    ensures forall x ::
      (x in ApplyAll(KpiStep(base, names, betNames, total, st, first).value.pool, second.requirements).value
        && x.row.weight.Some?) ==> x !in ApplyAll(st.pool, first.requirements).value
  {
    var next := KpiStep(base, names, betNames, total, st, first).value;
    StepPool(base, names, betNames, total, st, first);
    MatchedFromPool(next.pool, second.requirements);
  }

  // Shares

  /** The action weights of `rows` summed over `keys`. */
  function SumActionWeights(rows: seq<ParsedRow>, keys: seq<string>): real
    decreases |keys|
  {
    if |keys| == 0 then 0.0 else SumActionWeights(rows, keys[..|keys| - 1]) + ActionWeight(rows, keys[|keys| - 1])
  }

  /** The weight one row contributes to the actions of `keys`. */
  function Contribution(r: ParsedRow, keys: seq<string>): real
    decreases |keys|
  {
    if |keys| == 0 then 0.0
    else Contribution(r, keys[..|keys| - 1]) + (if Value(r.row.action) == keys[|keys| - 1] then RowWeight(r) else 0.0)
  }

  lemma ActionWeightCons(r: ParsedRow, rest: seq<ParsedRow>, a: string)
    ensures ActionWeight([r] + rest, a) == (if Value(r.row.action) == a then RowWeight(r) else 0.0) + ActionWeight(rest, a)
  {
    assert ([r] + rest)[1..] == rest;
    if Value(r.row.action) == a {
      assert OfAction([r] + rest, a) == [r] + OfAction(rest, a);
      assert ([r] + OfAction(rest, a))[1..] == OfAction(rest, a);
    }
  }

  lemma {:induction false} SumActionWeightsCons(r: ParsedRow, rest: seq<ParsedRow>, keys: seq<string>)
    ensures SumActionWeights([r] + rest, keys) == Contribution(r, keys) + SumActionWeights(rest, keys)
    decreases |keys|
  {
    if |keys| > 0 {
      SumActionWeightsCons(r, rest, keys[..|keys| - 1]);
      ActionWeightCons(r, rest, keys[|keys| - 1]);
    }
  }

  lemma {:induction false} ContributionAbsent(r: ParsedRow, keys: seq<string>)
    requires Value(r.row.action) !in keys
    ensures Contribution(r, keys) == 0.0
    decreases |keys|
  {
    if |keys| > 0 {
      assert keys[|keys| - 1] in keys;
      ContributionAbsent(r, keys[..|keys| - 1]);
    }
  }

  /** A row contributes its weight exactly once to a duplicate-free list of actions holding its own. */
  lemma {:induction false} ContributionOnce(r: ParsedRow, keys: seq<string>)
    requires Distinct(keys) && Value(r.row.action) in keys
    ensures Contribution(r, keys) == RowWeight(r)
    decreases |keys|
  {
    var init := keys[..|keys| - 1];
    assert keys == init + [keys[|keys| - 1]];
    if Value(r.row.action) == keys[|keys| - 1] {
      assert Value(r.row.action) !in init;
      ContributionAbsent(r, init);
    } else {
      ContributionOnce(r, init);
    }
  }

  /** Summed over a duplicate-free list holding every row's action, the action weights are the total weight. */
  lemma {:induction false} SumActionWeightsTotal(rows: seq<ParsedRow>, keys: seq<string>)
    requires Distinct(keys) && forall x :: x in rows ==> Value(x.row.action) in keys
    ensures SumActionWeights(rows, keys) == WeightSum(rows)
    decreases |rows|
  {
    if |rows| == 0 {
      SumActionWeightsNone(keys);
    } else {
      assert rows == [rows[0]] + rows[1..];
      SumActionWeightsCons(rows[0], rows[1..], keys);
      ContributionOnce(rows[0], keys);
      SumActionWeightsTotal(rows[1..], keys);
    }
  }

  lemma {:induction false} SumActionWeightsNone(keys: seq<string>)
    ensures SumActionWeights([], keys) == 0.0
    decreases |keys|
  {
    if |keys| > 0 {
      SumActionWeightsNone(keys[..|keys| - 1]);
    }
  }

  /** The percentages of `keys` sum to their total weight as a percentage. */
  lemma {:induction false} SumOverPercentages(m: map<string, real>, keys: seq<string>, rows: seq<ParsedRow>, total: real)
    requires total != 0.0
    requires forall k :: k in keys ==> k in m && m[k] == ActionWeight(rows, k) / total * 100.0
    ensures SumOver(m, keys) == SumActionWeights(rows, keys) / total * 100.0
    decreases |keys|
  {
    if |keys| > 0 {
      var init := keys[..|keys| - 1];
      SumOverPercentages(m, init, rows, total);
      PercentOfSum(SumActionWeights(rows, init), ActionWeight(rows, keys[|keys| - 1]), total);
    }
  }

  /** Dividing every entry divides the sum. */
  lemma {:induction false} SumOverDivided(m: map<string, real>, n: map<string, real>, keys: seq<string>, d: real)
    requires d != 0.0
    requires forall k :: k in keys ==> k in m && k in n && n[k] == m[k] / d
    ensures SumOver(n, keys) == SumOver(m, keys) / d
    decreases |keys|
  {
    if |keys| > 0 {
      var init := keys[..|keys| - 1];
      SumOverDivided(m, n, init, d);
      QuotientOfSum(SumOver(m, init), m[keys[|keys| - 1]], d);
    }
  }

  lemma PercentOfSum(x: real, y: real, total: real)
    requires total != 0.0
    ensures (x + y) / total * 100.0 == x / total * 100.0 + y / total * 100.0
  {
  }

  lemma QuotientOfSum(x: real, y: real, d: real)
    requires d != 0.0
    ensures (x + y) / d == x / d + y / d
  {
  }

  lemma PercentageNonZero(s: real, q: real, total: real)
    requires total != 0.0 && q != 0.0 && q == s / total * 100.0
    ensures s != 0.0
  {
  }

  lemma SelfQuotient(t: real)
    requires t != 0.0
    ensures t / t == 1.0
  {
  }

  lemma RatioOfPercentages(p: real, q: real, w: real, s: real, total: real)
    requires total != 0.0 && q != 0.0
    requires p == w / total * 100.0 && q == s / total * 100.0
    ensures s != 0.0
    ensures p / q == w / s
  {
  }

  /** Every row of the base data has its action among the distinct actions, which are duplicate-free. */
  lemma DistinctActionsCover(base: seq<ParsedRow>)
    ensures Distinct(DistinctActions(base))
    ensures forall x :: x in base ==> Value(x.row.action) in DistinctActions(base)
    ensures forall n :: n in DistinctActions(base) ==> exists a :: Value(a) == n
  {
    FirstAppearanceShape(ActionNames(base));
    forall x | x in base ensures Value(x.row.action) in DistinctActions(base) {
      var i :| 0 <= i < |base| && base[i] == x;
      assert ActionNames(base)[i] == Value(x.row.action);
    }
    forall n | n in DistinctActions(base) ensures exists a :: Value(a) == n {
      var i :| 0 <= i < |ActionNames(base)| && ActionNames(base)[i] == n;
      assert Value(base[i].row.action) == n;
    }
  }

  /** The normalised percentages of matched rows are the actions' shares of the matched weight. */
  lemma MatchedShares(names: seq<string>, matched: seq<ParsedRow>, total: real)
    requires Distinct(names) && forall x :: x in matched ==> Value(x.row.action) in names
    requires total != 0.0
    requires SumOver(Percentages(matched, names, total), names) != 0.0
    ensures var t := SumOver(Percentages(matched, names, total), names);
      && t == WeightSum(matched) / total * 100.0
      && WeightSum(matched) != 0.0
      && var column := Normalised(Percentages(matched, names, total), names, t);
        && (forall a :: a in names ==> a in column && column[a] == ActionWeight(matched, a) / WeightSum(matched))
        && SumOver(column, names) == 1.0
  {
    var pct := Percentages(matched, names, total);
    var t := SumOver(pct, names);
    var ws := WeightSum(matched);
    SumOverPercentages(pct, names, matched, total);
    SumActionWeightsTotal(matched, names);
    assert t == ws / total * 100.0;
    PercentageNonZero(ws, t, total);
    var column := Normalised(pct, names, t);
    forall a | a in names ensures a in column && column[a] == ActionWeight(matched, a) / ws {
      RatioOfPercentages(pct[a], t, ActionWeight(matched, a), ws, total);
    }
    SumOverDivided(pct, column, names, t);
    SelfQuotient(t);
  }

  /** A pass that matched rows stores the normalised percentages under the annotated key. */
  lemma MatchedStepColumn(base: seq<ParsedRow>, names: seq<string>, betNames: seq<string>, total: real,
                          st: LoopState, name: string, matched: seq<ParsedRow>)
    requires |names| > 0
    requires MatchedStep(base, names, betNames, total, st, name, matched).Ok?
    ensures total != 0.0
    ensures SumOver(Percentages(matched, names, total), names) != 0.0
    ensures var t := SumOver(Percentages(matched, names, total), names);
      MatchedStep(base, names, betNames, total, st, name, matched).value.general
        == Rekey(st.general, name, t, Normalised(Percentages(matched, names, total), names, t))
  {
  }

  /**
    A KPI that matched rows gets the column keyed by its name and its matched weight as a
    percentage of the total weight; the column gives every action its share of the matched
    weight, and the shares sum to one.
   */
  lemma StepShares(base: seq<ParsedRow>, names: seq<string>, betNames: seq<string>, total: real,
                   st: LoopState, kpi: Kpi.KPI)
    requires names == DistinctActions(base)
    requires forall x :: x in st.pool ==> x in base
    requires KpiStep(base, names, betNames, total, st, kpi).Ok?
    requires ApplyAll(st.pool, kpi.requirements).Ok? && |ApplyAll(st.pool, kpi.requirements).value| > 0
    ensures total != 0.0 && WeightSum(ApplyAll(st.pool, kpi.requirements).value) != 0.0
    ensures var matched := ApplyAll(st.pool, kpi.requirements).value;
      var next := KpiStep(base, names, betNames, total, st, kpi).value;
      var key := Annotated(kpi.displayName, WeightSum(matched) / total * 100.0);
      && key in next.general
      && (forall a :: a in names ==> a in next.general[key] && next.general[key][a] == ActionWeight(matched, a) / WeightSum(matched))
      && SumOver(next.general[key], names) == 1.0
  {
    var matched := ApplyAll(st.pool, kpi.requirements).value;
    MatchedFromPool(st.pool, kpi.requirements);
    DistinctActionsCover(base);
    assert matched[0] in matched;
    assert Value(matched[0].row.action) in names;
    assert KpiStep(base, names, betNames, total, st, kpi) == MatchedStep(base, names, betNames, total, st, kpi.displayName, matched);
    MatchedStepColumn(base, names, betNames, total, st, kpi.displayName, matched);
    MatchedShares(names, matched, total);
  }

  // Bet actions

  /** A sized bet name is the value of no action. */
  lemma SizedBetNotAction(n: nat, a: Action)
    ensures Value(a) != "bet" + NatToString(n)
  {
    var s := "bet" + NatToString(n);
    assert s[0] == 'b' && |s| > 3;
  }

  lemma {:induction false} RestrictNone(xs: seq<string>, ys: seq<string>)
    requires forall x :: x in xs ==> x !in ys
    ensures Restrict(xs, ys) == []
    decreases |xs|
  {
    if |xs| > 0 {
      assert xs[0] in xs;
      assert forall x :: x in xs[1..] ==> x in xs;
      RestrictNone(xs[1..], ys);
    }
  }

  /**
    Among action values only "bet" is offered: the bet actions are ["bet"] when some row bets,
    and none otherwise.
   */
  lemma BetActionsOnlyBet(actions: seq<string>)
    requires forall n :: n in actions ==> exists a :: Value(a) == n
    ensures BetActions(actions) == if "bet" in actions then ["bet"] else []
  {
    var c := BetCandidates();
    var sized := c[1..];
    forall x | x in sized ensures x !in actions {
      var i :| 0 <= i < |sized| && sized[i] == x;
      BetCandidateAt(i + 1);
      assert x == "bet" + NatToString(i + 1);
      if x in actions {
        var a :| Value(a) == x;
        SizedBetNotAction(i + 1, a);
      }
    }
    RestrictNone(sized, actions);
    assert c == ["bet"] + sized;
  }

  /** The bet actions of the base data: "bet" when some row bets, none otherwise. */
  lemma BaseBetActions(base: seq<ParsedRow>)
    ensures BetActions(DistinctActions(base)) ==
      if exists x :: x in base && x.row.action == Bet then ["bet"] else []
  {
    DistinctActionsCover(base);
    BetActionsOnlyBet(DistinctActions(base));
    if "bet" in DistinctActions(base) {
      FirstAppearanceShape(ActionNames(base));
      var i :| 0 <= i < |ActionNames(base)| && ActionNames(base)[i] == "bet";
      assert Value(base[i].row.action) == "bet";
      ParseValue(base[i].row.action);
      assert base[i] in base;
    }
    if exists x :: x in base && x.row.action == Bet {
      var x :| x in base && x.row.action == Bet;
      assert Value(x.row.action) == "bet";
    }
  }

  lemma {:induction false} RestrictSingle(xs: seq<string>, y: string)
    requires Distinct(xs) && y in xs
    ensures Restrict(xs, [y]) == [y]
    decreases |xs|
  {
    assert xs == [xs[0]] + xs[1..];
    assert Distinct(xs[1..]);
    if xs[0] == y {
      assert y !in xs[1..];
      RestrictNone(xs[1..], [y]);
    } else {
      RestrictSingle(xs[1..], y);
    }
  }

  /**
    With "bet" the only bet action, a KPI that matched rows gives the bet chart a column whose
    one entry is 1.0: the line chart of bet sizes has a single point.
   */
  lemma StepBetShare(base: seq<ParsedRow>, names: seq<string>, total: real, st: LoopState, kpi: Kpi.KPI)
    requires Distinct(names) && "bet" in names
    requires KpiStep(base, names, ["bet"], total, st, kpi).Ok?
    requires ApplyAll(st.pool, kpi.requirements).Ok? && |ApplyAll(st.pool, kpi.requirements).value| > 0
    ensures exists t :: (Annotated(kpi.displayName, t) in KpiStep(base, names, ["bet"], total, st, kpi).value.bet
      && KpiStep(base, names, ["bet"], total, st, kpi).value.bet[Annotated(kpi.displayName, t)] == map["bet" := 1.0])
  {
    var matched := ApplyAll(st.pool, kpi.requirements).value;
    assert KpiStep(base, names, ["bet"], total, st, kpi) == MatchedStep(base, names, ["bet"], total, st, kpi.displayName, matched);
    var pct := Percentages(matched, names, total);
    var betPct := Only(pct, ["bet"]);
    RestrictSingle(names, "bet");
    var bt := SumOver(betPct, Restrict(names, ["bet"]));
    assert bt == betPct["bet"] by {
      assert Restrict(names, ["bet"])[..0] == [];
    }
    var column := Normalised(betPct, ["bet"], bt);
    SelfQuotient(bt);
    assert column == map["bet" := 1.0];
  }

  /**
    With "bet" among the actions, a KPI whose matched rows carry no bet weight divides by a zero
    bet total, whatever else it matched.
   */
  lemma StepBetZeroDivision(base: seq<ParsedRow>, names: seq<string>, total: real, st: LoopState, kpi: Kpi.KPI)
    requires Distinct(names) && "bet" in names
    requires ApplyAll(st.pool, kpi.requirements).Ok? && |ApplyAll(st.pool, kpi.requirements).value| > 0
    requires ActionWeight(ApplyAll(st.pool, kpi.requirements).value, "bet") == 0.0
    ensures KpiStep(base, names, ["bet"], total, st, kpi) == Err(ZeroDivision)
  {
    var matched := ApplyAll(st.pool, kpi.requirements).value;
    assert KpiStep(base, names, ["bet"], total, st, kpi) == MatchedStep(base, names, ["bet"], total, st, kpi.displayName, matched);
    if total != 0.0 {
      var pct := Percentages(matched, names, total);
      var betPct := Only(pct, ["bet"]);
      RestrictSingle(names, "bet");
      assert SumOver(betPct, Restrict(names, ["bet"])) == betPct["bet"] by {
        assert Restrict(names, ["bet"])[..0] == [];
      }
      ZeroPercentage(total);
    }
  }

  lemma ZeroPercentage(total: real)
    requires total != 0.0
    ensures 0.0 / total * 100.0 == 0.0
  {
  }

  lemma SizedBetsAsWrittenFails()
    ensures SizedBetsAsWritten(1) == Err(InvalidAction("bet1"))
  {
    assert NatToString(1) == "1";
    assert "bet" + NatToString(1) == "bet1";
  }

  /**
    As written, building the sized bet names through the action constructor raises on "bet1"
    before any KPI is looked at, for every input.
   */
  lemma GetChartDataAsWrittenFails(input: Option<seq<ParsedRow>>, kpis: seq<Kpi.KPI>)
    requires input.Some?
    ensures GetChartDataAsWritten(input, kpis) == Err(InvalidAction("bet1"))
  {
    SizedBetsAsWrittenFails();
  }

  // The charts

  /** The names of a chart's columns. */
  function ColumnNames(chart: Chart): set<string> {
    set k | k in chart :: k.name
  }

  lemma StepColumnNames(base: seq<ParsedRow>, names: seq<string>, betNames: seq<string>, total: real,
                        st: LoopState, kpi: Kpi.KPI)
    requires KpiStep(base, names, betNames, total, st, kpi).Ok?
    ensures ColumnNames(KpiStep(base, names, betNames, total, st, kpi).value.general) == ColumnNames(st.general) + {kpi.displayName}
    ensures ColumnNames(KpiStep(base, names, betNames, total, st, kpi).value.bet) == ColumnNames(st.bet) + {kpi.displayName}
  {
    var next := KpiStep(base, names, betNames, total, st, kpi).value;
    var matched := ApplyAll(st.pool, kpi.requirements).value;
    if |matched| > 0 {
      forall chart: Chart, t: real, column: map<string, real>
        ensures ColumnNames(Rekey(chart, kpi.displayName, t, column)) == ColumnNames(chart) + {kpi.displayName}
      {
        RekeyNames(chart, kpi.displayName, t, column);
      }
    } else {
      assert Plain(kpi.displayName) in next.general && Plain(kpi.displayName) in next.bet;
    }
  }

  lemma RekeyNames(chart: Chart, name: string, t: real, column: map<string, real>)
    ensures ColumnNames(Rekey(chart, name, t, column)) == ColumnNames(chart) + {name}
  {
    var r := Rekey(chart, name, t, column);
    assert Annotated(name, t) in r;
    forall n | n in ColumnNames(chart) ensures n in ColumnNames(r) {
      var k :| k in chart && k.name == n;
      if k == Plain(name) {
        assert Annotated(name, t).name == n;
      } else {
        assert k in r;
      }
    }
  }

  /** The KPI names of a list of KPIs. */
  function KpiNames(kpis: seq<Kpi.KPI>): set<string> {
    set i | 0 <= i < |kpis| :: kpis[i].displayName
  }

  lemma {:induction false} RunColumnNames(base: seq<ParsedRow>, names: seq<string>, betNames: seq<string>, total: real,
                                          st: LoopState, kpis: seq<Kpi.KPI>)
    requires RunFrom(base, names, betNames, total, st, kpis).Ok?
    ensures ColumnNames(RunFrom(base, names, betNames, total, st, kpis).value.general) == ColumnNames(st.general) + KpiNames(kpis)
    ensures ColumnNames(RunFrom(base, names, betNames, total, st, kpis).value.bet) == ColumnNames(st.bet) + KpiNames(kpis)
    decreases |kpis|
  {
    if |kpis| > 0 {
      StepColumnNames(base, names, betNames, total, st, kpis[0]);
      var next := KpiStep(base, names, betNames, total, st, kpis[0]).value;
      RunColumnNames(base, names, betNames, total, next, kpis[1..]);
      assert KpiNames(kpis) == {kpis[0].displayName} + KpiNames(kpis[1..]) by {
        forall n | n in KpiNames(kpis) ensures n in {kpis[0].displayName} + KpiNames(kpis[1..]) {
          var i :| 0 <= i < |kpis| && kpis[i].displayName == n;
          if i > 0 {
            assert kpis[1..][i - 1] == kpis[i];
          }
        }
        forall n | n in KpiNames(kpis[1..]) ensures n in KpiNames(kpis) {
          var i :| 0 <= i < |kpis[1..]| && kpis[1..][i].displayName == n;
          assert kpis[i + 1] == kpis[1..][i];
        }
      }
    } else {
      assert KpiNames(kpis) == {};
    }
  }

  /**
    Both charts have one column per KPI name, and the bet chart is returned exactly when there
    is at least one KPI.
   */
  lemma ChartColumns(base: seq<ParsedRow>, kpis: seq<Kpi.KPI>)
    requires GetChartData(Some(base), kpis).Ok?
    ensures ColumnNames(GetChartData(Some(base), kpis).value.general) == KpiNames(kpis)
    ensures GetChartData(Some(base), kpis).value.bet.Some? <==> |kpis| > 0
    ensures GetChartData(Some(base), kpis).value.bet.Some? ==> ColumnNames(GetChartData(Some(base), kpis).value.bet.value) == KpiNames(kpis)
  {
    var names := DistinctActions(base);
    var init := LoopState(base, map[], map[]);
    RunColumnNames(base, names, BetActions(names), WeightSum(base), init, kpis);
    assert ColumnNames(map[]) == {};
    var st := RunFrom(base, names, BetActions(names), WeightSum(base), init, kpis).value;
    if |kpis| > 0 {
      assert kpis[0].displayName in KpiNames(kpis);
      var k :| k in st.bet && k.name == kpis[0].displayName;
    } else {
      assert KpiNames(kpis) == {};
      assert st.bet == map[];
    }
  }

  // Helper facts

  lemma SharesOfWeights(rows: seq<ParsedRow>, names: seq<string>, betNames: seq<string>, total: real, w: map<string, real>)
    requires w == map a | a in names :: ActionWeight(rows, a)
    requires |names| > 0 ==> total != 0.0
    ensures (map a | a in names :: w[a] / total * 100.0) == Percentages(rows, names, total)
    ensures (map a | a in names && a in betNames :: w[a] / total * 100.0) == Only(Percentages(rows, names, total), betNames)
  {
  }

  /** Storing under the plain key, copying to the annotated key and deleting the plain one. */
  lemma RekeySteps(chart: Chart, name: string, t: real, column: map<string, real>)
    ensures var c := chart[Plain(name) := column];
      c[Annotated(name, t) := c[Plain(name)]] - {Plain(name)} == Rekey(chart, name, t, column)
  {
  }

  lemma BetCandidateAt(i: nat)
    requires 1 <= i <= 100
    ensures |BetCandidates()| == 101 && BetCandidates()[i] == "bet" + NatToString(i)
  {
  }

  /** No bet name is offered twice. */
  lemma BetCandidatesDistinct()
    ensures Distinct(BetCandidates())
  {
    var c := BetCandidates();
    forall i, j | 0 <= i < j < |c| ensures c[i] != c[j] {
      BetCandidateAt(j);
      if i == 0 {
        assert |c[i]| < |c[j]|;
      } else {
        BetCandidateAt(i);
        if c[i] == c[j] {
          assert c[i][3..] == NatToString(i) && c[j][3..] == NatToString(j);
          NatToStringValue(i);
          NatToStringValue(j);
        }
      }
    }
  }

  lemma {:induction false} RestrictWithin(xs: seq<string>, ys: seq<string>)
    ensures forall a :: a in Restrict(xs, ys) <==> a in xs && a in ys
    decreases |xs|
  {
    if |xs| > 0 {
      RestrictWithin(xs[1..], ys);
      assert xs == [xs[0]] + xs[1..];
    }
  }

  lemma {:induction false} RestrictDistinct(xs: seq<string>, ys: seq<string>)
    ensures Distinct(xs) ==> Distinct(Restrict(xs, ys))
    decreases |xs|
  {
    if |xs| > 0 && Distinct(xs) {
      assert xs == [xs[0]] + xs[1..];
      assert Distinct(xs[1..]);
      RestrictDistinct(xs[1..], ys);
      RestrictWithin(xs[1..], ys);
      if xs[0] in ys {
        DistinctConcat([xs[0]], Restrict(xs[1..], ys));
      }
    }
  }
}
