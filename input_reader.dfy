/**
  Reading one range file: each line `weight:holecards` becomes one row, and each row is
  expanded into its candidate five-card hands, a pair of its hole cards followed by three
  board cards.
 */
module InputReader {
  import opened Base
  import opened Strings
  import opened Cards
  import opened Actions
  import opened Combinatorics
  import opened FileModel

  /** Every two hole cards crossed with every three board cards, hole pairs outermost. */
  function GenerateHands<T>(hole: seq<T>, board: seq<T>): seq<seq<T>> {
    CrossWith(Combinations(hole, 2), Combinations(board, 3), Append)
  }

  function Append<T>(p: seq<T>, t: seq<T>): seq<T> {
    p + t
  }

  /**
    There are C(h, 2) * C(b, 3) hands; hand `i * C(b, 3) + j` is hole pair `i` followed by
    board triple `j`, of five cards.
   */
  lemma GenerateHandsAt<T>(hole: seq<T>, board: seq<T>, i: nat, j: nat)
    requires i < Binomial(|hole|, 2) && j < Binomial(|board|, 3)
    ensures |GenerateHands(hole, board)| == Binomial(|hole|, 2) * Binomial(|board|, 3)
    ensures var k := i * Binomial(|board|, 3) + j;
      && k < |GenerateHands(hole, board)|
      && GenerateHands(hole, board)[k] == Combinations(hole, 2)[i] + Combinations(board, 3)[j]
      && |GenerateHands(hole, board)[k]| == 5
  {
    var pairs, triples := Combinations(hole, 2), Combinations(board, 3);
    CrossWithAt(pairs, triples, Append, i, j);
    assert pairs[i] in pairs && triples[j] in triples;
    CombinationLengths(hole, 2);
    CombinationLengths(board, 3);
  }

  /**
    Every hand is two hole cards at increasing positions followed by three board cards at
    increasing positions, and every such choice is a hand.
   */
  lemma GenerateHandsMember<T>(hole: seq<T>, board: seq<T>, h: seq<T>)
    ensures h in GenerateHands(hole, board) <==>
      exists p, t :: p in Combinations(hole, 2) && t in Combinations(board, 3) && h == p + t
  {
    AppendedMember(Combinations(hole, 2), Combinations(board, 3), h);
  }

  /** An element of the concatenating cross product is an element of `xs` followed by one of `ys`. */
  lemma AppendedMember<T>(xs: seq<seq<T>>, ys: seq<seq<T>>, h: seq<T>)
    ensures h in CrossWith(xs, ys, Append) <==> exists p, t :: p in xs && t in ys && h == p + t
  {
    CrossWithMember(xs, ys, Append, h);
    if h in CrossWith(xs, ys, Append) {
      var i, j :| 0 <= i < |xs| && 0 <= j < |ys| && h == Append(xs[i], ys[j]);
      assert xs[i] in xs && ys[j] in ys;
    }
    if exists p, t :: p in xs && t in ys && h == p + t {
      var p, t :| p in xs && t in ys && h == p + t;
      var i :| 0 <= i < |xs| && xs[i] == p;
      var j :| 0 <= j < |ys| && ys[j] == t;
      assert h == Append(xs[i], ys[j]);
    }
  }

  /** Every hand has five cards. */
  lemma GenerateHandsLength<T>(hole: seq<T>, board: seq<T>, h: seq<T>)
    requires h in GenerateHands(hole, board)
    ensures |h| == 5
  {
    GenerateHandsMember(hole, board, h);
    var p, t :| p in Combinations(hole, 2) && t in Combinations(board, 3) && h == p + t;
    CombinationLengths(hole, 2);
    CombinationLengths(board, 3);
  }

  /** `str.split_exact(":", 1)`: the text before the first `:` and the text up to the next `:`. */
  function SplitExact(line: string): (string, Option<string>) {
    var parts := Split(line, ':');
    (parts[0], if |parts| >= 2 then Some(parts[1]) else None)
  }

  /**
    The weight text is the longest `:`-free prefix. The hole text is missing exactly when the
    line has no `:`; otherwise it is the `:`-free text after the first `:`, followed by the
    end of the line or another `:`.
   */
  lemma SplitExactFields(line: string)
    ensures var (w, h) := SplitExact(line);
      && ':' !in w && w <= line
      && (|w| < |line| ==> line[|w|] == ':')
      && (h.None? <==> ':' !in line)
      && (h.Some? ==>
        && ':' !in h.value && w + ":" + h.value <= line
        && (|w| + 1 + |h.value| < |line| ==> line[|w| + 1 + |h.value|] == ':'))
  {
    SplitFirst(line, ':');
    var parts := Split(line, ':');
    var w := parts[0];
    if |parts| >= 2 {
      var rest := line[|w| + 1..];
      assert line == w + [':'] + rest;
      SplitPrefix(w, rest, ':');
      SplitFirst(rest, ':');
      var h := parts[1];
      assert h == Split(rest, ':')[0];
      assert rest[..|h|] == h;
      assert line[..|w| + 1 + |h|] == w + ":" + h;
    }
  }

  /** `10^n`. */
  function Pow10(n: nat): (p: nat)
    ensures p >= 1
  {
    if n == 0 then 1 else 10 * Pow10(n - 1)
  }

  predicate AllDigits(s: string) {
    forall i :: 0 <= i < |s| ==> IsDigit(s[i])
  }

  /** The number the digits `i`, a point and the digits `f` denote. */
  function Decimal(i: string, f: string): real
    requires AllDigits(i) && AllDigits(f)
  {
    DigitsValue(i) as real + DigitsValue(f) as real / Pow10(|f|) as real
  }

  /** Digits, optionally a point and more digits, with at least one digit in all. */
  function ParseUnsigned(body: string): Option<real> {
    var parts := Split(body, '.');
    if |parts| == 1 && |body| > 0 && AllDigits(body) then Some(DigitsValue(body) as real)
    else if |parts| == 2 && |parts[0]| + |parts[1]| > 0 && AllDigits(parts[0]) && AllDigits(parts[1]) then
      Some(Decimal(parts[0], parts[1]))
    else None
  }

  /** The non-strict cast of a weight text to a number: `None` when the text is not a decimal. */
  function ParseWeight(t: string): Option<real> {
    if |t| > 0 && (t[0] == '-' || t[0] == '+') then
      match ParseUnsigned(t[1..])
      case None => None
      case Some(v) => Some(if t[0] == '-' then -v else v)
    else ParseUnsigned(t)
  }

  lemma DigitsFree(s: string, c: char)
    requires AllDigits(s) && !IsDigit(c)
    ensures c !in s
  {
  }

  /** A decimal `i.f` reads as i + f / 10^|f|. */
  lemma ParseWeightDecimal(i: string, f: string)
    requires AllDigits(i) && AllDigits(f) && |i| + |f| > 0
    ensures ParseWeight(i + "." + f) == Some(Decimal(i, f))
  {
    var t := i + "." + f;
    DigitsFree(i, '.');
    DigitsFree(f, '.');
    SplitPair(i, f, '.');
    assert Split(t, '.') == [i, f];
    assert t[0] != '-' && t[0] != '+' by {
      if |i| > 0 {
        assert t[0] == i[0];
      }
    }
    assert ParseWeight(t) == ParseUnsigned(t);
  }

  /** A whole number reads as itself. */
  lemma ParseWeightWhole(i: string)
    requires AllDigits(i) && |i| > 0
    ensures ParseWeight(i) == Some(DigitsValue(i) as real)
  {
    DigitsFree(i, '.');
    SplitNone(i, '.');
    assert i[0] != '-' && i[0] != '+';
    assert ParseWeight(i) == ParseUnsigned(i);
  }

  /** The rendering of a natural number reads back as that number, also with a sign. */
  lemma ParseWeightNat(n: nat)
    ensures ParseWeight(NatToString(n)) == Some(n as real)
    ensures ParseWeight("-" + NatToString(n)) == Some(-(n as real))
  {
    var s := NatToString(n);
    NatToStringValue(n);
    ParseWeightWhole(s);
    assert ("-" + s)[1..] == s;
  }

  /** Text with no digit is not a weight. */
  lemma ParseWeightNoDigit(t: string)
    requires forall i :: 0 <= i < |t| ==> !IsDigit(t[i])
    ensures ParseWeight(t) == None
  {
    var body := if |t| > 0 && (t[0] == '-' || t[0] == '+') then t[1..] else t;
    var parts := Split(body, '.');
    if |parts| == 2 {
      JoinSplit(body, '.');
      assert Join(parts, '.') == parts[0] + ['.'] + parts[1] by {
        assert parts[1..] == [parts[1]];
      }
      if |parts[0]| > 0 {
        assert body[0] == parts[0][0];
      } else if |parts[1]| > 0 {
        assert body[1] == parts[1][0];
      }
    }
  }

  lemma ParseWeightExamples()
    ensures ParseWeight("0.5") == Some(0.5)
    ensures ParseWeight("12") == Some(12.0)
    ensures ParseWeight("abc") == None
  {
    ParseWeightHalf();
    ParseWeightWhole("12");
    ParseWeightNoDigit("abc");
  }

  /** A decimal weight with a fractional part. */
  lemma ParseWeightHalf()
    ensures ParseWeight("0.5") == Some(0.5)
  {
    ParseWeightDecimal("0", "5");
    assert "0" + "." + "5" == "0.5";
    assert Decimal("0", "5") == 0.5 by {
      assert DigitsValue("5") == 5 && DigitsValue("0") == 0 && Pow10(1) == 10;
    }
  }

  /** A character the rank class `[2-9TJQKA]` matches. */
  predicate IsRankChar(c: char) {
    c in "23456789TJQKA"
  }

  /** A character the suit class `[hdcs]` matches. */
  predicate IsSuitChar(c: char) {
    c in "hdcs"
  }

  /** A two-character text the card pattern `[2-9TJQKA][hdcs]` matches. */
  predicate IsCardCode(k: string) {
    |k| == 2 && IsRankChar(k[0]) && IsSuitChar(k[1])
  }

  lemma RankLetterOf(c: char)
    requires IsRankChar(c)
    ensures RankLetter(RankOfLetter(c)) == c
  {
  }

  lemma SuitCodeOf(c: char)
    requires IsSuitChar(c)
    ensures SuitCode(SuitOfCode(c)) == c
  {
  }

  lemma CodeMatches(r: Rank, s: Suit)
    ensures IsCardCode(Code(r, s))
  {
  }

  /** The codes the pattern matches are exactly the keys of the card table. */
  lemma CardCodeInTable(k: string)
    ensures IsCardCode(k) <==> k in CARDS
  {
    if IsCardCode(k) {
      var r, s := RankOfLetter(k[0]), SuitOfCode(k[1]);
      RankLetterOf(k[0]);
      SuitCodeOf(k[1]);
      assert k == Code(r, s);
      CardsCover(r, s);
    }
    if k in CARDS {
      CardsEntry(k);
      var r: Rank, s: Suit :| k == Code(r, s) && CARDS[k] == Card(s, r, k);
      CodeMatches(r, s);
    }
  }

  /** `str.extract_all("[2-9TJQKA][hdcs]")`: the non-overlapping matches, left to right. */
  function ExtractCards(s: string): seq<string>
    decreases |s|
  {
    if |s| < 2 then []
    else if IsRankChar(s[0]) && IsSuitChar(s[1]) then [s[..2]] + ExtractCards(s[2..])
    else ExtractCards(s[1..])
  }

  /** Every match is a card code, that is, a key of the card table. */
  lemma {:induction false} ExtractedAreCodes(s: string)
    ensures forall k :: k in ExtractCards(s) ==> IsCardCode(k) && k in CARDS
    decreases |s|
  {
    if |s| >= 2 {
      if IsRankChar(s[0]) && IsSuitChar(s[1]) {
        ExtractedAreCodes(s[2..]);
        CardCodeInTable(s[..2]);
      } else {
        ExtractedAreCodes(s[1..]);
      }
    }
  }

  /** Concatenated card codes are read back one by one. */
  lemma {:induction false} ExtractConcatenated(codes: seq<string>)
    requires forall i :: 0 <= i < |codes| ==> IsCardCode(codes[i])
    ensures ExtractCards(Flatten(codes)) == codes
    decreases |codes|
  {
    if |codes| > 0 {
      var s := Flatten(codes);
      assert s == codes[0] + Flatten(codes[1..]);
      assert s[..2] == codes[0] && s[2..] == Flatten(codes[1..]);
      ExtractConcatenated(codes[1..]);
      assert codes == [codes[0]] + codes[1..];
    }
  }

  /** Text without a rank character in front of the cards is skipped. */
  lemma {:induction false} ExtractSkips(junk: string, s: string)
    requires forall i :: 0 <= i < |junk| ==> !IsRankChar(junk[i])
    ensures ExtractCards(junk + s) == ExtractCards(s)
    decreases |junk|
  {
    if |junk| > 0 {
      var t := junk + s;
      assert t[0] == junk[0] && !IsRankChar(t[0]);
      assert t[1..] == junk[1..] + s;
      ExtractSkips(junk[1..], s);
      if |t| < 2 {
        assert s == [];
      } else {
        assert ExtractCards(t) == ExtractCards(t[1..]);
      }
    } else {
      assert junk + s == s;
    }
  }

  /** The ordered partners of `x`: `[x, y]` for every `y` of `cs` with `x < y` as strings. */
  function Partners(x: string, cs: seq<string>): seq<seq<string>> {
    if |cs| == 0 then []
    else (if LexLess(x, cs[0]) then [[x, cs[0]]] else []) + Partners(x, cs[1..])
  }

  function PairsFrom(xs: seq<string>, cs: seq<string>): seq<seq<string>> {
    if |xs| == 0 then [] else Partners(xs[0], cs) + PairsFrom(xs[1..], cs)
  }

  /**
    The self-join of a row's hole cards filtered by `card_1 < card_2`: one pair for every two
    positions whose cards are in string order, the smaller card first.
   */
  function HolePairs(cs: seq<string>): seq<seq<string>> {
    PairsFrom(cs, cs)
  }

  lemma {:induction false} PartnersMember(x: string, cs: seq<string>, p: seq<string>)
    ensures p in Partners(x, cs) <==> exists j :: 0 <= j < |cs| && LexLess(x, cs[j]) && p == [x, cs[j]]
  {
    if |cs| > 0 {
      PartnersMember(x, cs[1..], p);
      if exists j :: 0 <= j < |cs| && LexLess(x, cs[j]) && p == [x, cs[j]] {
        var j :| 0 <= j < |cs| && LexLess(x, cs[j]) && p == [x, cs[j]];
        if j > 0 {
          assert cs[1..][j - 1] == cs[j];
        }
      }
      if p in Partners(x, cs[1..]) {
        var j :| 0 <= j < |cs[1..]| && LexLess(x, cs[1..][j]) && p == [x, cs[1..][j]];
        assert cs[j + 1] == cs[1..][j];
      }
    }
  }

  lemma {:induction false} PairsFromMember(xs: seq<string>, cs: seq<string>, p: seq<string>)
    ensures p in PairsFrom(xs, cs) <==>
      exists i, j :: 0 <= i < |xs| && 0 <= j < |cs| && LexLess(xs[i], cs[j]) && p == [xs[i], cs[j]]
  {
    if |xs| > 0 {
      PairsFromMember(xs[1..], cs, p);
      PartnersMember(xs[0], cs, p);
      if exists i, j :: 0 <= i < |xs| && 0 <= j < |cs| && LexLess(xs[i], cs[j]) && p == [xs[i], cs[j]] {
        var i, j :| 0 <= i < |xs| && 0 <= j < |cs| && LexLess(xs[i], cs[j]) && p == [xs[i], cs[j]];
        if i > 0 {
          assert xs[1..][i - 1] == xs[i];
        }
      }
      if p in PairsFrom(xs[1..], cs) {
        var i, j :| 0 <= i < |xs[1..]| && 0 <= j < |cs| && LexLess(xs[1..][i], cs[j]) && p == [xs[1..][i], cs[j]];
        assert xs[i + 1] == xs[1..][i];
      }
    }
  }

  /** A pair is a hole pair exactly when both cards are hole cards and the first sorts before the second. */
  lemma HolePairsMember(cs: seq<string>, p: seq<string>)
    ensures p in HolePairs(cs) <==> |p| == 2 && p[0] in cs && p[1] in cs && LexLess(p[0], p[1])
  {
    PairsFromMember(cs, cs, p);
    if |p| == 2 && p[0] in cs && p[1] in cs && LexLess(p[0], p[1]) {
      var i :| 0 <= i < |cs| && cs[i] == p[0];
      var j :| 0 <= j < |cs| && cs[j] == p[1];
      assert p == [cs[i], cs[j]];
    }
  }

  /** Every hole pair holds two cards. */
  lemma HolePairsLength(cs: seq<string>, p: seq<string>)
    requires p in HolePairs(cs)
    ensures |p| == 2
  {
    HolePairsMember(cs, p);
  }

  /** Number of elements of `cs` that sort after `x`, and before it. */
  function CountAbove(x: string, cs: seq<string>): nat {
    if |cs| == 0 then 0 else (if LexLess(x, cs[0]) then 1 else 0) + CountAbove(x, cs[1..])
  }

  function CountBelow(x: string, cs: seq<string>): nat {
    if |cs| == 0 then 0 else (if LexLess(cs[0], x) then 1 else 0) + CountBelow(x, cs[1..])
  }

  lemma {:induction false} PartnersLength(x: string, cs: seq<string>)
    ensures |Partners(x, cs)| == CountAbove(x, cs)
  {
    if |cs| > 0 {
      PartnersLength(x, cs[1..]);
    }
  }

  function SumAbove(xs: seq<string>, cs: seq<string>): nat {
    if |xs| == 0 then 0 else CountAbove(xs[0], cs) + SumAbove(xs[1..], cs)
  }

  lemma {:induction false} PairsFromLength(xs: seq<string>, cs: seq<string>)
    ensures |PairsFrom(xs, cs)| == SumAbove(xs, cs)
  {
    if |xs| > 0 {
      PartnersLength(xs[0], cs);
      PairsFromLength(xs[1..], cs);
    }
  }

  /** Adding `a` in front of the compared cards adds one for each element below `a`. */
  lemma {:induction false} SumAboveCons(xs: seq<string>, a: string, rest: seq<string>)
    ensures SumAbove(xs, [a] + rest) == SumAbove(xs, rest) + CountBelow(a, xs)
  {
    if |xs| > 0 {
      SumAboveCons(xs[1..], a, rest);
      assert ([a] + rest)[1..] == rest;
    }
  }

  /** Every other distinct card is above or below `a`, never both. */
  lemma {:induction false} AboveBelow(a: string, rest: seq<string>)
    requires a !in rest
    ensures CountAbove(a, rest) + CountBelow(a, rest) == |rest|
  {
    if |rest| > 0 {
      LexTrichotomy(a, rest[0]);
      if LexLess(a, rest[0]) {
        LexAsymmetric(a, rest[0]);
      }
      assert a != rest[0];
      assert a !in rest[1..] by {
        assert forall y :: y in rest[1..] ==> y in rest;
      }
      AboveBelow(a, rest[1..]);
    }
  }

  lemma {:induction false} SumAboveDistinct(cs: seq<string>)
    requires Distinct(cs)
    ensures SumAbove(cs, cs) == Binomial(|cs|, 2)
  {
    if |cs| > 0 {
      var a, rest := cs[0], cs[1..];
      assert Distinct(rest);
      assert a !in rest;
      assert cs == [a] + rest;
      LexIrreflexive(a);
      assert CountAbove(a, cs) == CountAbove(a, rest);
      assert SumAbove(cs, cs) == CountAbove(a, cs) + SumAbove(rest, cs);
      SumAboveCons(rest, a, rest);
      SumAboveDistinct(rest);
      AboveBelow(a, rest);
      BinomialOne(|rest|);
    }
  }

  /** Distinct hole cards give one pair per unordered pair of them: C(n, 2) pairs. */
  lemma HolePairsCount(cs: seq<string>)
    requires Distinct(cs)
    ensures |HolePairs(cs)| == Binomial(|cs|, 2)
  {
    PairsFromLength(cs, cs);
    SumAboveDistinct(cs);
  }

  /** A candidate hand of one row, with the fields every candidate of that row carries. */
  datatype Candidate = Candidate(
    rowIdx: nat,
    action: Action,
    weight: Option<real>,
    communityCards: seq<string>,
    holeCards: seq<string>,
    hand: seq<string>)

  /**
    The candidates of line `idx`: for every board triple of the file, every hole pair of the
    line followed by that triple. A line without `:` or without an ordered pair of hole cards
    has no candidate, as in the inner join.
   */
  function RowCandidates(f: File, idx: nat, line: string): seq<Candidate> {
    var split := SplitExact(line);
    if split.1.None? then []
    else
      var cs := ExtractCards(split.1.value);
      CrossWith(Combos(f), HolePairs(cs), Expand(f, idx, ParseWeight(split.0), cs))
  }

  /** The candidate of a row with hole pair `p` and board triple `t`. */
  function Expand(f: File, idx: nat, weight: Option<real>, cs: seq<string>): (seq<string>, seq<string>) -> Candidate {
    (t: seq<string>, p: seq<string>) => Candidate(idx, f.action, weight, f.cards, cs, p + t)
  }

  /** All candidates of a file, line by line. */
  function ReadFile(f: File, lines: seq<string>): seq<Candidate> {
    Flatten(seq(|lines|, i requires 0 <= i < |lines| => RowCandidates(f, i, lines[i])))
  }

  /**
    A line with hole text yields |triples| * |pairs| candidates; candidate `i * |pairs| + j` is
    pair `j` followed by triple `i`, and carries the line's index, the file's action and
    cards, the line's weight and its hole cards.
   */
  lemma RowCandidatesAt(f: File, idx: nat, line: string, i: nat, j: nat)
    requires SplitExact(line).1.Some?
    requires i < |Combos(f)| && j < |HolePairs(LineHoleCards(line))|
    ensures |RowCandidates(f, idx, line)| == |Combos(f)| * |HolePairs(LineHoleCards(line))|
    ensures i * |HolePairs(LineHoleCards(line))| + j < |RowCandidates(f, idx, line)|
    ensures RowCandidates(f, idx, line)[i * |HolePairs(LineHoleCards(line))| + j] ==
      Candidate(idx, f.action, ParseWeight(SplitExact(line).0), f.cards, LineHoleCards(line),
                HolePairs(LineHoleCards(line))[j] + Combos(f)[i])
  {
    var split := SplitExact(line);
    var cs, combos := ExtractCards(split.1.value), Combos(f);
    var pairs := HolePairs(cs);
    var g := Expand(f, idx, ParseWeight(split.0), cs);
    assert RowCandidates(f, idx, line) == CrossWith(combos, pairs, g);
    CrossWithAt(combos, pairs, g, i, j);
    assert g(combos[i], pairs[j]) == Candidate(idx, f.action, ParseWeight(split.0), f.cards, cs, pairs[j] + combos[i]);
  }

  /** The hole cards extracted from a line's hole text. */
  function LineHoleCards(line: string): seq<string>
    requires SplitExact(line).1.Some?
  {
    ExtractCards(SplitExact(line).1.value)
  }

  /** Every candidate of a row is a hole pair of the row followed by a board triple, carrying the row's fields. */
  lemma RowCandidatesMember(f: File, idx: nat, line: string, c: Candidate)
    ensures c in RowCandidates(f, idx, line) <==>
      && SplitExact(line).1.Some?
      && exists i, j :: (0 <= i < |Combos(f)| && 0 <= j < |HolePairs(LineHoleCards(line))| &&
        c == Candidate(idx, f.action, ParseWeight(SplitExact(line).0), f.cards, LineHoleCards(line),
                       HolePairs(LineHoleCards(line))[j] + Combos(f)[i]))
  {
    var split := SplitExact(line);
    if split.1.Some? {
      var cs := LineHoleCards(line);
      var combos, pairs := Combos(f), HolePairs(cs);
      var g := Expand(f, idx, ParseWeight(split.0), cs);
      assert RowCandidates(f, idx, line) == CrossWith(combos, pairs, g);
      CrossWithMember(combos, pairs, g, c);
      if c in RowCandidates(f, idx, line) {
        var i, j :| 0 <= i < |combos| && 0 <= j < |pairs| && c == g(combos[i], pairs[j]);
        assert c == Candidate(idx, f.action, ParseWeight(split.0), f.cards, cs, pairs[j] + combos[i]);
      } else {
        forall i, j | 0 <= i < |combos| && 0 <= j < |pairs|
          ensures c != Candidate(idx, f.action, ParseWeight(split.0), f.cards, cs, pairs[j] + combos[i])
        {
          assert g(combos[i], pairs[j]) == Candidate(idx, f.action, ParseWeight(split.0), f.cards, cs, pairs[j] + combos[i]);
        }
      }
    } else {
      assert RowCandidates(f, idx, line) == [];
    }
  }

  /** Every candidate hand has five cards. */
  lemma RowCandidateHand(f: File, idx: nat, line: string, c: Candidate)
    requires c in RowCandidates(f, idx, line)
    ensures |c.hand| == 5
  {
    RowCandidatesMember(f, idx, line, c);
    var cs := ExtractCards(SplitExact(line).1.value);
    var i, j :| 0 <= i < |Combos(f)| && 0 <= j < |HolePairs(cs)| &&
      c == Candidate(idx, f.action, ParseWeight(SplitExact(line).0), f.cards, cs, HolePairs(cs)[j] + Combos(f)[i]);
    assert HolePairs(cs)[j] in HolePairs(cs) && Combos(f)[i] in Combos(f);
    HolePairsLength(cs, HolePairs(cs)[j]);
    CombinationLengths(f.cards, 3);
  }

  /** A candidate carries the index of the line it comes from. */
  lemma RowCandidatesIndex(f: File, idx: nat, line: string, c: Candidate)
    requires c in RowCandidates(f, idx, line)
    ensures c.rowIdx == idx
  {
    RowCandidatesMember(f, idx, line, c);
  }

  /** A candidate of the file comes from one line, whose index it carries. */
  lemma ReadFileMember(f: File, lines: seq<string>, c: Candidate)
    ensures c in ReadFile(f, lines) <==> c.rowIdx < |lines| && c in RowCandidates(f, c.rowIdx, lines[c.rowIdx])
  {
    var rows := seq(|lines|, i requires 0 <= i < |lines| => RowCandidates(f, i, lines[i]));
    assert ReadFile(f, lines) == Flatten(rows);
    FlattenMember(rows, c);
    if c in ReadFile(f, lines) {
      var i :| 0 <= i < |rows| && c in rows[i];
      RowCandidatesIndex(f, i, lines[i], c);
    }
    if c.rowIdx < |lines| && c in RowCandidates(f, c.rowIdx, lines[c.rowIdx]) {
      assert c in rows[c.rowIdx];
    }
  }
}
