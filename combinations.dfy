/** `itertools.combinations`: every k-element selection of a sequence, in index order. */
module Combinatorics {
  import opened Base

  /** The binomial coefficient C(n, k), by Pascal's rule. */
  function Binomial(n: nat, k: nat): nat
    decreases n
  {
    if k == 0 then 1 else if n == 0 then 0 else Binomial(n - 1, k - 1) + Binomial(n - 1, k)
  }

  lemma {:induction false} BinomialOne(n: nat)
    ensures Binomial(n, 1) == n
  {
    if n > 0 {
      BinomialOne(n - 1);
    }
  }

  /** C(n, 2) == n(n - 1)/2. */
  lemma {:induction false} BinomialTwo(n: nat)
    ensures 2 * Binomial(n, 2) == n * (n - 1)
  {
    if n > 0 {
      BinomialTwo(n - 1);
      BinomialOne(n - 1);
    }
  }

  /** Prefixes `x` to every selection. */
  function PrependAll<T>(x: T, cs: seq<seq<T>>): (r: seq<seq<T>>)
    ensures |r| == |cs|
    ensures forall i :: 0 <= i < |cs| ==> r[i] == [x] + cs[i]
  {
    seq(|cs|, i requires 0 <= i < |cs| => [x] + cs[i])
  }

  /**
    The k-element selections of `items` in the order `itertools.combinations` yields them:
    those that start with the first item, then those that skip it.
   */
  function Combinations<T>(items: seq<T>, k: nat): (r: seq<seq<T>>)
    ensures |r| == Binomial(|items|, k)
    decreases |items|
  {
    if k == 0 then [[]]
    else if |items| == 0 then []
    else PrependAll(items[0], Combinations(items[1..], k - 1)) + Combinations(items[1..], k)
  }

  /** `idx` lists positions below `n` in strictly increasing order. */
  predicate Increasing(idx: seq<nat>, n: nat) {
    && (forall i :: 0 <= i < |idx| ==> idx[i] < n)
    && (forall i, j :: 0 <= i < j < |idx| ==> idx[i] < idx[j])
  }

  /** The items at the positions `idx`, in that order. */
  function Select<T>(items: seq<T>, idx: seq<nat>): (r: seq<T>)
    requires Increasing(idx, |items|)
    ensures |r| == |idx|
  {
    seq(|idx|, i requires 0 <= i < |idx| => items[idx[i]])
  }

  function Shift(idx: seq<nat>): (r: seq<nat>)
    ensures |r| == |idx|
  {
    seq(|idx|, i requires 0 <= i < |idx| => idx[i] + 1)
  }

  /** Positions in the tail, moved one place right, are positions in the whole. */
  lemma ShiftSelect<T>(items: seq<T>, idx: seq<nat>)
    requires |items| > 0 && Increasing(idx, |items| - 1)
    ensures Increasing(Shift(idx), |items|)
    ensures Select(items, Shift(idx)) == Select(items[1..], idx)
  {
  }

  /** Position 0 followed by shifted tail positions selects the first item, then the tail's. */
  lemma PrependSelect<T>(items: seq<T>, idx: seq<nat>)
    requires |items| > 0 && Increasing(idx, |items| - 1)
    ensures Increasing([0] + Shift(idx), |items|)
    ensures Select(items, [0] + Shift(idx)) == [items[0]] + Select(items[1..], idx)
  {
    var full := [0] + Shift(idx);
    assert forall i :: 1 <= i < |full| ==> full[i] == idx[i - 1] + 1;
    ShiftSelect(items, idx);
  }

  lemma CombinationsUnfold<T>(items: seq<T>, k: nat)
    requires k > 0 && |items| > 0
    ensures Combinations(items, k) ==
      PrependAll(items[0], Combinations(items[1..], k - 1)) + Combinations(items[1..], k)
  {
  }

  lemma PrependAllMember<T>(x: T, cs: seq<seq<T>>, c: seq<T>)
    requires c in cs
    ensures [x] + c in PrependAll(x, cs)
  {
    var n :| 0 <= n < |cs| && cs[n] == c;
    assert PrependAll(x, cs)[n] == [x] + c;
  }

  /** Every selection picks its items at strictly increasing positions. */
  lemma {:induction false} CombinationIndices<T>(items: seq<T>, k: nat, c: seq<T>) returns (idx: seq<nat>)
    requires c in Combinations(items, k)
    ensures |idx| == k && Increasing(idx, |items|) && c == Select(items, idx)
    decreases |items|
  {
    if k == 0 {
      idx := [];
      assert c == [];
    } else {
      assert |items| > 0;
      var rest := items[1..];
      var sub := Combinations(rest, k - 1);
      var first := PrependAll(items[0], sub);
      CombinationsUnfold(items, k);
      if c in first {
        var n :| 0 <= n < |first| && first[n] == c;
        var subIdx := CombinationIndices(rest, k - 1, sub[n]);
        PrependSelect(items, subIdx);
        idx := [0] + Shift(subIdx);
      } else {
        assert c in Combinations(rest, k);
        var subIdx := CombinationIndices(rest, k, c);
        ShiftSelect(items, subIdx);
        idx := Shift(subIdx);
      }
    }
  }

  /** Positions starting at 0 are 0 followed by shifted positions of the tail. */
  lemma SplitLeadingZero(idx: seq<nat>, n: nat) returns (tail: seq<nat>)
    requires n > 0 && Increasing(idx, n) && |idx| > 0 && idx[0] == 0
    ensures Increasing(tail, n - 1) && idx == [0] + Shift(tail) && |tail| == |idx| - 1
  {
    tail := seq(|idx| - 1, i requires 0 <= i < |idx| - 1 => idx[i + 1] - 1);
  }

  /** Positions that all exceed 0 are shifted positions of the tail. */
  lemma LowerPositions(idx: seq<nat>, n: nat) returns (down: seq<nat>)
    requires n > 0 && Increasing(idx, n) && |idx| > 0 && idx[0] > 0
    ensures Increasing(down, n - 1) && idx == Shift(down)
  {
    forall i | 0 <= i < |idx| ensures idx[i] > 0 {
      if i > 0 {
        assert idx[0] < idx[i];
      }
    }
    down := seq(|idx|, i requires 0 <= i < |idx| => idx[i] - 1);
  }

  /** Every choice of strictly increasing positions is one of the selections. */
  lemma {:induction false} SelectionIsCombination<T>(items: seq<T>, idx: seq<nat>)
    requires Increasing(idx, |items|)
    ensures Select(items, idx) in Combinations(items, |idx|)
    decreases |items|
  {
    if |idx| > 0 {
      assert idx[0] < |items|;
      var rest := items[1..];
      CombinationsUnfold(items, |idx|);
      if idx[0] == 0 {
        var tail := SplitLeadingZero(idx, |items|);
        SelectionIsCombination(rest, tail);
        PrependSelect(items, tail);
        PrependAllMember(items[0], Combinations(rest, |idx| - 1), Select(rest, tail));
      } else {
        var down := LowerPositions(idx, |items|);
        SelectionIsCombination(rest, down);
        ShiftSelect(items, down);
      }
    } else {
      assert Select(items, idx) == [];
    }
  }

  /** Every selection has `k` items. */
  lemma CombinationLengths<T>(items: seq<T>, k: nat)
    ensures forall c :: c in Combinations(items, k) ==> |c| == k
  {
    forall c | c in Combinations(items, k) ensures |c| == k {
      var idx := CombinationIndices(items, k, c);
    }
  }

  /** Every item of a selection is an item of the input. */
  lemma CombinationItems<T>(items: seq<T>, k: nat, c: seq<T>)
    requires c in Combinations(items, k)
    ensures forall x :: x in c ==> x in items
  {
    var idx := CombinationIndices(items, k, c);
  }

  lemma PrependAllDistinct<T>(x: T, cs: seq<seq<T>>)
    requires Distinct(cs)
    ensures Distinct(PrependAll(x, cs))
  {
    var r := PrependAll(x, cs);
    forall i, j | 0 <= i < j < |r| ensures r[i] != r[j] {
      assert r[i][1..] == cs[i] && r[j][1..] == cs[j];
    }
  }

  /** Selections that start with an item and selections from the items after it differ. */
  lemma FirstAndRestDisjoint<T>(items: seq<T>, k: nat)
    requires |items| > 0 && k > 0 && items[0] !in items[1..]
    ensures forall c :: c in PrependAll(items[0], Combinations(items[1..], k - 1)) ==>
      c !in Combinations(items[1..], k)
  {
    var with := PrependAll(items[0], Combinations(items[1..], k - 1));
    forall c | c in with ensures c !in Combinations(items[1..], k) {
      var n :| 0 <= n < |with| && with[n] == c;
      assert c[0] == items[0] && c[0] in c;
      if c in Combinations(items[1..], k) {
        CombinationItems(items[1..], k, c);
      }
    }
  }

  /** From distinct items, no selection occurs twice. */
  lemma {:induction false} CombinationsDistinct<T>(items: seq<T>, k: nat)
    requires Distinct(items)
    ensures Distinct(Combinations(items, k))
    decreases |items|
  {
    if k > 0 && |items| > 0 {
      var rest := items[1..];
      assert Distinct(rest);
      assert items[0] !in rest;
      CombinationsDistinct(rest, k - 1);
      CombinationsDistinct(rest, k);
      PrependAllDistinct(items[0], Combinations(rest, k - 1));
      FirstAndRestDisjoint(items, k);
      DistinctConcat(PrependAll(items[0], Combinations(rest, k - 1)), Combinations(rest, k));
      CombinationsUnfold(items, k);
    }
  }

  /** The binomial counts the source's boards use. */
  lemma BoardCombinationCounts()
    ensures Binomial(3, 3) == 1 && Binomial(4, 3) == 4 && Binomial(5, 3) == 10
    ensures Binomial(2, 2) == 1 && Binomial(4, 2) == 6
  {
  }
}
