/** Small value types and sequence facts shared by the rest of the model. */
module Base {

  /** A value that may be missing, as a null cell of a data frame. */
  datatype Option<+T> = None | Some(value: T)

  /** The outcome of an operation that may raise. */
  datatype Result<+T, +E> = Ok(value: T) | Err(error: E)

  /** Number of occurrences of `x` in `s`. */
  function Count<T(==)>(s: seq<T>, x: T): (n: nat)
    ensures n <= |s|
    ensures n == 0 <==> x !in s
  {
    if |s| == 0 then 0 else (if s[0] == x then 1 else 0) + Count(s[1..], x)
  }

  lemma {:induction false} CountAppend<T>(a: seq<T>, b: seq<T>, x: T)
    ensures Count(a + b, x) == Count(a, x) + Count(b, x)
  {
    if |a| == 0 {
      assert a + b == b;
    } else {
      assert (a + b)[1..] == a[1..] + b;
      CountAppend(a[1..], b, x);
    }
  }

  /** No element occurs twice. */
  predicate Distinct<T(==)>(s: seq<T>) {
    forall i, j :: 0 <= i < j < |s| ==> s[i] != s[j]
  }

  /** Two duplicate-free sequences with no element in common concatenate to one. */
  lemma DistinctConcat<T>(a: seq<T>, b: seq<T>)
    requires Distinct(a) && Distinct(b)
    requires forall x :: x in a ==> x !in b
    ensures Distinct(a + b)
  {
    forall i, j | 0 <= i < j < |a + b| ensures (a + b)[i] != (a + b)[j] {
      if i < |a| && j >= |a| {
        assert (a + b)[i] in a && (a + b)[j] == b[j - |a|];
      }
    }
  }

  /** The set of elements of a sequence. */
  function Elements<T>(s: seq<T>): set<T> {
    set x | x in s
  }

  lemma {:induction false} DistinctCardinality<T>(s: seq<T>)
    requires Distinct(s)
    ensures |Elements(s)| == |s|
  {
    if |s| > 0 {
      DistinctCardinality(s[1..]);
      assert Elements(s) == Elements(s[1..]) + {s[0]};
      assert s[0] !in Elements(s[1..]) by {
        forall k | 0 <= k < |s[1..]|
          ensures s[1..][k] != s[0]
        {
          assert s[1..][k] == s[k + 1];
        }
      }
    } else {
      assert Elements(s) == {};
    }
  }

  /** The distinct elements of a sequence, in the order they first appear. */
  function FirstAppearance<T(==)>(xs: seq<T>): seq<T>
    decreases |xs|
  {
    if |xs| == 0 then []
    else
      var r := FirstAppearance(xs[..|xs| - 1]);
      if xs[|xs| - 1] in r then r else r + [xs[|xs| - 1]]
  }

  lemma {:induction false} FirstAppearanceShape<T>(xs: seq<T>)
    ensures Distinct(FirstAppearance(xs))
    ensures forall x :: x in FirstAppearance(xs) <==> x in xs
    decreases |xs|
  {
    if |xs| > 0 {
      var init := xs[..|xs| - 1];
      FirstAppearanceShape(init);
      assert xs == init + [xs[|xs| - 1]];
      var r := FirstAppearance(init);
      if xs[|xs| - 1] !in r {
        DistinctConcat(r, [xs[|xs| - 1]]);
      }
    }
  }

  /** Concatenation of a sequence of sequences, in order. */
  function Flatten<T>(ss: seq<seq<T>>): (r: seq<T>)
  {
    if |ss| == 0 then [] else ss[0] + Flatten(ss[1..])
  }

  lemma {:induction false} FlattenAppend<T>(a: seq<seq<T>>, b: seq<seq<T>>)
    ensures Flatten(a + b) == Flatten(a) + Flatten(b)
  {
    if |a| == 0 {
      assert a + b == b;
    } else {
      assert (a + b)[1..] == a[1..] + b;
      FlattenAppend(a[1..], b);
    }
  }

  /** Membership in a flattened sequence is membership in one of its parts. */
  lemma {:induction false} FlattenMember<T>(ss: seq<seq<T>>, x: T)
    ensures x in Flatten(ss) <==> exists i :: 0 <= i < |ss| && x in ss[i]
  {
    if |ss| > 0 {
      FlattenMember(ss[1..], x);
      if x in Flatten(ss[1..]) {
        var i :| 0 <= i < |ss[1..]| && x in ss[1..][i];
        assert x in ss[i + 1];
      }
      if exists i :: 0 <= i < |ss| && x in ss[i] {
        var i :| 0 <= i < |ss| && x in ss[i];
        if i > 0 {
          assert x in ss[1..][i - 1];
        }
      }
    }
  }

  /** Length of a flattened sequence whose parts all have length `k`. */
  lemma {:induction false} FlattenUniformLength<T>(ss: seq<seq<T>>, k: nat)
    requires forall i :: 0 <= i < |ss| ==> |ss[i]| == k
    ensures |Flatten(ss)| == |ss| * k
  {
    if |ss| > 0 {
      FlattenUniformLength(ss[1..], k);
    }
  }

  /** A flattened sequence splits around any one of its parts. */
  lemma {:induction false} FlattenSplit<T>(ss: seq<seq<T>>, i: nat)
    requires i < |ss|
    ensures Flatten(ss) == Flatten(ss[..i]) + ss[i] + Flatten(ss[i + 1..])
  {
    assert ss == ss[..i] + ([ss[i]] + ss[i + 1..]);
    FlattenAppend(ss[..i], [ss[i]] + ss[i + 1..]);
    FlattenAppend([ss[i]], ss[i + 1..]);
    assert Flatten([ss[i]]) == ss[i] by {
      assert [ss[i]][1..] == [];
    }
  }

  /** Element `i * k + j` of a flattened sequence of parts of length `k`. */
  lemma {:induction false} FlattenUniformAt<T>(ss: seq<seq<T>>, k: nat, i: nat, j: nat)
    requires forall n :: 0 <= n < |ss| ==> |ss[n]| == k
    requires i < |ss| && j < k
    ensures |Flatten(ss)| == |ss| * k
    ensures i * k + j < |Flatten(ss)| && Flatten(ss)[i * k + j] == ss[i][j]
  {
    FlattenUniformLength(ss, k);
    FlattenSplit(ss, i);
    FlattenUniformLength(ss[..i], k);
    var a, b, c := Flatten(ss[..i]), ss[i], Flatten(ss[i + 1..]);
    assert |ss[..i]| == i;
    assert |a| == i * k;
    assert Flatten(ss) == a + b + c;
    assert |a| + j < |a + b + c|;
    assert (a + b + c)[|a| + j] == b[j];
  }

  /** `[f(x, y) for x in xs for y in ys]`: the outer sequence varies slowest. */
  function CrossWith<A, B, C>(xs: seq<A>, ys: seq<B>, f: (A, B) -> C): seq<C> {
    Flatten(seq(|xs|, i requires 0 <= i < |xs| => seq(|ys|, j requires 0 <= j < |ys| => f(xs[i], ys[j]))))
  }

  /** There are |xs| * |ys| elements, and element `i * |ys| + j` combines `xs[i]` with `ys[j]`. */
  lemma CrossWithAt<A, B, C>(xs: seq<A>, ys: seq<B>, f: (A, B) -> C, i: nat, j: nat)
    requires i < |xs| && j < |ys|
    ensures |CrossWith(xs, ys, f)| == |xs| * |ys|
    ensures i * |ys| + j < |CrossWith(xs, ys, f)| && CrossWith(xs, ys, f)[i * |ys| + j] == f(xs[i], ys[j])
  {
    var rows := seq(|xs|, i requires 0 <= i < |xs| => seq(|ys|, j requires 0 <= j < |ys| => f(xs[i], ys[j])));
    FlattenUniformAt(rows, |ys|, i, j);
  }

  lemma CrossWithLength<A, B, C>(xs: seq<A>, ys: seq<B>, f: (A, B) -> C)
    ensures |CrossWith(xs, ys, f)| == |xs| * |ys|
  {
    var rows := seq(|xs|, i requires 0 <= i < |xs| => seq(|ys|, j requires 0 <= j < |ys| => f(xs[i], ys[j])));
    FlattenUniformLength(rows, |ys|);
  }

  /** An element of the cross product combines some element of `xs` with some element of `ys`. */
  lemma CrossWithMember<A, B, C>(xs: seq<A>, ys: seq<B>, f: (A, B) -> C, c: C)
    ensures c in CrossWith(xs, ys, f) <==> exists i, j :: 0 <= i < |xs| && 0 <= j < |ys| && c == f(xs[i], ys[j])
  {
    var rows := seq(|xs|, i requires 0 <= i < |xs| => seq(|ys|, j requires 0 <= j < |ys| => f(xs[i], ys[j])));
    FlattenMember(rows, c);
    if exists i, j :: 0 <= i < |xs| && 0 <= j < |ys| && c == f(xs[i], ys[j]) {
      var i, j :| 0 <= i < |xs| && 0 <= j < |ys| && c == f(xs[i], ys[j]);
      assert c == rows[i][j];
    }
  }
}
