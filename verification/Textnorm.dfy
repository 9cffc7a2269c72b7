/** Edit distance and alignment as computed by `textnorm`: a two-row table for
    the distance, a full table with a walk back for the alignment, and the
    metric laws of the distance. */
module Textnorm {
  import opened EditScripts
  import opened Sequences

  ghost function Levenshtein<T>(a: seq<T>, b: seq<T>): nat {
    Distance(a, b, |a|, |b|)
  }

  /** Two-row table. */
  method LevenshteinTwoRow<T(==)>(a: seq<T>, b: seq<T>) returns (d: nat)
    ensures d == Levenshtein(a, b)
    ensures exists ops :: Optimal(a, b, |a|, |b|, ops) && Cost(ops) == d
  {
    hide Distance;
    DistanceIsLeastCost(a, b, |a|, |b|);
    assert Optimal(a, b, |a|, |b|, Backtrace(a, b, |a|, |b|));
    DistanceUnfolds(a, b, |a|, |b|);
    if |a| == 0 {
      return |b|;
    }
    if |b| == 0 {
      return |a|;
    }
    var previous := seq(|b| + 1, j => j);
    forall j | 0 <= j <= |b| ensures previous[j] == Distance(a, b, 0, j) {
      DistanceUnfolds(a, b, 0, j);
    }
    for i := 1 to |a| + 1
      invariant |previous| == |b| + 1
      invariant forall j :: 0 <= j <= |b| ==> previous[j] == Distance(a, b, i - 1, j)
    {
      var current := [i];
      DistanceUnfolds(a, b, i, 0);
      for j := 1 to |b| + 1
        invariant |current| == j
        invariant forall k :: 0 <= k < j ==> current[k] == Distance(a, b, i, k)
      {
        DistanceUnfolds(a, b, i, j);
        current := current + [Min3(previous[j - 1] + Differ(a[i - 1], b[j - 1]), previous[j] + 1, current[j - 1] + 1)];
      }
      previous := current;
    }
    d := previous[|b|];
  }

  /** Every cell of the table holds the distance of its two prefixes. */
  ghost predicate Tabulates<T>(dist: array2<nat>, a: seq<T>, b: seq<T>)
    reads dist
  {
    && dist.Length0 == |a| + 1 && dist.Length1 == |b| + 1
    && forall i, j :: 0 <= i <= |a| && 0 <= j <= |b| ==> dist[i, j] == Distance(a, b, i, j)
  }

  /** The full distance table of `align`. */
  method DistanceTable<T(==)>(reference: seq<T>, hypothesis: seq<T>) returns (dist: array2<nat>)
    ensures Tabulates(dist, reference, hypothesis)
  {
    hide Distance;
    var n, m := |reference|, |hypothesis|;
    dist := new nat[n + 1, m + 1];
    for i := 0 to n + 1
      invariant forall k :: 0 <= k < i ==> dist[k, 0] == Distance(reference, hypothesis, k, 0)
    {
      DistanceUnfolds(reference, hypothesis, i, 0);
      dist[i, 0] := i;
    }
    for j := 0 to m + 1
      invariant forall k :: 0 <= k <= n ==> dist[k, 0] == Distance(reference, hypothesis, k, 0)
      invariant forall l :: 0 <= l < j ==> dist[0, l] == Distance(reference, hypothesis, 0, l)
    {
      DistanceUnfolds(reference, hypothesis, 0, j);
      dist[0, j] := j;
    }
    for i := 1 to n + 1
      invariant forall k, l :: 0 <= k < i && 0 <= l <= m ==> dist[k, l] == Distance(reference, hypothesis, k, l)
      invariant forall k :: 0 <= k <= n ==> dist[k, 0] == Distance(reference, hypothesis, k, 0)
    {
      for j := 1 to m + 1
        invariant forall k, l :: 0 <= k < i && 0 <= l <= m ==> dist[k, l] == Distance(reference, hypothesis, k, l)
        invariant forall k :: 0 <= k <= n ==> dist[k, 0] == Distance(reference, hypothesis, k, 0)
        invariant forall l :: 0 <= l < j ==> dist[i, l] == Distance(reference, hypothesis, i, l)
      {
        DistanceUnfolds(reference, hypothesis, i, j);
        dist[i, j] := Min3(dist[i - 1, j - 1] + Differ(reference[i - 1], hypothesis[j - 1]),
                           dist[i - 1, j] + 1,
                           dist[i, j - 1] + 1);
      }
    }
  }

  /** Alignment with a walk back: the script is valid, as cheap as any, as cheap
      as the two-row distance says, and the preferred one among its equals. */
  method Align<T(==)>(reference: seq<T>, hypothesis: seq<T>) returns (ops: seq<Op>)
    ensures Optimal(reference, hypothesis, |reference|, |hypothesis|, ops)
    ensures Cost(ops) == Levenshtein(reference, hypothesis)
    ensures RefIndices(ops) == Upto(|reference|) && HypIndices(ops) == Upto(|hypothesis|)
    ensures forall other :: Optimal(reference, hypothesis, |reference|, |hypothesis|, other) ==> Preferred(ops, other)
    ensures ops == Backtrace(reference, hypothesis, |reference|, |hypothesis|)
  {
    hide Distance;
    hide Backtrace;
    hide Script;
    hide Optimal;
    hide Preferred;
    hide Cost;
    hide RefIndices;
    hide HypIndices;
    hide Reverse;
    var dist := DistanceTable(reference, hypothesis);
    var i: nat, j: nat := |reference|, |hypothesis|;
    ghost var whole := Backtrace(reference, hypothesis, i, j);
    ops := [];
    ReverseEmpty<Op>();
    while i > 0 || j > 0
      invariant i <= |reference| && j <= |hypothesis|
      invariant Tabulates(dist, reference, hypothesis)
      invariant whole == Backtrace(reference, hypothesis, i, j) + Reverse(ops)
      decreases i + j
    {
      BacktraceSnoc(reference, hypothesis, i, j);
      LastOpCases(reference, hypothesis, i, j);
      ghost var was, op := ops, LastOp(reference, hypothesis, i, j);
      if i > 0 && j > 0 && dist[i, j] == dist[i - 1, j - 1] + Differ(reference[i - 1], hypothesis[j - 1]) {
        var same := reference[i - 1] == hypothesis[j - 1];
        ops := ops + [if same then Match(i - 1, j - 1) else Sub(i - 1, j - 1)];
        i, j := i - 1, j - 1;
      } else if i > 0 && dist[i, j] == dist[i - 1, j] + 1 {
        ops := ops + [Del(i - 1)];
        i := i - 1;
      } else {
        ops := ops + [Ins(j - 1)];
        j := j - 1;
      }
      assert ops == was + [op];
      ReverseSnoc(was, op);
    }
    BacktraceEmpty(reference, hypothesis);
    ops := Reverse(ops);
    assert ops == whole;
    BacktraceMeetsItsContract(reference, hypothesis);
  }

  lemma {:induction false} BacktraceEmpty<T>(a: seq<T>, b: seq<T>)
    ensures Backtrace(a, b, 0, 0) == []
  {
  }

  lemma {:induction false} BacktraceMeetsItsContract<T>(a: seq<T>, b: seq<T>)
    ensures var ops := Backtrace(a, b, |a|, |b|);
            && Optimal(a, b, |a|, |b|, ops)
            && Cost(ops) == Levenshtein(a, b)
            && RefIndices(ops) == Upto(|a|) && HypIndices(ops) == Upto(|b|)
            && forall other :: Optimal(a, b, |a|, |b|, other) ==> Preferred(ops, other)
  {
    DistanceIsLeastCost(a, b, |a|, |b|);
    BacktraceCost(a, b, |a|, |b|);
    ScriptConsumesInOrder(a, b, |a|, |b|, Backtrace(a, b, |a|, |b|));
    forall other | Optimal(a, b, |a|, |b|, other)
      ensures Preferred(Backtrace(a, b, |a|, |b|), other)
    {
      BacktraceIsPreferred(a, b, |a|, |b|, other);
    }
  }

  // ---- the distance is a metric on sequences ----

  lemma {:induction false} ZeroIffEqual<T>(a: seq<T>, b: seq<T>, i: nat, j: nat)
    requires i <= |a| && j <= |b|
    ensures Distance(a, b, i, j) == 0 <==> a[..i] == b[..j]
    decreases i + j
  {
    if i > 0 && j > 0 {
      ZeroIffEqual(a, b, i - 1, j - 1);
      assert a[..i] == a[..i - 1] + [a[i - 1]];
      assert b[..j] == b[..j - 1] + [b[j - 1]];
    }
  }

  lemma {:induction false} Symmetric<T>(a: seq<T>, b: seq<T>, i: nat, j: nat)
    requires i <= |a| && j <= |b|
    ensures Distance(a, b, i, j) == Distance(b, a, j, i)
    decreases i + j
  {
    if i > 0 && j > 0 {
      Symmetric(a, b, i - 1, j - 1);
      Symmetric(a, b, i - 1, j);
      Symmetric(a, b, i, j - 1);
    }
  }

  /** The distance as one of its three last steps. */
  lemma {:induction false} LastStep<T>(a: seq<T>, b: seq<T>, i: nat, j: nat)
    requires 0 < i <= |a| && 0 < j <= |b|
    ensures Distance(a, b, i, j) <= Distance(a, b, i - 1, j) + 1
    ensures Distance(a, b, i, j) <= Distance(a, b, i, j - 1) + 1
    ensures Distance(a, b, i, j) <= Distance(a, b, i - 1, j - 1) + Differ(a[i - 1], b[j - 1])
    ensures || Distance(a, b, i, j) == Distance(a, b, i - 1, j) + 1
            || Distance(a, b, i, j) == Distance(a, b, i, j - 1) + 1
            || Distance(a, b, i, j) == Distance(a, b, i - 1, j - 1) + Differ(a[i - 1], b[j - 1])
  {
  }

  /** Triangle inequality, by the last steps of the two legs: the middle item is
      reached by one leg alone, or by both. */
  lemma {:induction false} Triangle<T>(a: seq<T>, b: seq<T>, c: seq<T>, i: nat, j: nat, k: nat)
    requires i <= |a| && j <= |b| && k <= |c|
    ensures Distance(a, c, i, k) <= Distance(a, b, i, j) + Distance(b, c, j, k)
    decreases i + j + k
  {
    if i == 0 {
      LengthGap(b, c, j, k);
    } else if k == 0 {
      LengthGap(a, b, i, j);
    } else if j == 0 {
      LengthSum(a, c, i, k);
    } else {
      TriangleStep(a, b, c, i, j, k);
    }
  }

  lemma {:induction false} TriangleStep<T>(a: seq<T>, b: seq<T>, c: seq<T>, i: nat, j: nat, k: nat)
    requires 0 < i <= |a| && 0 < j <= |b| && 0 < k <= |c|
    ensures Distance(a, c, i, k) <= Distance(a, b, i, j) + Distance(b, c, j, k)
    decreases i + j + k, 0
  {
    hide Distance;
    LastStep(a, c, i, k);
    LastStep(a, b, i, j);
    LastStep(b, c, j, k);
    if Distance(a, b, i, j) == Distance(a, b, i - 1, j) + 1 {
      Triangle(a, b, c, i - 1, j, k);
    } else if Distance(b, c, j, k) == Distance(b, c, j, k - 1) + 1 {
      Triangle(a, b, c, i, j, k - 1);
    } else if Distance(a, b, i, j) == Distance(a, b, i, j - 1) + 1 {
      if Distance(b, c, j, k) == Distance(b, c, j - 1, k) + 1 {
        Triangle(a, b, c, i, j - 1, k);
      } else {
        Triangle(a, b, c, i, j - 1, k - 1);
      }
    } else if Distance(b, c, j, k) == Distance(b, c, j - 1, k) + 1 {
      Triangle(a, b, c, i - 1, j - 1, k);
    } else {
      Triangle(a, b, c, i - 1, j - 1, k - 1);
    }
  }

  lemma {:induction false} LengthGap<T>(a: seq<T>, b: seq<T>, i: nat, j: nat)
    requires i <= |a| && j <= |b|
    ensures i <= Distance(a, b, i, j) + j && j <= Distance(a, b, i, j) + i
    decreases i + j
  {
    if i > 0 && j > 0 {
      LengthGap(a, b, i - 1, j - 1);
      LengthGap(a, b, i - 1, j);
      LengthGap(a, b, i, j - 1);
    }
  }

  lemma {:induction false} LengthSum<T>(a: seq<T>, b: seq<T>, i: nat, j: nat)
    requires i <= |a| && j <= |b|
    ensures Distance(a, b, i, j) <= i + j
    decreases i + j
  {
    if i > 0 && j > 0 {
      LengthSum(a, b, i - 1, j);
    }
  }

  /** Zero exactly on equal sequences, symmetric, and subject to the triangle inequality. */
  lemma {:induction false} LevenshteinIsMetric<T>(a: seq<T>, b: seq<T>, c: seq<T>)
    ensures Levenshtein(a, b) == 0 <==> a == b
    ensures Levenshtein(a, b) == Levenshtein(b, a)
    ensures Levenshtein(a, c) <= Levenshtein(a, b) + Levenshtein(b, c)
  {
    ZeroIffEqual(a, b, |a|, |b|);
    assert a[..|a|] == a && b[..|b|] == b;
    Symmetric(a, b, |a|, |b|);
    Triangle(a, b, c, |a|, |b|, |c|);
  }
}
