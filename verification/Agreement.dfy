/** Longest common subsequences of two token lists: the direction-table form
    with a walk back (`_lcs_pairs`, `_pairs`) and the rolling-row count
    (`aligned_text_agreement`). */
module Agreement {
  import opened Sequences

  /** `pairs` matches equal tokens one-to-one, in order, inside the prefixes `i` and `j`. */
  ghost predicate Matching<T>(left: seq<T>, right: seq<T>, i: nat, j: nat, pairs: seq<(nat, nat)>)
    requires i <= |left| && j <= |right|
  {
    && (forall k :: 0 <= k < |pairs| ==> pairs[k].0 < i && pairs[k].1 < j && left[pairs[k].0] == right[pairs[k].1])
    && (forall k, l :: 0 <= k < l < |pairs| ==> pairs[k].0 < pairs[l].0 && pairs[k].1 < pairs[l].1)
  }

  /** No matching of the whole lists is longer. */
  ghost predicate Longest<T>(left: seq<T>, right: seq<T>, size: nat) {
    forall other :: Matching(left, right, |left|, |right|, other) ==> |other| <= size
  }

  function Lcs<T(==)>(left: seq<T>, right: seq<T>, i: nat, j: nat): nat
    requires i <= |left| && j <= |right|
    decreases i + j
  {
    if i == 0 || j == 0 then 0
    else if left[i - 1] == right[j - 1] then Lcs(left, right, i - 1, j - 1) + 1
    else if Lcs(left, right, i - 1, j) >= Lcs(left, right, i, j - 1) then Lcs(left, right, i - 1, j)
    else Lcs(left, right, i, j - 1)
  }

  const DIAGONAL: nat := 1
  const UP: nat := 2
  const LEFT: nat := 3

  function Direction<T(==)>(left: seq<T>, right: seq<T>, i: nat, j: nat): nat
    requires 0 < i <= |left| && 0 < j <= |right|
  {
    if left[i - 1] == right[j - 1] then DIAGONAL
    else if Lcs(left, right, i - 1, j) >= Lcs(left, right, i, j - 1) then UP
    else LEFT
  }

  /** The pairs met when following the directions from `(i, j)`. */
  function Trace<T(==)>(left: seq<T>, right: seq<T>, i: nat, j: nat): seq<(nat, nat)>
    requires i <= |left| && j <= |right|
    decreases i + j
  {
    if i == 0 || j == 0 then []
    else
      var d := Direction(left, right, i, j);
      if d == DIAGONAL then Trace(left, right, i - 1, j - 1) + [(i - 1, j - 1)]
      else if d == UP then Trace(left, right, i - 1, j)
      else Trace(left, right, i, j - 1)
  }

  lemma {:induction false} MatchingAtMostLcs<T>(left: seq<T>, right: seq<T>, i: nat, j: nat, pairs: seq<(nat, nat)>)
    requires i <= |left| && j <= |right|
    requires Matching(left, right, i, j, pairs)
    ensures |pairs| <= Lcs(left, right, i, j)
    decreases i + j
  {
    if pairs != [] {
      var last := pairs[|pairs| - 1];
      if left[i - 1] == right[j - 1] {
        MatchingAtMostLcs(left, right, i - 1, j - 1, pairs[..|pairs| - 1]);
      } else if last.0 < i - 1 {
        MatchingAtMostLcs(left, right, i - 1, j, pairs);
      } else {
        MatchingAtMostLcs(left, right, i, j - 1, pairs);
      }
    }
  }

  lemma {:induction false} MatchingSnoc<T>(left: seq<T>, right: seq<T>, i: nat, j: nat, pairs: seq<(nat, nat)>)
    requires i < |left| && j < |right| && left[i] == right[j]
    requires Matching(left, right, i, j, pairs)
    ensures Matching(left, right, i + 1, j + 1, pairs + [(i, j)])
  {
  }

  lemma {:induction false} MatchingWidens<T>(left: seq<T>, right: seq<T>, i: nat, j: nat, k: nat, l: nat,
                                             pairs: seq<(nat, nat)>)
    requires i <= k <= |left| && j <= l <= |right|
    requires Matching(left, right, i, j, pairs)
    ensures Matching(left, right, k, l, pairs)
  {
  }

  lemma {:induction false} TraceIsMatching<T>(left: seq<T>, right: seq<T>, i: nat, j: nat)
    requires i <= |left| && j <= |right|
    ensures Matching(left, right, i, j, Trace(left, right, i, j))
    ensures |Trace(left, right, i, j)| == Lcs(left, right, i, j)
    decreases i + j
  {
    hide Lcs;
    hide Matching;
    LcsUnfolds(left, right, i, j);
    if i == 0 || j == 0 {
      EmptyMatching(left, right, i, j);
    } else {
      var d := Direction(left, right, i, j);
      if d == DIAGONAL {
        TraceIsMatching(left, right, i - 1, j - 1);
        MatchingSnoc(left, right, i - 1, j - 1, Trace(left, right, i - 1, j - 1));
      } else if d == UP {
        TraceIsMatching(left, right, i - 1, j);
        MatchingWidens(left, right, i - 1, j, i, j, Trace(left, right, i - 1, j));
      } else {
        TraceIsMatching(left, right, i, j - 1);
        MatchingWidens(left, right, i, j - 1, i, j, Trace(left, right, i, j - 1));
      }
    }
  }

  lemma {:induction false} EmptyMatching<T>(left: seq<T>, right: seq<T>, i: nat, j: nat)
    requires i <= |left| && j <= |right|
    ensures Matching(left, right, i, j, [])
  {
  }

  /** The table value is the size of the largest matching. */
  lemma {:induction false} LcsIsLongest<T>(left: seq<T>, right: seq<T>)
    ensures Longest(left, right, Lcs(left, right, |left|, |right|))
    ensures Matching(left, right, |left|, |right|, Trace(left, right, |left|, |right|))
    ensures |Trace(left, right, |left|, |right|)| == Lcs(left, right, |left|, |right|)
  {
    TraceIsMatching(left, right, |left|, |right|);
    forall other | Matching(left, right, |left|, |right|, other)
      ensures |other| <= Lcs(left, right, |left|, |right|)
    {
      MatchingAtMostLcs(left, right, |left|, |right|, other);
    }
  }

  // ---- the flat direction table ----

  /** Cell `(i, j)` of a table with rows of `width` cells. */
  function Cell(i: nat, j: nat, width: nat): nat {
    i * width + j
  }

  lemma {:induction false} CellBelow(i: nat, j: nat, n: nat, width: nat)
    requires i < n && j < width
    ensures Cell(i, j, width) < n * width
  {
    assert (i + 1) * width <= n * width;
  }

  lemma {:induction false} CellsDiffer(i: nat, j: nat, k: nat, l: nat, width: nat)
    requires j < width && l < width && (i != k || j != l)
    ensures Cell(i, j, width) != Cell(k, l, width)
  {
    if i < k {
      assert (i + 1) * width <= k * width;
    } else if k < i {
      assert (k + 1) * width <= i * width;
    }
  }

  ghost predicate CellFilled<T>(directions: array<nat>, left: seq<T>, right: seq<T>, i: nat, j: nat)
    requires 0 < i <= |left| && 0 < j <= |right|
    reads directions
  {
    var cell := Cell(i, j, |right| + 1);
    cell < directions.Length && directions[cell] == Direction(left, right, i, j)
  }

  ghost predicate Filled<T>(directions: array<nat>, left: seq<T>, right: seq<T>, i: nat, j: nat)
    requires i <= |left| && j <= |right|
    reads directions
  {
    && directions.Length == (|left| + 1) * (|right| + 1)
    && forall k, l :: 0 < k <= |left| && 0 < l <= |right| && (k < i || (k == i && l <= j)) ==>
                        CellFilled(directions, left, right, k, l)
  }

  method SetDirection<T(==)>(directions: array<nat>, left: seq<T>, right: seq<T>, i: nat, j: nat, d: nat)
    requires 0 < i <= |left| && 0 < j <= |right|
    requires Filled(directions, left, right, i, j - 1)
    requires d == Direction(left, right, i, j)
    modifies directions
    ensures Filled(directions, left, right, i, j)
  {
    hide Direction;
    hide Cell;
    var width := |right| + 1;
    CellBelow(i, j, |left| + 1, width);
    directions[Cell(i, j, width)] := d;
    forall k, l | 0 < k <= |left| && 0 < l <= |right| && (k < i || (k == i && l <= j))
      ensures CellFilled(directions, left, right, k, l)
    {
      if k != i || l != j {
        CellsDiffer(k, l, i, j, width);
        assert old(CellFilled(directions, left, right, k, l));
      }
    }
  }

  method Directions<T(==)>(left: seq<T>, right: seq<T>) returns (directions: array<nat>)
    ensures Filled(directions, left, right, |left|, |right|)
  {
    hide Lcs;
    hide Cell;
    hide Direction;
    var width := |right| + 1;
    directions := new nat[(|left| + 1) * width](_ => 0);
    var previous := seq(width, _ => 0);
    FirstRow(left, right);
    assert Filled(directions, left, right, 0, |right|);
    for i := 1 to |left| + 1
      invariant |previous| == width && forall j :: 0 <= j < width ==> previous[j] == Lcs(left, right, i - 1, j)
      invariant fresh(directions) && Filled(directions, left, right, i - 1, |right|)
    {
      var row := seq(width, _ => 0);
      LcsUnfolds(left, right, i, 0);
      for j := 1 to |right| + 1
        invariant |row| == width && forall l :: 0 <= l < j ==> row[l] == Lcs(left, right, i, l)
        invariant fresh(directions) && Filled(directions, left, right, i, j - 1)
      {
        LcsUnfolds(left, right, i, j);
        if left[i - 1] == right[j - 1] {
          row := row[j := previous[j - 1] + 1];
          SetDirection(directions, left, right, i, j, DIAGONAL);
        } else if previous[j] >= row[j - 1] {
          row := row[j := previous[j]];
          SetDirection(directions, left, right, i, j, UP);
        } else {
          row := row[j := row[j - 1]];
          SetDirection(directions, left, right, i, j, LEFT);
        }
      }
      previous := row;
    }
  }

  lemma {:induction false} LcsUnfolds<T>(left: seq<T>, right: seq<T>, i: nat, j: nat)
    requires i <= |left| && j <= |right|
    ensures i == 0 || j == 0 ==> Lcs(left, right, i, j) == 0
    ensures i > 0 && j > 0 ==>
              && (left[i - 1] == right[j - 1] ==>
                    Lcs(left, right, i, j) == Lcs(left, right, i - 1, j - 1) + 1
                        && Direction(left, right, i, j) == DIAGONAL)
              && (left[i - 1] != right[j - 1] && Lcs(left, right, i - 1, j) >= Lcs(left, right, i, j - 1) ==>
                    Lcs(left, right, i, j) == Lcs(left, right, i - 1, j) && Direction(left, right, i, j) == UP)
              && (left[i - 1] != right[j - 1] && Lcs(left, right, i - 1, j) < Lcs(left, right, i, j - 1) ==>
                    Lcs(left, right, i, j) == Lcs(left, right, i, j - 1) && Direction(left, right, i, j) == LEFT)
  {
  }

  lemma {:induction false} FirstRow<T>(left: seq<T>, right: seq<T>)
    ensures forall j :: 0 <= j <= |right| ==> Lcs(left, right, 0, j) == 0
  {
  }

  /** The pairs are strictly increasing matches, as many as any matching has. */
  method LcsPairs<T(==)>(left: seq<T>, right: seq<T>) returns (pairs: seq<(nat, nat)>)
    ensures Matching(left, right, |left|, |right|, pairs)
    ensures Longest(left, right, |pairs|)
    ensures pairs == Trace(left, right, |left|, |right|)
  {
    hide Lcs;
    hide Direction;
    hide Matching;
    hide Longest;
    var width := |right| + 1;
    var directions := Directions(left, right);
    var i: nat, j: nat := |left|, |right|;
    ghost var whole := Trace(left, right, i, j);
    var backwards: seq<(nat, nat)> := [];
    ReverseEmpty<(nat, nat)>();
    while i > 0 && j > 0
      invariant i <= |left| && j <= |right|
      invariant Filled(directions, left, right, |left|, |right|)
      invariant whole == Trace(left, right, i, j) + Reverse(backwards)
      decreases i + j
    {
      assert CellFilled(directions, left, right, i, j);
      var direction := directions[Cell(i, j, width)];
      if direction == DIAGONAL {
        ReverseSnoc(backwards, (i - 1, j - 1));
        backwards := backwards + [(i - 1, j - 1)];
        i, j := i - 1, j - 1;
      } else if direction == UP {
        i := i - 1;
      } else {
        j := j - 1;
      }
    }
    pairs := Reverse(backwards);
    assert pairs == whole;
    LcsIsLongest(left, right);
  }

  const MAX_TOKENS: nat := 2000

  datatype Bounded = Pairs(pairs: seq<(nat, nat)>) | TooManyTokens

  /** `_pairs`: the same matching, refused exactly when a list is longer than the limit. */
  method BoundedPairs<T(==)>(left: seq<T>, right: seq<T>) returns (r: Bounded)
    ensures r.TooManyTokens? <==> |left| > MAX_TOKENS || |right| > MAX_TOKENS
    ensures r.Pairs? ==> Matching(left, right, |left|, |right|, r.pairs) && Longest(left, right, |r.pairs|)
    ensures r.Pairs? ==> r.pairs == Trace(left, right, |left|, |right|)
  {
    if |left| > MAX_TOKENS || |right| > MAX_TOKENS {
      return TooManyTokens;
    }
    var pairs := LcsPairs(left, right);
    r := Pairs(pairs);
  }

  /** Rolling rows: the agreement count is the size of the largest matching, hence
      the number of pairs the direction table yields for the same lists. */
  method AgreementCount<T(==)>(curated: seq<T>, aligned: seq<T>) returns (agreed: nat)
    ensures Longest(curated, aligned, agreed)
    ensures exists pairs :: Matching(curated, aligned, |curated|, |aligned|, pairs) && |pairs| == agreed
    ensures agreed == |Trace(curated, aligned, |curated|, |aligned|)|
  {
    hide Lcs;
    hide Matching;
    hide Trace;
    var previous := seq(|aligned| + 1, _ => 0);
    FirstRow(curated, aligned);
    for i := 1 to |curated| + 1
      invariant |previous| == |aligned| + 1
      invariant forall j :: 0 <= j <= |aligned| ==> previous[j] == Lcs(curated, aligned, i - 1, j)
    {
      var current := [0];
      LcsUnfolds(curated, aligned, i, 0);
      for j := 0 to |aligned|
        invariant |current| == j + 1
        invariant forall l :: 0 <= l <= j ==> current[l] == Lcs(curated, aligned, i, l)
      {
        LcsUnfolds(curated, aligned, i, j + 1);
        var best := if previous[j + 1] > current[j] then previous[j + 1] else current[j];
        current := current + [if curated[i - 1] == aligned[j] then previous[j] + 1 else best];
      }
      previous := current;
    }
    agreed := previous[|aligned|];
    LcsIsLongest(curated, aligned);
  }

  /** A matching that is as long as any is exactly as long as the walk back's. */
  lemma {:induction false} LongestSizeIsUnique<T>(left: seq<T>, right: seq<T>, pairs: seq<(nat, nat)>)
    requires Matching(left, right, |left|, |right|, pairs) && Longest(left, right, |pairs|)
    ensures |pairs| == |Trace(left, right, |left|, |right|)|
  {
    LcsIsLongest(left, right);
    MatchingAtMostLcs(left, right, |left|, |right|, pairs);
  }
}
