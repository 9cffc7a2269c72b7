/** The offline evaluator's alignment: a distance table together with a table
    that counts optimal edit scripts but saturates at two, and a walk back that
    collects matched words and error counts. */
module Evaluator {
  import opened EditScripts

  ghost function Extend(scripts: set<seq<Op>>, op: Op): set<seq<Op>> {
    set ops | ops in scripts :: ops + [op]
  }

  /** The optimal scripts whose last operation is `op`, arriving from cell `(k, l)`. */
  ghost function Arriving<T>(a: seq<T>, b: seq<T>, i: nat, j: nat, k: nat, l: nat, op: Op): set<seq<Op>>
    requires k <= i <= |a| && l <= j <= |b| && k + l < i + j
    decreases i + j, 0
  {
    if Distance(a, b, i, j) == Distance(a, b, k, l) + Price(op) then Extend(OptimalScripts(a, b, k, l), op) else {}
  }

  ghost function Diagonal<T>(a: seq<T>, b: seq<T>, i: nat, j: nat): Op
    requires 0 < i <= |a| && 0 < j <= |b|
  {
    if a[i - 1] == b[j - 1] then Match(i - 1, j - 1) else Sub(i - 1, j - 1)
  }

  /** All optimal scripts of the two prefixes. */
  ghost function OptimalScripts<T>(a: seq<T>, b: seq<T>, i: nat, j: nat): set<seq<Op>>
    requires i <= |a| && j <= |b|
    decreases i + j, 1
  {
    if i + j == 0 then {[]}
    else if j == 0 then Arriving(a, b, i, j, i - 1, j, Del(i - 1))
    else if i == 0 then Arriving(a, b, i, j, i, j - 1, Ins(j - 1))
    else
      Arriving(a, b, i, j, i - 1, j - 1, Diagonal(a, b, i, j))
      + Arriving(a, b, i, j, i - 1, j, Del(i - 1))
      + Arriving(a, b, i, j, i, j - 1, Ins(j - 1))
  }

  lemma {:induction false} ExtendMember(scripts: set<seq<Op>>, op: Op, ops: seq<Op>)
    ensures ops in Extend(scripts, op) <==> ops != [] && ops[|ops| - 1] == op && ops[..|ops| - 1] in scripts
  {
    if ops != [] && ops[|ops| - 1] == op && ops[..|ops| - 1] in scripts {
      assert ops == ops[..|ops| - 1] + [op];
    }
    if ops in Extend(scripts, op) {
      var init :| init in scripts && ops == init + [op];
      assert ops[..|ops| - 1] == init;
    }
  }

  lemma {:induction false} ExtendSize(scripts: set<seq<Op>>, op: Op)
    ensures |Extend(scripts, op)| == |scripts|
    decreases |scripts|
  {
    if scripts != {} {
      var ops :| ops in scripts;
      ExtendSize(scripts - {ops}, op);
      forall other ensures other in Extend(scripts, op) <==> other in Extend(scripts - {ops}, op) + {ops + [op]} {
        ExtendMember(scripts, op, other);
        ExtendMember(scripts - {ops}, op, other);
        ExtendMember({ops}, op, other);
        assert Extend({ops}, op) == {ops + [op]};
      }
      ExtendMember(scripts - {ops}, op, ops + [op]);
      assert (ops + [op])[..|ops|] == ops;
      assert Extend(scripts, op) == Extend(scripts - {ops}, op) + {ops + [op]};
    } else {
      assert Extend(scripts, op) == {};
    }
  }

  /** Membership in one arrival set, read off the script itself. */
  lemma {:induction false} ArrivingMember<T>(a: seq<T>, b: seq<T>, i: nat, j: nat, k: nat, l: nat, op: Op, ops: seq<Op>)
    requires k <= i <= |a| && l <= j <= |b| && k + l < i + j
    requires ops != [] ==>
               (ops[..|ops| - 1] in OptimalScripts(a, b, k, l)
                <==> Script(a, b, k, l, ops[..|ops| - 1]) && Cost(ops[..|ops| - 1]) == Distance(a, b, k, l))
    ensures ops in Arriving(a, b, i, j, k, l, op) <==>
            && ops != [] && ops[|ops| - 1] == op
            && Script(a, b, k, l, ops[..|ops| - 1])
            && Cost(ops[..|ops| - 1]) == Distance(a, b, k, l)
            && Distance(a, b, i, j) == Distance(a, b, k, l) + Price(op)
  {
    hide Distance;
    hide Script;
    hide OptimalScripts;
    hide Cost;
    ExtendMember(OptimalScripts(a, b, k, l), op, ops);
  }

  /** The set is what its name says. */
  lemma {:induction false} OptimalScriptsAreOptimal<T>(a: seq<T>, b: seq<T>, i: nat, j: nat, ops: seq<Op>)
    requires i <= |a| && j <= |b|
    ensures ops in OptimalScripts(a, b, i, j) <==> Script(a, b, i, j, ops) && Cost(ops) == Distance(a, b, i, j)
    decreases i + j
  {
    hide Distance;
    hide Arriving;
    if i + j == 0 {
      DistanceUnfolds(a, b, i, j);
    } else {
      if ops != [] {
        var init := ops[..|ops| - 1];
        if i > 0 { OptimalScriptsAreOptimal(a, b, i - 1, j, init); }
        if j > 0 { OptimalScriptsAreOptimal(a, b, i, j - 1, init); }
        if i > 0 && j > 0 { OptimalScriptsAreOptimal(a, b, i - 1, j - 1, init); }
      }
      if i > 0 { ArrivingMember(a, b, i, j, i - 1, j, Del(i - 1), ops); }
      if j > 0 { ArrivingMember(a, b, i, j, i, j - 1, Ins(j - 1), ops); }
      if i > 0 && j > 0 { ArrivingMember(a, b, i, j, i - 1, j - 1, Diagonal(a, b, i, j), ops); }
      LastOpPays(a, b, i, j, ops);
      ArrivalsUnfold(a, b, i, j, ops);
    }
  }

  lemma {:induction false} ArrivalsUnfold<T>(a: seq<T>, b: seq<T>, i: nat, j: nat, ops: seq<Op>)
    requires i <= |a| && j <= |b| && i + j > 0
    ensures ops in OptimalScripts(a, b, i, j) <==>
            || (i > 0 && j > 0 && ops in Arriving(a, b, i, j, i - 1, j - 1, Diagonal(a, b, i, j)))
            || (i > 0 && ops in Arriving(a, b, i, j, i - 1, j, Del(i - 1)))
            || (j > 0 && ops in Arriving(a, b, i, j, i, j - 1, Ins(j - 1)))
  {
    hide Arriving;
    hide Distance;
  }

  /** A script is optimal exactly when its last operation pays and what is left is optimal. */
  lemma {:induction false} LastOpPays<T>(a: seq<T>, b: seq<T>, i: nat, j: nat, ops: seq<Op>)
    requires i <= |a| && j <= |b| && i + j > 0
    ensures Script(a, b, i, j, ops) && Cost(ops) == Distance(a, b, i, j) <==>
            && ops != []
            && var last, init := ops[|ops| - 1], ops[..|ops| - 1];
               || (&& i > 0 && j > 0 && last == Diagonal(a, b, i, j) && Script(a, b, i - 1, j - 1, init)
                   && Cost(init) == Distance(a, b, i - 1, j - 1)
                       && Distance(a, b, i, j) == Distance(a, b, i - 1, j - 1) + Price(last))
               || (&& i > 0 && last == Del(i - 1) && Script(a, b, i - 1, j, init)
                   && Cost(init) == Distance(a, b, i - 1, j) && Distance(a, b, i, j) == Distance(a, b, i - 1, j) + 1)
               || (&& j > 0 && last == Ins(j - 1) && Script(a, b, i, j - 1, init)
                   && Cost(init) == Distance(a, b, i, j - 1) && Distance(a, b, i, j) == Distance(a, b, i, j - 1) + 1)
  {
    hide Distance;
    if ops != [] {
      var last, init := ops[|ops| - 1], ops[..|ops| - 1];
      DistanceUnfolds(a, b, i, j);
      if i > 0 && j == 0 { DistanceUnfolds(a, b, i - 1, j); }
      if i == 0 && j > 0 { DistanceUnfolds(a, b, i, j - 1); }
      if Script(a, b, i, j, ops) {
        var (k, l) := Before(last, i, j);
        CostAtLeastDistance(a, b, k, l, init);
      }
    }
  }

  // ---- how many there are ----

  function Capped(n: nat): nat {
    if n > 2 then 2 else n
  }

  ghost function Arrivals<T>(a: seq<T>, b: seq<T>, i: nat, j: nat, k: nat, l: nat, cost: nat): nat
    requires k <= i <= |a| && l <= j <= |b|
  {
    if Distance(a, b, i, j) == Distance(a, b, k, l) + cost then |OptimalScripts(a, b, k, l)| else 0
  }

  /** The three ways into a cell are disjoint, so their numbers add up. */
  lemma {:induction false} OptimalScriptsCount<T>(a: seq<T>, b: seq<T>, i: nat, j: nat)
    requires 0 < i <= |a| && 0 < j <= |b|
    ensures |OptimalScripts(a, b, i, j)| ==
            Arrivals(a, b, i, j, i - 1, j - 1, Differ(a[i - 1], b[j - 1]))
            + Arrivals(a, b, i, j, i - 1, j, 1)
            + Arrivals(a, b, i, j, i, j - 1, 1)
  {
    hide Distance;
    var diagonal := Arriving(a, b, i, j, i - 1, j - 1, Diagonal(a, b, i, j));
    var above := Arriving(a, b, i, j, i - 1, j, Del(i - 1));
    var left := Arriving(a, b, i, j, i, j - 1, Ins(j - 1));
    ExtendSize(OptimalScripts(a, b, i - 1, j - 1), Diagonal(a, b, i, j));
    ExtendSize(OptimalScripts(a, b, i - 1, j), Del(i - 1));
    ExtendSize(OptimalScripts(a, b, i, j - 1), Ins(j - 1));
    forall ops
      ensures !(ops in diagonal && ops in above) && !(ops in diagonal && ops in left) && !(ops in above && ops in left)
    {
      ExtendMember(OptimalScripts(a, b, i - 1, j - 1), Diagonal(a, b, i, j), ops);
      ExtendMember(OptimalScripts(a, b, i - 1, j), Del(i - 1), ops);
      ExtendMember(OptimalScripts(a, b, i, j - 1), Ins(j - 1), ops);
    }
    assert diagonal !! above !! left;
    assert |diagonal + above| == |diagonal| + |above|;
    assert |diagonal + above + left| == |diagonal| + |above| + |left|;
  }

  /** Along the borders there is one script only. */
  lemma {:induction false} BorderCount<T>(a: seq<T>, b: seq<T>, i: nat, j: nat)
    requires i <= |a| && j <= |b| && (i == 0 || j == 0)
    ensures |OptimalScripts(a, b, i, j)| == 1
    decreases i + j
  {
    if i > 0 {
      BorderCount(a, b, i - 1, j);
      ExtendSize(OptimalScripts(a, b, i - 1, j), Del(i - 1));
    } else if j > 0 {
      BorderCount(a, b, i, j - 1);
      ExtendSize(OptimalScripts(a, b, i, j - 1), Ins(j - 1));
    }
  }

  lemma {:induction false} TwoOrMore<T>(s: set<T>)
    ensures |s| > 1 <==> exists x, y :: x in s && y in s && x != y
  {
    if |s| > 1 {
      var x :| x in s;
      assert |s - {x}| > 0;
      var y :| y in s - {x};
      assert x in s && y in s && x != y;
    }
    if x, y :| x in s && y in s && x != y {
      assert {x, y} <= s;
      SubsetSize({x, y}, s);
    }
  }

  lemma {:induction false} SubsetSize<T>(s: set<T>, t: set<T>)
    requires s <= t
    ensures |s| <= |t|
  {
    assert t == s + (t - s);
    assert |t| == |s| + |t - s|;
  }

  // ---- the two tables ----

  ghost predicate Tabulates<T>(distance: array2<nat>, ways: array2<nat>, a: seq<T>, b: seq<T>)
    reads distance, ways
  {
    && distance.Length0 == ways.Length0 == |a| + 1 && distance.Length1 == ways.Length1 == |b| + 1
    && (forall i, j :: 0 <= i <= |a| && 0 <= j <= |b| ==> distance[i, j] == Distance(a, b, i, j))
    && (forall i, j :: 0 <= i <= |a| && 0 <= j <= |b| ==> ways[i, j] == Capped(|OptimalScripts(a, b, i, j)|))
  }

  /** Every distance cell is the least cost, every ways cell the number of optimal scripts capped at two. */
  method Tables<T(==)>(reference: seq<T>, candidate: seq<T>) returns (distance: array2<nat>, ways: array2<nat>)
    ensures Tabulates(distance, ways, reference, candidate)
  {
    hide Distance;
    hide OptimalScripts;
    var n, m := |reference|, |candidate|;
    distance := new nat[n + 1, m + 1];
    ways := new nat[n + 1, m + 1]((i, j) => 1);
    for i := 0 to n + 1
      invariant forall k, l :: 0 <= k <= n && 0 <= l <= m ==> ways[k, l] == 1
      invariant forall k :: 0 <= k < i ==> distance[k, 0] == Distance(reference, candidate, k, 0)
    {
      DistanceUnfolds(reference, candidate, i, 0);
      distance[i, 0] := i;
    }
    for j := 0 to m + 1
      invariant forall k, l :: 0 <= k <= n && 0 <= l <= m ==> ways[k, l] == 1
      invariant forall k :: 0 <= k <= n ==> distance[k, 0] == Distance(reference, candidate, k, 0)
      invariant forall l :: 0 <= l < j ==> distance[0, l] == Distance(reference, candidate, 0, l)
    {
      DistanceUnfolds(reference, candidate, 0, j);
      distance[0, j] := j;
    }
    forall k, l | 0 <= k <= n && 0 <= l <= m && (k == 0 || l == 0)
      ensures Capped(|OptimalScripts(reference, candidate, k, l)|) == 1
    {
      BorderCount(reference, candidate, k, l);
    }
    for i := 1 to n + 1
      invariant forall k, l :: 0 <= k <= n && 0 <= l <= m && (k < i || l == 0)
                  ==> distance[k, l] == Distance(reference, candidate, k, l)
      invariant forall k, l :: 0 <= k <= n && 0 <= l <= m && (k < i || l == 0)
                               ==> ways[k, l] == Capped(|OptimalScripts(reference, candidate, k, l)|)
    {
      for j := 1 to m + 1
        invariant forall k, l :: 0 <= k <= n && 0 <= l <= m && (k < i || l == 0 || (k == i && l < j))
                                 ==> distance[k, l] == Distance(reference, candidate, k, l)
        invariant forall k, l :: 0 <= k <= n && 0 <= l <= m && (k < i || l == 0 || (k == i && l < j))
                                 ==> ways[k, l] == Capped(|OptimalScripts(reference, candidate, k, l)|)
      {
        DistanceUnfolds(reference, candidate, i, j);
        OptimalScriptsCount(reference, candidate, i, j);
        var diagonal := distance[i - 1, j - 1] + Differ(reference[i - 1], candidate[j - 1]);
        var above, left := distance[i - 1, j] + 1, distance[i, j - 1] + 1;
        var best := Min3(diagonal, above, left);
        distance[i, j] := best;
        ways[i, j] := Capped((if diagonal == best then ways[i - 1, j - 1] else 0)
                             + (if above == best then ways[i - 1, j] else 0)
                             + (if left == best then ways[i, j - 1] else 0));
      }
    }
  }

  // ---- what a script says about the words ----

  datatype Errors = Errors(substitutions: nat, deletions: nat, insertions: nat)

  function Plus(x: Errors, y: Errors): Errors {
    Errors(x.substitutions + y.substitutions, x.deletions + y.deletions, x.insertions + y.insertions)
  }

  function ErrorsOf(op: Op): Errors {
    match op
    case Match(_, _) => Errors(0, 0, 0)
    case Sub(_, _) => Errors(1, 0, 0)
    case Del(_) => Errors(0, 1, 0)
    case Ins(_) => Errors(0, 0, 1)
  }

  function CountErrors(ops: seq<Op>): Errors {
    if ops == [] then Errors(0, 0, 0) else Plus(ErrorsOf(ops[|ops| - 1]), CountErrors(ops[..|ops| - 1]))
  }

  /** The matched index pairs, last one first: the evaluator never turns its list round. */
  function MatchedBackwards(ops: seq<Op>): seq<(nat, nat)> {
    if ops == [] then []
    else
      var last := ops[|ops| - 1];
      (if last.Match? then [(last.ref, last.hyp)] else []) + MatchedBackwards(ops[..|ops| - 1])
  }

  /** Matched, substituted and deleted words make up the reference; matched, substituted and
      inserted words make up the candidate; the errors are the cost. */
  lemma {:induction false} CountsAddUp<T>(a: seq<T>, b: seq<T>, i: nat, j: nat, ops: seq<Op>)
    requires i <= |a| && j <= |b| && Script(a, b, i, j, ops)
    ensures var e := CountErrors(ops);
            && |MatchedBackwards(ops)| + e.substitutions + e.deletions == i
            && |MatchedBackwards(ops)| + e.substitutions + e.insertions == j
            && e.substitutions + e.deletions + e.insertions == Cost(ops)
    decreases |ops|
  {
    if ops != [] {
      var (k, l) := Before(ops[|ops| - 1], i, j);
      CountsAddUp(a, b, k, l, ops[..|ops| - 1]);
    }
  }

  /** `ambiguous` says exactly that the best script is not unique; when it is unique,
      the pairs and counts are the ones of that script. */
  method Align<T(==)>(reference: seq<T>, candidate: seq<T>)
    returns (pairs: seq<(nat, nat)>, substitutions: nat, deletions: nat, insertions: nat, ambiguous: bool)
    ensures ambiguous <==>
            exists s, t :: s != t && Optimal(reference, candidate, |reference|, |candidate|, s)
                                  && Optimal(reference, candidate, |reference|, |candidate|, t)
    ensures !ambiguous ==>
              forall ops :: Optimal(reference, candidate, |reference|, |candidate|, ops) ==>
                              pairs == MatchedBackwards(ops)
                                  && Errors(substitutions, deletions, insertions) == CountErrors(ops)
    ensures |pairs| + substitutions + deletions == |reference|
    ensures |pairs| + substitutions + insertions == |candidate|
    ensures substitutions + deletions + insertions == Distance(reference, candidate, |reference|, |candidate|)
    ensures var ops := Backtrace(reference, candidate, |reference|, |candidate|);
            pairs == MatchedBackwards(ops) && Errors(substitutions, deletions, insertions) == CountErrors(ops)
  {
    hide *;
    var distance, ways := Tables(reference, candidate);
    pairs, substitutions, deletions, insertions := WalkBack(reference, candidate, distance, ways);
    assert ways[|reference|, |candidate|]
        == Capped(|OptimalScripts(reference, candidate, |reference|, |candidate|)|) by {
      WaysCell(distance, ways, reference, candidate);
    }
    ambiguous := ways[|reference|, |candidate|] > 1;
    CappedAboveOne(|OptimalScripts(reference, candidate, |reference|, |candidate|)|);
    BacktraceCost(reference, candidate, |reference|, |candidate|);
    CountsAddUp(reference, candidate, |reference|, |candidate|,
                Backtrace(reference, candidate, |reference|, |candidate|));
    AmbiguityIsNonUniqueness(reference, candidate);
  }

  lemma {:induction false} WaysCell<T>(distance: array2<nat>, ways: array2<nat>, a: seq<T>, b: seq<T>)
    requires Tabulates(distance, ways, a, b)
    ensures ways.Length0 == |a| + 1 && ways.Length1 == |b| + 1
    ensures ways[|a|, |b|] == Capped(|OptimalScripts(a, b, |a|, |b|)|)
  {
  }

  lemma {:induction false} CappedAboveOne(n: nat)
    ensures Capped(n) > 1 <==> n > 1
  {
  }

  /** The walk from the last cell back to the origin. */
  method WalkBack<T(==)>(reference: seq<T>, candidate: seq<T>, distance: array2<nat>, ways: array2<nat>)
    returns (pairs: seq<(nat, nat)>, substitutions: nat, deletions: nat, insertions: nat)
    requires Tabulates(distance, ways, reference, candidate)
    ensures var ops := Backtrace(reference, candidate, |reference|, |candidate|);
            pairs == MatchedBackwards(ops) && Errors(substitutions, deletions, insertions) == CountErrors(ops)
  {
    hide Distance;
    hide Backtrace;
    hide MatchedBackwards;
    hide CountErrors;
    var i: nat, j: nat := |reference|, |candidate|;
    ghost var whole := Backtrace(reference, candidate, i, j);
    pairs, substitutions, deletions, insertions := [], 0, 0, 0;
    while i > 0 || j > 0
      invariant i <= |reference| && j <= |candidate|
      invariant MatchedBackwards(whole) == pairs + MatchedBackwards(Backtrace(reference, candidate, i, j))
      invariant CountErrors(whole) == Plus(Errors(substitutions, deletions, insertions),
                                           CountErrors(Backtrace(reference, candidate, i, j)))
      decreases i + j
    {
      StepBack(reference, candidate, i, j);
      LastOpCases(reference, candidate, i, j);
      if i > 0 && j > 0 && distance[i, j] == distance[i - 1, j - 1] + Differ(reference[i - 1], candidate[j - 1]) {
        if reference[i - 1] == candidate[j - 1] {
          pairs := pairs + [(i - 1, j - 1)];
        } else {
          substitutions := substitutions + 1;
        }
        i, j := i - 1, j - 1;
      } else if i > 0 && distance[i, j] == distance[i - 1, j] + 1 {
        deletions := deletions + 1;
        i := i - 1;
      } else {
        insertions := insertions + 1;
        j := j - 1;
      }
    }
    BacktraceAtOrigin(reference, candidate);
  }

  lemma {:induction false} StepBack<T>(a: seq<T>, b: seq<T>, i: nat, j: nat)
    requires i <= |a| && j <= |b| && i + j > 0
    ensures var op := LastOp(a, b, i, j);
            var (k, l) := Before(op, i, j);
            && MatchedBackwards(Backtrace(a, b, i, j)) ==
               (if op.Match? then [(op.ref, op.hyp)] else []) + MatchedBackwards(Backtrace(a, b, k, l))
            && CountErrors(Backtrace(a, b, i, j)) == Plus(ErrorsOf(op), CountErrors(Backtrace(a, b, k, l)))
  {
    hide Distance;
    hide Backtrace;
    BacktraceSnoc(a, b, i, j);
  }

  lemma {:induction false} BacktraceAtOrigin<T>(a: seq<T>, b: seq<T>)
    ensures MatchedBackwards(Backtrace(a, b, 0, 0)) == [] && CountErrors(Backtrace(a, b, 0, 0)) == Errors(0, 0, 0)
  {
  }

  /** More than one optimal script in the set, two different optimal scripts, and
      a preferred script that is not the only one: all the same thing. */
  lemma {:induction false} AmbiguityIsNonUniqueness<T>(a: seq<T>, b: seq<T>)
    ensures |OptimalScripts(a, b, |a|, |b|)| > 1 <==>
            exists s, t :: s != t && Optimal(a, b, |a|, |b|, s) && Optimal(a, b, |a|, |b|, t)
    ensures |OptimalScripts(a, b, |a|, |b|)| <= 1 ==>
              forall ops :: Optimal(a, b, |a|, |b|, ops) ==> ops == Backtrace(a, b, |a|, |b|)
  {
    hide Distance;
    hide Backtrace;
    hide OptimalScripts;
    var scripts := OptimalScripts(a, b, |a|, |b|);
    DistanceIsLeastCost(a, b, |a|, |b|);
    forall ops ensures ops in scripts <==> Optimal(a, b, |a|, |b|, ops) {
      OptimalScriptsAreOptimal(a, b, |a|, |b|, ops);
    }
    TwoOrMore(scripts);
  }
}
