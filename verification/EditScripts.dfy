/** Edit scripts between two sequences, their cost, and the distance they realise.

    Everything is stated on prefixes: `i` items of the reference `a` and `j`
    items of the hypothesis `b`.  A script is read left to right; its last
    operation consumes the last item of one or both prefixes. */
module EditScripts {

  datatype Op = Match(ref: nat, hyp: nat) | Sub(ref: nat, hyp: nat) | Del(ref: nat) | Ins(hyp: nat)

  function Rank(op: Op): nat {
    match op
    case Match(_, _) => 0
    case Sub(_, _) => 0
    case Del(_) => 1
    case Ins(_) => 2
  }

  function Price(op: Op): nat {
    if op.Match? then 0 else 1
  }

  ghost function Cost(ops: seq<Op>): nat {
    if ops == [] then 0 else Cost(ops[..|ops| - 1]) + Price(ops[|ops| - 1])
  }

  /** `ops` turns the first `i` items of `a` into the first `j` items of `b`. */
  ghost predicate Script<T>(a: seq<T>, b: seq<T>, i: nat, j: nat, ops: seq<Op>)
    requires i <= |a| && j <= |b|
    decreases |ops|
  {
    if ops == [] then i == 0 && j == 0
    else
      var init := ops[..|ops| - 1];
      match ops[|ops| - 1]
      case Match(r, h) => r + 1 == i && h + 1 == j && a[r] == b[h] && Script(a, b, r, h, init)
      case Sub(r, h) => r + 1 == i && h + 1 == j && a[r] != b[h] && Script(a, b, r, h, init)
      case Del(r) => r + 1 == i && Script(a, b, r, j, init)
      case Ins(h) => h + 1 == j && Script(a, b, i, h, init)
  }

  /** Cheapest way to edit prefix `i` of `a` into prefix `j` of `b`. */
  function Distance<T(==)>(a: seq<T>, b: seq<T>, i: nat, j: nat): nat
    requires i <= |a| && j <= |b|
    decreases i + j
  {
    if i == 0 then j
    else if j == 0 then i
    else Min3(Distance(a, b, i - 1, j - 1) + Differ(a[i - 1], b[j - 1]),
              Distance(a, b, i - 1, j) + 1,
              Distance(a, b, i, j - 1) + 1)
  }

  /** One unfolding of `Distance`. */
  lemma {:induction false} DistanceUnfolds<T>(a: seq<T>, b: seq<T>, i: nat, j: nat)
    requires i <= |a| && j <= |b|
    ensures i == 0 ==> Distance(a, b, i, j) == j
    ensures j == 0 ==> Distance(a, b, i, j) == i
    ensures i > 0 && j > 0 ==>
              Distance(a, b, i, j) == Min3(Distance(a, b, i - 1, j - 1) + Differ(a[i - 1], b[j - 1]),
                                           Distance(a, b, i - 1, j) + 1,
                                           Distance(a, b, i, j - 1) + 1)
  {
  }

  function Differ<T(==)>(x: T, y: T): nat {
    if x == y then 0 else 1
  }

  function Min3(x: nat, y: nat, z: nat): nat {
    var xy := if y < x then y else x;
    if z < xy then z else xy
  }

  ghost predicate Optimal<T>(a: seq<T>, b: seq<T>, i: nat, j: nat, ops: seq<Op>)
    requires i <= |a| && j <= |b|
  {
    && Script(a, b, i, j, ops)
    && forall other :: Script(a, b, i, j, other) ==> Cost(ops) <= Cost(other)
  }

  /** One step of the walk back from cell `(i, j)`: diagonal if it pays, else up, else left. */
  function LastOp<T(==)>(a: seq<T>, b: seq<T>, i: nat, j: nat): Op
    requires i <= |a| && j <= |b| && i + j > 0
  {
    if i > 0 && j > 0 && Distance(a, b, i, j) == Distance(a, b, i - 1, j - 1) + Differ(a[i - 1], b[j - 1]) then
      if a[i - 1] == b[j - 1] then Match(i - 1, j - 1) else Sub(i - 1, j - 1)
    else if i > 0 && Distance(a, b, i, j) == Distance(a, b, i - 1, j) + 1 then Del(i - 1)
    else Ins(j - 1)
  }

  lemma {:induction false} LastOpCases<T>(a: seq<T>, b: seq<T>, i: nat, j: nat)
    requires i <= |a| && j <= |b| && i + j > 0
    ensures var op := LastOp(a, b, i, j);
            if i > 0 && j > 0 && Distance(a, b, i, j) == Distance(a, b, i - 1, j - 1) + Differ(a[i - 1], b[j - 1]) then
              op == if a[i - 1] == b[j - 1] then Match(i - 1, j - 1) else Sub(i - 1, j - 1)
            else if i > 0 && Distance(a, b, i, j) == Distance(a, b, i - 1, j) + 1 then
              op == Del(i - 1)
            else
              j > 0 && op == Ins(j - 1)
  {
  }

  /** Where an operation leaves the walk back. */
  function Before(op: Op, i: nat, j: nat): (nat, nat)
    requires (op.Match? || op.Sub? || op.Del? ==> i > 0) && (op.Match? || op.Sub? || op.Ins? ==> j > 0)
  {
    (if op.Ins? then i else i - 1, if op.Del? then j else j - 1)
  }

  function Backtrace<T(==)>(a: seq<T>, b: seq<T>, i: nat, j: nat): seq<Op>
    requires i <= |a| && j <= |b|
    decreases i + j
  {
    if i + j == 0 then []
    else
      var op := LastOp(a, b, i, j);
      var (i', j') := Before(op, i, j);
      Backtrace(a, b, i', j') + [op]
  }

  lemma {:induction false} ScriptSnoc<T>(a: seq<T>, b: seq<T>, i: nat, j: nat, ops: seq<Op>, op: Op)
    requires i <= |a| && j <= |b|
    requires op.Match? ==> op.ref == i < |a| && op.hyp == j < |b| && a[i] == b[j]
    requires op.Sub? ==> op.ref == i < |a| && op.hyp == j < |b| && a[i] != b[j]
    requires op.Del? ==> op.ref == i < |a|
    requires op.Ins? ==> op.hyp == j < |b|
    requires Script(a, b, i, j, ops)
    ensures Cost(ops + [op]) == Cost(ops) + Price(op)
    ensures Script(a, b, if op.Ins? then i else i + 1, if op.Del? then j else j + 1, ops + [op])
  {
    assert (ops + [op])[..|ops|] == ops;
  }

  /** No script is cheaper than the distance. */
  lemma {:induction false} CostAtLeastDistance<T>(a: seq<T>, b: seq<T>, i: nat, j: nat, ops: seq<Op>)
    requires i <= |a| && j <= |b|
    requires Script(a, b, i, j, ops)
    ensures Distance(a, b, i, j) <= Cost(ops)
    decreases |ops|
  {
    if ops != [] {
      var init := ops[..|ops| - 1];
      match ops[|ops| - 1]
      case Match(r, h) => CostAtLeastDistance(a, b, r, h, init);
      case Sub(r, h) => CostAtLeastDistance(a, b, r, h, init);
      case Del(r) => CostAtLeastDistance(a, b, r, j, init); DropOne(a, b, i, j);
      case Ins(h) => CostAtLeastDistance(a, b, i, h, init); DropOne(a, b, i, j);
    }
  }

  /** The distance grows by at most one per item, in either direction. */
  lemma {:induction false} DropOne<T>(a: seq<T>, b: seq<T>, i: nat, j: nat)
    requires i <= |a| && j <= |b|
    ensures i > 0 ==> Distance(a, b, i, j) <= Distance(a, b, i - 1, j) + 1
    ensures j > 0 ==> Distance(a, b, i, j) <= Distance(a, b, i, j - 1) + 1
  {
  }

  lemma {:induction false} BacktraceCost<T>(a: seq<T>, b: seq<T>, i: nat, j: nat)
    requires i <= |a| && j <= |b|
    ensures Script(a, b, i, j, Backtrace(a, b, i, j))
    ensures Cost(Backtrace(a, b, i, j)) == Distance(a, b, i, j)
    decreases i + j
  {
    if i + j > 0 {
      var op := LastOp(a, b, i, j);
      var (i', j') := Before(op, i, j);
      BacktraceCost(a, b, i', j');
      ScriptSnoc(a, b, i', j', Backtrace(a, b, i', j'), op);
    }
  }

  /** The distance is exactly the least cost of any script. */
  lemma {:induction false} DistanceIsLeastCost<T>(a: seq<T>, b: seq<T>, i: nat, j: nat)
    requires i <= |a| && j <= |b|
    ensures Optimal(a, b, i, j, Backtrace(a, b, i, j))
    ensures forall ops :: Optimal(a, b, i, j, ops) <==> Script(a, b, i, j, ops) && Cost(ops) == Distance(a, b, i, j)
  {
    var best := Backtrace(a, b, i, j);
    BacktraceCost(a, b, i, j);
    forall ops | Script(a, b, i, j, ops)
      ensures Distance(a, b, i, j) <= Cost(ops)
    {
      CostAtLeastDistance(a, b, i, j, ops);
    }
  }

  /** Read from the end, `s` takes the diagonal before a deletion, and a deletion before an insertion. */
  ghost predicate Preferred(s: seq<Op>, t: seq<Op>)
    decreases |s|
  {
    if s == [] || t == [] then true
    else
      var x, y := s[|s| - 1], t[|t| - 1];
      Rank(x) < Rank(y) || (x == y && Preferred(s[..|s| - 1], t[..|t| - 1]))
  }

  /** Among the last operations that pay, `LastOp` has the smallest rank. */
  lemma {:induction false} LastOpRanksFirst<T>(a: seq<T>, b: seq<T>, i: nat, j: nat, ops: seq<Op>)
    requires i <= |a| && j <= |b|
    requires Script(a, b, i, j, ops) && Cost(ops) == Distance(a, b, i, j) && ops != []
    ensures var last := ops[|ops| - 1];
            && Rank(LastOp(a, b, i, j)) <= Rank(last)
            && (Rank(LastOp(a, b, i, j)) == Rank(last) ==> LastOp(a, b, i, j) == last)
    ensures var (k, l) := Before(ops[|ops| - 1], i, j);
            && Script(a, b, k, l, ops[..|ops| - 1])
            && Cost(ops[..|ops| - 1]) == Distance(a, b, k, l)
  {
    var last, init := ops[|ops| - 1], ops[..|ops| - 1];
    var (k, l) := Before(last, i, j);
    CostAtLeastDistance(a, b, k, l, init);
  }

  /** Among all optimal scripts the walk back picks the preferred one. */
  lemma {:induction false} BacktraceIsPreferred<T>(a: seq<T>, b: seq<T>, i: nat, j: nat, ops: seq<Op>)
    requires i <= |a| && j <= |b|
    requires Script(a, b, i, j, ops) && Cost(ops) == Distance(a, b, i, j)
    ensures Preferred(Backtrace(a, b, i, j), ops)
    decreases |ops|
  {
    if ops != [] {
      LastOpRanksFirst(a, b, i, j, ops);
      BacktraceSnoc(a, b, i, j);
      var op := LastOp(a, b, i, j);
      if op == ops[|ops| - 1] {
        var (i', j') := Before(op, i, j);
        BacktraceIsPreferred(a, b, i', j', ops[..|ops| - 1]);
      }
    }
  }

  lemma {:induction false} BacktraceSnoc<T>(a: seq<T>, b: seq<T>, i: nat, j: nat)
    requires i <= |a| && j <= |b| && i + j > 0
    ensures var (i', j') := Before(LastOp(a, b, i, j), i, j);
            Backtrace(a, b, i, j) == Backtrace(a, b, i', j') + [LastOp(a, b, i, j)]
    ensures var whole := Backtrace(a, b, i, j);
            var (i', j') := Before(LastOp(a, b, i, j), i, j);
            && whole != [] && whole[|whole| - 1] == LastOp(a, b, i, j)
            && whole[..|whole| - 1] == Backtrace(a, b, i', j')
  {
  }

  // ---- what a script is: every index of both sides once, in order ----

  function RefIndices(ops: seq<Op>): seq<nat> {
    if ops == [] then []
    else RefIndices(ops[..|ops| - 1]) + (if ops[|ops| - 1].Ins? then [] else [ops[|ops| - 1].ref])
  }

  function HypIndices(ops: seq<Op>): seq<nat> {
    if ops == [] then []
    else HypIndices(ops[..|ops| - 1]) + (if ops[|ops| - 1].Del? then [] else [ops[|ops| - 1].hyp])
  }

  function Upto(n: nat): seq<nat> {
    seq(n, k => k)
  }

  ghost predicate Truthful<T>(a: seq<T>, b: seq<T>, op: Op) {
    match op
    case Match(r, h) => r < |a| && h < |b| && a[r] == b[h]
    case Sub(r, h) => r < |a| && h < |b| && a[r] != b[h]
    case Del(_) => true
    case Ins(_) => true
  }

  /** A script is exactly a truthful list that consumes each index of both prefixes once, in order. */
  lemma {:induction false} ScriptConsumesInOrder<T>(a: seq<T>, b: seq<T>, i: nat, j: nat, ops: seq<Op>)
    requires i <= |a| && j <= |b|
    ensures Script(a, b, i, j, ops) <==>
            && RefIndices(ops) == Upto(i) && HypIndices(ops) == Upto(j)
            && forall k :: 0 <= k < |ops| ==> Truthful(a, b, ops[k])
    decreases |ops|
  {
    hide Upto;
    if ops == [] {
      NoIndex(i);
      NoIndex(j);
    } else {
      var last, init := ops[|ops| - 1], ops[..|ops| - 1];
      assert ops == init + [last];
      if !last.Ins? {
        SnocIndex(RefIndices(init), last.ref, i);
      }
      if !last.Del? {
        SnocIndex(HypIndices(init), last.hyp, j);
      }
      var i', j' := if last.Ins? then i else i - 1, if last.Del? then j else j - 1;
      if i' >= 0 && j' >= 0 {
        ScriptConsumesInOrder(a, b, i', j', init);
      }
    }
  }

  lemma {:induction false} NoIndex(n: nat)
    ensures [] == Upto(n) <==> n == 0
  {
    assert |Upto(n)| == n;
  }

  lemma {:induction false} SnocIndex(s: seq<nat>, x: nat, n: nat)
    ensures s + [x] == Upto(n) <==> n > 0 && x == n - 1 && s == Upto(n - 1)
  {
    if s + [x] == Upto(n) {
      assert |s + [x]| == n;
      assert (s + [x])[n - 1] == x;
      assert forall k :: 0 <= k < |s| ==> s[k] == (s + [x])[k];
    }
  }
}
