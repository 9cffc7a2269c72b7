/** The retry scheduler (`_retry_problem_lines`): accept what the full transcript already proves,
    plan crop windows for the rest, merge them, and decode them from a queue that grows by
    alternates while it is read, under fixed budgets of calls and audio.

    A crop decode is an arbitrary result or failure (`decode`), and so is the wall clock (`late`). */
module RetryScheduler {
  import opened Numbers
  import opened Options
  import opened AsrEvidence
  import opened RetryPlan

  const MAX_CROPS: nat := 12
  const MAX_AUDIO_SECONDS: real := 60.0

  // ---- recovered lines ----

  datatype Recovery = Recovery(span: Span, words: seq<Word>)

  type Recoveries = map<nat, Recovery>

  /** What `accept` refuses: an overlap in time, or an order of times against the order of rows. */
  predicate Conflict(recovered: Recoveries, index: nat, span: Span) {
    exists other :: other in recovered &&
      var o := recovered[other].span;
      || Most(span.start, o.start) < Least(span.end, o.end)
      || (other < index && o.end > span.start)
      || (other > index && o.start < span.end)
  }

  /** Recovered lines follow one another in time as in text. */
  ghost predicate InOrder(recovered: Recoveries) {
    forall i, j :: i in recovered && j in recovered && i < j ==> recovered[i].span.end <= recovered[j].span.start
  }

  /** A recovered line is a decoded run of exactly the row's words, for a row that had a problem. */
  ghost predicate Genuine(recovered: Recoveries, rows: seq<Row>) {
    forall i :: i in recovered ==>
      && i < |rows| && Problem(rows[i])
      && RunAt(rows[i].keys, recovered[i].words, 0)
      && |recovered[i].words| == |rows[i].keys| == rows[i].tokens
      && recovered[i].span == RunSpan(rows[i].keys, recovered[i].words, 0)
      && recovered[i].span.start < recovered[i].span.end
  }

  /** A row not recovered yet conflicts exactly if recovering it would leave the recovered lines out of order. */
  lemma {:induction false} ConflictIff(recovered: Recoveries, index: nat, r: Recovery)
    requires InOrder(recovered) && index !in recovered
    ensures Conflict(recovered, index, r.span) <==> !InOrder(recovered[index := r])
  {
    var next := recovered[index := r];
    if !Conflict(recovered, index, r.span) {
      AcceptKeepsOrder(recovered, index, r);
    } else {
      var other :| other in recovered &&
        var o := recovered[other].span;
        || Most(r.span.start, o.start) < Least(r.span.end, o.end)
        || (other < index && o.end > r.span.start)
        || (other > index && o.start < r.span.end);
      assert next[other] == recovered[other] && next[index] == r;
    }
  }

  /** The candidate has a time for each token and its place among the recovered lines. */
  ghost predicate Fits(rows: seq<Row>, recovered: Recoveries, index: nat, run: seq<Word>)
    requires index < |rows| && run != [] && run[0].Word? && run[|run| - 1].Word?
  {
    |run| == rows[index].tokens
    && InOrder(recovered[index := Recovery(Span(run[0].start, run[|run| - 1].end), run)])
  }

  /** `accept`: the candidate goes in exactly when its token count matches and nothing conflicts. */
  method Accept(rows: seq<Row>, recovered: Recoveries, index: nat, run: seq<Word>) returns (next: Recoveries, ok: bool)
    requires index < |rows| && Problem(rows[index])
    requires RunAt(rows[index].keys, run, 0) && |run| == |rows[index].keys|
    requires run[0].start < run[|run| - 1].end
    requires InOrder(recovered) && Genuine(recovered, rows)
    ensures InOrder(next) && Genuine(next, rows)
    ensures ok <==> |run| == rows[index].tokens && !Conflict(recovered, index, Span(run[0].start, run[|run| - 1].end))
    ensures next == if ok then recovered[index := Recovery(Span(run[0].start, run[|run| - 1].end), run)] else recovered
    ensures index !in recovered ==> (ok <==> Fits(rows, recovered, index, run))
  {
    if index !in recovered {
      ConflictIff(recovered, index, Recovery(Span(run[0].start, run[|run| - 1].end), run));
    }
    next, ok := recovered, false;
    if |run| != rows[index].tokens {
      return;
    }
    var span := Span(run[0].start, run[|run| - 1].end);
    if Conflict(recovered, index, span) {
      return;
    }
    next, ok := recovered[index := Recovery(span, run)], true;
    AcceptKeeps(rows, recovered, index, run);
  }

  lemma {:induction false} AcceptKeeps(rows: seq<Row>, recovered: Recoveries, index: nat, run: seq<Word>)
    requires index < |rows| && Problem(rows[index])
    requires RunAt(rows[index].keys, run, 0) && |run| == |rows[index].keys| == rows[index].tokens
    requires run[0].start < run[|run| - 1].end
    requires InOrder(recovered) && Genuine(recovered, rows)
    requires !Conflict(recovered, index, Span(run[0].start, run[|run| - 1].end))
    ensures var next := recovered[index := Recovery(Span(run[0].start, run[|run| - 1].end), run)];
            InOrder(next) && Genuine(next, rows)
  {
    AcceptKeepsOrder(recovered, index, Recovery(Span(run[0].start, run[|run| - 1].end), run));
  }

  lemma {:induction false} AcceptKeepsOrder(recovered: Recoveries, index: nat, r: Recovery)
    requires InOrder(recovered) && !Conflict(recovered, index, r.span)
    ensures InOrder(recovered[index := r])
  {
    var next := recovered[index := r];
    forall i, j | i in next && j in next && i < j
      ensures next[i].span.end <= next[j].span.start
    {
      if j == index {
        assert i in recovered;
      } else if i == index {
        assert j in recovered;
      } else {
        assert i in recovered && j in recovered;
      }
    }
  }

  // ---- anchors and the full transcript ----

  ghost predicate Corroborates(row: Row, words: seq<Word>, i: nat) {
    && RunAt(row.keys, words, i)
    && Plausible(words[i..i + |row.keys|], 0.0, None)
    && var span := RunSpan(row.keys, words, i);
       Distance(span.start, row.start) <= 2.0 && Distance(span.end, row.end) <= 2.0
  }

  ghost function Corroborations(row: Row, words: seq<Word>): set<nat> {
    set i: nat | i < |words| && Corroborates(row, words, i)
  }

  /** A kept row without timing problems whose words were decoded within two seconds of it. */
  ghost function AnchorOf(row: Row, words: seq<Word>): Option<Span> {
    var first := FirstOf(Corroborations(row, words));
    if Problem(row) || first.None? then None else Some(RunSpan(row.keys, words, first.value))
  }

  lemma {:induction false} AnchorIsProper(row: Row, words: seq<Word>)
    requires AnchorOf(row, words).Some?
    ensures 0.0 <= AnchorOf(row, words).value.start < AnchorOf(row, words).value.end
    ensures exists i :: 0 <= i < |words| && words[i].Word? && words[i].start == AnchorOf(row, words).value.start
  {
    hide Distance, Plausible;
    var i := FirstOf(Corroborations(row, words)).value;
    assert Corroborates(row, words, i);
    PlausibleSpan(words[i..i + |row.keys|], 0.0, None);
    RunSpanIsSpan(row.keys, words, i);
    assert words[i].Word?;
  }

  /** The anchor is that of the first corroborating run of a row without a problem, and there is none exactly if such a
      run is missing. */
  ghost predicate AnchorRight(row: Row, words: seq<Word>, anchor: Option<Span>) {
    if Problem(row) then anchor.None?
    else if anchor.None? then forall i: nat :: !Corroborates(row, words, i)
    else exists i: nat :: FirstCorroborates(row, words, i, anchor.value)
  }

  ghost predicate FirstCorroborates(row: Row, words: seq<Word>, i: nat, span: Span) {
    && Corroborates(row, words, i) && span.start == words[i].start && span.end == words[i + |row.keys| - 1].end
    && forall j: nat :: j < i ==> !Corroborates(row, words, j)
  }

  lemma {:induction false} AnchorIsRight(row: Row, words: seq<Word>)
    ensures AnchorRight(row, words, AnchorOf(row, words))
  {
    hide Plausible, Distance;
    var found := Corroborations(row, words);
    forall i: nat ensures i in found <==> Corroborates(row, words, i) {
    }
    if !Problem(row) && FirstOf(found).Some? {
      var i := FirstOf(found).value;
      assert Corroborates(row, words, i);
      assert words[i].Word? && words[i + |row.keys| - 1].Word?;
      forall j: nat | j < i ensures !Corroborates(row, words, j) {
        assert j !in found;
      }
      assert FirstCorroborates(row, words, i, AnchorOf(row, words).value);
    }
  }

  method CorroboratedAnchor(row: Row, words: seq<Word>) returns (anchor: Option<Span>)
    ensures anchor == AnchorOf(row, words) && AnchorRight(row, words, anchor)
  {
    AnchorIsRight(row, words);
    hide Plausible, AnchorRight;
    if Problem(row) {
      return None;
    }
    for i := 0 to |words|
      invariant forall j: nat :: j < i ==> j !in Corroborations(row, words)
    {
      if RunAt(row.keys, words, i) {
        var plausible := PlausibleWords(words[i..i + |row.keys|], 0.0, None);
        if plausible {
          var span := RunSpan(row.keys, words, i);
          if Distance(span.start, row.start) <= 2.0 && Distance(span.end, row.end) <= 2.0 {
            FirstIs(Corroborations(row, words), i);
            return Some(span);
          }
        }
      }
    }
    assert Corroborations(row, words) == {};
    return None;
  }

  ghost function AnchorsOf(rows: seq<Row>, words: seq<Word>, n: nat): Anchors
    requires n <= |rows|
  {
    map k: nat | k < n && AnchorOf(rows[k], words).Some? :: AnchorOf(rows[k], words).value
  }

  method CorroboratedAnchors(rows: seq<Row>, words: seq<Word>) returns (anchors: Anchors)
    ensures anchors == AnchorsOf(rows, words, |rows|)
  {
    hide AnchorOf;
    anchors := map[];
    for k := 0 to |rows|
      invariant anchors == AnchorsOf(rows, words, k)
    {
      var anchor := CorroboratedAnchor(rows[k], words);
      if anchor.Some? {
        anchors := anchors[k := anchor.value];
      }
    }
  }

  /** The anchors are those of the rows, no more and no less. */
  lemma {:induction false} AnchorsExactly(rows: seq<Row>, words: seq<Word>)
    ensures var anchors := AnchorsOf(rows, words, |rows|);
            && (forall k :: k in anchors ==> k < |rows| && AnchorRight(rows[k], words, Some(anchors[k])))
            && (forall k: nat :: k < |rows| && k !in anchors ==> AnchorRight(rows[k], words, None))
  {
    hide AnchorRight, AnchorOf;
    forall k | 0 <= k < |rows| ensures AnchorRight(rows[k], words, AnchorOf(rows[k], words)) {
      AnchorIsRight(rows[k], words);
    }
  }

  lemma {:induction false} AnchorsAreProper(rows: seq<Row>, words: seq<Word>)
    ensures Proper(AnchorsOf(rows, words, |rows|))
  {
    hide AnchorOf;
    var anchors := AnchorsOf(rows, words, |rows|);
    forall k | k in anchors ensures 0.0 <= anchors[k].start < anchors[k].end {
      AnchorIsProper(rows[k], words);
    }
  }

  /** Anchors start inside the audio if, for example, every decoded word does. */
  lemma {:induction false} InsideWordsInsideAnchors(rows: seq<Row>, words: seq<Word>, duration: Option<real>)
    requires Inside(words, duration)
    ensures AnchorsInside(AnchorsOf(rows, words, |rows|), duration)
  {
    hide AnchorOf;
    var anchors := AnchorsOf(rows, words, |rows|);
    forall k | k in anchors && duration.Some? ensures anchors[k].start <= duration.value {
      AnchorIsProper(rows[k], words);
    }
  }

  function BehindTheEndRows(raw: string): seq<Row> {
    [Row(["a"], 1, false, false, 13.0, 14.0, raw, None), Row(["b"], 1, true, false, 20.0, 21.0, raw, None)]
  }

  /** An anchor behind the end need not give a window at all: a row at 13 s before a line decoded at 20 s, in a file of
      10 s, is given a window from 10.5 s to 10 s, and the crop decoder is asked for a negative length. */
  lemma {:induction false} WindowBehindTheEnd(raw: string)
    ensures var rows, words := BehindTheEndRows(raw), [Word("b", 20.0, 21.0, 1.0)];
            PlanOf(0, rows, AnchorsOf(rows, words, 2), words, Some(10.0)) == Proposed(Window(10.5, 10.0, 0.0, 20.0))
  {
    hide AnchorsOf, PlanOf;
    AnchorBehindTheEnd(raw);
    PlanBehindTheEnd(raw);
  }

  lemma {:induction false} AnchorBehindTheEnd(raw: string)
    ensures AnchorsOf(BehindTheEndRows(raw), [Word("b", 20.0, 21.0, 1.0)], 2) == map[1 := Span(20.0, 21.0)]
  {
    var rows, word := BehindTheEndRows(raw), Word("b", 20.0, 21.0, 1.0);
    CertainAnchor(rows[1], word);
    assert AnchorOf(rows[0], [word]) == None;
    OneAnchor(rows, [word], Span(20.0, 21.0));
  }

  lemma {:induction false} OneAnchor(rows: seq<Row>, words: seq<Word>, span: Span)
    requires |rows| == 2 && AnchorOf(rows[0], words) == None && AnchorOf(rows[1], words) == Some(span)
    ensures AnchorsOf(rows, words, 2) == map[1 := span]
  {
    hide AnchorOf;
  }

  lemma {:induction false} PlanBehindTheEnd(raw: string)
    ensures PlanOf(0, BehindTheEndRows(raw), map[1 := Span(20.0, 21.0)], [Word("b", 20.0, 21.0, 1.0)], Some(10.0))
            == Proposed(Window(10.5, 10.0, 0.0, 20.0))
  {
    var rows, words := BehindTheEndRows(raw), [Word("b", 20.0, 21.0, 1.0)];
    var anchors := map[1 := Span(20.0, 21.0)];
    assert LeftAnchor(anchors, 0) == None;
    assert RightAnchor(anchors, 0, 2) == Some(1);
    hide LeftAnchor, RightAnchor;
    assert "a"[0] != "b"[0];
    NotNear(rows[0], words[0], 0.0, 20.0);
    hide Located;
    assert TargetOf(0, rows, anchors, words, Some(10.0)) == Span(13.0, 14.0);
    hide TargetOf;
    assert WindowAround(Span(13.0, 14.0), None, Some(Span(20.0, 21.0)), Some(10.0)) == Span(10.5, 10.0);
    hide WindowAround;
  }

  /** A single word of another text does not locate a row. */
  lemma {:induction false} NotNear(row: Row, w: Word, lower: real, upper: real)
    requires w.Word? && |row.keys| == 1 && row.keys[0] != w.key
    ensures Located(row, [w], lower, upper) == Span(row.start, row.end)
  {
    var words := [w];
    assert words[0].key != row.keys[0 - 0];
    assert !RunAt(row.keys, words, 0);
    hide RunAt, RunSpan;
    assert NearRuns(row, words, lower, upper) == {};
  }

  /** A single certain word anchors its own row. */
  lemma {:induction false} CertainAnchor(row: Row, w: Word)
    requires w.Word? && 0.0 <= w.start && 0.04 <= w.end - w.start <= 8.0 && w.probability == 1.0
    requires !Problem(row) && row.keys == [w.key] && row.start == w.start && row.end == w.end
    ensures AnchorOf(row, [w]) == Some(Span(w.start, w.end))
  {
    var words := [w];
    assert words[0..1] == words;
    CertainConfidence(words);
    assert Plausible(words, 0.0, None);
    hide Plausible;
    assert Corroborates(row, words, 0);
    FirstIs(Corroborations(row, words), 0);
  }

  /** The run at `i` of the full transcript passes every gate for one row. */
  ghost predicate Settles(rows: seq<Row>, index: nat, words: seq<Word>, lower: real, upper: real,
                          recovered: Recoveries, i: nat)
    requires index < |rows|
  {
    var keys := rows[index].keys;
    && RunAt(keys, words, i) && Distance(words[i].start, rows[index].start) <= 2.0
    && Plausible(words[i..i + |keys|], lower, Some(upper))
    && |keys| == rows[index].tokens && !Conflict(recovered, index, RunSpan(keys, words, i))
  }

  ghost function Settlements(rows: seq<Row>, index: nat, words: seq<Word>, lower: real, upper: real,
                             recovered: Recoveries): set<nat>
    requires index < |rows|
  {
    set i: nat | i < |words| && Settles(rows, index, words, lower, upper, recovered, i)
  }

  /** The first such run recovers the row. */
  ghost function Settled(rows: seq<Row>, index: nat, words: seq<Word>, lower: real, upper: real,
                         recovered: Recoveries): Recoveries
    requires index < |rows|
  {
    var first := FirstOf(Settlements(rows, index, words, lower, upper, recovered));
    if first.None? then recovered
    else
      var i, keys := first.value, rows[index].keys;
      recovered[index := Recovery(RunSpan(keys, words, i), words[i..i + |keys|])]
  }

  lemma {:induction false} SettledIsSound(rows: seq<Row>, index: nat, words: seq<Word>, lower: real, upper: real,
                                          recovered: Recoveries)
    requires index < |rows| && Problem(rows[index])
    requires InOrder(recovered) && Genuine(recovered, rows)
    ensures var next := Settled(rows, index, words, lower, upper, recovered);
            && InOrder(next) && Genuine(next, rows)
            && (next == recovered || (next == recovered[index := next[index]] && index in next
                  && lower <= next[index].span.start < next[index].span.end <= upper))
  {
    hide InOrder, Genuine, Conflict, Plausible;
    var first := FirstOf(Settlements(rows, index, words, lower, upper, recovered));
    if first.Some? {
      var i, keys := first.value, rows[index].keys;
      var run := words[i..i + |keys|];
      assert Settles(rows, index, words, lower, upper, recovered, i);
      PlausibleSpan(run, lower, Some(upper));
      RunSpanIsSpan(keys, words, i);
      assert RunAt(keys, run, 0) && words[i].Word?;
      AcceptKeeps(rows, recovered, index, run);
    }
  }

  /** The gates for one run, in their order. */
  method TryRun(rows: seq<Row>, index: nat, words: seq<Word>, lower: real, upper: real, recovered: Recoveries, i: nat)
    returns (next: Recoveries, ok: bool)
    requires index < |rows| && Problem(rows[index])
    requires InOrder(recovered) && Genuine(recovered, rows)
    ensures ok <==> Settles(rows, index, words, lower, upper, recovered, i)
    ensures next == if !ok then recovered else
              var keys := rows[index].keys;
              recovered[index := Recovery(RunSpan(keys, words, i), words[i..i + |keys|])]
  {
    hide InOrder, Genuine, Plausible, Conflict, Distance;
    var keys := rows[index].keys;
    next, ok := recovered, false;
    if RunAt(keys, words, i) && Distance(words[i].start, rows[index].start) <= 2.0 {
      var run := words[i..i + |keys|];
      var plausible := PlausibleWords(run, lower, Some(upper));
      if plausible {
        PlausibleSpan(run, lower, Some(upper));
        RunSpanIsSpan(keys, words, i);
        assert RunAt(keys, run, 0);
        next, ok := Accept(rows, recovered, index, run);
      }
    }
  }

  method SearchTranscript(rows: seq<Row>, index: nat, words: seq<Word>, lower: real, upper: real, recovered: Recoveries)
    returns (next: Recoveries)
    requires index < |rows| && Problem(rows[index])
    requires InOrder(recovered) && Genuine(recovered, rows)
    ensures next == Settled(rows, index, words, lower, upper, recovered)
  {
    hide InOrder, Genuine, Settles;
    for i := 0 to |words|
      invariant forall j: nat :: j < i ==> j !in Settlements(rows, index, words, lower, upper, recovered)
    {
      var ok;
      next, ok := TryRun(rows, index, words, lower, upper, recovered, i);
      if ok {
        FirstIs(Settlements(rows, index, words, lower, upper, recovered), i);
        return;
      }
    }
    assert Settlements(rows, index, words, lower, upper, recovered) == {};
    return recovered;
  }

  datatype Pass = Pass(recovered: Recoveries, anchors: Anchors, pending: seq<nat>)

  /** One row of the first pass: settled by the full transcript it becomes an anchor for the next rows, else it
      waits. */
  ghost function Advance(rows: seq<Row>, words: seq<Word>, duration: Option<real>, p: Pass, index: nat): Pass
    requires index < |rows|
  {
    var lower := Lower(p.anchors, LeftAnchor(p.anchors, index));
    var upper := Upper(p.anchors, RightAnchor(p.anchors, index, |rows|), duration);
    var next := if upper.Some? then Settled(rows, index, words, lower, upper.value, p.recovered) else p.recovered;
    if index in next then Pass(next, p.anchors[index := next[index].span], p.pending)
    else Pass(next, p.anchors, p.pending + [index])
  }

  /** The first pass over `n` rows looks at the problem rows only. */
  ghost function FirstPass(rows: seq<Row>, words: seq<Word>, given: Anchors, duration: Option<real>, n: nat): Pass
    requires n <= |rows|
  {
    if n == 0 then Pass(map[], given, [])
    else
      var p := FirstPass(rows, words, given, duration, n - 1);
      if Problem(rows[n - 1]) then Advance(rows, words, duration, p, n - 1) else p
  }

  /** The span starts behind the nearest anchored row before row `i` and ends before the nearest one behind it, or
      before the end of the audio, as far as these are known. */
  ghost predicate BetweenAnchors(anchors: Anchors, i: nat, span: Span, n: nat, duration: Option<real>) {
    && Lower(anchors, LeftAnchor(anchors, i)) <= span.start
    && var upper := Upper(anchors, RightAnchor(anchors, i, n), duration);
       upper.Some? ==> span.end <= upper.value
  }

  /** Recovered rows are anchors themselves, each between its neighbours. */
  ghost predicate AllBetween(recovered: Recoveries, anchors: Anchors, n: nat, duration: Option<real>) {
    forall i :: i in recovered ==> Between(recovered[i].span, anchors, i, n, duration)
  }

  ghost predicate Between(span: Span, anchors: Anchors, i: nat, n: nat, duration: Option<real>) {
    i in anchors && anchors[i] == span && BetweenAnchors(anchors, i, span, n, duration)
  }

  /** What the first pass leaves: genuine recoveries in order, each between its neighbouring anchors, and every other
      problem row pending.  If the given anchors start inside the audio, all do. */
  ghost predicate PassOk(rows: seq<Row>, p: Pass, duration: Option<real>, n: nat, calm: bool)
    requires n <= |rows|
  {
    && InOrder(p.recovered) && Genuine(p.recovered, rows) && AllBetween(p.recovered, p.anchors, |rows|, duration)
    && Proper(p.anchors) && (calm ==> AnchorsInside(p.anchors, duration))
    && (forall i :: i in p.recovered ==> i < n)
    && (forall k :: 0 <= k < |p.pending| ==> p.pending[k] < n && Problem(rows[p.pending[k]]))
    && (forall j, k :: 0 <= j < k < |p.pending| ==> p.pending[j] < p.pending[k])
    && (forall i :: 0 <= i < n && Problem(rows[i]) ==> (i in p.recovered <==> i !in p.pending))
  }

  lemma {:induction false} FirstPassIsSound(rows: seq<Row>, words: seq<Word>, given: Anchors, duration: Option<real>,
                                            n: nat, calm: bool)
    requires n <= |rows| && Proper(given) && (calm ==> AnchorsInside(given, duration))
    ensures PassOk(rows, FirstPass(rows, words, given, duration, n), duration, n, calm)
  {
    hide PassOk, Advance, Proper, AnchorsInside;
    if n == 0 {
      NothingPassed(rows, given, duration, calm);
    } else {
      FirstPassIsSound(rows, words, given, duration, n - 1, calm);
      if Problem(rows[n - 1]) {
        AdvanceIsSound(rows, words, duration, FirstPass(rows, words, given, duration, n - 1), n - 1, calm);
      } else {
        NothingToSettle(rows, FirstPass(rows, words, given, duration, n - 1), duration, n - 1, calm);
      }
    }
  }

  lemma {:induction false} NothingPassed(rows: seq<Row>, given: Anchors, duration: Option<real>, calm: bool)
    requires Proper(given) && (calm ==> AnchorsInside(given, duration))
    ensures PassOk(rows, Pass(map[], given, []), duration, 0, calm)
  {
    hide Proper, AnchorsInside;
    NothingRecovered(rows);
    hide InOrder, Genuine;
  }

  lemma {:induction false} NothingToSettle(rows: seq<Row>, p: Pass, duration: Option<real>, n: nat, calm: bool)
    requires n < |rows| && !Problem(rows[n]) && PassOk(rows, p, duration, n, calm)
    ensures PassOk(rows, p, duration, n + 1, calm)
  {
    hide InOrder, Genuine, Proper, AnchorsInside, AllBetween;
  }

  lemma {:induction false} AdvanceIsSound(rows: seq<Row>, words: seq<Word>, duration: Option<real>, p: Pass,
                                          index: nat, calm: bool)
    requires index < |rows| && Problem(rows[index])
    requires PassOk(rows, p, duration, index, calm)
    ensures PassOk(rows, Advance(rows, words, duration, p, index), duration, index + 1, calm)
  {
    hide InOrder, Genuine, Proper, AnchorsInside, RunAt, RunSpan, Settled, AllBetween;
    var left := LeftAnchor(p.anchors, index);
    var lower := Lower(p.anchors, left);
    var upper := Upper(p.anchors, RightAnchor(p.anchors, index, |rows|), duration);
    if upper.Some? {
      SettledIsSound(rows, index, words, lower, upper.value, p.recovered);
      var next := Settled(rows, index, words, lower, upper.value, p.recovered);
      if index in next {
        LowerNotNegative(p.anchors, left);
        AddAnchor(p.anchors, index, next[index].span, duration, calm, |rows|);
        AddBetween(p.recovered, p.anchors, index, next[index], |rows|, duration);
      }
    }
  }

  /** Settling one more row keeps every earlier recovered row between its anchors. */
  lemma {:induction false} AddBetween(recovered: Recoveries, anchors: Anchors, index: nat, r: Recovery, n: nat,
                                      duration: Option<real>)
    requires index < n && AllBetween(recovered, anchors, n, duration) && forall i :: i in recovered ==> i < index
    requires Lower(anchors, LeftAnchor(anchors, index)) <= r.span.start
    requires var upper := Upper(anchors, RightAnchor(anchors, index, n), duration);
             upper.Some? ==> r.span.end <= upper.value
    ensures AllBetween(recovered[index := r], anchors[index := r.span], n, duration)
  {
    var more := anchors[index := r.span];
    LeftStays(anchors, index, r.span, index);
    RightStays(anchors, index, r.span, index, n);
    assert Between(r.span, more, index, n, duration);
    forall i | i in recovered ensures Between(recovered[i].span, more, i, n, duration) {
      BetweenStays(anchors, index, r.span, i, recovered[i].span, n, duration);
    }
    hide Between;
  }

  lemma {:induction false} BetweenStays(anchors: Anchors, index: nat, span: Span, i: nat, own: Span, n: nat,
                                        duration: Option<real>)
    requires i < index < n && Between(own, anchors, i, n, duration)
    requires Lower(anchors, LeftAnchor(anchors, index)) <= span.start
    ensures Between(own, anchors[index := span], i, n, duration)
  {
    LeftStays(anchors, index, span, i);
    RightOf(anchors, index, span, i, n);
    hide RightAnchor;
    if RightAnchor(anchors[index := span], i, n) == Some(index) {
      NearestLeft(anchors, index, i);
    }
    hide LeftAnchor;
  }

  lemma {:induction false} NearestLeft(anchors: Anchors, index: nat, i: nat)
    requires i < index && i in anchors
    ensures (forall k :: i < k < index ==> k !in anchors) ==> LeftAnchor(anchors, index) == Some(i)
  {
  }

  /** An anchor added at `index` does not change what is nearest before a row at or before it. */
  lemma {:induction false} LeftStays(anchors: Anchors, index: nat, span: Span, i: nat)
    requires i <= index
    ensures LeftAnchor(anchors[index := span], i) == LeftAnchor(anchors, i)
    ensures LeftAnchor(anchors, i).Some? ==> LeftAnchor(anchors, i).value < index
    decreases i
  {
    if i > 0 {
      LeftStays(anchors, index, span, i - 1);
    }
  }

  lemma {:induction false} RightStays(anchors: Anchors, index: nat, span: Span, i: nat, n: nat)
    requires index <= i
    ensures RightAnchor(anchors[index := span], i, n) == RightAnchor(anchors, i, n)
    ensures RightAnchor(anchors, i, n).Some? ==> RightAnchor(anchors, i, n).value > index
    decreases n - i
  {
    if i + 1 < n {
      RightStays(anchors, index, span, i + 1, n);
    }
  }

  /** Behind a row before it, the new anchor is nearest exactly if no anchor stood between. */
  lemma {:induction false} RightOf(anchors: Anchors, index: nat, span: Span, i: nat, n: nat)
    requires i < index < n
    ensures var before, after := RightAnchor(anchors, i, n), RightAnchor(anchors[index := span], i, n);
            if before.Some? && before.value < index then after == before
            else after == Some(index) && forall k :: i < k < index ==> k !in anchors
    decreases n - i
  {
    if i + 1 < index && i + 1 !in anchors {
      RightOf(anchors, index, span, i + 1, n);
    }
  }

  lemma {:induction false} PassKeeps(rows: seq<Row>, p: Pass, duration: Option<real>, n: nat, calm: bool)
    requires n <= |rows| && PassOk(rows, p, duration, n, calm)
    ensures InOrder(p.recovered) && Genuine(p.recovered, rows) && forall i :: i in p.recovered ==> i < n
  {
    hide InOrder, Genuine;
  }

  /** What becomes of one row: without a problem nothing happens; else the first run of the transcript that passes
      every gate between the nearest anchored rows recovers it, and it is an anchor from then on; without such a run,
      or without an upper bound, it waits. */
  ghost predicate RowPassed(rows: seq<Row>, words: seq<Word>, duration: Option<real>, p: Pass, index: nat, next: Pass)
    requires index < |rows|
  {
    if !Problem(rows[index]) then next == p
    else
      var left, right := LeftAnchor(p.anchors, index), RightAnchor(p.anchors, index, |rows|);
      var lower := if left.Some? then p.anchors[left.value].end else 0.0;
      var upper := if right.Some? then Some(p.anchors[right.value].start) else duration;
      if upper.None? then Waits(p, index, next) else Searches(rows, index, words, lower, upper.value, p, next)
  }

  ghost predicate Searches(rows: seq<Row>, index: nat, words: seq<Word>, lower: real, upper: real, p: Pass, next: Pass)
    requires index < |rows|
  {
    || (Waits(p, index, next) && forall i: nat :: !Settles(rows, index, words, lower, upper, p.recovered, i))
    || exists i: nat :: RecoversBy(rows, index, words, lower, upper, p, i, next)
  }

  predicate Waits(p: Pass, index: nat, next: Pass) {
    next == Pass(p.recovered, p.anchors, p.pending + [index])
  }

  ghost predicate RecoversBy(rows: seq<Row>, index: nat, words: seq<Word>, lower: real, upper: real, p: Pass, i: nat,
                             next: Pass)
    requires index < |rows|
  {
    && Settles(rows, index, words, lower, upper, p.recovered, i)
    && (forall j: nat :: j < i ==> !Settles(rows, index, words, lower, upper, p.recovered, j))
    && var n := |rows[index].keys|;
       var span := Span(words[i].start, words[i + n - 1].end);
       next == Pass(p.recovered[index := Recovery(span, words[i..i + n])], p.anchors[index := span], p.pending)
  }

  lemma {:induction false} AdvancePasses(rows: seq<Row>, words: seq<Word>, duration: Option<real>, p: Pass, index: nat)
    requires index < |rows| && Problem(rows[index]) && index !in p.recovered
    ensures RowPassed(rows, words, duration, p, index, Advance(rows, words, duration, p, index))
  {
    hide LeftAnchor, RightAnchor, Settles, Searches;
    var left, right := LeftAnchor(p.anchors, index), RightAnchor(p.anchors, index, |rows|);
    var lower := if left.Some? then p.anchors[left.value].end else 0.0;
    var upper := if right.Some? then Some(p.anchors[right.value].start) else duration;
    var next := Advance(rows, words, duration, p, index);
    assert lower == Lower(p.anchors, left) && upper == Upper(p.anchors, right, duration);
    if upper.Some? {
      SettledPasses(rows, index, words, lower, upper.value, p, next);
    }
  }

  lemma {:induction false} SettledPasses(rows: seq<Row>, index: nat, words: seq<Word>, lower: real, upper: real,
                                         p: Pass,
                                         next: Pass)
    requires index < |rows| && index !in p.recovered
    requires var settled := Settled(rows, index, words, lower, upper, p.recovered);
             next == if index in settled then Pass(settled, p.anchors[index := settled[index].span], p.pending)
                     else Pass(settled, p.anchors, p.pending + [index])
    ensures Searches(rows, index, words, lower, upper, p, next)
  {
    hide Settles;
    var found := Settlements(rows, index, words, lower, upper, p.recovered);
    forall j: nat ensures j in found <==> Settles(rows, index, words, lower, upper, p.recovered, j) {
      SettlesInside(rows, index, words, lower, upper, p.recovered, j);
    }
    var i := FirstOf(found);
    if i.Some? {
      assert Settles(rows, index, words, lower, upper, p.recovered, i.value);
      SettlesInside(rows, index, words, lower, upper, p.recovered, i.value);
      forall j: nat | j < i.value ensures !Settles(rows, index, words, lower, upper, p.recovered, j) {
        assert j !in found;
      }
      assert RecoversBy(rows, index, words, lower, upper, p, i.value, next);
    } else {
      forall j: nat ensures !Settles(rows, index, words, lower, upper, p.recovered, j) {
        assert j !in found;
      }
    }
  }

  lemma {:induction false} SettlesInside(rows: seq<Row>, index: nat, words: seq<Word>, lower: real, upper: real,
                                         recovered: Recoveries, i: nat)
    requires index < |rows|
    ensures Settles(rows, index, words, lower, upper, recovered, i) ==> i < |words| && RunAt(rows[index].keys, words, i)
  {
  }

  /** The passes over the rows one by one, from the given anchors. */
  ghost predicate PassedThrough(rows: seq<Row>, words: seq<Word>, given: Anchors, duration: Option<real>,
                                passes: seq<Pass>) {
    && |passes| == |rows| + 1 && passes[0] == Pass(map[], given, [])
    && forall k :: 0 <= k < |rows| ==> RowPassed(rows, words, duration, passes[k], k, passes[k + 1])
  }

  ghost function Passes(rows: seq<Row>, words: seq<Word>, given: Anchors, duration: Option<real>): (passes: seq<Pass>)
    ensures |passes| == |rows| + 1
    ensures forall k :: 0 <= k <= |rows| ==> passes[k] == FirstPass(rows, words, given, duration, k)
  {
    seq(|rows| + 1, k requires 0 <= k <= |rows| => FirstPass(rows, words, given, duration, k))
  }

  lemma {:induction false} FirstPassPasses(rows: seq<Row>, words: seq<Word>, given: Anchors, duration: Option<real>)
    requires Proper(given)
    ensures PassedThrough(rows, words, given, duration, Passes(rows, words, given, duration))
  {
    hide RowPassed, Advance, PassOk, Proper;
    forall k | 0 <= k < |rows|
      ensures RowPassed(rows, words, duration, FirstPass(rows, words, given, duration, k), k,
                        FirstPass(rows, words, given, duration, k + 1))
    {
      var p := FirstPass(rows, words, given, duration, k);
      FirstPassIsSound(rows, words, given, duration, k, false);
      PassKeeps(rows, p, duration, k, false);
      if Problem(rows[k]) {
        AdvancePasses(rows, words, duration, p, k);
      } else {
        NoProblemPasses(rows, words, duration, p, k);
      }
    }
  }

  lemma {:induction false} NoProblemPasses(rows: seq<Row>, words: seq<Word>, duration: Option<real>, p: Pass,
                                           index: nat)
    requires index < |rows| && !Problem(rows[index])
    ensures RowPassed(rows, words, duration, p, index, p)
  {
  }

  method RecoverFromTranscript(rows: seq<Row>, words: seq<Word>, given: Anchors, duration: Option<real>)
    returns (recovered: Recoveries, anchors: Anchors, pending: seq<nat>, ghost passes: seq<Pass>)
    requires Proper(given)
    ensures Pass(recovered, anchors, pending) == FirstPass(rows, words, given, duration, |rows|)
    ensures PassedThrough(rows, words, given, duration, passes)
    ensures Pass(recovered, anchors, pending) == passes[|rows|]
  {
    passes := Passes(rows, words, given, duration);
    FirstPassPasses(rows, words, given, duration);
    hide PassedThrough, RowPassed;
    hide InOrder, Conflict, Genuine, Proper, AnchorsInside, RunAt, RunSpan, Settled, PassOk;
    recovered, anchors, pending := map[], given, [];
    for index := 0 to |rows|
      invariant Pass(recovered, anchors, pending) == FirstPass(rows, words, given, duration, index)
    {
      FirstPassIsSound(rows, words, given, duration, index, false);
      PassKeeps(rows, FirstPass(rows, words, given, duration, index), duration, index, false);
      if !Problem(rows[index]) {
        continue;
      }
      var left, right := LeftAnchor(anchors, index), RightAnchor(anchors, index, |rows|);
      var lower, upper := Lower(anchors, left), Upper(anchors, right, duration);
      if upper.Some? {
        recovered := SearchTranscript(rows, index, words, lower, upper.value, recovered);
      }
      if index in recovered {
        anchors := anchors[index := recovered[index].span];
      } else {
        pending := pending + [index];
      }
    }
  }

  lemma {:induction false} NothingRecovered(rows: seq<Row>)
    ensures InOrder(map[]) && Genuine(map[], rows)
  {
  }

  lemma {:induction false} LowerNotNegative(anchors: Anchors, left: Option<nat>)
    requires Proper(anchors) && (left.Some? ==> left.value in anchors)
    ensures Lower(anchors, left) >= 0.0
  {
  }

  lemma {:induction false} AddAnchor(anchors: Anchors, index: nat, span: Span, duration: Option<real>, calm: bool,
                                     n: nat)
    requires Proper(anchors) && (calm ==> AnchorsInside(anchors, duration))
    requires 0.0 <= span.start < span.end
    requires var upper := Upper(anchors, RightAnchor(anchors, index, n), duration);
             upper.Some? && span.end <= upper.value
    ensures Proper(anchors[index := span]) && (calm ==> AnchorsInside(anchors[index := span], duration))
  {
  }
}
