/** Word runs in a decoded transcript and the gates a run must pass before its times are
    believed (`_matching_word_runs`, `_plausible_words`, `_confidence_only_failure`).  Times in seconds. */
module AsrEvidence {
  import opened Options

  /** A decoded word with its comparison key, or the barrier put in place of an untrusted segment. */
  datatype Word = Word(key: string, start: real, end: real, probability: real) | Barrier

  datatype Span = Span(start: real, end: real)

  /** The words from `i` on spell out `keys`. */
  predicate RunAt(keys: seq<string>, words: seq<Word>, i: nat) {
    && keys != [] && i + |keys| <= |words|
    && forall k :: i <= k < i + |keys| ==> words[k].Word? && words[k].key == keys[k - i]
  }

  /** From the first word's start to the last word's end. */
  function RunSpan(keys: seq<string>, words: seq<Word>, i: nat): Span
    requires RunAt(keys, words, i)
  {
    Span(words[i].start, words[i + |keys| - 1].end)
  }

  lemma {:induction false} RunSpanIsSpan(keys: seq<string>, words: seq<Word>, i: nat)
    requires RunAt(keys, words, i)
    ensures var run := words[i..i + |keys|];
            run[0].Word? && run[|run| - 1].Word? && RunSpan(keys, words, i) == SpanOf(run)
  {
  }

  function Shift(words: seq<Word>, offset: real): (r: seq<Word>)
    ensures |r| == |words|
  {
    seq(|words|, k requires 0 <= k < |words| =>
      if words[k].Barrier? then Barrier else words[k].(start := words[k].start + offset, end := words[k].end + offset))
  }

  // ---- plausibility ----

  predicate WordFits(w: Word, lower: real, upper: Option<real>) {
    && w.Word?
    && lower <= w.start && (upper.Some? ==> w.end <= upper.value)
    && 0.04 <= w.end - w.start <= 8.0
    && 0.3 <= w.probability <= 1.0
  }

  /** At most two hundredths of overlap and at most four seconds of pause. */
  predicate Follows(v: Word, w: Word)
    requires v.Word? && w.Word?
  {
    v.end - 0.02 <= w.start <= v.end + 4.0
  }

  function Confidence(run: seq<Word>): real {
    if run == [] then 0.0
    else Confidence(run[..|run| - 1]) + if run[|run| - 1].Word? then run[|run| - 1].probability else 0.0
  }

  ghost predicate Plausible(run: seq<Word>, lower: real, upper: Option<real>) {
    && run != []
    && (forall k :: 0 <= k < |run| ==> WordFits(run[k], lower, upper))
    && (forall k :: 0 < k < |run| ==> Follows(run[k - 1], run[k]))
    && Confidence(run) >= 0.65 * |run| as real
  }

  method PlausibleWords(run: seq<Word>, lower: real, upper: Option<real>) returns (ok: bool)
    ensures ok <==> Plausible(run, lower, upper)
  {
    var previousEnd, sum := lower, 0.0;
    for k := 0 to |run|
      invariant forall i :: 0 <= i < k ==> WordFits(run[i], lower, upper)
      invariant forall i :: 0 < i < k ==> Follows(run[i - 1], run[i])
      invariant previousEnd == if k == 0 then lower else run[k - 1].end
      invariant sum == Confidence(run[..k])
    {
      var w := run[k];
      assert run[..k + 1][..k] == run[..k];
      if w.Barrier? {
        assert !WordFits(run[k], lower, upper);
        return false;
      }
      if w.start < lower || (upper.Some? && w.end > upper.value) || w.end - w.start < 0.04 || w.end - w.start > 8.0
         || w.start < previousEnd - 0.02 {
        assert !WordFits(run[k], lower, upper) || !Follows(run[k - 1], run[k]);
        return false;
      }
      if k > 0 && w.start - previousEnd > 4.0 {
        assert !Follows(run[k - 1], run[k]);
        return false;
      }
      if w.probability < 0.3 || w.probability > 1.0 {
        assert !WordFits(run[k], lower, upper);
        return false;
      }
      sum := sum + w.probability;
      previousEnd := w.end;
    }
    assert run[..|run|] == run;
    if run == [] {
      return false;
    }
    ok := sum / |run| as real >= 0.65;
    assert ok <==> sum >= 0.65 * |run| as real by {
      MeanAtLeast(sum, |run|);
    }
  }

  lemma {:induction false} MeanAtLeast(sum: real, n: nat)
    requires n > 0
    ensures sum / n as real >= 0.65 <==> sum >= 0.65 * n as real
  {
    var m := sum / n as real;
    assert m * n as real == sum;
    if m >= 0.65 {
      assert m * n as real >= 0.65 * n as real;
    } else {
      assert m * n as real < 0.65 * n as real;
    }
  }

  function SpanOf(run: seq<Word>): Span
    requires run != [] && run[0].Word? && run[|run| - 1].Word?
  {
    Span(run[0].start, run[|run| - 1].end)
  }

  /** Word widths beat the tolerated overlap, so ends grow along a plausible run. */
  lemma {:induction false} EndsGrow(run: seq<Word>, lower: real, upper: Option<real>, k: nat)
    requires Plausible(run, lower, upper) && k < |run|
    ensures run[0].end <= run[k].end
  {
    if k > 0 {
      EndsGrow(run, lower, upper, k - 1);
      assert Follows(run[k - 1], run[k]);
      assert WordFits(run[k], lower, upper);
    }
  }

  /** A plausible run takes positive time inside its bounds. */
  lemma {:induction false} PlausibleSpan(run: seq<Word>, lower: real, upper: Option<real>)
    requires Plausible(run, lower, upper)
    ensures lower <= SpanOf(run).start < SpanOf(run).end
    ensures upper.Some? ==> SpanOf(run).end <= upper.value
  {
    EndsGrow(run, lower, upper, |run| - 1);
    assert WordFits(run[0], lower, upper) && WordFits(run[|run| - 1], lower, upper);
  }

  // ---- confidence-only failures ----

  function Certain(run: seq<Word>): (r: seq<Word>)
    ensures |r| == |run|
  {
    seq(|run|, k requires 0 <= k < |run| => if run[k].Barrier? then Barrier else run[k].(probability := 1.0))
  }

  predicate Probable(run: seq<Word>) {
    forall k :: 0 <= k < |run| ==> run[k].Word? && 0.0 <= run[k].probability <= 1.0
  }

  /** The run fails, and would pass if every word were certain. */
  ghost predicate OnlyUnsure(run: seq<Word>, lower: real, upper: Option<real>) {
    Probable(run) && !Plausible(run, lower, upper) && Plausible(Certain(run), lower, upper)
  }

  method ConfidenceOnlyFailure(run: seq<Word>, lower: real, upper: Option<real>) returns (yes: bool)
    ensures yes <==> OnlyUnsure(run, lower, upper)
  {
    if !Probable(run) {
      return false;
    }
    var now := PlausibleWords(run, lower, upper);
    var certain := PlausibleWords(Certain(run), lower, upper);
    yes := !now && certain;
  }

  lemma {:induction false} CertainConfidence(run: seq<Word>)
    requires forall k :: 0 <= k < |run| ==> run[k].Word? && run[k].probability == 1.0
    ensures Confidence(run) == |run| as real
  {
    if run != [] {
      CertainConfidence(run[..|run| - 1]);
    }
  }

  /** All words fit once their confidence is set aside. */
  ghost predicate TimesFit(run: seq<Word>, lower: real, upper: Option<real>) {
    forall k :: 0 <= k < |run| ==> run[k].Word? && WordFits(run[k].(probability := 1.0), lower, upper)
  }

  ghost predicate InSequence(run: seq<Word>)
    requires forall k :: 0 <= k < |run| ==> run[k].Word?
  {
    forall k :: 0 < k < |run| ==> Follows(run[k - 1], run[k])
  }

  lemma {:induction false} CertainSplits(run: seq<Word>, lower: real, upper: Option<real>)
    requires Probable(run)
    ensures Plausible(Certain(run), lower, upper) <==> run != [] && TimesFit(run, lower, upper) && InSequence(run)
  {
    var sure := Certain(run);
    CertainConfidence(sure);
    assert forall k :: 0 <= k < |run| ==> sure[k] == run[k].(probability := 1.0);
    if InSequence(run) {
      forall k | 0 < k < |run| ensures Follows(sure[k - 1], sure[k]) {
        assert Follows(run[k - 1], run[k]);
      }
    }
    if Plausible(sure, lower, upper) {
      forall k | 0 < k < |run| ensures Follows(run[k - 1], run[k]) {
        assert Follows(sure[k - 1], sure[k]);
      }
    }
  }

  lemma {:induction false} PlausibleSplits(run: seq<Word>, lower: real, upper: Option<real>)
    requires Probable(run)
    ensures Plausible(run, lower, upper) <==>
            && run != [] && TimesFit(run, lower, upper) && InSequence(run)
            && (forall k :: 0 <= k < |run| ==> run[k].probability >= 0.3) && Confidence(run) >= 0.65 * |run| as real
  {
    hide Follows;
    assert forall k :: 0 <= k < |run| ==>
                         (WordFits(run[k], lower, upper)
                          <==> WordFits(run[k].(probability := 1.0), lower, upper) && run[k].probability >= 0.3);
  }

  /** Such a run has sound times, and its only fault is a word below 0.3 or a mean below 0.65. */
  lemma {:induction false} ConfidenceIsTheOnlyFault(run: seq<Word>, lower: real, upper: Option<real>)
    requires Probable(run)
    ensures OnlyUnsure(run, lower, upper) <==>
            && run != [] && TimesFit(run, lower, upper) && InSequence(run)
            && ((exists k :: 0 <= k < |run| && run[k].probability < 0.3) || Confidence(run) < 0.65 * |run| as real)
  {
    hide Plausible;
    hide TimesFit;
    hide InSequence;
    hide Certain;
    CertainSplits(run, lower, upper);
    PlausibleSplits(run, lower, upper);
  }
}
