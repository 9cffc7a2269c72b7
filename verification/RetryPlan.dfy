/** Planning the audio windows of the retry scheduler (`_retry_window`, `_alternate_retry_window`).
    Times in seconds. */
module RetryPlan {
  import opened Numbers
  import opened Options
  import opened AsrEvidence

  const MAX_CROP_SECONDS: real := 25.0

  /** One aligned lyric line: comparison keys and token count of its text, whether the aligner
      kept it, whether its timing is suspicious, its times, its rendered line and its score. */
  datatype Row = Row(keys: seq<string>, tokens: nat, kept: bool, issues: bool,
                     start: real, end: real, raw: string, score: Option<real>)

  predicate Problem(row: Row) {
    !row.kept || row.issues
  }

  // ---- anchors ----

  type Anchors = map<nat, Span>

  /** Anchors lie in the audio: from zero on, with positive length. */
  ghost predicate Proper(anchors: Anchors) {
    forall k :: k in anchors ==> 0.0 <= anchors[k].start < anchors[k].end
  }

  /** Nearest anchored row before `index`. */
  function LeftAnchor(anchors: Anchors, index: nat): (r: Option<nat>)
    ensures r.Some? ==> r.value in anchors && r.value < index && forall k :: r.value < k < index ==> k !in anchors
    ensures r.None? ==> forall k :: 0 <= k < index ==> k !in anchors
  {
    if index == 0 then None
    else if index - 1 in anchors then Some(index - 1)
    else LeftAnchor(anchors, index - 1)
  }

  /** Nearest anchored row after `index`, among `n` rows. */
  function RightAnchor(anchors: Anchors, index: nat, n: nat): (r: Option<nat>)
    ensures r.Some? ==> r.value in anchors && index < r.value < n && forall k :: index < k < r.value ==> k !in anchors
    ensures r.None? ==> forall k :: index < k < n ==> k !in anchors
    decreases n - index
  {
    if index + 1 >= n then None
    else if index + 1 in anchors then Some(index + 1)
    else RightAnchor(anchors, index + 1, n)
  }

  function Lower(anchors: Anchors, left: Option<nat>): real
    requires left.Some? ==> left.value in anchors
  {
    if left.Some? then anchors[left.value].end else 0.0
  }

  function Upper(anchors: Anchors, right: Option<nat>, duration: Option<real>): Option<real>
    requires right.Some? ==> right.value in anchors
  {
    if right.Some? then Some(anchors[right.value].start) else duration
  }

  // ---- the target ----

  /** An exact run of the row's words, starting near the row and inside the bounds. */
  ghost predicate NearRun(row: Row, words: seq<Word>, lower: real, upper: real, i: nat) {
    && RunAt(row.keys, words, i)
    && var span := RunSpan(row.keys, words, i);
       Distance(span.start, row.start) <= 2.0 && lower <= span.start < span.end <= upper
  }

  ghost function NearRuns(row: Row, words: seq<Word>, lower: real, upper: real): set<nat> {
    set i: nat | i < |words| && NearRun(row, words, lower, upper, i)
  }

  /** The first such run locates the target; otherwise the row's own times do. */
  ghost function Located(row: Row, words: seq<Word>, lower: real, upper: real): Span {
    var first := FirstOf(NearRuns(row, words, lower, upper));
    if first.Some? then RunSpan(row.keys, words, first.value) else Span(row.start, row.end)
  }

  method LocateTarget(row: Row, words: seq<Word>, lower: real, upper: real) returns (target: Span)
    ensures target == Located(row, words, lower, upper)
  {
    for i := 0 to |words|
      invariant forall j: nat :: j < i ==> j !in NearRuns(row, words, lower, upper)
    {
      if RunAt(row.keys, words, i) {
        var span := RunSpan(row.keys, words, i);
        if Distance(span.start, row.start) <= 2.0 && lower <= span.start < span.end <= upper {
          FirstIs(NearRuns(row, words, lower, upper), i);
          return span;
        }
      }
    }
    assert NearRuns(row, words, lower, upper) == {};
    return Span(row.start, row.end);
  }

  // ---- the window ----

  datatype Window = Window(start: real, end: real, lower: real, upper: real)

  datatype Refusal = NoAnchor | NoDuration | OutsideBounds | TooLong

  datatype Plan = Proposed(window: Window) | Refused(why: Refusal)

  /** A moment cut off at the end of the audio, when that is known. */
  function Cut(t: real, duration: Option<real>): real {
    if duration.Some? then Least(t, duration.value) else t
  }

  /** How much of a target is searched: 1.5 s a token, at least 5 s, at most 15 s. */
  function TargetSpan(tokens: nat): real {
    Least(15.0, Most(5.0, 1.5 * tokens as real))
  }

  function AnchorSpan(anchors: Anchors, at: Option<nat>): Option<Span>
    requires at.Some? ==> at.value in anchors
  {
    if at.Some? then Some(anchors[at.value]) else None
  }

  /** The located target pushed behind the left bound and limited in length. */
  function Trim(found: Span, tokens: nat, lower: real, upper: real): Span {
    var start := Most(found.start, lower);
    Span(start, Least(upper, Most(start + 0.5, Least(found.end, start + TargetSpan(tokens)))))
  }

  function ContextStart(target: Span, left: Option<Span>): real {
    var start := Most(0.0, target.start - 2.0);
    if left.Some? && target.start - left.value.end <= 2.0 then Least(start, Most(0.0, left.value.start - 0.5))
        else start
  }

  function ContextEnd(target: Span, right: Option<Span>): real {
    var end := target.end + 2.0;
    if right.Some? && right.value.start - target.end <= 2.0 then Most(end, right.value.end + 0.5) else end
  }

  function Padding(length: real): real {
    if length < 6.0 then (6.0 - length) / 2.0 else 0.0
  }

  /** The window around a target: context, whole near anchor phrases, padding to six seconds, cut at the end of the
      audio. */
  function WindowAround(target: Span, left: Option<Span>, right: Option<Span>, duration: Option<real>): Span {
    var start, end := ContextStart(target, left), ContextEnd(target, right);
    var padding := Padding(end - start);
    Span(if padding > 0.0 then Most(0.0, start - padding) else start, Cut(end + padding, duration))
  }

  /** Two seconds of context on both sides, whole anchor phrases when they are that close, six seconds
      unless the audio ends; of positive length exactly when the same window without a known end starts before it. */
  lemma {:induction false} WindowCovers(target: Span, left: Option<Span>, right: Option<Span>, duration: Option<real>)
    requires 0.0 <= target.start < target.end
    ensures var w := WindowAround(target, left, right, duration);
            && 0.0 <= w.start && (duration.Some? ==> w.end <= duration.value)
            && w.start <= Most(0.0, target.start - 2.0)
            && w.end >= Cut(target.end + 2.0, duration)
            && (left.Some? && target.start - left.value.end <= 2.0 ==> w.start <= Most(0.0, left.value.start - 0.5))
            && (right.Some? && right.value.start - target.end <= 2.0 ==> w.end >= Cut(right.value.end + 0.5, duration))
            && (w.end - w.start >= 6.0 || w.start == 0.0 || duration == Some(w.end))
            && (w.start < w.end <==> duration.None? || WindowAround(target, left, right, None).start < duration.value)
  {
    var start, end := ContextStart(target, left), ContextEnd(target, right);
    assert 0.0 <= start <= Most(0.0, target.start - 2.0) < end;
    assert end >= target.end + 2.0;
  }

  ghost predicate SomeBound(left: Option<nat>, right: Option<nat>, duration: Option<real>) {
    (left.Some? || right.Some? || (duration.Some? && duration.value <= MAX_CROP_SECONDS))
        && ((left.Some? && right.Some?) || duration.Some?)
  }

  /** The located target between the bounds given by the neighbouring anchors. */
  ghost function TargetOf(index: nat, rows: seq<Row>, anchors: Anchors, words: seq<Word>, duration: Option<real>): Span
    requires index < |rows|
    requires Upper(anchors, RightAnchor(anchors, index, |rows|), duration).Some?
  {
    var lower := Lower(anchors, LeftAnchor(anchors, index));
    var upper := Upper(anchors, RightAnchor(anchors, index, |rows|), duration).value;
    Trim(Located(rows[index], words, lower, upper), rows[index].tokens, lower, upper)
  }

  /** What is proposed for a row, or why nothing is. */
  ghost function PlanOf(index: nat, rows: seq<Row>, anchors: Anchors, words: seq<Word>, duration: Option<real>): Plan
    requires index < |rows|
  {
    var left, right := LeftAnchor(anchors, index), RightAnchor(anchors, index, |rows|);
    if left.None? && right.None? && (duration.None? || duration.value > MAX_CROP_SECONDS) then Refused(NoAnchor)
    else if (left.None? || right.None?) && duration.None? then Refused(NoDuration)
    else
      var lower, upper := Lower(anchors, left), Upper(anchors, right, duration).value;
      var found := Located(rows[index], words, lower, upper);
      if upper <= lower || found.start < lower - 2.0 || found.start >= upper then Refused(OutsideBounds)
      else
        var target := TargetOf(index, rows, anchors, words, duration);
        var window := WindowAround(target, AnchorSpan(anchors, left), AnchorSpan(anchors, right), duration);
        if window.end - window.start > MAX_CROP_SECONDS then Refused(TooLong)
        else Proposed(Window(window.start, window.end, lower, upper))
  }

  /** A proposed window rests on some independent bound, and surrounds a target that lies between the bounds
      and is no longer than its words allow. */
  lemma {:induction false} PlanIsBounded(index: nat, rows: seq<Row>, anchors: Anchors, words: seq<Word>,
                                         duration: Option<real>)
    requires index < |rows| && Proper(anchors)
    requires PlanOf(index, rows, anchors, words, duration).Proposed?
    ensures var left, right := LeftAnchor(anchors, index), RightAnchor(anchors, index, |rows|);
            && SomeBound(left, right, duration)
            && var target := TargetOf(index, rows, anchors, words, duration);
               var w := PlanOf(index, rows, anchors, words, duration).window;
               && 0.0 <= w.lower <= target.start < target.end <= w.upper
               && target.end - target.start <= TargetSpan(rows[index].tokens)
               && Span(w.start, w.end) == WindowAround(target, AnchorSpan(anchors, left), AnchorSpan(anchors, right),
                                                       duration)
               && w.end - w.start <= MAX_CROP_SECONDS
               && w.lower == Lower(anchors, left) && Some(w.upper) == Upper(anchors, right, duration)
  {
    hide Located;
    var w := PlanOf(index, rows, anchors, words, duration).window;
    TrimmedTarget(Located(rows[index], words, w.lower, w.upper), rows[index].tokens, w.lower, w.upper);
  }

  method RetryWindow(index: nat, rows: seq<Row>, anchors: Anchors, words: seq<Word>, duration: Option<real>)
    returns (plan: Plan)
    requires index < |rows|
    ensures plan == PlanOf(index, rows, anchors, words, duration)
  {
    hide Located, LeftAnchor, RightAnchor, Trim, ContextStart, ContextEnd, TargetSpan, Proper;
    var row := rows[index];
    var left, right := LeftAnchor(anchors, index), RightAnchor(anchors, index, |rows|);
    if left.None? && right.None? && (duration.None? || duration.value > MAX_CROP_SECONDS) {
      return Refused(NoAnchor);
    }
    if (left.None? || right.None?) && duration.None? {
      return Refused(NoDuration);
    }
    var lower := Lower(anchors, left);
    var upper := Upper(anchors, right, duration).value;
    var found := LocateTarget(row, words, lower, upper);
    if upper <= lower || found.start < lower - 2.0 || found.start >= upper {
      return Refused(OutsideBounds);
    }
    var target := Trim(found, row.tokens, lower, upper);
    TrimmedTarget(found, row.tokens, lower, upper);
    var start, end := ContextStart(target, AnchorSpan(anchors, left)), ContextEnd(target, AnchorSpan(anchors, right));
    if end - start < 6.0 {
      var padding := Padding(end - start);
      start, end := Most(0.0, start - padding), end + padding;
    }
    if duration.Some? {
      end := Least(end, duration.value);
    }
    if end - start > MAX_CROP_SECONDS {
      return Refused(TooLong);
    }
    plan := Proposed(Window(start, end, lower, upper));
  }

  /** The earliest of two moments that both apply, or the only one. */
  predicate IsLeast(t: real, x: real, y: Option<real>) {
    t <= x && (y.Some? ==> t <= y.value) && (t == x || y == Some(t))
  }

  predicate IsMost(t: real, x: real, y: Option<real>) {
    t >= x && (y.Some? ==> t >= y.value) && (t == x || y == Some(t))
  }

  /** How long the words of a row are searched: at least 5 s, at most 15 s, in between a second and a half a word. */
  lemma {:induction false} TargetSpanIs(tokens: nat)
    ensures TargetSpan(tokens) == if tokens <= 3 then 5.0 else if tokens >= 10 then 15.0 else 1.5 * tokens as real
  {
  }

  /** The target: from the located start, or the lower bound if that is later, to the located end, but no less than half
      a second and no more than its words allow, and never past the upper bound. */
  lemma {:induction false} TrimmedExactly(found: Span, tokens: nat, lower: real, upper: real)
    ensures var t, longest := Trim(found, tokens, lower, upper), TargetSpan(tokens);
            && IsMost(t.start, found.start, Some(lower))
            && var end := if found.end - t.start < 0.5 then t.start + 0.5
                          else if found.end - t.start > longest then t.start + longest else found.end;
               IsLeast(t.end, end, Some(upper))
  {
    TargetSpanIs(tokens);
  }

  /** The reach of a window around a target: two seconds of context on each side, farther if a neighbouring anchor
      phrase begins or ends within two seconds of the target, then to half a second beyond that phrase, and never
      before zero. */
  predicate Reach(target: Span, left: Option<Span>, right: Option<Span>, start: real, end: real) {
    var nearLeft := left.Some? && target.start - left.value.end <= 2.0;
    var nearRight := right.Some? && right.value.start - target.end <= 2.0;
    && IsLeast(start, if target.start <= 2.0 then 0.0 else target.start - 2.0,
               if !nearLeft then None else if left.value.start <= 0.5 then Some(0.0) else Some(left.value.start - 0.5))
    && IsMost(end, target.end + 2.0, if nearRight then Some(right.value.end + 0.5) else None)
  }

  /** The window is its reach, stretched alike on both sides to six seconds if it is shorter, and cut at zero and at
      the end of the audio. */
  lemma {:induction false} WindowExactly(target: Span, left: Option<Span>, right: Option<Span>, duration: Option<real>)
    ensures var start, end := ContextStart(target, left), ContextEnd(target, right);
            var w, more := WindowAround(target, left, right, duration), if end - start < 6.0 then 6.0 - (end - start)
                else 0.0;
            && Reach(target, left, right, start, end)
            && (if more == 0.0 then w.start == start else IsMost(w.start, start - more / 2.0, Some(0.0)))
            && IsLeast(w.end, end + more / 2.0, duration)
  {
  }

  /** The located times: those of the first near run of the row's words, or the row's own. */
  lemma {:induction false} LocatedExactly(row: Row, words: seq<Word>, lower: real, upper: real)
    ensures var found := Located(row, words, lower, upper);
            || (found == Span(row.start, row.end) && forall i: nat :: !NearRun(row, words, lower, upper, i))
            || exists i: nat ::
                 && NearRun(row, words, lower, upper, i) && found == RunSpan(row.keys, words, i)
                 && forall j: nat :: j < i ==> !NearRun(row, words, lower, upper, j)
  {
    hide RunSpan, Distance;
    var runs := NearRuns(row, words, lower, upper);
    forall i: nat ensures i in runs <==> NearRun(row, words, lower, upper, i) {
    }
    hide NearRun;
    if FirstOf(runs).Some? {
      var i := FirstOf(runs).value;
      forall j: nat | j < i ensures !NearRun(row, words, lower, upper, j) {
        assert j !in runs;
      }
    }
  }

  /** Why nothing is proposed, and what is proposed otherwise. */
  lemma {:induction false} PlanExactly(index: nat, rows: seq<Row>, anchors: Anchors, words: seq<Word>,
                                       duration: Option<real>)
    requires index < |rows|
    ensures var left, right := LeftAnchor(anchors, index), RightAnchor(anchors, index, |rows|);
            var plan := PlanOf(index, rows, anchors, words, duration);
            && (plan == Refused(NoAnchor) <==>
                  left.None? && right.None? && (duration.None? || duration.value > MAX_CROP_SECONDS))
            && (plan == Refused(NoDuration) <==> left.Some? != right.Some? && duration.None?)
            && (plan != Refused(NoAnchor) && plan != Refused(NoDuration) ==>
                  var lower := if left.Some? then anchors[left.value].end else 0.0;
                  var upper := if right.Some? then anchors[right.value].start else duration.value;
                  var found := Located(rows[index], words, lower, upper);
                  var w := WindowAround(Trim(found, rows[index].tokens, lower, upper),
                                        AnchorSpan(anchors, left), AnchorSpan(anchors, right), duration);
                  && (plan == Refused(OutsideBounds) <==>
                        upper <= lower || found.start < lower - 2.0 || upper <= found.start)
                  && (plan != Refused(OutsideBounds) ==>
                        plan == if w.end - w.start > MAX_CROP_SECONDS then Refused(TooLong)
                                else Proposed(Window(w.start, w.end, lower, upper))))
  {
    hide Located, Trim, WindowAround, LeftAnchor, RightAnchor;
  }

  /** The code's last check for an empty target can never fire. */
  lemma {:induction false} TrimmedTarget(found: Span, tokens: nat, lower: real, upper: real)
    requires lower < upper && found.start < upper
    ensures var t := Trim(found, tokens, lower, upper);
            lower <= t.start < t.end <= upper && t.end - t.start <= TargetSpan(tokens)
  {
  }

  /** Every timed word starts inside the audio. */
  ghost predicate Inside(words: seq<Word>, duration: Option<real>) {
    duration.Some? ==> forall k :: 0 <= k < |words| && words[k].Word? ==> words[k].start <= duration.value
  }

  /** Every anchor starts inside the audio. */
  ghost predicate AnchorsInside(anchors: Anchors, duration: Option<real>) {
    duration.Some? ==> forall k :: k in anchors ==> anchors[k].start <= duration.value
  }

  /** A window whose right bound lies inside the audio has positive length. */
  lemma {:induction false} InsideMeansPositive(target: Span, left: Option<Span>, right: Option<Span>, upper: real,
                                               duration: Option<real>)
    requires 0.0 <= target.start < target.end <= upper && (duration.Some? ==> upper <= duration.value)
    ensures WindowAround(target, left, right, duration).start < WindowAround(target, left, right, duration).end
  {
    WindowCovers(target, left, right, duration);
    assert WindowAround(target, left, right, duration).start <= target.start;
  }

  // ---- the alternate window ----

  /** Latest start among phrases that begin before `start` and end no more than 3 s before it. */
  function LeftContext(phrases: seq<Span>, start: real): (r: Option<real>)
    ensures r.None? <==> forall k :: 0 <= k < |phrases| ==> !ReachesLeft(phrases[k], start)
    ensures r.Some? ==> r.value < start && 0.0 <= r.value
    ensures r.Some? ==> forall k :: 0 <= k < |phrases| && ReachesLeft(phrases[k], start) ==> phrases[k].start <= r.value
    ensures r.Some? ==> exists k :: 0 <= k < |phrases| && ReachesLeft(phrases[k], start) && phrases[k].start == r.value
  {
    if phrases == [] then None
    else
      var last, rest := phrases[|phrases| - 1], LeftContext(phrases[..|phrases| - 1], start);
      if !ReachesLeft(last, start) then rest
      else if rest.Some? && rest.value >= last.start then rest
      else Some(last.start)
  }

  /** Earliest end among phrases that end after `end` and begin no more than 3 s after it. */
  function RightContext(phrases: seq<Span>, end: real): (r: Option<real>)
    ensures r.None? <==> forall k :: 0 <= k < |phrases| ==> !ReachesRight(phrases[k], end)
    ensures r.Some? ==> r.value > end
    ensures r.Some? ==> forall k :: 0 <= k < |phrases| && ReachesRight(phrases[k], end) ==> phrases[k].end >= r.value
    ensures r.Some? ==> exists k :: 0 <= k < |phrases| && ReachesRight(phrases[k], end) && phrases[k].end == r.value
  {
    if phrases == [] then None
    else
      var last, rest := phrases[|phrases| - 1], RightContext(phrases[..|phrases| - 1], end);
      if !ReachesRight(last, end) then rest
      else if rest.Some? && rest.value <= last.end then rest
      else Some(last.end)
  }

  predicate ReachesLeft(p: Span, start: real) {
    0.0 <= p.start < p.end && p.start < start && start - 3.0 <= p.end
  }

  predicate ReachesRight(p: Span, end: real) {
    0.0 <= p.start < p.end && p.end > end && p.start <= end + 3.0
  }

  datatype AlternatePlan = Wider(span: Span) | NoContext | ContextTooLong

  /** The window widened to whole neighbouring phrases. */
  function Alternate(start: real, end: real, phrases: seq<Span>, duration: Option<real>): AlternatePlan {
    var left, right := LeftContext(phrases, start), RightContext(phrases, end);
    var a := if left.Some? then Most(0.0, left.value - 0.5) else start;
    var b := Cut(if right.Some? then right.value + 0.5 else end, duration);
    if a == start && b == end then NoContext
    else if b - a > MAX_CROP_SECONDS then ContextTooLong
    else Wider(Span(a, b))
  }

  /** A wider window contains the window and the neighbouring phrases, stays in the audio, and stays short. */
  lemma {:induction false} AlternateIsWider(start: real, end: real, phrases: seq<Span>, duration: Option<real>)
    requires 0.0 <= start && (duration.Some? ==> end <= duration.value)
    ensures var r := Alternate(start, end, phrases, duration);
            && (r.Wider? ==>
                  && 0.0 <= r.span.start <= start && end <= r.span.end && r.span != Span(start, end)
                  && r.span.end - r.span.start <= MAX_CROP_SECONDS
                  && (duration.Some? ==> r.span.end <= duration.value)
                  && (LeftContext(phrases, start).Some? ==> r.span.start <= LeftContext(phrases, start).value)
                  && (RightContext(phrases, end).Some?
                      ==> r.span.end >= Cut(RightContext(phrases, end).value, duration))
                  && (LeftContext(phrases, start).None? ==> r.span.start == start)
                  && (RightContext(phrases, end).None? ==> r.span.end == end))
            && (LeftContext(phrases, start).None? && RightContext(phrases, end).None? ==> r.NoContext?)
  {
    assert LeftContext(phrases, start).Some? ==> LeftContext(phrases, start).value < start;
    assert RightContext(phrases, end).Some? ==> RightContext(phrases, end).value > end;
  }

  /** The alternate reaches half a second beyond the phrases on both sides, as far as there are any, cut at zero and
      at the end of the audio; there is none if that changes nothing or is too long. */
  lemma {:induction false} AlternateExactly(start: real, end: real, phrases: seq<Span>, duration: Option<real>)
    ensures var r, left, right := Alternate(start, end, phrases, duration), LeftContext(phrases, start),
        RightContext(phrases, end);
            var a := if left.None? then start else if left.value <= 0.5 then 0.0 else left.value - 0.5;
            exists b ::
              && IsLeast(b, if right.None? then end else right.value + 0.5, duration)
              && r == if a == start && b == end then NoContext
                      else if b - a > MAX_CROP_SECONDS then ContextTooLong else Wider(Span(a, b))
  {
    hide LeftContext, RightContext;
    var right := RightContext(phrases, end);
    var b := Cut(if right.Some? then right.value + 0.5 else end, duration);
    assert IsLeast(b, if right.None? then end else right.value + 0.5, duration);
  }

  method AlternateWindow(start: real, end: real, phrases: seq<Span>, duration: Option<real>) returns (r: AlternatePlan)
    ensures r == Alternate(start, end, phrases, duration)
  {
    var a, b := start, end;
    var left, right := LeftContext(phrases, start), RightContext(phrases, end);
    if left.Some? {
      a := Most(0.0, left.value - 0.5);
    }
    if right.Some? {
      b := right.value + 0.5;
    }
    if duration.Some? {
      b := Least(b, duration.value);
    }
    if a == start && b == end {
      return NoContext;
    }
    if b - a > MAX_CROP_SECONDS {
      return ContextTooLong;
    }
    r := Wider(Span(a, b));
  }
}
