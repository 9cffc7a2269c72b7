/** The planned windows, their merging into groups, their priorities, and the run of the queue. */
module RetryQueue {
  import opened Numbers
  import opened Sequences
  import opened Options
  import opened StableSort
  import opened AsrEvidence
  import opened RetryPlan
  import opened RetryScheduler

  /** A window to decode, the rows it serves, and whether it retries a failed one in wider context. */
  datatype Group = Group(start: real, end: real, indices: seq<nat>, alternate: bool)

  /** Lower and upper time bound of each planned row. */
  type Bounds = map<nat, (real, real)>

  /** A window inside the audio and short enough; `calm` says that all anchors start inside the audio, and then the
      window has positive length. */
  ghost predicate Sound(g: Group, duration: Option<real>, calm: bool) {
    && 0.0 <= g.start && g.end - g.start <= MAX_CROP_SECONDS
    && (duration.Some? ==> g.end <= duration.value)
    && (calm ==> g.start < g.end)
  }

  ghost predicate AllSound(groups: seq<Group>, duration: Option<real>, calm: bool) {
    forall k :: 0 <= k < |groups| ==> Sound(groups[k], duration, calm)
  }

  /** Served rows have a problem and a planned time bound. */
  ghost predicate Served(groups: seq<Group>, rows: seq<Row>, bounds: Bounds) {
    forall k :: 0 <= k < |groups| ==> ServedBy(groups[k], rows, bounds)
  }

  ghost predicate ServedBy(g: Group, rows: seq<Row>, bounds: Bounds) {
    forall i :: i in g.indices ==> i < |rows| && Problem(rows[i]) && i in bounds
  }

  function Indices(groups: seq<Group>): seq<nat> {
    if groups == [] then [] else Indices(groups[..|groups| - 1]) + groups[|groups| - 1].indices
  }

  // ---- planning ----

  datatype Planned = Planned(windows: seq<Group>, bounds: Bounds)

  /** The windows proposed for the first `n` pending rows, one row each, with the bounds their words must keep. */
  ghost function PlannedFor(pending: seq<nat>, n: nat, rows: seq<Row>, anchors: Anchors, words: seq<Word>,
                            duration: Option<real>): Planned
    requires n <= |pending| && forall k :: 0 <= k < |pending| ==> pending[k] < |rows|
  {
    if n == 0 then Planned([], map[])
    else
      var p, index := PlannedFor(pending, n - 1, rows, anchors, words, duration), pending[n - 1];
      var plan := PlanOf(index, rows, anchors, words, duration);
      if plan.Proposed? then
        Planned(p.windows + [Group(plan.window.start, plan.window.end, [index], false)],
                p.bounds[index := (plan.window.lower, plan.window.upper)])
      else p
  }

  /** Exactly the pending rows with a proposal, in order, have a window, and their bounds are on record. */
  ghost predicate PlansExactly(pending: seq<nat>, rows: seq<Row>, anchors: Anchors, words: seq<Word>,
                               duration: Option<real>, p: Planned, served: seq<nat>, ks: seq<nat>)
    requires forall k :: 0 <= k < |pending| ==> pending[k] < |rows|
  {
    && Picked(pending, ks, served) && |p.windows| == |served|
    && (forall k: nat :: k < |pending| ==> (k in ks <==> PlanOf(pending[k], rows, anchors, words, duration).Proposed?))
    && (forall m :: 0 <= m < |served| ==>
          PlannedAs(served[m], rows, anchors, words, duration, p.windows[m], p.bounds))
    && forall i :: i in p.bounds <==> i in served
  }

  /** The row's proposal as a window, and its bounds. */
  ghost predicate PlannedAs(index: nat, rows: seq<Row>, anchors: Anchors, words: seq<Word>, duration: Option<real>,
                            window: Group, bounds: Bounds) {
    && index < |rows| && PlanOf(index, rows, anchors, words, duration).Proposed?
    && var w := PlanOf(index, rows, anchors, words, duration).window;
       window == Group(w.start, w.end, [index], false) && index in bounds && bounds[index] == (w.lower, w.upper)
  }

  lemma {:induction false} PlanNext(pending: seq<nat>, index: nat, rows: seq<Row>, anchors: Anchors, words: seq<Word>,
                                    duration: Option<real>, p: Planned, served: seq<nat>, ks: seq<nat>)
    requires index < |rows| && forall k :: 0 <= k < |pending| ==> pending[k] < |rows|
    requires PlansExactly(pending, rows, anchors, words, duration, p, served, ks)
    ensures var plan := PlanOf(index, rows, anchors, words, duration);
            if plan.Proposed? then
              var w := plan.window;
              PlansExactly(pending + [index], rows, anchors, words, duration,
                           Planned(p.windows + [Group(w.start, w.end, [index], false)],
                                   p.bounds[index := (w.lower, w.upper)]),
                           served + [index], ks + [|pending|])
            else PlansExactly(pending + [index], rows, anchors, words, duration, p, served, ks)
  {
    hide PlanOf, PlannedAs;
    PickNext(pending, ks, served, index);
    PickedBelow(pending, ks, served);
    hide Picked;
    var plan := PlanOf(index, rows, anchors, words, duration);
    if plan.Proposed? {
      var w := plan.window;
      forall m | 0 <= m < |served|
        ensures PlannedAs(served[m], rows, anchors, words, duration, p.windows[m], WithBound(p.bounds, index, w))
      {
        StillPlanned(served[m], rows, anchors, words, duration, p.windows[m], p.bounds, index);
      }
      NowPlanned(index, rows, anchors, words, duration, p.bounds);
    }
  }

  lemma {:induction false} StillPlanned(i: nat, rows: seq<Row>, anchors: Anchors, words: seq<Word>,
                                        duration: Option<real>,
                                        window: Group, bounds: Bounds, index: nat)
    requires index < |rows| && PlanOf(index, rows, anchors, words, duration).Proposed?
    requires PlannedAs(i, rows, anchors, words, duration, window, bounds)
    ensures PlannedAs(i, rows, anchors, words, duration, window,
                      WithBound(bounds, index, PlanOf(index, rows, anchors, words, duration).window))
  {
    hide PlanOf;
  }

  lemma {:induction false} NowPlanned(index: nat, rows: seq<Row>, anchors: Anchors, words: seq<Word>,
                                      duration: Option<real>, bounds: Bounds)
    requires index < |rows| && PlanOf(index, rows, anchors, words, duration).Proposed?
    ensures var w := PlanOf(index, rows, anchors, words, duration).window;
            PlannedAs(index, rows, anchors, words, duration, Group(w.start, w.end, [index], false),
                      WithBound(bounds, index, w))
  {
    hide PlanOf;
  }

  function WithBound(bounds: Bounds, index: nat, w: Window): (more: Bounds)
    ensures more == bounds[index := (w.lower, w.upper)]
    ensures forall i :: i in more <==> i in bounds || i == index
  {
    bounds[index := (w.lower, w.upper)]
  }

  lemma {:induction false} NonePlanned(rows: seq<Row>, anchors: Anchors, words: seq<Word>, duration: Option<real>)
    ensures PlansExactly([], rows, anchors, words, duration, Planned([], map[]), [], [])
  {
    NonePicked<nat>();
  }

  method PlanWindows(pending: seq<nat>, rows: seq<Row>, anchors: Anchors, words: seq<Word>, duration: Option<real>)
    returns (windows: seq<Group>, bounds: Bounds, ghost served: seq<nat>, ghost ks: seq<nat>)
    requires forall k :: 0 <= k < |pending| ==> pending[k] < |rows|
    ensures Planned(windows, bounds) == PlannedFor(pending, |pending|, rows, anchors, words, duration)
    ensures PlansExactly(pending, rows, anchors, words, duration, Planned(windows, bounds), served, ks)
  {
    hide PlanOf, PlansExactly;
    windows, bounds, served, ks := [], map[], [], [];
    NonePlanned(rows, anchors, words, duration);
    for k := 0 to |pending|
      invariant Planned(windows, bounds) == PlannedFor(pending, k, rows, anchors, words, duration)
      invariant PlansExactly(pending[..k], rows, anchors, words, duration, Planned(windows, bounds), served, ks)
    {
      var index := pending[k];
      PlanNext(pending[..k], index, rows, anchors, words, duration, Planned(windows, bounds), served, ks);
      assert pending[..k + 1] == pending[..k] + [index];
      var plan := RetryWindow(index, rows, anchors, words, duration);
      if plan.Proposed? {
        var w := plan.window;
        bounds := bounds[index := (w.lower, w.upper)];
        windows := windows + [Group(w.start, w.end, [index], false)];
        served, ks := served + [index], ks + [k];
      }
    }
    assert pending[..|pending|] == pending;
  }

  lemma {:induction false} PlannedIsSound(index: nat, rows: seq<Row>, anchors: Anchors, words: seq<Word>,
                                          duration: Option<real>, calm: bool)
    requires index < |rows| && Proper(anchors) && (calm ==> AnchorsInside(anchors, duration))
    requires PlanOf(index, rows, anchors, words, duration).Proposed?
    ensures var w := PlanOf(index, rows, anchors, words, duration).window;
            && Sound(Group(w.start, w.end, [index], false), duration, calm)
            && w.lower == Lower(anchors, LeftAnchor(anchors, index))
            && Some(w.upper) == Upper(anchors, RightAnchor(anchors, index, |rows|), duration)
  {
    PlanIsBounded(index, rows, anchors, words, duration);
    var w := PlanOf(index, rows, anchors, words, duration).window;
    var target := TargetOf(index, rows, anchors, words, duration);
    var left, right := LeftAnchor(anchors, index), RightAnchor(anchors, index, |rows|);
    hide PlanOf, TargetOf;
    if calm {
      InsideMeansPositive(target, AnchorSpan(anchors, left), AnchorSpan(anchors, right), w.upper, duration);
    }
    WindowCovers(target, AnchorSpan(anchors, left), AnchorSpan(anchors, right), duration);
  }

  /** The bounds on record are those of the nearest anchors. */
  ghost predicate AnchoredBounds(bounds: Bounds, anchors: Anchors, n: nat, duration: Option<real>) {
    forall i :: i in bounds ==>
      && bounds[i].0 == Lower(anchors, LeftAnchor(anchors, i))
      && Some(bounds[i].1) == Upper(anchors, RightAnchor(anchors, i, n), duration)
  }

  /** What planning leaves of some pending rows. */
  ghost predicate PlannedOk(p: Planned, pending: seq<nat>, rows: seq<Row>, anchors: Anchors, duration: Option<real>,
                            calm: bool) {
    && AllSound(p.windows, duration, calm) && Served(p.windows, rows, p.bounds)
    && AnchoredBounds(p.bounds, anchors, |rows|, duration)
    && (forall i :: i in p.bounds ==> i in pending)
    && forall k :: 0 <= k < |p.windows| ==> !p.windows[k].alternate
  }

  /** Every planned window can be decoded and serves one pending row, whose bounds are on record. */
  lemma {:induction false} PlannedForIsSound(pending: seq<nat>, n: nat, rows: seq<Row>, anchors: Anchors,
                                             words: seq<Word>, duration: Option<real>, calm: bool)
    requires n <= |pending| && forall k :: 0 <= k < |pending| ==> pending[k] < |rows| && Problem(rows[pending[k]])
    requires Proper(anchors) && (calm ==> AnchorsInside(anchors, duration))
    ensures PlannedOk(PlannedFor(pending, n, rows, anchors, words, duration), pending, rows, anchors, duration, calm)
  {
    hide Proper, AnchorsInside, PlanOf, PlannedOk;
    if n == 0 {
      NothingPlanned(pending, rows, anchors, duration, calm);
    } else {
      PlannedForIsSound(pending, n - 1, rows, anchors, words, duration, calm);
      if PlanOf(pending[n - 1], rows, anchors, words, duration).Proposed? {
        PlannedIsSound(pending[n - 1], rows, anchors, words, duration, calm);
        AddPlanned(PlannedFor(pending, n - 1, rows, anchors, words, duration), pending, rows, anchors, duration, calm,
                   pending[n - 1],
                   PlanOf(pending[n - 1], rows, anchors, words, duration).window);
      }
    }
  }

  lemma {:induction false} NothingPlanned(pending: seq<nat>, rows: seq<Row>, anchors: Anchors, duration: Option<real>,
                                          calm: bool)
    ensures PlannedOk(Planned([], map[]), pending, rows, anchors, duration, calm)
  {
  }

  lemma {:induction false} AddPlanned(p: Planned, pending: seq<nat>, rows: seq<Row>, anchors: Anchors,
                                      duration: Option<real>, calm: bool,
                                      index: nat, w: Window)
    requires PlannedOk(p, pending, rows, anchors, duration, calm)
    requires index in pending && index < |rows| && Problem(rows[index])
    requires Sound(Group(w.start, w.end, [index], false), duration, calm)
    requires w.lower == Lower(anchors, LeftAnchor(anchors, index))
    requires Some(w.upper) == Upper(anchors, RightAnchor(anchors, index, |rows|), duration)
    ensures PlannedOk(Planned(p.windows + [Group(w.start, w.end, [index], false)],
                              p.bounds[index := (w.lower, w.upper)]),
                      pending, rows, anchors, duration, calm)
  {
    hide Sound, LeftAnchor, RightAnchor, Lower, Upper, Problem;
  }

  // ---- merging ----

  predicate StartsNoLater(x: Group, y: Group) {
    x.start <= y.start
  }

  ghost predicate StrictStarts(groups: seq<Group>) {
    forall j, k :: 0 <= j < k < |groups| ==> groups[j].start < groups[k].start
  }

  ghost predicate Within(w: Group, g: Group) {
    g.start <= w.start && w.end <= g.end && forall i :: i in w.indices ==> i in g.indices
  }

  ghost predicate Covered(w: Group, groups: seq<Group>) {
    exists j :: 0 <= j < |groups| && Within(w, groups[j])
  }

  /** The group list after `w` is merged into its last group. */
  function Widened(groups: seq<Group>, w: Group): seq<Group>
    requires groups != []
  {
    var last := groups[|groups| - 1];
    groups[..|groups| - 1] + [Group(last.start, Most(last.end, w.end), last.indices + w.indices, last.alternate)]
  }

  lemma {:induction false} WidenedIndices(groups: seq<Group>, w: Group)
    requires groups != []
    ensures Indices(Widened(groups, w)) == Indices(groups) + w.indices
  {
    var after := Widened(groups, w);
    assert after[..|after| - 1] == groups[..|groups| - 1];
    assert after[|after| - 1].indices == groups[|groups| - 1].indices + w.indices;
  }

  lemma {:induction false} WidenedCovers(groups: seq<Group>, w: Group)
    requires groups != [] && groups[|groups| - 1].start <= w.start
    ensures Covered(w, Widened(groups, w))
    ensures forall v :: Covered(v, groups) ==> Covered(v, Widened(groups, w))
  {
    var after := Widened(groups, w);
    var n := |groups| - 1;
    assert Within(w, after[n]);
    assert Within(groups[n], after[n]);
    forall v | Covered(v, groups) ensures Covered(v, after) {
      var j :| 0 <= j < |groups| && Within(v, groups[j]);
      if j < n {
        assert after[j] == groups[j];
      } else {
        assert Within(v, after[n]);
      }
    }
  }

  lemma {:induction false} AppendedCovers(groups: seq<Group>, w: Group)
    ensures Covered(w, groups + [w])
    ensures forall v :: Covered(v, groups) ==> Covered(v, groups + [w])
    ensures Indices(groups + [w]) == Indices(groups) + w.indices
  {
    var after := groups + [w];
    assert after[..|after| - 1] == groups;
    assert Within(w, after[|groups|]);
    forall v | Covered(v, groups) ensures Covered(v, after) {
      var j :| 0 <= j < |groups| && Within(v, groups[j]);
      assert Within(v, after[j]);
    }
  }

  /** Decodable primary groups, with strictly increasing starts if their lengths are positive. */
  ghost predicate Chain(groups: seq<Group>, duration: Option<real>, calm: bool) {
    && AllSound(groups, duration, calm) && (calm ==> StrictStarts(groups))
    && forall k :: 0 <= k < |groups| ==> !groups[k].alternate
  }

  predicate Joins(groups: seq<Group>, w: Group) {
    && groups != [] && w.start <= groups[|groups| - 1].end
    && Most(w.end, groups[|groups| - 1].end) - groups[|groups| - 1].start <= MAX_CROP_SECONDS
  }

  /** Overlapping windows share one group while the group stays decodable. */
  function Merged(windows: seq<Group>, n: nat): seq<Group>
    requires n <= |windows|
  {
    if n == 0 then []
    else
      var groups, w := Merged(windows, n - 1), windows[n - 1];
      if Joins(groups, w) then Widened(groups, w) else groups + [w]
  }

  lemma {:induction false} WidenedChain(groups: seq<Group>, w: Group, duration: Option<real>, calm: bool)
    requires Chain(groups, duration, calm) && Sound(w, duration, calm) && Joins(groups, w)
    requires groups[|groups| - 1].start <= w.start
    ensures Chain(Widened(groups, w), duration, calm)
  {
    var after := Widened(groups, w);
    forall j, k | calm && 0 <= j < k < |after| ensures after[j].start < after[k].start {
      assert after[j].start == groups[j].start && after[k].start == groups[k].start;
    }
  }

  /** A window that cannot join starts later: starting together, the longer of the two would be short enough. */
  lemma {:induction false} AppendedChain(groups: seq<Group>, w: Group, duration: Option<real>, calm: bool)
    requires Chain(groups, duration, calm) && Sound(w, duration, calm) && !w.alternate && !Joins(groups, w)
    requires groups != [] ==> groups[|groups| - 1].start <= w.start
    ensures Chain(groups + [w], duration, calm)
  {
    if calm && groups != [] {
      var last := groups[|groups| - 1];
      assert Sound(last, duration, calm);
      assert last.start < w.start;
    }
    var after := groups + [w];
    forall j, k | calm && 0 <= j < k < |after| ensures after[j].start < after[k].start {
      if k == |groups| && j < |groups| - 1 {
        assert groups[j].start < groups[|groups| - 1].start;
      }
    }
  }

  /** What merging the first `n` sorted windows leaves: increasing starts, every window in a group with its
      rows, and no row lost or doubled. */
  ghost predicate MergeOk(windows: seq<Group>, n: nat, groups: seq<Group>, duration: Option<real>, calm: bool)
    requires n <= |windows|
  {
    && Chain(groups, duration, calm)
    && (groups == [] <==> n == 0)
    && (n > 0 ==> groups[|groups| - 1].start <= windows[n - 1].start)
    && Indices(groups) == Indices(windows[..n])
    && forall k :: 0 <= k < n ==> Covered(windows[k], groups)
  }

  lemma {:induction false} MergedIsSound(windows: seq<Group>, n: nat, duration: Option<real>, calm: bool)
    requires n <= |windows| && AllSound(windows, duration, calm) && Sorted(windows, StartsNoLater)
    requires forall k :: 0 <= k < |windows| ==> !windows[k].alternate
    ensures MergeOk(windows, n, Merged(windows, n), duration, calm)
  {
    hide MergeOk, Sorted, StartsNoLater, Sound, Joins, Widened, Indices;
    if n == 0 {
      MergeStarts(windows, duration, calm);
    } else {
      MergedIsSound(windows, n - 1, duration, calm);
      NextWindow(windows, n - 1);
      MergeStep(windows, n - 1, Merged(windows, n - 1), duration, calm);
    }
  }

  lemma {:induction false} MergeStarts(windows: seq<Group>, duration: Option<real>, calm: bool)
    ensures MergeOk(windows, 0, [], duration, calm)
  {
    NoGroups(duration, calm);
  }

  lemma {:induction false} MergeStep(windows: seq<Group>, n: nat, groups: seq<Group>, duration: Option<real>,
                                     calm: bool)
    requires n < |windows| && MergeOk(windows, n, groups, duration, calm)
    requires Sound(windows[n], duration, calm) && !windows[n].alternate
    requires n > 0 ==> windows[n - 1].start <= windows[n].start
    requires Indices(windows[..n + 1]) == Indices(windows[..n]) + windows[n].indices
    ensures MergeOk(windows, n + 1, if Joins(groups, windows[n]) then Widened(groups, windows[n])
                    else groups + [windows[n]], duration, calm)
  {
    hide Covered, Chain, Indices, Sound;
    var w := windows[n];
    if Joins(groups, w) {
      WidenedCovers(groups, w);
      WidenedIndices(groups, w);
      WidenedChain(groups, w, duration, calm);
    } else {
      AppendedCovers(groups, w);
      AppendedChain(groups, w, duration, calm);
    }
  }

  predicate NoneBackward(groups: seq<Group>) {
    forall k :: 0 <= k < |groups| ==> groups[k].start <= groups[k].end
  }

  /** Nothing more could be merged: the next group starts behind this one, or both are too long for one decode. */
  predicate Exhausted(groups: seq<Group>) {
    forall k :: 0 <= k < |groups| - 1 ==> KeptApart(groups[k], groups[k + 1])
  }

  predicate KeptApart(g: Group, h: Group) {
    h.start > g.end || Most(g.end, h.end) - g.start > MAX_CROP_SECONDS
  }

  lemma {:induction false} MergedIsExhausted(windows: seq<Group>, n: nat)
    requires n <= |windows|
    ensures Exhausted(Merged(windows, n))
  {
    if n > 0 {
      MergedIsExhausted(windows, n - 1);
      var before, after := Merged(windows, n - 1), Merged(windows, n);
      forall k | 0 <= k < |after| - 1 ensures KeptApart(after[k], after[k + 1]) {
        if k + 1 < |before| {
          assert KeptApart(before[k], before[k + 1]);
        }
      }
    }
  }

  /** The moment lies in a window that the group took in. */
  ghost predicate Fills(windows: seq<Group>, n: nat, g: Group, t: real)
    requires n <= |windows|
  {
    exists j :: 0 <= j < n && Within(windows[j], g) && windows[j].start <= t <= windows[j].end
  }

  /** Groups hold no moment that none of their windows holds: nothing apart is joined. */
  ghost predicate AllFilled(windows: seq<Group>, n: nat, groups: seq<Group>)
    requires n <= |windows|
  {
    forall k :: 0 <= k < |groups| ==> Filled(windows, n, groups[k])
  }

  ghost predicate Filled(windows: seq<Group>, n: nat, g: Group)
    requires n <= |windows|
  {
    forall t :: Spans(g, t) ==> Fills(windows, n, g, t)
  }

  predicate Spans(g: Group, t: real) {
    g.start <= t <= g.end
  }

  lemma {:induction false} FillsMore(windows: seq<Group>, n: nat, g: Group, h: Group, t: real)
    requires n < |windows| && Fills(windows, n, g, t) && Within(g, h)
    ensures Fills(windows, n + 1, h, t)
  {
    var j :| 0 <= j < n && Within(windows[j], g) && windows[j].start <= t <= windows[j].end;
    assert Within(windows[j], h);
  }

  lemma {:induction false} MergedIsFilled(windows: seq<Group>, n: nat)
    requires n <= |windows| && Sorted(windows, StartsNoLater) && NoneBackward(windows)
    ensures AllFilled(windows, n, Merged(windows, n))
    ensures n > 0 ==> Merged(windows, n) != []
                      && Merged(windows, n)[|Merged(windows, n)| - 1].start <= windows[n - 1].start
  {
    hide Fills, Sorted, Joins, AllFilled;
    if n == 0 {
      NoneFilled(windows);
    } else {
      MergedIsFilled(windows, n - 1);
      NextWindow(windows, n - 1);
      var before, after := Merged(windows, n - 1), Merged(windows, n);
      FillStep(windows, n - 1, before);
      if Joins(before, windows[n - 1]) {
        JoinsSome(before, windows[n - 1]);
        assert n == 1 ==> before == [];
        assert after[|after| - 1].start == before[|before| - 1].start;
      }
    }
  }

  lemma {:induction false} JoinsSome(groups: seq<Group>, w: Group)
    requires Joins(groups, w)
    ensures groups != []
  {
  }

  lemma {:induction false} NoneFilled(windows: seq<Group>)
    ensures AllFilled(windows, 0, [])
  {
  }

  lemma {:induction false} FillStep(windows: seq<Group>, n: nat, groups: seq<Group>)
    requires n < |windows| && AllFilled(windows, n, groups) && NoneBackward(windows)
    requires groups != [] ==> groups[|groups| - 1].start <= windows[n].start
    ensures var after := if Joins(groups, windows[n]) then Widened(groups, windows[n]) else groups + [windows[n]];
            AllFilled(windows, n + 1, after)
  {
    hide Fills;
    var w := windows[n];
    var after := if Joins(groups, w) then Widened(groups, w) else groups + [w];
    forall k | 0 <= k < |after| ensures Filled(windows, n + 1, after[k]) {
      forall t | Spans(after[k], t) ensures Fills(windows, n + 1, after[k], t) {
        if k < |groups| && Spans(groups[k], t) {
          assert Filled(windows, n, groups[k]);
          FillsMore(windows, n, groups[k], after[k], t);
        } else {
          FilledByItself(windows, n, after[k], t);
        }
      }
    }
  }

  lemma {:induction false} FilledByItself(windows: seq<Group>, n: nat, g: Group, t: real)
    requires n < |windows| && Within(windows[n], g) && windows[n].start <= t <= windows[n].end
    ensures Fills(windows, n + 1, g, t)
  {
  }

  /** Groups of windows: each window in one with its rows, none of them lost or doubled; merging stopped only where it
      must, and joined nothing apart. */
  ghost predicate Grouped(windows: seq<Group>, groups: seq<Group>) {
    && (forall k :: 0 <= k < |windows| ==> Covered(windows[k], groups))
    && multiset(Indices(groups)) == multiset(Indices(windows))
    && Exhausted(groups)
    && (NoneBackward(windows) ==> AllFilled(windows, |windows|, groups))
  }

  /** Merging stops only where it must, and, with forward windows in order, bridges nothing. */
  method MergeWindows(windows: seq<Group>) returns (groups: seq<Group>)
    ensures groups == Merged(windows, |windows|)
    ensures Exhausted(groups)
    ensures Sorted(windows, StartsNoLater) && NoneBackward(windows) ==> AllFilled(windows, |windows|, groups)
  {
    groups := [];
    for k := 0 to |windows|
      invariant groups == Merged(windows, k)
    {
      groups := if Joins(groups, windows[k]) then Widened(groups, windows[k]) else groups + [windows[k]];
    }
    MergedIsExhausted(windows, |windows|);
    if Sorted(windows, StartsNoLater) && NoneBackward(windows) {
      MergedIsFilled(windows, |windows|);
    }
  }

  lemma {:induction false} NextWindow(windows: seq<Group>, k: nat)
    requires k < |windows| && Sorted(windows, StartsNoLater)
    ensures k > 0 ==> windows[k - 1].start <= windows[k].start
    ensures Indices(windows[..k + 1]) == Indices(windows[..k]) + windows[k].indices
  {
    assert windows[..k + 1][..k] == windows[..k];
    assert k > 0 ==> StartsNoLater(windows[k - 1], windows[k]);
  }

  lemma {:induction false} NoGroups(duration: Option<real>, calm: bool)
    ensures Chain([], duration, calm) && Indices([]) == []
  {
  }

  // ---- priorities ----

  /** 0 if a row is missing, 1 if a row has no run in the transcript, else 2; then the lowest score; then the start. */
  datatype Keyed = Keyed(urgency: nat, score: real, group: Group)

  predicate HasRun(row: Row, words: seq<Word>) {
    exists i: nat :: i < |words| && RunAt(row.keys, words, i)
  }

  function LowestScore(indices: seq<nat>, rows: seq<Row>): (lowest: Option<real>)
    requires forall k :: 0 <= k < |indices| ==> indices[k] < |rows|
    ensures lowest.None? <==> forall k :: 0 <= k < |indices| ==> rows[indices[k]].score.None?
    ensures lowest.Some? ==> exists k :: 0 <= k < |indices| && rows[indices[k]].score == lowest
    ensures lowest.Some? ==> forall k :: 0 <= k < |indices| && rows[indices[k]].score.Some? ==>
                                           lowest.value <= rows[indices[k]].score.value
  {
    if indices == [] then None
    else
      var last, rest := rows[indices[|indices| - 1]].score, LowestScore(indices[..|indices| - 1], rows);
      if last.None? then rest
      else if rest.None? then last
      else Some(Least(last.value, rest.value))
  }

  function KeyOf(g: Group, rows: seq<Row>, words: seq<Word>): Keyed
    requires forall i :: i in g.indices ==> i < |rows|
  {
    var urgency := if exists i :: i in g.indices && !rows[i].kept then 0
                 else if exists i :: i in g.indices && !HasRun(rows[i], words) then 1
                 else 2;
    assert forall k :: 0 <= k < |g.indices| ==> g.indices[k] in g.indices;
    var score := LowestScore(g.indices, rows);
    Keyed(urgency, if score.Some? then score.value else 0.0, g)
  }

  /** Groups with a missing row come first, then those with a row that is nowhere in the transcript; then the lowest
      score of their rows decides, zero if none has one. */
  lemma {:induction false} KeyExactly(g: Group, rows: seq<Row>, words: seq<Word>)
    requires forall i :: i in g.indices ==> i < |rows|
    ensures var k := KeyOf(g, rows, words);
            && k.group == g
            && (k.urgency == 0 <==> exists i :: i in g.indices && !rows[i].kept)
            && (k.urgency == 1 <==> (forall i :: i in g.indices ==> rows[i].kept)
                                    && exists i :: i in g.indices && forall j: nat :: !RunAt(rows[i].keys, words, j))
            && k.urgency <= 2
            && (if forall i :: i in g.indices ==> rows[i].score.None? then k.score == 0.0
                else
                  && (exists i :: i in g.indices && rows[i].score == Some(k.score))
                  && forall i :: i in g.indices && rows[i].score.Some? ==> k.score <= rows[i].score.value)
  {
    forall i | i in g.indices ensures HasRun(rows[i], words) <==> !forall j: nat :: !RunAt(rows[i].keys, words, j) {
      if j: nat :| RunAt(rows[i].keys, words, j) {
        assert j < |words|;
      }
    }
    hide HasRun, RunAt;
    assert forall k :: 0 <= k < |g.indices| ==> g.indices[k] in g.indices;
  }

  predicate KeyedLe(x: Keyed, y: Keyed) {
    || x.urgency < y.urgency
    || (x.urgency == y.urgency && (x.score < y.score || (x.score == y.score && x.group.start <= y.group.start)))
  }

  ghost predicate DistinctStarts(s: seq<Keyed>) {
    forall j, k :: 0 <= j < k < |s| ==> s[j].group.start != s[k].group.start
  }

  lemma {:induction false} InsertDistinct(x: Keyed, s: seq<Keyed>)
    requires DistinctStarts(s) && forall k :: 0 <= k < |s| ==> s[k].group.start != x.group.start
    ensures DistinctStarts(Insert(x, s, KeyedLe))
    ensures forall k :: 0 <= k < |s| + 1 ==> Insert(x, s, KeyedLe)[k] == x || Insert(x, s, KeyedLe)[k] in s
  {
    if s != [] && !KeyedLe(x, s[0]) {
      InsertDistinct(x, s[1..]);
      var rest := Insert(x, s[1..], KeyedLe);
      forall k | 0 <= k < |rest| ensures rest[k].group.start != s[0].group.start {
        if rest[k] != x {
          var j :| 0 <= j < |s| - 1 && s[1..][j] == rest[k];
          assert s[j + 1] == rest[k];
        }
      }
    }
  }

  lemma {:induction false} SortDistinct(s: seq<Keyed>)
    requires DistinctStarts(s)
    ensures DistinctStarts(Sort(s, KeyedLe))
    ensures forall k :: 0 <= k < |s| ==> Sort(s, KeyedLe)[k] in s
  {
    if s != [] {
      SortDistinct(s[1..]);
      InsertDistinct(s[0], Sort(s[1..], KeyedLe));
    }
  }

  lemma {:induction false} KeyedLeIsTotal()
    ensures TotalPreorder(KeyedLe)
  {
  }

  ghost predicate ByPriority(queue: seq<Group>, rows: seq<Row>, words: seq<Word>)
    requires forall k, i :: 0 <= k < |queue| && i in queue[k].indices ==> i < |rows|
  {
    forall j, k :: 0 <= j < k < |queue| ==> Precedes(KeyOf(queue[j], rows, words), KeyOf(queue[k], rows, words))
  }

  /** Urgency decides, among equals the score, among equals the start. */
  predicate Precedes(x: Keyed, y: Keyed) {
    && x.urgency <= y.urgency
    && (x.urgency == y.urgency ==> x.score <= y.score)
    && (x.urgency == y.urgency && x.score == y.score ==> x.group.start <= y.group.start)
  }

  ghost predicate DistinctWindows(queue: seq<Group>) {
    forall j, k :: 0 <= j < k < |queue| ==> queue[j].start != queue[k].start || queue[j].end != queue[k].end
  }

  /** Most urgent groups first. */
  function Prioritised(groups: seq<Group>, rows: seq<Row>, words: seq<Word>): (queue: seq<Group>)
    requires forall k, i :: 0 <= k < |groups| && i in groups[k].indices ==> i < |rows|
    ensures |queue| == |groups|
  {
    var keyed := seq(|groups|, k requires 0 <= k < |groups| => KeyOf(groups[k], rows, words));
    var sorted := Sort(keyed, KeyedLe);
    seq(|sorted|, k requires 0 <= k < |sorted| => sorted[k].group)
  }

  /** The same groups by urgency, then score, then start; groups with different starts give different windows. */
  lemma {:induction false} PrioritisedInOrder(groups: seq<Group>, rows: seq<Row>, words: seq<Word>)
    requires forall k, i :: 0 <= k < |groups| && i in groups[k].indices ==> i < |rows|
    ensures var queue := Prioritised(groups, rows, words);
            && multiset(queue) == multiset(groups)
            && (forall k :: 0 <= k < |queue| ==> queue[k] in groups)
            && (StrictStarts(groups) ==> DistinctWindows(queue))
            && (forall k, i :: 0 <= k < |queue| && i in queue[k].indices ==> i < |rows|)
            && ByPriority(queue, rows, words)
  {
    hide KeyOf;
    var keyed := seq(|groups|, k requires 0 <= k < |groups| => KeyOf(groups[k], rows, words));
    KeyGroups(groups, rows, words);
    var sorted := Sort(keyed, KeyedLe);
    if StrictStarts(groups) {
      SortDistinct(keyed);
    }
    KeyedLeIsTotal();
    SortSorted(keyed, KeyedLe);
    var queue := Prioritised(groups, rows, words);
    QueueKeepsGroups(groups, keyed, queue);
    forall k | 0 <= k < |queue| ensures queue[k] in groups && sorted[k] == KeyOf(queue[k], rows, words) {
      assert sorted[k] in multiset(sorted);
      var j :| 0 <= j < |keyed| && keyed[j] == sorted[k];
      assert queue[k] == groups[j];
    }
  }

  lemma {:induction false} QueueKeepsGroups(groups: seq<Group>, keyed: seq<Keyed>, queue: seq<Group>)
    requires |keyed| == |groups| == |queue| && forall k :: 0 <= k < |keyed| ==> keyed[k].group == groups[k]
    requires forall k :: 0 <= k < |queue| ==> queue[k] == Sort(keyed, KeyedLe)[k].group
    ensures multiset(queue) == multiset(groups)
  {
    hide Sort, KeyedLe;
    SortKeepsGroups(keyed);
    GroupsAre(keyed, groups);
    GroupsAre(Sort(keyed, KeyedLe), queue);
  }

  function GroupsIn(s: seq<Keyed>): seq<Group> {
    if s == [] then [] else [s[0].group] + GroupsIn(s[1..])
  }

  lemma {:induction false} GroupsAre(s: seq<Keyed>, groups: seq<Group>)
    requires |s| == |groups| && forall k :: 0 <= k < |s| ==> s[k].group == groups[k]
    ensures GroupsIn(s) == groups
  {
    if s != [] {
      GroupsAre(s[1..], groups[1..]);
    }
  }

  lemma {:induction false} InsertKeepsGroups(x: Keyed, s: seq<Keyed>)
    ensures multiset(GroupsIn(Insert(x, s, KeyedLe))) == multiset{x.group} + multiset(GroupsIn(s))
  {
    hide KeyedLe;
    if s != [] && !KeyedLe(x, s[0]) {
      InsertKeepsGroups(x, s[1..]);
      assert ([s[0]] + Insert(x, s[1..], KeyedLe))[1..] == Insert(x, s[1..], KeyedLe);
    } else {
      assert ([x] + s)[1..] == s;
    }
  }

  lemma {:induction false} SortKeepsGroups(s: seq<Keyed>)
    ensures multiset(GroupsIn(Sort(s, KeyedLe))) == multiset(GroupsIn(s))
  {
    if s != [] {
      SortKeepsGroups(s[1..]);
      InsertKeepsGroups(s[0], Sort(s[1..], KeyedLe));
    }
  }

  lemma {:induction false} KeyGroups(groups: seq<Group>, rows: seq<Row>, words: seq<Word>)
    requires forall k, i :: 0 <= k < |groups| && i in groups[k].indices ==> i < |rows|
    ensures forall k :: 0 <= k < |groups| ==> KeyOf(groups[k], rows, words).group == groups[k]
  {
  }

  // ---- one decoded crop ----

  lemma {:induction false} ShiftedRun(keys: seq<string>, words: seq<Word>, i: nat, offset: real)
    requires RunAt(keys, words, i)
    ensures var run := words[i..i + |keys|];
            && RunAt(keys, Shift(run, offset), 0)
            && Shift(run, offset)[0].start == run[0].start + offset
            && Shift(run, offset)[|keys| - 1].end == run[|keys| - 1].end + offset
  {
    RunSpanIsSpan(keys, words, i);
  }

  /** The run at `i` of the crop passes every gate for the row; `offset` is where the crop starts. */
  ghost predicate Hits(rows: seq<Row>, index: nat, words: seq<Word>, lower: real, upper: real, offset: real,
                       recovered: Recoveries, i: nat)
    requires index < |rows|
  {
    var keys := rows[index].keys;
    && RunAt(keys, words, i) && Plausible(words[i..i + |keys|], lower, Some(upper))
    && |keys| == rows[index].tokens
    && !Conflict(recovered, index, Span(words[i].start + offset, words[i + |keys| - 1].end + offset))
  }

  ghost function HitsIn(rows: seq<Row>, index: nat, words: seq<Word>, lower: real, upper: real, offset: real,
                        recovered: Recoveries): set<nat>
    requires index < |rows|
  {
    set i: nat | i < |words| && Hits(rows, index, words, lower, upper, offset, recovered, i)
  }

  function Found(keys: seq<string>, words: seq<Word>, offset: real, i: nat): Recovery
    requires RunAt(keys, words, i)
  {
    Recovery(Span(words[i].start + offset, words[i + |keys| - 1].end + offset), Shift(words[i..i + |keys|], offset))
  }

  /** The first such run recovers the row, in song time. */
  ghost function Searched(rows: seq<Row>, index: nat, words: seq<Word>, lower: real, upper: real, offset: real,
                          recovered: Recoveries): Recoveries
    requires index < |rows|
  {
    var first := FirstOf(HitsIn(rows, index, words, lower, upper, offset, recovered));
    if first.None? then recovered else recovered[index := Found(rows[index].keys, words, offset, first.value)]
  }

  /** Some run fails for lack of confidence alone. */
  ghost predicate Unsure(keys: seq<string>, words: seq<Word>, lower: real, upper: real) {
    exists i: nat :: i < |words| && UnsureAt(keys, words, lower, upper, i)
  }

  ghost predicate UnsureAt(keys: seq<string>, words: seq<Word>, lower: real, upper: real, i: nat) {
    RunAt(keys, words, i) && OnlyUnsure(words[i..i + |keys|], lower, Some(upper))
  }

  lemma {:induction false} SearchedIsSound(rows: seq<Row>, index: nat, words: seq<Word>, lower: real, upper: real,
                                           offset: real, recovered: Recoveries)
    requires index < |rows| && Problem(rows[index])
    requires InOrder(recovered) && Genuine(recovered, rows)
    ensures var next := Searched(rows, index, words, lower, upper, offset, recovered);
            && InOrder(next) && Genuine(next, rows)
            && (next == recovered || (index in next && next == recovered[index := next[index]]
                  && lower + offset <= next[index].span.start && next[index].span.end <= upper + offset))
  {
    hide InOrder, Genuine, Conflict, Plausible, Shift;
    var first := FirstOf(HitsIn(rows, index, words, lower, upper, offset, recovered));
    if first.Some? {
      var i, keys := first.value, rows[index].keys;
      assert Hits(rows, index, words, lower, upper, offset, recovered, i);
      PlausibleSpan(words[i..i + |keys|], lower, Some(upper));
      RunSpanIsSpan(keys, words, i);
      ShiftedRun(keys, words, i, offset);
      AcceptKeeps(rows, recovered, index, Shift(words[i..i + |keys|], offset));
    }
  }

  /** Every recovered row was known before, or lies within the bounds planned for it. */
  ghost predicate Placed(known: Recoveries, recovered: Recoveries, bounds: Bounds) {
    forall i :: i in recovered ==>
      (i in known && recovered[i] == known[i]) || WithinBounds(recovered[i].span, i, bounds)
  }

  ghost predicate WithinBounds(span: Span, i: nat, bounds: Bounds) {
    i in bounds && bounds[i].0 <= span.start && span.end <= bounds[i].1
  }

  lemma {:induction false} AddPlaced(known: Recoveries, recovered: Recoveries, bounds: Bounds, index: nat, r: Recovery)
    requires Placed(known, recovered, bounds) && WithinBounds(r.span, index, bounds)
    ensures Placed(known, recovered[index := r], bounds)
  {
  }

  /** One run of the crop against one row. */
  method TryCropRun(rows: seq<Row>, index: nat, words: seq<Word>, lower: real, upper: real, offset: real,
                    recovered: Recoveries, i: nat)
    returns (next: Recoveries, ok: bool, unsure: bool)
    requires index < |rows| && Problem(rows[index])
    requires InOrder(recovered) && Genuine(recovered, rows)
    ensures ok <==> Hits(rows, index, words, lower, upper, offset, recovered, i)
    ensures next == if ok then recovered[index := Found(rows[index].keys, words, offset, i)] else recovered
    ensures unsure <==> UnsureAt(rows[index].keys, words, lower, upper, i)
  {
    hide InOrder, Genuine, Conflict, Plausible, Shift;
    var keys := rows[index].keys;
    next, ok, unsure := recovered, false, false;
    if RunAt(keys, words, i) {
      var run := words[i..i + |keys|];
      var plausible := PlausibleWords(run, lower, Some(upper));
      if !plausible {
        unsure := ConfidenceOnlyFailure(run, lower, Some(upper));
      } else {
        PlausibleSpan(run, lower, Some(upper));
        RunSpanIsSpan(keys, words, i);
        ShiftedRun(keys, words, i, offset);
        next, ok := Accept(rows, recovered, index, Shift(run, offset));
      }
    }
  }

  /** One row against the crop's words: accepted, or failed only for lack of confidence, or neither. */
  method SearchCrop(rows: seq<Row>, index: nat, words: seq<Word>, lower: real, upper: real, offset: real,
                    recovered: Recoveries)
    returns (next: Recoveries, accepted: bool, unsure: bool)
    requires index < |rows| && Problem(rows[index])
    requires InOrder(recovered) && Genuine(recovered, rows)
    ensures next == Searched(rows, index, words, lower, upper, offset, recovered)
    ensures accepted <==> HitsIn(rows, index, words, lower, upper, offset, recovered) != {}
    ensures !accepted ==> (unsure <==> Unsure(rows[index].keys, words, lower, upper))
  {
    hide InOrder, Genuine, Hits, UnsureAt, Found;
    next, accepted, unsure := recovered, false, false;
    for i := 0 to |words|
      invariant next == recovered && !accepted
      invariant forall j: nat :: j < i ==> j !in HitsIn(rows, index, words, lower, upper, offset, recovered)
      invariant unsure <==> exists j: nat :: j < i && UnsureAt(rows[index].keys, words, lower, upper, j)
    {
      var only;
      next, accepted, only := TryCropRun(rows, index, words, lower, upper, offset, recovered, i);
      if accepted {
        FirstIs(HitsIn(rows, index, words, lower, upper, offset, recovered), i);
        return;
      }
      unsure := unsure || only;
    }
    assert HitsIn(rows, index, words, lower, upper, offset, recovered) == {};
  }

  /** The first `n` rows of a group against one decode: what is recovered, and who failed for lack of confidence. */
  ghost function GroupSearch(rows: seq<Row>, g: Group, words: seq<Word>, bounds: Bounds, recovered: Recoveries,
                             n: nat): (Recoveries, seq<nat>)
    requires n <= |g.indices| && ServedBy(g, rows, bounds)
  {
    if n == 0 then (recovered, [])
    else
      var (before, failures) := GroupSearch(rows, g, words, bounds, recovered, n - 1);
      var index := g.indices[n - 1];
      assert index in g.indices;
      var lower, upper := bounds[index].0 - g.start, bounds[index].1 - g.start;
      (Searched(rows, index, words, lower, upper, g.start, before),
       if HitsIn(rows, index, words, lower, upper, g.start, before) == {}
           && Unsure(rows[index].keys, words, lower, upper)
       then failures + [index] else failures)
  }

  lemma {:induction false} GroupSearchIsSound(rows: seq<Row>, g: Group, words: seq<Word>, bounds: Bounds,
                                              known: Recoveries, recovered: Recoveries, n: nat)
    requires n <= |g.indices| && ServedBy(g, rows, bounds)
    requires InOrder(recovered) && Genuine(recovered, rows) && Placed(known, recovered, bounds)
    ensures var (next, failures) := GroupSearch(rows, g, words, bounds, recovered, n);
            && InOrder(next) && Genuine(next, rows) && Placed(known, next, bounds)
            && recovered.Keys <= next.Keys
            && (forall i :: i in failures ==> i in g.indices)
  {
    hide InOrder, Genuine, Searched, HitsIn, Unsure, Placed;
    if n > 0 {
      GroupSearchIsSound(rows, g, words, bounds, known, recovered, n - 1);
      var (before, failures) := GroupSearch(rows, g, words, bounds, recovered, n - 1);
      var index := g.indices[n - 1];
      assert index in g.indices;
      SearchedIsPlaced(rows, g, words, bounds, known, before, index);
    }
  }

  lemma {:induction false} SearchedIsPlaced(rows: seq<Row>, g: Group, words: seq<Word>, bounds: Bounds,
                                            known: Recoveries, recovered: Recoveries, index: nat)
    requires index < |rows| && Problem(rows[index]) && index in bounds
    requires InOrder(recovered) && Genuine(recovered, rows) && Placed(known, recovered, bounds)
    ensures var next := Searched(rows, index, words, bounds[index].0 - g.start, bounds[index].1 - g.start, g.start,
                                 recovered);
            && InOrder(next) && Genuine(next, rows) && Placed(known, next, bounds)
            && recovered.Keys <= next.Keys
  {
    hide InOrder, Genuine, Searched, HitsIn, Unsure, Placed;
    var lower, upper := bounds[index].0 - g.start, bounds[index].1 - g.start;
    SearchedIsSound(rows, index, words, lower, upper, g.start, recovered);
    var next := Searched(rows, index, words, lower, upper, g.start, recovered);
    if next != recovered {
      AddPlaced(known, recovered, bounds, index, next[index]);
    }
  }

  /** The first run of the crop that passes every gate recovers the row, in song time; without one nothing changes. */
  ghost predicate RowSearched(rows: seq<Row>, index: nat, words: seq<Word>, lower: real, upper: real, offset: real,
                              before: Recoveries, after: Recoveries)
    requires index < |rows|
  {
    || (after == before && forall i: nat :: !Hits(rows, index, words, lower, upper, offset, before, i))
    || exists i: nat :: HitsFirst(rows, index, words, lower, upper, offset, before, after, i)
  }

  ghost predicate HitsFirst(rows: seq<Row>, index: nat, words: seq<Word>, lower: real, upper: real, offset: real,
                            before: Recoveries, after: Recoveries, i: nat)
    requires index < |rows|
  {
    && Hits(rows, index, words, lower, upper, offset, before, i)
    && (forall j: nat :: j < i ==> !Hits(rows, index, words, lower, upper, offset, before, j))
    && var n := |rows[index].keys|;
       after == before[index := Recovery(Span(words[i].start + offset, words[i + n - 1].end + offset),
                                         Shift(words[i..i + n], offset))]
  }

  /** No run passes, but some run fails for lack of confidence alone. */
  ghost predicate OnlyUnsureRuns(rows: seq<Row>, index: nat, words: seq<Word>, lower: real, upper: real, offset: real,
                                 before: Recoveries)
    requires index < |rows|
  {
    && (forall i: nat :: !Hits(rows, index, words, lower, upper, offset, before, i))
    && exists i: nat :: UnsureAt(rows[index].keys, words, lower, upper, i)
  }

  /** The rows of a group one after another; `failed` are those that only lacked confidence. */
  ghost predicate GroupSearched(rows: seq<Row>, g: Group, words: seq<Word>, bounds: Bounds, steps: seq<Recoveries>,
                                failed: seq<nat>, ks: seq<nat>) {
    && 0 < |steps| <= |g.indices| + 1 && Picked(g.indices[..|steps| - 1], ks, failed)
    && forall k: nat :: k < |steps| - 1 ==>
         StepSearched(rows, g, words, bounds, g.indices[k], steps[k], steps[k + 1], k in ks)
  }

  /** One row of a group, within the bounds planned for it. */
  ghost predicate StepSearched(rows: seq<Row>, g: Group, words: seq<Word>, bounds: Bounds, index: nat,
                               before: Recoveries, after: Recoveries, fails: bool) {
    && index < |rows| && index in bounds
    && var lower, upper := bounds[index].0 - g.start, bounds[index].1 - g.start;
       && RowSearched(rows, index, words, lower, upper, g.start, before, after)
       && (fails <==> OnlyUnsureRuns(rows, index, words, lower, upper, g.start, before))
  }

  lemma {:induction false} HitsInside(rows: seq<Row>, index: nat, words: seq<Word>, lower: real, upper: real,
                                      offset: real, recovered: Recoveries, i: nat)
    requires index < |rows|
    ensures Hits(rows, index, words, lower, upper, offset, recovered, i) ==> i < |words|
    ensures UnsureAt(rows[index].keys, words, lower, upper, i) ==> i < |words|
  {
  }

  lemma {:induction false} SearchedExactly(rows: seq<Row>, index: nat, words: seq<Word>, lower: real, upper: real,
                                           offset: real, recovered: Recoveries)
    requires index < |rows|
    ensures RowSearched(rows, index, words, lower, upper, offset, recovered,
                        Searched(rows, index, words, lower, upper, offset, recovered))
    ensures HitsIn(rows, index, words, lower, upper, offset, recovered) == {}
            && Unsure(rows[index].keys, words, lower, upper)
            <==> OnlyUnsureRuns(rows, index, words, lower, upper, offset, recovered)
  {
    hide Hits, UnsureAt, Searched, HitsFirst, HitsIn, Found;
    HitsAreIn(rows, index, words, lower, upper, offset, recovered);
    FirstHitFound(rows, index, words, lower, upper, offset, recovered);
    UnsureInside(rows[index].keys, words, lower, upper);
    var found := HitsIn(rows, index, words, lower, upper, offset, recovered);
    assert found == {} <==> forall j: nat :: j !in found;
  }

  lemma {:induction false} HitsAreIn(rows: seq<Row>, index: nat, words: seq<Word>, lower: real, upper: real,
                                     offset: real, recovered: Recoveries)
    requires index < |rows|
    ensures forall i: nat :: i in HitsIn(rows, index, words, lower, upper, offset, recovered)
                             <==> Hits(rows, index, words, lower, upper, offset, recovered, i)
  {
    forall i: nat ensures Hits(rows, index, words, lower, upper, offset, recovered, i) ==> i < |words| {
      HitsInside(rows, index, words, lower, upper, offset, recovered, i);
    }
    hide Hits;
  }

  lemma {:induction false} FirstHitFound(rows: seq<Row>, index: nat, words: seq<Word>, lower: real, upper: real,
                                         offset: real, recovered: Recoveries)
    requires index < |rows|
    ensures var found := HitsIn(rows, index, words, lower, upper, offset, recovered);
            var after := Searched(rows, index, words, lower, upper, offset, recovered);
            if found == {} then after == recovered
            else exists i: nat :: HitsFirst(rows, index, words, lower, upper, offset, recovered, after, i)
  {
    HitsAreIn(rows, index, words, lower, upper, offset, recovered);
    var found := HitsIn(rows, index, words, lower, upper, offset, recovered);
    var first := FirstOf(found);
    hide HitsIn, Hits, HitsFirst, Found;
    if first.Some? {
      var i := first.value;
      forall j: nat | j < i ensures !Hits(rows, index, words, lower, upper, offset, recovered, j) {
        assert j !in found;
      }
      FirstHitIs(rows, index, words, lower, upper, offset, recovered, i);
      assert Searched(rows, index, words, lower, upper, offset, recovered)
             == WithRecovery(recovered, index, Found(rows[index].keys, words, offset, i));
    }
  }

  lemma {:induction false} FirstHitIs(rows: seq<Row>, index: nat, words: seq<Word>, lower: real, upper: real,
                                      offset: real, recovered: Recoveries, i: nat)
    requires index < |rows| && Hits(rows, index, words, lower, upper, offset, recovered, i)
    requires forall j: nat :: j < i ==> !Hits(rows, index, words, lower, upper, offset, recovered, j)
    ensures RunAt(rows[index].keys, words, i)
    ensures HitsFirst(rows, index, words, lower, upper, offset, recovered,
                      WithRecovery(recovered, index, Found(rows[index].keys, words, offset, i)), i)
  {
    hide Conflict, Plausible, Shift;
  }

  function WithRecovery(recovered: Recoveries, index: nat, r: Recovery): (more: Recoveries)
    ensures more == recovered[index := r]
  {
    recovered[index := r]
  }

  lemma {:induction false} UnsureInside(keys: seq<string>, words: seq<Word>, lower: real, upper: real)
    ensures Unsure(keys, words, lower, upper) <==> exists i: nat :: UnsureAt(keys, words, lower, upper, i)
  {
    forall i: nat ensures UnsureAt(keys, words, lower, upper, i) ==> i < |words| {
    }
    hide UnsureAt;
  }

  lemma {:induction false} SearchNext(rows: seq<Row>, g: Group, words: seq<Word>, bounds: Bounds,
                                      steps: seq<Recoveries>,
                                      failed: seq<nat>, ks: seq<nat>, after: Recoveries, unsure: bool)
    requires GroupSearched(rows, g, words, bounds, steps, failed, ks) && |steps| <= |g.indices|
    requires StepSearched(rows, g, words, bounds, g.indices[|steps| - 1], steps[|steps| - 1], after, unsure)
    ensures var n := |steps| - 1;
            if unsure then GroupSearched(rows, g, words, bounds, steps + [after], failed + [g.indices[n]], ks + [n])
            else GroupSearched(rows, g, words, bounds, steps + [after], failed, ks)
  {
    hide StepSearched;
    var n := |steps| - 1;
    PickNext(g.indices[..n], ks, failed, g.indices[n]);
    assert g.indices[..n + 1] == g.indices[..n] + [g.indices[n]];
    PickedBelow(g.indices[..n], ks, failed);
    hide Picked;
    var more, all := if unsure then ks + [n] else ks, steps + [after];
    forall k: nat | k < |all| - 1
      ensures StepSearched(rows, g, words, bounds, g.indices[k], all[k], all[k + 1], k in more)
    {
      if k < n {
        assert k in more <==> k in ks;
        assert StepSearched(rows, g, words, bounds, g.indices[k], steps[k], steps[k + 1], k in ks);
      }
    }
  }

  lemma {:induction false} PickedBelow(s: seq<nat>, ks: seq<nat>, r: seq<nat>)
    requires Picked(s, ks, r)
    ensures forall k :: k in ks ==> k < |s|
  {
  }

  lemma {:induction false} NoneSearched(rows: seq<Row>, g: Group, words: seq<Word>, bounds: Bounds,
                                        recovered: Recoveries)
    ensures GroupSearched(rows, g, words, bounds, [recovered], [], [])
  {
    assert g.indices[..0] == [];
    NonePicked<nat>();
  }

  /** All rows of a group against one decode. */
  method SearchGroup(rows: seq<Row>, g: Group, words: seq<Word>, bounds: Bounds, recovered: Recoveries)
    returns (next: Recoveries, failures: seq<nat>, ghost steps: seq<Recoveries>, ghost ks: seq<nat>)
    requires ServedBy(g, rows, bounds)
    requires InOrder(recovered) && Genuine(recovered, rows)
    ensures (next, failures) == GroupSearch(rows, g, words, bounds, recovered, |g.indices|)
    ensures |steps| == |g.indices| + 1 && steps[0] == recovered && steps[|g.indices|] == next
    ensures GroupSearched(rows, g, words, bounds, steps, failures, ks)
  {
    hide InOrder, Genuine, Searched, HitsIn, Unsure, Placed, GroupSearched;
    next, failures := recovered, [];
    for k := 0 to |g.indices|
      invariant (next, failures) == GroupSearch(rows, g, words, bounds, recovered, k)
    {
      GroupSearchKeeps(rows, g, words, bounds, recovered, k);
      var index := g.indices[k];
      assert index in g.indices;
      var (lower, upper) := bounds[index];
      var accepted, unsure;
      next, accepted, unsure := SearchCrop(rows, index, words, lower - g.start, upper - g.start, g.start, next);
      if !accepted && unsure {
        failures := failures + [index];
      }
    }
    steps, ks := GroupSearchIsSearched(rows, g, words, bounds, recovered, |g.indices|);
  }

  lemma {:induction false} GroupSearchIsSearched(rows: seq<Row>, g: Group, words: seq<Word>, bounds: Bounds,
                                                 recovered: Recoveries, n: nat)
      returns (steps: seq<Recoveries>, ks: seq<nat>)
    requires n <= |g.indices| && ServedBy(g, rows, bounds)
    ensures var (next, failures) := GroupSearch(rows, g, words, bounds, recovered, n);
            && |steps| == n + 1 && steps[0] == recovered && steps[n] == next
            && GroupSearched(rows, g, words, bounds, steps, failures, ks)
  {
    hide Searched, HitsIn, Unsure, GroupSearched, RowSearched, OnlyUnsureRuns;
    if n == 0 {
      steps, ks := [recovered], [];
      NoneSearched(rows, g, words, bounds, recovered);
    } else {
      steps, ks := GroupSearchIsSearched(rows, g, words, bounds, recovered, n - 1);
      ServedAt(g, n - 1, rows, bounds);
      var (before, failures) := GroupSearch(rows, g, words, bounds, recovered, n - 1);
      var index := g.indices[n - 1];
      assert index in g.indices;
      var lower, upper := bounds[index].0 - g.start, bounds[index].1 - g.start;
      SearchedExactly(rows, index, words, lower, upper, g.start, before);
      var after := Searched(rows, index, words, lower, upper, g.start, before);
      var unsure := HitsIn(rows, index, words, lower, upper, g.start, before) == {}
                    && Unsure(rows[index].keys, words, lower, upper);
      assert StepSearched(rows, g, words, bounds, index, before, after, unsure);
      hide ServedBy, StepSearched;
      SearchNext(rows, g, words, bounds, steps, failures, ks, after, unsure);
      steps, ks := steps + [after], if unsure then ks + [n - 1] else ks;
    }
  }

  lemma {:induction false} ServedAt(g: Group, k: nat, rows: seq<Row>, bounds: Bounds)
    requires ServedBy(g, rows, bounds) && k < |g.indices|
    ensures g.indices[k] < |rows| && Problem(rows[g.indices[k]]) && g.indices[k] in bounds
  {
    assert g.indices[k] in g.indices;
  }

  lemma {:induction false} GroupSearchKeeps(rows: seq<Row>, g: Group, words: seq<Word>, bounds: Bounds,
                                            recovered: Recoveries, n: nat)
    requires n <= |g.indices| && ServedBy(g, rows, bounds)
    requires InOrder(recovered) && Genuine(recovered, rows)
    ensures var next := GroupSearch(rows, g, words, bounds, recovered, n).0;
            InOrder(next) && Genuine(next, rows)
  {
    KnownIsPlaced(recovered, bounds);
    hide InOrder, Genuine, GroupSearch, Placed;
    GroupSearchIsSound(rows, g, words, bounds, recovered, recovered, n);
  }

  lemma {:induction false} KnownIsPlaced(known: Recoveries, bounds: Bounds)
    ensures Placed(known, known, bounds)
  {
  }
}
