/** Runs of the retry scheduler with an anchor behind the end of the audio: its counter of seconds goes negative, and
    more audio is decoded than the limit says; or one window is decoded twice. */
module RetryOverspend {
  import opened Options
  import opened Numbers
  import opened StableSort
  import opened AsrEvidence
  import opened RetryPlan
  import opened RetryScheduler
  import opened RetryQueue
  import opened RetryBudget
  import opened RetryRun

  // ---- rows nobody sings, before a single anchor ----

  /** All rows but the last have a problem and are not heard; the last one is heard where it stands, and nothing else
      is. */
  ghost predicate Lone(rows: seq<Row>, w: Word) {
    && rows != [] && w.Word? && 0.0 < w.start && 0.04 <= w.end - w.start <= 8.0 && w.probability == 1.0
    && (var last := rows[|rows| - 1];
        !Problem(last) && last.keys == [w.key] && last.start == w.start && last.end == w.end)
    && forall k :: 0 <= k < |rows| - 1 ==> Problem(rows[k]) && Unheard(rows[k].keys, [w])
  }

  ghost predicate Unheard(keys: seq<string>, words: seq<Word>) {
    forall i: nat :: !RunAt(keys, words, i)
  }

  lemma {:induction false} LoneAnchor(rows: seq<Row>, w: Word)
    requires Lone(rows, w)
    ensures AnchorsOf(rows, [w], |rows|) == map[|rows| - 1 := Span(w.start, w.end)]
  {
    hide Unheard, Problem, AnchorOf, AnchorsOf;
    CertainAnchor(rows[|rows| - 1], w);
    forall k | 0 <= k < |rows| - 1 ensures AnchorOf(rows[k], [w]) == None {
      ProblemsHaveNoAnchor(rows[k], [w]);
    }
    LastAnchor(rows, [w], Span(w.start, w.end));
  }

  lemma {:induction false} ProblemsHaveNoAnchor(row: Row, words: seq<Word>)
    requires Problem(row)
    ensures AnchorOf(row, words) == None
  {
  }

  lemma {:induction false} LastAnchor(rows: seq<Row>, words: seq<Word>, span: Span)
    requires rows != [] && AnchorOf(rows[|rows| - 1], words) == Some(span)
    requires forall k :: 0 <= k < |rows| - 1 ==> AnchorOf(rows[k], words) == None
    ensures AnchorsOf(rows, words, |rows|) == map[|rows| - 1 := span]
  {
    hide AnchorOf;
  }

  lemma {:induction false} NothingSettled(rows: seq<Row>, words: seq<Word>, duration: Option<real>, p: Pass, index: nat)
    requires index < |rows| && Unheard(rows[index].keys, words) && index !in p.recovered
    ensures Advance(rows, words, duration, p, index) == Pass(p.recovered, p.anchors, p.pending + [index])
  {
    hide LeftAnchor, RightAnchor, Plausible, Conflict;
    forall lower, upper ensures Settlements(rows, index, words, lower, upper, p.recovered) == {} {
    }
  }

  /** Such rows all wait for a crop. */
  lemma {:induction false} AllWait(rows: seq<Row>, w: Word, anchors: Anchors, duration: Option<real>, n: nat)
    requires Lone(rows, w) && n < |rows|
    ensures FirstPass(rows, [w], anchors, duration, n) == Pass(map[], anchors, seq(n, k => k))
  {
    hide Advance, Unheard;
    if n > 0 {
      AllWait(rows, w, anchors, duration, n - 1);
      NothingSettled(rows, [w], duration, FirstPass(rows, [w], anchors, duration, n - 1), n - 1);
    }
  }

  lemma {:induction false} LonePass(rows: seq<Row>, w: Word, duration: Option<real>)
    requires Lone(rows, w)
    ensures FirstPass(rows, [w], AnchorsOf(rows, [w], |rows|), duration, |rows|)
            == Pass(map[], map[|rows| - 1 := Span(w.start, w.end)], seq(|rows| - 1, k => k))
  {
    hide Advance, Unheard, AnchorsOf;
    LoneAnchor(rows, w);
    AllWait(rows, w, AnchorsOf(rows, [w], |rows|), duration, |rows| - 1);
  }

  /** The window around the row's own times. */
  function OwnWindow(row: Row, span: Span, duration: real): Span {
    WindowAround(Trim(Span(row.start, row.end), row.tokens, 0.0, span.start), None, Some(span), Some(duration))
  }

  lemma {:induction false} LoneBounds(n: nat, index: nat, span: Span)
    requires index < n - 1
    ensures LeftAnchor(map[n - 1 := span], index) == None && RightAnchor(map[n - 1 := span], index, n) == Some(n - 1)
    decreases n - index
  {
    var anchors: Anchors := map[n - 1 := span];
    assert LeftAnchor(anchors, index) == None;
    hide LeftAnchor;
    if index + 1 < n - 1 {
      assert index + 1 !in anchors;
      LoneBounds(n, index + 1, span);
    }
  }

  lemma {:induction false} UnheardIsWhereItStands(row: Row, words: seq<Word>, lower: real, upper: real)
    requires Unheard(row.keys, words)
    ensures Located(row, words, lower, upper) == Span(row.start, row.end)
  {
    hide RunAt, RunSpan, Distance;
    assert NearRuns(row, words, lower, upper) == {};
  }

  lemma {:induction false} LonePlan(rows: seq<Row>, w: Word, index: nat, duration: real)
    requires Lone(rows, w) && index < |rows| - 1 && 0.0 <= rows[index].start < w.start
    requires var own := OwnWindow(rows[index], Span(w.start, w.end), duration); own.end - own.start <= MAX_CROP_SECONDS
    ensures var own := OwnWindow(rows[index], Span(w.start, w.end), duration);
            PlanOf(index, rows, map[|rows| - 1 := Span(w.start, w.end)], [w], Some(duration))
            == Proposed(Window(own.start, own.end, 0.0, w.start))
  {
    hide LeftAnchor, RightAnchor, Located, Unheard, WindowAround, Trim;
    LoneBounds(|rows|, index, Span(w.start, w.end));
    UnheardIsWhereItStands(rows[index], [w], 0.0, w.start);
  }

  // ---- a run without a single decode ----

  function Silent(n: nat): Option<seq<Word>> {
    None
  }

  function Never(k: nat): bool {
    false
  }

  function Crops(queue: seq<Group>): (crops: seq<Crop>)
    ensures |crops| == |queue|
  {
    seq(|queue|, k requires 0 <= k < |queue| => CropOf(queue[k]))
  }

  /** Nothing is decoded and time never runs out; if every entry fits, every entry is a crop. */
  lemma {:induction false} SilentRun(first: Progress, st: Progress, k: nat, job: Job)
    requires job.decode == Silent && job.late == Never && first.crops == [] && k <= |first.queue|
    requires Served(first.queue, job.rows, job.bounds)
    requires forall i :: 0 <= i < k ==> !OverBudget(Crops(first.queue[..i]), first.queue[i])
    ensures Reaches(first, st, k, job) <==> st == Progress(first.queue, first.recovered, Crops(first.queue[..k]))
    decreases k
  {
    hide OverBudget, Served, ServedBy, Handle, Crops;
    if k == 0 {
      assert first.queue[..0] == [];
      NoCrops(first.queue[..0]);
    } else {
      hide Reaches;
      var before := Progress(first.queue, first.recovered, Crops(first.queue[..k - 1]));
      SilentRun(first, before, k - 1, job);
      EntryServed(first.queue, k - 1, job);
      SilentStep(before, k - 1, job);
      ReachesNext(first, before, k - 1, job);
      CropsMore(first.queue, k - 1);
      if Reaches(first, st, k, job) {
        var other := ReachesBack(first, st, k, job);
        SilentRun(first, other, k - 1, job);
      }
    }
  }

  lemma {:induction false} NoCrops(queue: seq<Group>)
    ensures queue == [] ==> Crops(queue) == []
  {
  }

  lemma {:induction false} CropsMore(queue: seq<Group>, k: nat)
    requires k < |queue|
    ensures Crops(queue[..k + 1]) == Crops(queue[..k]) + [CropOf(queue[k])]
  {
  }

  lemma {:induction false} ReachesBack(first: Progress, st: Progress, k: nat, job: Job) returns (before: Progress)
    requires Reaches(first, st, k, job) && k > 0
    ensures Reaches(first, before, k - 1, job) && k - 1 < |before.queue|
    ensures ServedBy(before.queue[k - 1], job.rows, job.bounds) && st == Handle(before, k - 1, job)
  {
    hide Handle, ServedBy;
    before :| Reaches(first, before, k - 1, job) && k - 1 < |before.queue|
              && ServedBy(before.queue[k - 1], job.rows, job.bounds) && st == Handle(before, k - 1, job);
  }

  lemma {:induction false} EntryServed(queue: seq<Group>, k: nat, job: Job)
    requires k < |queue| && Served(queue, job.rows, job.bounds)
    ensures ServedBy(queue[k], job.rows, job.bounds)
  {
  }

  lemma {:induction false} SilentStep(st: Progress, k: nat, job: Job)
    requires job.decode == Silent && job.late == Never && k < |st.queue| && ServedBy(st.queue[k], job.rows, job.bounds)
    requires !OverBudget(st.crops, st.queue[k])
    ensures Handle(st, k, job) == Progress(st.queue, st.recovered, st.crops + [CropOf(st.queue[k])])
  {
    hide OverBudget;
    assert st.queue + [] == st.queue;
  }

  /** Such a run ends with the queue it started with. */
  lemma {:induction false} SilentQueue(first: Progress, st: Progress, k: nat, job: Job)
    requires job.decode == Silent && Reaches(first, st, k, job)
    ensures st.queue == first.queue
    decreases k
  {
    hide Handle, ServedBy;
    if k > 0 {
      var before := ReachesBack(first, st, k, job);
      hide Reaches;
      SilentQueue(first, before, k - 1, job);
      SilentHandle(before, k - 1, job);
    }
  }

  lemma {:induction false} SilentHandle(st: Progress, k: nat, job: Job)
    requires job.decode == Silent && k < |st.queue| && ServedBy(st.queue[k], job.rows, job.bounds)
    ensures Handle(st, k, job).queue == st.queue
  {
    hide OverBudget;
    assert st.queue + [] == st.queue;
  }

  /** Where its whole queue fits, the run ends in exactly one state, with one crop for each entry. */
  lemma {:induction false} SilentEnd(first: Progress, st: Progress, job: Job)
    requires job.decode == Silent && job.late == Never && first.crops == []
    requires Served(first.queue, job.rows, job.bounds)
    requires forall i :: 0 <= i < |first.queue| ==> !OverBudget(Crops(first.queue[..i]), first.queue[i])
    ensures Reaches(first, st, |st.queue|, job) <==> st == Progress(first.queue, first.recovered, Crops(first.queue))
  {
    hide OverBudget, Served, Reaches;
    assert first.queue[..|first.queue|] == first.queue;
    SilentRun(first, st, |first.queue|, job);
    if Reaches(first, st, |st.queue|, job) {
      SilentQueue(first, st, |st.queue|, job);
    }
  }

  // ---- planning such rows ----

  function OwnGroup(rows: seq<Row>, span: Span, duration: real, k: nat): Group
    requires k < |rows|
  {
    var own := OwnWindow(rows[k], span, duration);
    Group(own.start, own.end, [k], false)
  }

  function OwnGroups(rows: seq<Row>, span: Span, duration: real, n: nat): (gs: seq<Group>)
    requires n <= |rows|
    ensures |gs| == n
  {
    seq(n, k requires 0 <= k < n => OwnGroup(rows, span, duration, k))
  }

  /** All rows but the last lie before the last one, in windows that are not too long. */
  predicate Plannable(rows: seq<Row>, span: Span, duration: real) {
    forall k :: 0 <= k < |rows| - 1 ==>
      && 0.0 <= rows[k].start < span.start
      && OwnGroup(rows, span, duration, k).end - OwnGroup(rows, span, duration, k).start <= MAX_CROP_SECONDS
  }

  lemma {:induction false} LoneWindows(rows: seq<Row>, w: Word, duration: real, n: nat)
    requires Lone(rows, w) && Plannable(rows, Span(w.start, w.end), duration) && n <= |rows| - 1
    ensures PlannedFor(seq(|rows| - 1, k => k), n, rows, map[|rows| - 1 := Span(w.start, w.end)], [w],
                       Some(duration)).windows
            == OwnGroups(rows, Span(w.start, w.end), duration, n)
  {
    hide PlanOf, Unheard, OwnWindow;
    if n > 0 {
      var span := Span(w.start, w.end);
      LoneWindows(rows, w, duration, n - 1);
      var own := OwnGroup(rows, span, duration, n - 1);
      assert own.end - own.start <= MAX_CROP_SECONDS;
      LonePlan(rows, w, n - 1, duration);
      assert OwnGroups(rows, span, duration, n)
             == OwnGroups(rows, span, duration, n - 1) + [OwnGroup(rows, span, duration, n - 1)];
    }
  }

  /** Windows in order of their starts, none of which joins the one before it. */
  predicate Scattered(windows: seq<Group>) {
    && (forall j, k :: 0 <= j < k < |windows| ==> windows[j].start <= windows[k].start)
    && (forall k :: 0 < k < |windows| ==> windows[k - 1].end < windows[k].start)
  }

  lemma {:induction false} ScatteredStay(windows: seq<Group>, n: nat)
    requires Scattered(windows) && n <= |windows|
    ensures Merged(windows, n) == windows[..n]
  {
    if n > 0 {
      ScatteredStay(windows, n - 1);
      assert windows[..n] == windows[..n - 1] + [windows[n - 1]];
    }
  }

  lemma {:induction false} ScatteredSorted(windows: seq<Group>)
    requires Scattered(windows)
    ensures Sort(windows, StartsNoLater) == windows && Merged(windows, |windows|) == windows
  {
    hide Sort, Merged;
    SortedIsUnchanged(windows, StartsNoLater);
    ScatteredStay(windows, |windows|);
    assert windows[..|windows|] == windows;
  }

  /** The run over such rows starts with their own windows in order of priority. */
  lemma {:induction false} LoneStart(rows: seq<Row>, w: Word, phrases: seq<Span>, duration: real, windows: seq<Group>)
    requires Lone(rows, w) && Plannable(rows, Span(w.start, w.end), duration)
    requires windows == OwnGroups(rows, Span(w.start, w.end), duration, |rows| - 1) && Scattered(windows)
    ensures forall k, i :: 0 <= k < |windows| && i in windows[k].indices ==> i < |rows|
    ensures var first := StartOf(rows, [w], phrases, Some(duration), Silent, Never).0;
            first == Progress(Prioritised(windows, rows, [w]), map[], [])
  {
    hide Unheard, FirstPass, PlannedFor, AnchorsOf, Sort, Merged, Prioritised, OwnWindow, Plannable, Scattered, Problem;
    LonePass(rows, w, Some(duration));
    LoneWindows(rows, w, duration, |rows| - 1);
    ScatteredSorted(windows);
  }

  // ---- priorities of single rows ----

  lemma {:induction false} KeyOfOne(g: Group, k: nat, rows: seq<Row>, words: seq<Word>)
    requires g.indices == [k] && k < |rows| && Unheard(rows[k].keys, words) && rows[k].score == None
    ensures KeyOf(g, rows, words) == Keyed(if rows[k].kept then 1 else 0, 0.0, g)
  {
    hide RunAt;
    assert k in g.indices && !HasRun(rows[k], words);
    assert g.indices[..|g.indices| - 1] == [];
    assert LowestScore([], rows) == None && LowestScore(g.indices, rows) == None;
  }

  lemma {:induction false} InsertBehind(x: Keyed, e: Keyed, rest: seq<Keyed>)
    requires !KeyedLe(x, e) && (rest == [] || KeyedLe(x, rest[0]))
    ensures Insert(x, [e] + rest, KeyedLe) == [e] + ([x] + rest)
  {
    hide KeyedLe;
    assert ([e] + rest)[1..] == rest;
    if rest == [] {
      assert [x] + rest == [x];
    }
  }

  /** Rows of the same urgency and score stay in order behind one that is more urgent. */
  lemma {:induction false} UrgentFirst(rest: seq<Keyed>, e: Keyed)
    requires forall k :: 0 <= k < |rest| ==> !KeyedLe(rest[k], e)
    requires forall k :: 0 < k < |rest| ==> KeyedLe(rest[k - 1], rest[k])
    ensures Sort(rest + [e], KeyedLe) == [e] + rest
  {
    hide KeyedLe;
    if rest == [] {
      assert rest + [e] == [e] && [e][1..] == [];
      assert Sort([e][1..], KeyedLe) == [];
    } else {
      assert (rest + [e])[0] == rest[0] && (rest + [e])[1..] == rest[1..] + [e];
      assert forall k :: 0 < k < |rest[1..]| ==> rest[1..][k - 1] == rest[k] && rest[1..][k] == rest[k + 1];
      UrgentFirst(rest[1..], e);
      InsertBehind(rest[0], e, rest[1..]);
      assert [rest[0]] + rest[1..] == rest;
    }
  }

  lemma {:induction false} PrioritisedAre(groups: seq<Group>, rows: seq<Row>, words: seq<Word>, sorted: seq<Keyed>)
    requires forall k, i :: 0 <= k < |groups| && i in groups[k].indices ==> i < |rows|
    requires var keyed := seq(|groups|, k requires 0 <= k < |groups| => KeyOf(groups[k], rows, words));
             Sort(keyed, KeyedLe) == sorted
    ensures |Prioritised(groups, rows, words)| == |sorted|
    ensures forall k :: 0 <= k < |sorted| ==> Prioritised(groups, rows, words)[k] == sorted[k].group
  {
    hide KeyOf, Sort;
  }

  // ---- more than a minute ----

  function TenWords(start: real, raw: string): Row {
    Row(seq(10, _ => "a"), 10, true, true, start, start + 15.0, raw, None)
  }

  /** Four lines with suspicious times within the audio, a missing one far behind its end, and a line heard still
      later. */
  function LateRows(raw: string): seq<Row> {
    [TenWords(10.0, raw), TenWords(40.0, raw), TenWords(70.0, raw), TenWords(100.0, raw),
     Row(["a"], 1, false, false, 1000.0, 1001.0, raw, None), Row(["b"], 1, true, false, 2000.0, 2001.0, raw, None)]
  }

  const LATE_WORD: Word := Word("b", 2000.0, 2001.0, 1.0)

  function Ten(start: real, k: nat): Group {
    Group(start - 2.0, start + 17.0, [k], false)
  }

  const FAR: Group := Group(997.5, 200.0, [4], false)

  lemma {:induction false} LongUnheard(keys: seq<string>, w: Word)
    requires |keys| > 1 || (|keys| == 1 && w.Word? && keys[0] != w.key)
    ensures Unheard(keys, [w])
  {
    forall i: nat ensures !RunAt(keys, [w], i) {
      if |keys| == 1 && i == 0 {
        assert [w][0].key != keys[0 - 0];
      }
    }
  }

  lemma {:induction false} LateLone(raw: string)
    ensures Lone(LateRows(raw), LATE_WORD)
  {
    var rows := LateRows(raw);
    assert "a"[0] != "b"[0];
    forall k | 0 <= k < |rows| - 1 ensures Problem(rows[k]) && Unheard(rows[k].keys, [LATE_WORD]) {
      LongUnheard(rows[k].keys, LATE_WORD);
    }
    hide Unheard;
  }

  lemma {:induction false} TenWindow(start: real, raw: string)
    requires 2.0 <= start && start + 17.0 <= 200.0
    ensures OwnWindow(TenWords(start, raw), Span(2000.0, 2001.0), 200.0) == Span(start - 2.0, start + 17.0)
  {
  }

  lemma {:induction false} FarWindow(raw: string)
    ensures OwnWindow(Row(["a"], 1, false, false, 1000.0, 1001.0, raw, None), Span(2000.0, 2001.0), 200.0)
        == Span(997.5, 200.0)
  {
  }

  lemma {:induction false} LateWindows(raw: string)
    ensures var rows, span := LateRows(raw), Span(2000.0, 2001.0);
            && Plannable(rows, span, 200.0)
            && OwnGroups(rows, span, 200.0, 5) == [Ten(10.0, 0), Ten(40.0, 1), Ten(70.0, 2), Ten(100.0, 3), FAR]
            && Scattered(OwnGroups(rows, span, 200.0, 5))
  {
    hide OwnWindow;
    TenWindow(10.0, raw);
    TenWindow(40.0, raw);
    TenWindow(70.0, raw);
    TenWindow(100.0, raw);
    FarWindow(raw);
  }

  lemma {:induction false} LateQueue(raw: string, windows: seq<Group>)
    requires windows == [Ten(10.0, 0), Ten(40.0, 1), Ten(70.0, 2), Ten(100.0, 3), FAR]
    requires forall k, i :: 0 <= k < |windows| && i in windows[k].indices ==> i < |LateRows(raw)|
    ensures Prioritised(windows, LateRows(raw), [LATE_WORD])
        == [FAR, Ten(10.0, 0), Ten(40.0, 1), Ten(70.0, 2), Ten(100.0, 3)]
  {
    var rows, words := LateRows(raw), [LATE_WORD];
    var keyed := seq(|windows|, k requires 0 <= k < |windows| => KeyOf(windows[k], rows, words));
    LateLone(raw);
    hide Unheard, KeyOf, Prioritised, Problem;
    forall k | 0 <= k < 5 ensures keyed[k] == Keyed(if k < 4 then 1 else 0, 0.0, windows[k]) {
      KeyOfOne(windows[k], k, rows, words);
    }
    var rest := keyed[..4];
    assert keyed == rest + [keyed[4]];
    UrgentFirst(rest, keyed[4]);
    PrioritisedAre(windows, rows, words, [keyed[4]] + rest);
  }

  lemma {:induction false} CropCounts(queue: seq<Group>, k: nat)
    requires k < |queue|
    ensures var before, after, length := Crops(queue[..k]), Crops(queue[..k + 1]), queue[k].end - queue[k].start;
            && TotalSeconds(after) == TotalSeconds(before) + length
            && AudioDecoded(after) == AudioDecoded(before) + Most(0.0, length)
  {
    CropsMore(queue, k);
    var after := Crops(queue[..k + 1]);
    assert after[..k] == Crops(queue[..k]);
  }

  lemma {:induction false} LateCounts(queue: seq<Group>)
    requires queue == [FAR, Ten(10.0, 0), Ten(40.0, 1), Ten(70.0, 2), Ten(100.0, 3)]
    ensures forall i :: 0 <= i < |queue| ==> !OverBudget(Crops(queue[..i]), queue[i])
    ensures TotalSeconds(Crops(queue)) == -721.5 && AudioDecoded(Crops(queue)) == 76.0
  {
    assert queue[..0] == [] && queue[..5] == queue;
    assert TotalSeconds(Crops(queue[..0])) == 0.0 && AudioDecoded(Crops(queue[..0])) == 0.0;
    CropCounts(queue, 0);
    CropCounts(queue, 1);
    CropCounts(queue, 2);
    CropCounts(queue, 3);
    CropCounts(queue, 4);
    hide TotalSeconds, AudioDecoded, Crops;
    assert forall i :: 0 <= i <= 5 ==> |Crops(queue[..i])| == i;
  }

  /** With every decode failing and time to spare, this run has one end: five crops, whose seconds the code counts as
      -721.5 while it decodes 76 s of audio, more than its limit of a minute.  The window far behind the end pays for
      the rest. */
  lemma {:induction false} MoreThanAMinute(raw: string, phrases: seq<Span>, st: Progress)
    ensures var (first, job) := StartOf(LateRows(raw), [LATE_WORD], phrases, Some(200.0), Silent, Never);
            && first.queue == [FAR, Ten(10.0, 0), Ten(40.0, 1), Ten(70.0, 2), Ten(100.0, 3)]
            && (Reaches(first, st, |st.queue|, job) <==> st == Progress(first.queue, map[], Crops(first.queue)))
            && TotalSeconds(Crops(first.queue)) == -721.5
                && AudioDecoded(Crops(first.queue)) == 76.0 > MAX_AUDIO_SECONDS
  {
    hide StartOf, Lone, OwnGroups, Plannable, Scattered, Prioritised, Reaches, OverBudget, Crops, TotalSeconds,
        AudioDecoded, Served,
         LateRows;
    var rows := LateRows(raw);
    LateLone(raw);
    LateWindows(raw);
    assert |rows| == 6 by {
      LateSize(raw);
    }
    var windows := OwnGroups(rows, Span(2000.0, 2001.0), 200.0, 5);
    LoneStart(rows, LATE_WORD, phrases, 200.0, windows);
    LateQueue(raw, windows);
    var (first, job) := StartOf(rows, [LATE_WORD], phrases, Some(200.0), Silent, Never);
    LateCounts(first.queue);
    SilentEnd(first, st, job);
  }

  lemma {:induction false} LateSize(raw: string)
    ensures |LateRows(raw)| == 6
  {
  }

  // ---- one window twice ----

  /** Two lines missing at the same place behind the end of the audio, and a line heard still later. */
  function TwinRows(raw: string): seq<Row> {
    [Row(["a"], 1, false, false, 13.0, 14.0, raw, None), Row(["a"], 1, false, false, 13.0, 14.0, raw, None),
     Row(["b"], 1, true, false, 20.0, 21.0, raw, None)]
  }

  const TWIN_WORD: Word := Word("b", 20.0, 21.0, 1.0)

  function Twin(k: nat): Group {
    Group(10.5, 10.0, [k], false)
  }

  lemma {:induction false} TwinLone(raw: string)
    ensures Lone(TwinRows(raw), TWIN_WORD) && |TwinRows(raw)| == 3
  {
    var rows := TwinRows(raw);
    assert "a"[0] != "b"[0];
    LongUnheard(["a"], TWIN_WORD);
    hide Unheard;
  }

  lemma {:induction false} TwinWindows(raw: string)
    ensures var rows, span := TwinRows(raw), Span(20.0, 21.0);
            && Plannable(rows, span, 10.0) && OwnGroups(rows, span, 10.0, 2) == [Twin(0), Twin(1)]
            && Scattered(OwnGroups(rows, span, 10.0, 2))
  {
    assert OwnWindow(TwinRows(raw)[0], Span(20.0, 21.0), 10.0) == Span(10.5, 10.0);
    assert TwinRows(raw)[0] == TwinRows(raw)[1];
    hide OwnWindow;
  }

  lemma {:induction false} TwinQueue(raw: string, windows: seq<Group>)
    requires windows == [Twin(0), Twin(1)]
    requires forall k, i :: 0 <= k < |windows| && i in windows[k].indices ==> i < |TwinRows(raw)|
    ensures Prioritised(windows, TwinRows(raw), [TWIN_WORD]) == [Twin(0), Twin(1)]
  {
    var rows, words := TwinRows(raw), [TWIN_WORD];
    var keyed := seq(|windows|, k requires 0 <= k < |windows| => KeyOf(windows[k], rows, words));
    TwinLone(raw);
    hide Unheard, KeyOf, Prioritised, Problem;
    KeyOfOne(windows[0], 0, rows, words);
    KeyOfOne(windows[1], 1, rows, words);
    SortedIsUnchanged(keyed, KeyedLe);
    PrioritisedAre(windows, rows, words, keyed);
  }

  lemma {:induction false} TwinCounts(queue: seq<Group>)
    requires queue == [Twin(0), Twin(1)]
    ensures forall i :: 0 <= i < |queue| ==> !OverBudget(Crops(queue[..i]), queue[i])
    ensures Crops(queue) == [Crop(10.5, 10.0, false), Crop(10.5, 10.0, false)]
  {
    assert queue[..0] == [];
    assert TotalSeconds(Crops(queue[..0])) == 0.0;
    CropCounts(queue, 0);
    hide TotalSeconds, AudioDecoded;
  }

  /** Windows that end before they start do not join, so two rows located alike have their window decoded twice. */
  lemma {:induction false} SameWindowTwice(raw: string, phrases: seq<Span>, st: Progress)
    ensures var (first, job) := StartOf(TwinRows(raw), [TWIN_WORD], phrases, Some(10.0), Silent, Never);
            && first.queue == [Twin(0), Twin(1)]
            && (Reaches(first, st, |st.queue|, job) <==>
                  st == Progress(first.queue, map[], [Crop(10.5, 10.0, false), Crop(10.5, 10.0, false)]))
  {
    hide StartOf, Lone, OwnGroups, Plannable, Scattered, Prioritised, Reaches, OverBudget, Crops, TotalSeconds,
        AudioDecoded, Served,
         TwinRows;
    var rows := TwinRows(raw);
    TwinLone(raw);
    TwinWindows(raw);
    var windows := OwnGroups(rows, Span(20.0, 21.0), 10.0, 2);
    LoneStart(rows, TWIN_WORD, phrases, 10.0, windows);
    TwinQueue(raw, windows);
    var (first, job) := StartOf(rows, [TWIN_WORD], phrases, Some(10.0), Silent, Never);
    TwinCounts(first.queue);
    SilentEnd(first, st, job);
  }
}
