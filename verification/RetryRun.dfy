/** One whole run of the retry scheduler. */
module RetryRun {
  import opened Options
  import opened StableSort
  import opened AsrEvidence
  import opened RetryPlan
  import opened RetryScheduler
  import opened RetryQueue
  import opened RetryBudget

  /** What decoding crop number `n` gives: its words, in crop time, or a failure. */
  type Decoder = nat -> Option<seq<Word>>

  /** Whether the wall clock is exhausted when queue entry number `k` comes up. */
  type Clock = nat -> bool

  /** The queue, the recovered lines and the crops decoded so far. */
  datatype Progress = Progress(queue: seq<Group>, recovered: Recoveries, crops: seq<Crop>)

  datatype Job = Job(rows: seq<Row>, bounds: Bounds, phrases: seq<Span>, duration: Option<real>, decode: Decoder,
                     late: Clock)

  predicate Skips(st: Progress, k: nat, job: Job)
    requires k < |st.queue|
  {
    OverBudget(st.crops, st.queue[k]) || job.late(k)
  }

  /** The alternate a primary adds when rows failed for lack of confidence alone and the wider window is new. */
  function Added(g: Group, failures: seq<nat>, queue: seq<Group>, job: Job): seq<Group> {
    if g.alternate || failures == [] then []
    else
      var plan := Alternate(g.start, g.end, job.phrases, job.duration);
      if plan.Wider? && (plan.span.start, plan.span.end) !in WindowsOf(queue)
      then [Group(plan.span.start, plan.span.end, failures, true)] else []
  }

  /** Queue entry `k`: skipped when a budget is used up, else decoded once and searched for its rows. */
  ghost function Handle(st: Progress, k: nat, job: Job): Progress
    requires k < |st.queue| && ServedBy(st.queue[k], job.rows, job.bounds)
  {
    if Skips(st, k, job) then st
    else
      var g, words := st.queue[k], job.decode(|st.crops|);
      var (recovered, failures) := if words.None? then (st.recovered, [])
                                   else GroupSearch(job.rows, g, words.value, job.bounds, st.recovered, |g.indices|);
      Progress(st.queue + Added(g, failures, st.queue, job), recovered, st.crops + [CropOf(g)])
  }

  /** A primary whose rows failed for lack of confidence alone adds its alternate, if there is one and its window is
      new. */
  ghost predicate QueueAfter(queue: seq<Group>, g: Group, failed: seq<nat>, job: Job, after: seq<Group>) {
    var plan := Alternate(g.start, g.end, job.phrases, job.duration);
    if !g.alternate && failed != [] && plan.Wider?
       && forall j :: 0 <= j < |queue| ==> queue[j].start != plan.span.start || queue[j].end != plan.span.end
    then after == queue + [Group(plan.span.start, plan.span.end, failed, true)]
    else after == queue
  }

  /** The rows of the group are searched in the words; without a decode nothing is found. */
  ghost predicate Listened(g: Group, words: Option<seq<Word>>, job: Job, before: Recoveries, after: Recoveries,
                           failed: seq<nat>) {
    if words.None? then failed == [] && after == before
    else exists steps, ks :: SearchedFrom(g, words.value, job, before, after, failed, steps, ks)
  }

  ghost predicate SearchedFrom(g: Group, words: seq<Word>, job: Job, before: Recoveries, after: Recoveries,
                               failed: seq<nat>, steps: seq<Recoveries>, ks: seq<nat>) {
    && |steps| == |g.indices| + 1 && steps[0] == before && steps[|g.indices|] == after
    && GroupSearched(job.rows, g, words, job.bounds, steps, failed, ks)
  }

  /** Queue entry `k`, told from the state: passed over when 12 crops are decoded, or a minute would be exceeded, or
      time has run out; else decoded, its rows searched, and an alternate added where one is due. */
  ghost predicate EntryHandled(st: Progress, k: nat, job: Job, after: Progress)
    requires k < |st.queue|
  {
    var g := st.queue[k];
    if |st.crops| >= 12 || TotalSeconds(st.crops) + (g.end - g.start) > 60.0 || job.late(k) then after == st
    else
      && after.crops == st.crops + [Crop(g.start, g.end, g.alternate)]
      && exists failed ::
           && Listened(g, job.decode(|st.crops|), job, st.recovered, after.recovered, failed)
           && QueueAfter(st.queue, g, failed, job, after.queue)
  }

  lemma {:induction false} AddedIsDue(queue: seq<Group>, g: Group, failed: seq<nat>, job: Job)
    ensures QueueAfter(queue, g, failed, job, queue + Added(g, failed, queue, job))
  {
    hide Alternate;
    assert queue + [] == queue;
    var plan := Alternate(g.start, g.end, job.phrases, job.duration);
    if plan.Wider? {
      assert (plan.span.start, plan.span.end) in WindowsOf(queue)
             <==> exists j :: 0 <= j < |queue| && queue[j].start == plan.span.start && queue[j].end == plan.span.end;
    }
  }

  lemma {:induction false} HandleIsHandled(st: Progress, k: nat, job: Job)
    requires k < |st.queue| && ServedBy(st.queue[k], job.rows, job.bounds)
    ensures EntryHandled(st, k, job, Handle(st, k, job))
  {
    hide Added, GroupSearch, QueueAfter, GroupSearched, ServedBy, TotalSeconds;
    if !Skips(st, k, job) {
      var g, words := st.queue[k], job.decode(|st.crops|);
      var found := if words.None? then (st.recovered, [])
                   else GroupSearch(job.rows, g, words.value, job.bounds, st.recovered, |g.indices|);
      if words.Some? {
        var steps, ks := GroupSearchIsSearched(job.rows, g, words.value, job.bounds, st.recovered, |g.indices|);
        assert SearchedFrom(g, words.value, job, st.recovered, found.0, found.1, steps, ks);
      }
      assert Listened(g, words, job, st.recovered, found.0, found.1);
      AddedIsDue(st.queue, g, found.1, job);
    }
  }

  /** A run, entry by entry. */
  ghost predicate RunsThrough(first: Progress, states: seq<Progress>, job: Job) {
    && states != [] && states[0] == first
    && forall k :: 0 <= k < |states| - 1 ==>
         k < |states[k].queue| && EntryHandled(states[k], k, job, states[k + 1])
  }

  lemma {:induction false} ReachesThrough(first: Progress, st: Progress, k: nat, job: Job)
      returns (states: seq<Progress>)
    requires Reaches(first, st, k, job)
    ensures |states| == k + 1 && states[k] == st && RunsThrough(first, states, job)
    decreases k
  {
    hide Handle, EntryHandled, ServedBy;
    if k == 0 {
      states := [st];
    } else {
      var before :| Reaches(first, before, k - 1, job) && k - 1 < |before.queue|
                    && ServedBy(before.queue[k - 1], job.rows, job.bounds) && st == Handle(before, k - 1, job);
      hide Reaches;
      var earlier := ReachesThrough(first, before, k - 1, job);
      HandleIsHandled(before, k - 1, job);
      states := earlier + [st];
    }
  }

  /** The run from its first state through the first `k` queue entries. */
  ghost predicate Reaches(first: Progress, st: Progress, k: nat, job: Job)
    decreases k
  {
    if k == 0 then st == first
    else
      exists before ::
        && Reaches(first, before, k - 1, job)
        && k - 1 < |before.queue| && ServedBy(before.queue[k - 1], job.rows, job.bounds)
        && st == Handle(before, k - 1, job)
  }

  /** Every entry before `k` was decoded, or a budget is too small for it, or time had run out. */
  ghost predicate Tried(st: Progress, places: seq<nat>, k: nat, job: Job) {
    forall i :: 0 <= i < k && i < |st.queue| ==> i in places || Skips(st, i, job)
  }

  /** What every step of the run keeps; the first `n` entries are the primaries. */
  ghost predicate RunOk(st: Progress, known: Recoveries, places: seq<nat>, n: nat, k: nat, job: Job) {
    && k <= |st.queue| && Queued(st.queue, n, job.duration, job.rows, job.bounds)
    && InOrder(st.recovered) && Genuine(st.recovered, job.rows) && Placed(known, st.recovered, job.bounds)
    && DecodedFrom(st.crops, places, st.queue, k) && (AllForward(st.crops) ==> Tried(st, places, k, job))
    && Paid(st.crops, st.queue, n, k, job.late) && Wrapped(st.queue, n, st.crops)
    && |st.crops| <= MAX_CROPS && TotalSeconds(st.crops) <= MAX_AUDIO_SECONDS
    && |st.queue| - n <= Primaries(st.crops) <= n && Primaries(st.crops) <= k
    && |st.crops| - Primaries(st.crops) <= if k < n then 0 else k - n
  }

  lemma {:induction false} RunStarts(first: Progress, job: Job)
    requires Queued(first.queue, |first.queue|, job.duration, job.rows, job.bounds)
    requires InOrder(first.recovered) && Genuine(first.recovered, job.rows) && first.crops == []
    ensures RunOk(first, first.recovered, [], |first.queue|, 0, job) && Reaches(first, first, 0, job)
    ensures TotalSeconds(first.crops) == 0.0
  {
    KnownIsPlaced(first.recovered, job.bounds);
    hide Queued, InOrder, Genuine, Placed;
  }

  lemma {:induction false} EntryFacts(st: Progress, n: nat, k: nat, job: Job)
    requires Queued(st.queue, n, job.duration, job.rows, job.bounds) && k < |st.queue|
    ensures Sound(st.queue[k], job.duration, false) && ServedBy(st.queue[k], job.rows, job.bounds)
    ensures st.queue[k].alternate <==> k >= n
  {
  }

  /** A budget too small for an entry stays too small for it. */
  lemma {:induction false} TriedStays(st: Progress, next: Progress, places: seq<nat>, more: seq<nat>, k: nat, job: Job)
    requires Tried(st, places, k, job) && k <= |st.queue|
    requires st.queue <= next.queue && (forall i :: i in places ==> i in more)
    requires |st.crops| <= |next.crops| && TotalSeconds(st.crops) <= TotalSeconds(next.crops)
    ensures Tried(next, more, k, job)
  {
    hide TotalSeconds;
    forall i | 0 <= i < k && i < |next.queue| ensures i in more || Skips(next, i, job) {
      assert next.queue[i] == st.queue[i];
    }
  }

  /** The queue gains an alternate only behind a primary, which it contains, and a legal one. */
  lemma {:induction false} AddedKeepsQueue(queue: seq<Group>, n: nat, k: nat, failures: seq<nat>, job: Job)
    requires Queued(queue, n, job.duration, job.rows, job.bounds) && k < |queue|
    requires forall i :: i in failures ==> i in queue[k].indices
    ensures var added := Added(queue[k], failures, queue, job);
            && Queued(queue + added, n, job.duration, job.rows, job.bounds)
            && |added| <= (if k < n then 1 else 0)
            && forall a :: 0 <= a < |added| ==> added[a].start <= queue[k].start && queue[k].end <= added[a].end
  {
    var g, added := queue[k], Added(queue[k], failures, queue, job);
    EntryFacts(Progress(queue, map[], []), n, k, job);
    if added == [] {
      assert queue + added == queue;
    } else {
      AlternateIsWider(g.start, g.end, job.phrases, job.duration);
      hide Queued, Alternate;
      AppendKeepsQueue(queue, n, added[0], job.duration, job.rows, job.bounds);
    }
  }

  /** What is added behind entry `k` contains the crop of that entry. */
  lemma {:induction false} AddedIsWrapped(queue: seq<Group>, n: nat, k: nat, added: seq<Group>, crops: seq<Crop>)
    requires Wrapped(queue, n, crops) && k < |queue| && (added != [] ==> !queue[k].alternate)
    requires forall a :: 0 <= a < |added| ==> added[a].start <= queue[k].start && queue[k].end <= added[a].end
    ensures Wrapped(queue + added, n, crops + [CropOf(queue[k])])
  {
    var more := crops + [CropOf(queue[k])];
    forall j | n <= j < |queue + added| ensures Wraps((queue + added)[j], more) {
      if j < |queue| {
        assert Wraps(queue[j], crops);
        WrapsMore(queue[j], crops, CropOf(queue[k]));
      } else {
        assert (queue + added)[j] == added[j - |queue|];
        assert more[|crops|] == CropOf(queue[k]);
      }
    }
  }

  lemma {:induction false} PaysNext(st: Progress, n: nat, k: nat, added: seq<Group>, job: Job)
    requires Queued(st.queue, n, job.duration, job.rows, job.bounds) && k < |st.queue| && (k >= n ==> added == [])
    requires Paid(st.crops, st.queue, n, k, job.late)
    ensures Skips(st, k, job) ==> Paid(st.crops, st.queue, n, k + 1, job.late)
    ensures !Skips(st, k, job) ==> Paid(st.crops + [CropOf(st.queue[k])], st.queue + added, n, k + 1, job.late)
  {
    hide OverBudget, AllSound, Served;
    AffordedStays(st.queue, added, if k + 1 < n then k + 1 else n, job.late);
    if k < n {
      assert Afforded(st.queue, k + 1, job.late)
             == if Skips(st, k, job) then st.crops else st.crops + [CropOf(st.queue[k])];
    }
    hide Afforded;
  }

  lemma {:induction false} HandleKeeps(st: Progress, known: Recoveries, places: seq<nat>, n: nat, k: nat, job: Job)
    requires RunOk(st, known, places, n, k, job) && k < |st.queue|
    ensures ServedBy(st.queue[k], job.rows, job.bounds)
    ensures RunOk(Handle(st, k, job), known, if Skips(st, k, job) then places else places + [k], n, k + 1, job)
    ensures st.recovered.Keys <= Handle(st, k, job).recovered.Keys
  {
    hide Queued, InOrder, Genuine, Placed, TotalSeconds, Primaries, Added, GroupSearch, Sound, Tried, ServedBy,
        DecodedFrom, Reaches,
         Paid, Wrapped, AllForward;
    EntryFacts(st, n, k, job);
    var next := Handle(st, k, job);
    if Skips(st, k, job) {
      SkipEntry(st, places, k, job);
      PaysNext(st, n, k, [], job);
    } else {
      var g, words := st.queue[k], job.decode(|st.crops|);
      DecodeNext(st.crops, places, st.queue, k);
      var failures: seq<nat> := [];
      if words.Some? {
        GroupSearchIsSound(job.rows, g, words.value, job.bounds, known, st.recovered, |g.indices|);
        failures := GroupSearch(job.rows, g, words.value, job.bounds, st.recovered, |g.indices|).1;
      }
      var added := Added(g, failures, st.queue, job);
      AddedKeepsQueue(st.queue, n, k, failures, job);
      DecodedLonger(next.crops, places + [k], st.queue, k + 1, added);
      AddedIsWrapped(st.queue, n, k, added, st.crops);
      PaysNext(st, n, k, added, job);
      ForwardBefore(st.crops, g);
      if AllForward(next.crops) {
        TriedStays(st, next, places, places + [k], k, job);
        TriedNext(next, places + [k], k, job);
      }
    }
  }

  lemma {:induction false} ForwardBefore(crops: seq<Crop>, g: Group)
    ensures AllForward(crops + [CropOf(g)]) ==> AllForward(crops) && g.start <= g.end
  {
    var more := crops + [CropOf(g)];
    if AllForward(more) {
      assert RunsForward(more[|crops|]);
      forall c | 0 <= c < |crops| ensures RunsForward(crops[c]) {
        assert RunsForward(more[c]);
      }
    }
  }

  lemma {:induction false} TriedNext(st: Progress, places: seq<nat>, k: nat, job: Job)
    requires Tried(st, places, k, job) && k < |st.queue| && (k in places || Skips(st, k, job))
    ensures Tried(st, places, k + 1, job)
  {
  }

  lemma {:induction false} SkipEntry(st: Progress, places: seq<nat>, k: nat, job: Job)
    requires k < |st.queue| && Skips(st, k, job)
    requires DecodedFrom(st.crops, places, st.queue, k) && (AllForward(st.crops) ==> Tried(st, places, k, job))
    ensures DecodedFrom(st.crops, places, st.queue, k + 1) && (AllForward(st.crops) ==> Tried(st, places, k + 1, job))
  {
  }

  lemma {:induction false} DecodedLonger(crops: seq<Crop>, places: seq<nat>, queue: seq<Group>, k: nat,
                                         added: seq<Group>)
    requires DecodedFrom(crops, places, queue, k)
    ensures DecodedFrom(crops, places, queue + added, k)
  {
    forall c | 0 <= c < |crops| ensures (queue + added)[places[c]] == queue[places[c]] {
    }
  }

  lemma {:induction false} ReachesNext(first: Progress, st: Progress, k: nat, job: Job)
    requires Reaches(first, st, k, job) && k < |st.queue| && ServedBy(st.queue[k], job.rows, job.bounds)
    ensures Reaches(first, Handle(st, k, job), k + 1, job)
  {
  }

  /** What a run spends on crops, given the primaries it can afford: its counter of seconds is the audio decoded if
      and only if none of them ends before it starts, and then the counter's limit bounds the audio; every crop has
      audio if and only if each of them has; no window is decoded twice unless two primaries share one. */
  ghost predicate Spends(crops: seq<Crop>, primaries: seq<Group>, late: Clock) {
    var paid := Afforded(primaries, |primaries|, late);
    && (AllForward(crops) <==> AllForward(paid))
    && (TotalSeconds(crops) == AudioDecoded(crops) <==> AllForward(paid))
    && (AllForward(paid) ==> AudioDecoded(crops) <= MAX_AUDIO_SECONDS)
    && (AllAudible(crops) <==> AllAudible(paid))
    && (DistinctWindows(primaries) ==> DistinctCrops(crops))
  }

  lemma {:induction false} SkipRule(st: Progress, k: nat, job: Job)
    requires k < |st.queue| && ServedBy(st.queue[k], job.rows, job.bounds)
    ensures var g := st.queue[k];
            Skips(st, k, job) <==>
              || |st.crops| >= MAX_CROPS || TotalSeconds(st.crops) + (g.end - g.start) > MAX_AUDIO_SECONDS
              || job.late(k)
    ensures Skips(st, k, job) ==> Handle(st, k, job) == st
  {
    hide TotalSeconds, Added, GroupSearch, ServedBy;
  }

  /** Reads the queue to its end while alternates are appended behind the primaries.  The result is the state the
      entry-by-entry description reaches.  If no crop ends before it starts, an entry is passed over only for want of
      budget or time. */
  method RunQueue(primaries: seq<Group>, known: Recoveries, job: Job)
    returns (recovered: Recoveries, crops: seq<Crop>, audioSeconds: real, ghost queue: seq<Group>,
             ghost places: seq<nat>)
    requires Queued(primaries, |primaries|, job.duration, job.rows, job.bounds)
    requires InOrder(known) && Genuine(known, job.rows)
    ensures Reaches(Progress(primaries, known, []), Progress(queue, recovered, crops), |queue|, job)
    ensures RunOk(Progress(queue, recovered, crops), known, places, |primaries|, |queue|, job)
    ensures known.Keys <= recovered.Keys && primaries <= queue
    ensures WithinBudget(crops, job.duration) && audioSeconds == TotalSeconds(crops)
    ensures Spends(crops, primaries, job.late)
    ensures exists states ::
              && |states| == |queue| + 1 && states[|queue|] == Progress(queue, recovered, crops)
              && RunsThrough(Progress(primaries, known, []), states, job)
  {
    hide *;
    recovered, crops, audioSeconds := known, [], 0.0;
    var pending, planned := primaries, WindowsOf(primaries);
    var n := |primaries|;
    places := [];
    ghost var first := Progress(primaries, known, []);
    RunStarts(first, job);
    var k := 0;
    while k < |pending|
      invariant k <= |pending| && n <= |pending| && primaries <= pending && planned == WindowsOf(pending)
      invariant Reaches(first, Progress(pending, recovered, crops), k, job)
      invariant RunOk(Progress(pending, recovered, crops), known, places, n, k, job) && known.Keys <= recovered.Keys
      invariant audioSeconds == TotalSeconds(crops)
      decreases if k < n then n - k else 0, |pending| - k
    {
      ghost var st := Progress(pending, recovered, crops);
      RunOkParts(st, known, places, n, k, job);
      HandleKeeps(st, known, places, n, k, job);
      ReachesNext(first, st, k, job);
      SkipRule(st, k, job);
      var g := pending[k];
      var seconds := g.end - g.start;
      if |crops| >= MAX_CROPS || audioSeconds + seconds > MAX_AUDIO_SECONDS || job.late(k) {
        k := k + 1;
        continue;
      }
      pending, planned, recovered := DecodeEntry(pending, planned, recovered, crops, k, job);
      DecodeNext(crops, places, st.queue, k);
      crops, audioSeconds, places := crops + [CropOf(g)], audioSeconds + seconds, places + [k];
      k := k + 1;
    }
    queue := pending;
    RunIsWithinBudget(Progress(queue, recovered, crops), known, places, primaries, job);
    ghost var states := ReachesThrough(first, Progress(queue, recovered, crops), |queue|, job);
  }

  /** One decode of an affordable entry: its rows are searched and its alternate is appended. */
  method DecodeEntry(pending: seq<Group>, planned: set<(real, real)>, known: Recoveries, crops: seq<Crop>, k: nat,
                     job: Job)
    returns (more: seq<Group>, morePlanned: set<(real, real)>, recovered: Recoveries)
    requires k < |pending| && planned == WindowsOf(pending) && InOrder(known) && Genuine(known, job.rows)
    requires ServedBy(pending[k], job.rows, job.bounds) && !Skips(Progress(pending, known, crops), k, job)
    ensures Progress(more, recovered, crops + [CropOf(pending[k])]) == Handle(Progress(pending, known, crops), k, job)
    ensures morePlanned == WindowsOf(more) && pending <= more && (pending[k].alternate ==> more == pending)
  {
    hide InOrder, Genuine, GroupSearch, ServedBy, WindowsOf, Added, GroupSearched, Skips, Handle;
    var g, words := pending[k], job.decode(|crops|);
    var failures: seq<nat> := [];
    recovered := known;
    if words.Some? {
      ghost var steps, ks;
      recovered, failures, steps, ks := SearchGroup(job.rows, g, words.value, job.bounds, known);
    }
    more, morePlanned := AppendAlternate(pending, planned, g, failures, job);
    HandleDecodes(Progress(pending, known, crops), k, job);
  }

  /** A primary's rows that failed for lack of confidence alone get one wider window, unless it is planned already. */
  method AppendAlternate(queue: seq<Group>, planned: set<(real, real)>, g: Group, failures: seq<nat>, job: Job)
    returns (more: seq<Group>, morePlanned: set<(real, real)>)
    requires planned == WindowsOf(queue)
    ensures more == queue + Added(g, failures, queue, job) && morePlanned == WindowsOf(more)
    ensures g.alternate ==> more == queue
  {
    hide WindowsOf, Alternate;
    more, morePlanned := queue, planned;
    assert queue + [] == queue;
    if !g.alternate && failures != [] {
      var plan := AlternateWindow(g.start, g.end, job.phrases, job.duration);
      if plan.Wider? && (plan.span.start, plan.span.end) !in planned {
        var wider := Group(plan.span.start, plan.span.end, failures, true);
        WindowsOfMore(queue, wider);
        more, morePlanned := queue + [wider], planned + {(plan.span.start, plan.span.end)};
      }
    }
  }

  /** `Handle` on an entry that is not skipped, written out. */
  lemma {:induction false} HandleDecodes(st: Progress, k: nat, job: Job)
    requires k < |st.queue| && ServedBy(st.queue[k], job.rows, job.bounds) && !Skips(st, k, job)
    ensures var g, words := st.queue[k], job.decode(|st.crops|);
            var found := if words.None? then (st.recovered, [])
                else GroupSearch(job.rows, g, words.value, job.bounds, st.recovered, |g.indices|);
            Handle(st, k, job) == Progress(st.queue + Added(g, found.1, st.queue, job), found.0, st.crops + [CropOf(g)])
  {
    hide Added, GroupSearch;
  }

  lemma {:induction false} RunOkParts(st: Progress, known: Recoveries, places: seq<nat>, n: nat, k: nat, job: Job)
    requires RunOk(st, known, places, n, k, job) && k < |st.queue|
    ensures InOrder(st.recovered) && Genuine(st.recovered, job.rows) && DecodedFrom(st.crops, places, st.queue, k)
    ensures ServedBy(st.queue[k], job.rows, job.bounds) && (st.queue[k].alternate <==> k >= n)
  {
    hide InOrder, Genuine, DecodedFrom;
  }

  lemma {:induction false} RunOkOrder(st: Progress, known: Recoveries, places: seq<nat>, n: nat, k: nat, job: Job)
    requires RunOk(st, known, places, n, k, job)
    ensures InOrder(st.recovered) && Genuine(st.recovered, job.rows) && Placed(known, st.recovered, job.bounds)
  {
    hide InOrder, Genuine, Placed;
  }

  lemma {:induction false} WindowsOfMore(queue: seq<Group>, g: Group)
    ensures WindowsOf(queue + [g]) == WindowsOf(queue) + {(g.start, g.end)}
  {
    var after := queue + [g];
    assert after[|queue|] == g;
    forall p ensures p in WindowsOf(after) <==> p in WindowsOf(queue) + {(g.start, g.end)} {
      if p in WindowsOf(queue) {
        var k :| 0 <= k < |queue| && p == (queue[k].start, queue[k].end);
        assert after[k] == queue[k];
      }
      if p in WindowsOf(after) {
        var k :| 0 <= k < |after| && p == (after[k].start, after[k].end);
        assert k < |queue| ==> after[k] == queue[k];
      }
    }
  }

  lemma {:induction false} RunIsWithinBudget(st: Progress, known: Recoveries, places: seq<nat>, primaries: seq<Group>,
                                             job: Job)
    requires RunOk(st, known, places, |primaries|, |st.queue|, job) && primaries <= st.queue
    ensures WithinBudget(st.crops, job.duration) && Spends(st.crops, primaries, job.late)
  {
    hide Queued, DecodedFrom, Paid, Wrapped, Tried, WithinBudget, TotalSeconds, AudioDecoded, Primaries, AllForward,
        AllAudible,
         InOrder, Genuine, Placed, DistinctCrops, DistinctWindows, Afforded;
    var n := |primaries|;
    assert st.queue == primaries + st.queue[n..];
    AffordedStays(primaries, st.queue[n..], n, job.late);
    assert st.queue[..n] == primaries;
    BudgetKept(st.crops, places, st.queue, n, |st.queue|, job.duration, job.rows, job.bounds);
    CounterIsAudioExactly(st.crops, places, st.queue, n, |st.queue|, job.late, job.duration, job.rows, job.bounds);
  }

  // ---- the output ----

  datatype Shown = Recovered(index: nat, words: seq<Word>) | Original(raw: string)

  /** The rows that reach the output among the first `n`. */
  function Survivors(rows: seq<Row>, recovered: Recoveries, n: nat): seq<nat>
    requires n <= |rows|
  {
    if n == 0 then []
    else Survivors(rows, recovered, n - 1) + if (n - 1) in recovered || rows[n - 1].kept then [n - 1] else []
  }

  predicate Survives(rows: seq<Row>, recovered: Recoveries, i: nat)
    requires i < |rows|
  {
    i in recovered || rows[i].kept
  }

  /** Exactly the kept and recovered rows among the first `n`, each once, in row order. */
  ghost predicate ExactlyKept(s: seq<nat>, rows: seq<Row>, recovered: Recoveries, n: nat)
    requires n <= |rows|
  {
    && (forall k :: 0 <= k < |s| ==> s[k] < n && Survives(rows, recovered, s[k]))
    && (forall j, k :: 0 <= j < k < |s| ==> s[j] < s[k])
    && (forall i: nat :: i < n && Survives(rows, recovered, i) ==> i in s)
  }

  lemma {:induction false} KeptNext(s: seq<nat>, rows: seq<Row>, recovered: Recoveries, n: nat)
    requires n < |rows| && ExactlyKept(s, rows, recovered, n)
    ensures ExactlyKept(if Survives(rows, recovered, n) then s + [n] else s, rows, recovered, n + 1)
  {
    hide Survives;
    forall i: nat | i < n + 1 && Survives(rows, recovered, i)
      ensures i in if Survives(rows, recovered, n) then s + [n] else s
    {
      assert i < n ==> i in s;
    }
  }

  /** Exactly the kept and recovered rows reach the output, each once, in row order. */
  lemma {:induction false} SurvivorsAreExact(rows: seq<Row>, recovered: Recoveries, n: nat)
    requires n <= |rows|
    ensures ExactlyKept(Survivors(rows, recovered, n), rows, recovered, n)
  {
    hide *;
    SurvivorsNext(rows, recovered, n);
    if n > 0 {
      SurvivorsAreExact(rows, recovered, n - 1);
      KeptNext(Survivors(rows, recovered, n - 1), rows, recovered, n - 1);
    } else {
      NoneKept(rows, recovered);
    }
  }

  lemma {:induction false} NoneKept(rows: seq<Row>, recovered: Recoveries)
    ensures ExactlyKept([], rows, recovered, 0)
  {
  }

  lemma {:induction false} SurvivorsNext(rows: seq<Row>, recovered: Recoveries, n: nat)
    requires n <= |rows|
    ensures n == 0 ==> Survivors(rows, recovered, n) == []
    ensures n > 0 ==>
              var before := Survivors(rows, recovered, n - 1);
              Survivors(rows, recovered, n) == if Survives(rows, recovered, n - 1) then before + [n - 1] else before
  {
    if n > 0 {
      assert Survivors(rows, recovered, n - 1) + [] == Survivors(rows, recovered, n - 1);
    }
  }

  /** One line and one score for each survivor: its recovered words without a score, or its own text and score. */
  ghost predicate Renders(rows: seq<Row>, recovered: Recoveries, n: nat, lines: seq<Shown>, scores: seq<Option<real>>)
    requires n <= |rows|
  {
    var s := Survivors(rows, recovered, n);
    && |lines| == |scores| == |s|
    && forall k :: 0 <= k < |s| ==>
         && s[k] < |rows|
         && (s[k] in recovered ==> lines[k] == Recovered(s[k], recovered[s[k]].words) && scores[k] == None)
         && (s[k] !in recovered ==> lines[k] == Original(rows[s[k]].raw) && scores[k] == rows[s[k]].score)
  }

  method Render(rows: seq<Row>, recovered: Recoveries) returns (lines: seq<Shown>, scores: seq<Option<real>>)
    ensures Renders(rows, recovered, |rows|, lines, scores)
  {
    lines, scores := [], [];
    for i := 0 to |rows|
      invariant Renders(rows, recovered, i, lines, scores)
    {
      if i in recovered {
        lines := lines + [Recovered(i, recovered[i].words)];
        scores := scores + [None];
      } else if rows[i].kept {
        lines := lines + [Original(rows[i].raw)];
        scores := scores + [rows[i].score];
      }
    }
  }

  datatype Result = Untouched | Rebuilt(lines: seq<Shown>, scores: seq<Option<real>>)

  /** The queue planned for the pending rows: their windows by start, merged, by priority. */
  ghost function QueueFor(planned: Planned, rows: seq<Row>, words: seq<Word>): seq<Group>
    requires Served(planned.windows, rows, planned.bounds)
  {
    var sorted := Sort(planned.windows, StartsNoLater);
    var groups := Merged(sorted, |sorted|);
    if forall k, i :: 0 <= k < |groups| && i in groups[k].indices ==> i < |rows|
    then Prioritised(groups, rows, words) else []
  }

  /** Plan, sort by start, merge, and order by priority: the queue serves only problem rows and loses none of the
      planned windows; with all anchors inside the audio it holds no window twice. */
  method PlanQueue(rows: seq<Row>, words: seq<Word>, anchors: Anchors, pending: seq<nat>, duration: Option<real>,
                   ghost calm: bool)
    returns (queue: seq<Group>, bounds: Bounds, ghost groups: seq<Group>)
    requires duration.Some? ==> duration.value > 0.0
    requires Proper(anchors) && (calm ==> AnchorsInside(anchors, duration))
    requires forall k :: 0 <= k < |pending| ==> pending[k] < |rows| && Problem(rows[pending[k]])
    ensures var planned := PlannedFor(pending, |pending|, rows, anchors, words, duration);
            && Served(planned.windows, rows, planned.bounds)
            && queue == QueueFor(planned, rows, words) && bounds == planned.bounds
    ensures Queued(queue, |queue|, duration, rows, bounds) && (calm ==> AllLong(queue) && DistinctWindows(queue))
    ensures forall k, i :: 0 <= k < |queue| && i in queue[k].indices ==> i < |rows|
    ensures ByPriority(queue, rows, words) && multiset(queue) == multiset(groups)
    ensures Grouped(PlannedFor(pending, |pending|, rows, anchors, words, duration).windows, groups)
    ensures AnchoredBounds(bounds, anchors, |rows|, duration)
  {
    PlannedForIsSound(pending, |pending|, rows, anchors, words, duration, calm);
    var windows;
    ghost var served, ks;
    windows, bounds, served, ks := PlanWindows(pending, rows, anchors, words, duration);
    QueueForIsSound(Planned(windows, bounds), rows, words, duration, calm);
    hide *;
    SortedGrouped(windows, rows, bounds, duration, calm);
    var merged := MergeWindows(Sort(windows, StartsNoLater));
    groups := merged;
    PrioritisedInOrder(merged, rows, words);
    queue := Prioritised(merged, rows, words);
  }

  /** Sorted windows are grouped as they stand. */
  lemma {:induction false} SortedGrouped(windows: seq<Group>, rows: seq<Row>, bounds: Bounds, duration: Option<real>,
                                         calm: bool)
    requires AllSound(windows, duration, calm) && Served(windows, rows, bounds)
    requires forall k :: 0 <= k < |windows| ==> !windows[k].alternate
    ensures var sorted := Sort(windows, StartsNoLater); Grouped(windows, Merged(sorted, |sorted|))
  {
    hide Sort, Sorted, Merged, AllSound, Served, Exhausted, Indices, NoneBackward, AllFilled, Covered;
    var sorted := Sort(windows, StartsNoLater);
    var groups := Merged(sorted, |sorted|);
    StartsNoLaterIsTotal();
    SortSorted(windows, StartsNoLater);
    SameGroups(windows, sorted, duration, rows, bounds, calm);
    MergedIsSound(sorted, |sorted|, duration, calm);
    assert sorted[..|sorted|] == sorted;
    SortKeepsIndices(windows);
    MergedIsExhausted(sorted, |sorted|);
    forall k | 0 <= k < |windows| ensures Covered(windows[k], groups) {
      assert windows[k] in multiset(windows);
      assert windows[k] in multiset(sorted);
      var j :| 0 <= j < |sorted| && sorted[j] == windows[k];
      assert Covered(sorted[j], groups);
    }
    if NoneBackward(windows) {
      SameForward(windows, sorted);
      MergedIsFilled(sorted, |sorted|);
      SameFilled(windows, sorted, groups);
    }
  }

  lemma {:induction false} SameForward(windows: seq<Group>, sorted: seq<Group>)
    requires multiset(sorted) == multiset(windows) && NoneBackward(windows)
    ensures NoneBackward(sorted)
  {
    forall k | 0 <= k < |sorted| ensures sorted[k].start <= sorted[k].end {
      assert sorted[k] in multiset(sorted);
      assert sorted[k] in windows;
    }
  }

  lemma {:induction false} SameFilled(windows: seq<Group>, sorted: seq<Group>, groups: seq<Group>)
    requires multiset(sorted) == multiset(windows) && AllFilled(sorted, |sorted|, groups)
    ensures AllFilled(windows, |windows|, groups)
  {
    forall k | 0 <= k < |groups| ensures Filled(windows, |windows|, groups[k]) {
      assert Filled(sorted, |sorted|, groups[k]);
      forall t | Spans(groups[k], t) ensures Fills(windows, |windows|, groups[k], t) {
        assert Fills(sorted, |sorted|, groups[k], t);
        var j :| 0 <= j < |sorted| && Within(sorted[j], groups[k]) && sorted[j].start <= t <= sorted[j].end;
        assert sorted[j] in multiset(sorted);
        assert sorted[j] in windows;
        var i :| 0 <= i < |windows| && windows[i] == sorted[j];
        assert Within(windows[i], groups[k]);
      }
    }
  }

  lemma {:induction false} IndicesConcat(x: seq<Group>, y: seq<Group>)
    ensures Indices(x + y) == Indices(x) + Indices(y)
  {
    if y == [] {
      assert x + y == x;
    } else {
      assert (x + y)[..|x + y| - 1] == x + y[..|y| - 1];
      IndicesConcat(x, y[..|y| - 1]);
    }
  }

  lemma {:induction false} InsertKeepsIndices(g: Group, s: seq<Group>)
    ensures multiset(Indices(Insert(g, s, StartsNoLater))) == multiset(g.indices) + multiset(Indices(s))
  {
    hide StartsNoLater, Indices;
    OneIndices(g);
    if s != [] && !StartsNoLater(g, s[0]) {
      InsertKeepsIndices(g, s[1..]);
      OneIndices(s[0]);
      IndicesConcat([s[0]], Insert(g, s[1..], StartsNoLater));
      IndicesConcat([s[0]], s[1..]);
      assert s == [s[0]] + s[1..];
    } else {
      IndicesConcat([g], s);
      assert s == [] ==> [g] + s == [g];
    }
  }

  lemma {:induction false} OneIndices(g: Group)
    ensures Indices([g]) == g.indices && Indices([]) == []
  {
    assert [g][..0] == [];
  }

  lemma {:induction false} SortKeepsIndices(windows: seq<Group>)
    ensures multiset(Indices(Sort(windows, StartsNoLater))) == multiset(Indices(windows))
  {
    hide StartsNoLater, Indices;
    if windows == [] {
    } else {
      SortKeepsIndices(windows[1..]);
      InsertKeepsIndices(windows[0], Sort(windows[1..], StartsNoLater));
      OneIndices(windows[0]);
      IndicesConcat([windows[0]], windows[1..]);
      assert windows == [windows[0]] + windows[1..];
    }
  }

  lemma {:induction false} QueueForIsSound(planned: Planned, rows: seq<Row>, words: seq<Word>, duration: Option<real>,
                                           calm: bool)
    requires AllSound(planned.windows, duration, calm) && Served(planned.windows, rows, planned.bounds)
    requires forall k :: 0 <= k < |planned.windows| ==> !planned.windows[k].alternate
    ensures var sorted := Sort(planned.windows, StartsNoLater);
            var groups := Merged(sorted, |sorted|);
            var queue := QueueFor(planned, rows, words);
            && (forall k, i :: 0 <= k < |groups| && i in groups[k].indices ==> i < |rows|)
            && queue == Prioritised(groups, rows, words)
            && Queued(queue, |queue|, duration, rows, planned.bounds)
            && (calm ==> AllLong(queue) && DistinctWindows(queue))
            && (forall k, i :: 0 <= k < |queue| && i in queue[k].indices ==> i < |rows|)
            && ByPriority(queue, rows, words)
  {
    var groups := Merged(Sort(planned.windows, StartsNoLater), |Sort(planned.windows, StartsNoLater)|);
    MergedGroups(planned, rows, duration, calm);
    hide Sort, Merged, Prioritised, ByPriority;
    assert forall k, i :: 0 <= k < |groups| && i in groups[k].indices ==> i < |rows| by {
      hide AllSound;
    }
    PrioritisedInOrder(groups, rows, words);
    QueueOfGroups(groups, Prioritised(groups, rows, words), duration, rows, planned.bounds, calm);
  }

  lemma {:induction false} MergedGroups(planned: Planned, rows: seq<Row>, duration: Option<real>, calm: bool)
    requires AllSound(planned.windows, duration, calm) && Served(planned.windows, rows, planned.bounds)
    requires forall k :: 0 <= k < |planned.windows| ==> !planned.windows[k].alternate
    ensures var sorted := Sort(planned.windows, StartsNoLater);
            var groups := Merged(sorted, |sorted|);
            Chain(groups, duration, calm) && Served(groups, rows, planned.bounds)
  {
    hide Sort, Sorted, Merged, Indices, AllSound, Served, Chain;
    var sorted := Sort(planned.windows, StartsNoLater);
    StartsNoLaterIsTotal();
    SortSorted(planned.windows, StartsNoLater);
    SameGroups(planned.windows, sorted, duration, rows, planned.bounds, calm);
    MergedIsSound(sorted, |sorted|, duration, calm);
    assert sorted[..|sorted|] == sorted;
    MergedIndices(sorted, Merged(sorted, |sorted|), rows, planned.bounds);
  }

  lemma {:induction false} QueueOfGroups(groups: seq<Group>, queue: seq<Group>, duration: Option<real>, rows: seq<Row>,
                                         bounds: Bounds, calm: bool)
    requires Chain(groups, duration, calm) && Served(groups, rows, bounds)
    requires forall k :: 0 <= k < |queue| ==> queue[k] in groups
    requires StrictStarts(groups) ==> DistinctWindows(queue)
    ensures Queued(queue, |queue|, duration, rows, bounds) && (calm ==> AllLong(queue) && DistinctWindows(queue))
  {
    hide StrictStarts, DistinctWindows, ServedBy;
    forall k | 0 <= k < |queue|
      ensures Sound(queue[k], duration, false) && ServedBy(queue[k], rows, bounds) && !queue[k].alternate
      ensures calm ==> queue[k].start < queue[k].end
    {
      var j :| 0 <= j < |groups| && groups[j] == queue[k];
    }
  }

  lemma {:induction false} MergedForward(windows: seq<Group>, n: nat)
    requires n <= |windows| && NoneBackward(windows)
    ensures NoneBackward(Merged(windows, n))
  {
    if n > 0 {
      MergedForward(windows, n - 1);
      var groups, w := Merged(windows, n - 1), windows[n - 1];
      WidenedForward(groups, w);
      hide Joins, Widened;
      assert Merged(windows, n) == if Joins(groups, w) then Widened(groups, w) else groups + [w];
      hide Merged;
    }
  }

  lemma {:induction false} WidenedForward(groups: seq<Group>, w: Group)
    requires NoneBackward(groups) && w.start <= w.end
    ensures NoneBackward(groups + [w]) && (Joins(groups, w) ==> NoneBackward(Widened(groups, w)))
  {
    var all := groups + [w];
    assert forall k :: 0 <= k < |groups| ==> all[k] == groups[k];
    if Joins(groups, w) {
      var n := |groups| - 1;
      assert groups[n].start <= groups[n].end;
      assert forall k :: 0 <= k < n ==> Widened(groups, w)[k] == groups[k];
    }
  }

  /** If no planned window ends before it starts, no primary does, whatever of them the run can afford. */
  lemma {:induction false} ForwardWindows(planned: Planned, rows: seq<Row>, words: seq<Word>, late: Clock)
    requires Served(planned.windows, rows, planned.bounds) && NoneBackward(planned.windows)
    ensures var queue := QueueFor(planned, rows, words); AllForward(Afforded(queue, |queue|, late))
  {
    hide Sort, Sorted, Merged, Prioritised, ByPriority, Served, DistinctWindows, StrictStarts, Afforded;
    var sorted, queue := Sort(planned.windows, StartsNoLater), QueueFor(planned, rows, words);
    var groups := Merged(sorted, |sorted|);
    StartsNoLaterIsTotal();
    SortSorted(planned.windows, StartsNoLater);
    forall k | 0 <= k < |sorted| ensures sorted[k].start <= sorted[k].end {
      assert sorted[k] in multiset(sorted);
    }
    MergedForward(sorted, |sorted|);
    if queue != [] {
      PrioritisedInOrder(groups, rows, words);
    }
    AffordedAreQueued(queue, |queue|, late);
    var paid := Afforded(queue, |queue|, late);
    forall c | 0 <= c < |paid| ensures RunsForward(paid[c]) {
      assert IsEntry(paid[c], queue, |queue|);
    }
  }

  /** Every recovered line lies between the nearest anchored rows around its own row. */
  ghost predicate EachBetween(recovered: Recoveries, anchors: Anchors, n: nat, duration: Option<real>) {
    forall i :: i in recovered ==> BetweenAnchors(anchors, i, recovered[i].span, n, duration)
  }

  lemma {:induction false} PlacedIsBetween(pass: Pass, recovered: Recoveries, bounds: Bounds, n: nat,
                                           duration: Option<real>)
    requires AllBetween(pass.recovered, pass.anchors, n, duration)
    requires AnchoredBounds(bounds, pass.anchors, n, duration) && Placed(pass.recovered, recovered, bounds)
    ensures EachBetween(recovered, pass.anchors, n, duration)
  {
    forall i | i in recovered ensures BetweenAnchors(pass.anchors, i, recovered[i].span, n, duration) {
      if i in pass.recovered && recovered[i] == pass.recovered[i] {
        assert Between(pass.recovered[i].span, pass.anchors, i, n, duration);
      } else {
        assert WithinBounds(recovered[i].span, i, bounds);
      }
    }
  }

  /** The parts of the first pass that the queue starts from. */
  lemma {:induction false} PassGives(rows: seq<Row>, p: Pass, duration: Option<real>, calm: bool)
    requires PassOk(rows, p, duration, |rows|, calm)
    ensures InOrder(p.recovered) && Genuine(p.recovered, rows) && AllBetween(p.recovered, p.anchors, |rows|, duration)
    ensures Proper(p.anchors) && (calm ==> AnchorsInside(p.anchors, duration))
    ensures forall k :: 0 <= k < |p.pending| ==> p.pending[k] < |rows| && Problem(rows[p.pending[k]])
  {
    hide InOrder, Genuine, AllBetween, Proper, AnchorsInside;
  }

  /** Where every primary has audio and no two share a window, so it is with the crops. */
  lemma {:induction false} CalmSpending(crops: seq<Crop>, primaries: seq<Group>, late: Clock)
    requires Spends(crops, primaries, late) && AllLong(primaries) && DistinctWindows(primaries)
    ensures AllAudible(crops) && DistinctCrops(crops) && AudioDecoded(crops) <= MAX_AUDIO_SECONDS
  {
    hide AllAudible, AllForward, AllLong, DistinctCrops, DistinctWindows, AudioDecoded, TotalSeconds, Afforded;
    AffordedAreQueued(primaries, |primaries|, late);
    AudibleIsForward(Afforded(primaries, |primaries|, late));
  }

  /** Where a run starts after its first pass: the planned queue, and what the transcript has settled. */
  ghost function StartOf(rows: seq<Row>, words: seq<Word>, phrases: seq<Span>, duration: Option<real>, decode: Decoder,
                         late: Clock)
      : (start: (Progress, Job))
    ensures Served(start.0.queue, rows, start.1.bounds) && start.0.crops == []
    ensures start.1 == Job(rows, start.1.bounds, phrases, duration, decode, late)
  {
    hide *;
    var pass := FirstPass(rows, words, AnchorsOf(rows, words, |rows|), duration, |rows|);
    AnchorsAreProper(rows, words);
    FirstPassIsSound(rows, words, AnchorsOf(rows, words, |rows|), duration, |rows|, false);
    PassGives(rows, pass, duration, false);
    PlannedForIsSound(pass.pending, |pass.pending|, rows, pass.anchors, words, duration, false);
    var planned := PlannedFor(pass.pending, |pass.pending|, rows, pass.anchors, words, duration);
    QueueServes(planned, pass.pending, rows, pass.anchors, words, duration);
    (Progress(QueueFor(planned, rows, words), pass.recovered, []),
     Job(rows, planned.bounds, phrases, duration, decode, late))
  }

  lemma {:induction false} QueueServes(planned: Planned, pending: seq<nat>, rows: seq<Row>, anchors: Anchors,
                                       words: seq<Word>,
                                       duration: Option<real>)
    requires PlannedOk(planned, pending, rows, anchors, duration, false)
    ensures Served(planned.windows, rows, planned.bounds)
    ensures Served(QueueFor(planned, rows, words), rows, planned.bounds)
  {
    QueueForIsSound(planned, rows, words, duration, false);
    hide QueueFor, AllSound;
  }

  lemma {:induction false} StartIs(rows: seq<Row>, words: seq<Word>, phrases: seq<Span>, duration: Option<real>,
                                   decode: Decoder,
                                   late: Clock, pass: Pass, planned: Planned)
    requires pass == FirstPass(rows, words, AnchorsOf(rows, words, |rows|), duration, |rows|)
    requires forall k :: 0 <= k < |pass.pending| ==> pass.pending[k] < |rows|
    requires planned == PlannedFor(pass.pending, |pass.pending|, rows, pass.anchors, words, duration)
    requires Served(planned.windows, rows, planned.bounds)
    ensures StartOf(rows, words, phrases, duration, decode, late)
            == (Progress(QueueFor(planned, rows, words), pass.recovered, []),
                Job(rows, planned.bounds, phrases, duration, decode, late))
  {
    hide FirstPass, PlannedFor, AnchorsOf, QueueFor, Served;
  }

  /** The whole run, whatever the transcript.  The first pass settles what the full transcript proves; the rest is
      planned, queued and decoded within the limits of the code's counters.  Recovered lines are decoded evidence for
      problem rows, disjoint and ordered in time like their rows, each between its nearest anchored rows, and no kept
      row is lost.  The counter of seconds is the audio decoded exactly as far as the affordable primaries run
      forward.  If every anchor starts inside the audio, every crop has audio, none is decoded twice, and a minute is
      decoded at most. */
  method RetryProblemLines(rows: seq<Row>, words: seq<Word>, phrases: seq<Span>, duration: Option<real>,
                           decode: Decoder, late: Clock)
    returns (result: Result, recovered: Recoveries, crops: seq<Crop>, audioSeconds: real,
             ghost queue: seq<Group>, ghost places: seq<nat>)
    requires duration.Some? ==> duration.value > 0.0
    ensures var (first, job) := StartOf(rows, words, phrases, duration, decode, late);
            && Reaches(first, Progress(queue, recovered, crops), |queue|, job)
            && RunOk(Progress(queue, recovered, crops), first.recovered, places, |first.queue|, |queue|, job)
            && Spends(crops, first.queue, late) && first.recovered.Keys <= recovered.Keys
            && exists states ::
                 && |states| == |queue| + 1 && states[|queue|] == Progress(queue, recovered, crops)
                 && RunsThrough(first, states, job)
    ensures var pass := FirstPass(rows, words, AnchorsOf(rows, words, |rows|), duration, |rows|);
            EachBetween(recovered, pass.anchors, |rows|, duration)
    ensures WithinBudget(crops, duration) && audioSeconds == TotalSeconds(crops)
    ensures AnchorsInside(AnchorsOf(rows, words, |rows|), duration) ==>
              AllAudible(crops) && DistinctCrops(crops) && AudioDecoded(crops) <= MAX_AUDIO_SECONDS
    ensures InOrder(recovered) && Genuine(recovered, rows)
    ensures result.Untouched? <==> recovered == map[]
    ensures result.Rebuilt? ==> Renders(rows, recovered, |rows|, result.lines, result.scores)
  {
    hide *;
    var anchors := CorroboratedAnchors(rows, words);
    AnchorsAreProper(rows, words);
    ghost var calm := AnchorsInside(anchors, duration);
    FirstPassIsSound(rows, words, anchors, duration, |rows|, calm);
    ghost var pass := FirstPass(rows, words, anchors, duration, |rows|);
    PassGives(rows, pass, duration, calm);
    var pending;
    ghost var passes;
    recovered, anchors, pending, passes := RecoverFromTranscript(rows, words, anchors, duration);
    ghost var groups;
    var primaries, bounds;
    primaries, bounds, groups := PlanQueue(rows, words, anchors, pending, duration, calm);
    StartIs(rows, words, phrases, duration, decode, late, pass,
            PlannedFor(pending, |pending|, rows, anchors, words, duration));
    var job := Job(rows, bounds, phrases, duration, decode, late);
    recovered, crops, audioSeconds, queue, places := RunQueue(primaries, recovered, job);
    RunOkOrder(Progress(queue, recovered, crops), pass.recovered, places, |primaries|, |queue|, job);
    PlacedIsBetween(pass, recovered, bounds, |rows|, duration);
    if calm {
      CalmSpending(crops, primaries, late);
    }
    if recovered == map[] {
      return Untouched, recovered, crops, audioSeconds, queue, places;
    }
    var lines, scores := Render(rows, recovered);
    result := Rebuilt(lines, scores);
  }

  lemma {:induction false} StartsNoLaterIsTotal()
    ensures TotalPreorder(StartsNoLater)
  {
  }

  /** A permutation of sound windows is sound. */
  lemma {:induction false} SameGroups(windows: seq<Group>, sorted: seq<Group>, duration: Option<real>, rows: seq<Row>,
                                      bounds: Bounds, calm: bool)
    requires multiset(sorted) == multiset(windows)
    requires AllSound(windows, duration, calm) && Served(windows, rows, bounds)
    requires forall k :: 0 <= k < |windows| ==> !windows[k].alternate
    ensures AllSound(sorted, duration, calm) && Served(sorted, rows, bounds)
    ensures forall k :: 0 <= k < |sorted| ==> !sorted[k].alternate
  {
    forall k | 0 <= k < |sorted|
      ensures Sound(sorted[k], duration, calm) && ServedBy(sorted[k], rows, bounds) && !sorted[k].alternate
    {
      assert sorted[k] in multiset(sorted);
      assert sorted[k] in windows;
    }
  }

  lemma {:induction false} IndicesMember(groups: seq<Group>, k: nat, i: nat)
    requires k < |groups| && i in groups[k].indices
    ensures i in Indices(groups)
  {
    if k < |groups| - 1 {
      IndicesMember(groups[..|groups| - 1], k, i);
    }
  }

  lemma {:induction false} IndicesServed(groups: seq<Group>, rows: seq<Row>, bounds: Bounds, i: nat)
    requires Served(groups, rows, bounds) && i in Indices(groups)
    ensures i < |rows| && Problem(rows[i]) && i in bounds
  {
    var init, last := groups[..|groups| - 1], groups[|groups| - 1];
    if i in last.indices {
      assert ServedBy(groups[|groups| - 1], rows, bounds);
    } else {
      assert forall k :: 0 <= k < |init| ==> init[k] == groups[k];
      IndicesServed(init, rows, bounds, i);
    }
  }

  /** Merging loses no row, so merged groups serve the same rows. */
  lemma {:induction false} MergedIndices(windows: seq<Group>, groups: seq<Group>, rows: seq<Row>, bounds: Bounds)
    requires Served(windows, rows, bounds) && Indices(groups) == Indices(windows)
    ensures Served(groups, rows, bounds)
  {
    forall k, i | 0 <= k < |groups| && i in groups[k].indices
      ensures i < |rows| && Problem(rows[i]) && i in bounds
    {
      IndicesMember(groups, k, i);
      IndicesServed(windows, rows, bounds, i);
    }
  }
}
