/** The queue of windows and the budgets of calls and audio under which it is decoded. */
module RetryBudget {
  import opened Options
  import opened Numbers
  import opened RetryPlan
  import opened RetryScheduler
  import opened RetryQueue

  datatype Crop = Crop(start: real, end: real, alternate: bool)

  function CropOf(g: Group): Crop {
    Crop(g.start, g.end, g.alternate)
  }

  /** What the code counts: a crop that ends before it starts counts negative. */
  function TotalSeconds(crops: seq<Crop>): real {
    if crops == [] then 0.0
    else TotalSeconds(crops[..|crops| - 1]) + (crops[|crops| - 1].end - crops[|crops| - 1].start)
  }

  /** The audio in the crops: none in one that ends before it starts. */
  function AudioDecoded(crops: seq<Crop>): real {
    if crops == [] then 0.0
    else AudioDecoded(crops[..|crops| - 1]) + Most(0.0, crops[|crops| - 1].end - crops[|crops| - 1].start)
  }

  predicate RunsForward(c: Crop) {
    c.start <= c.end
  }

  predicate AllForward(crops: seq<Crop>) {
    forall c :: 0 <= c < |crops| ==> RunsForward(crops[c])
  }

  /** The counter never exceeds the audio decoded, and it equals it exactly if no crop ends before it starts. */
  lemma {:induction false} CounterIsAudio(crops: seq<Crop>)
    ensures TotalSeconds(crops) <= AudioDecoded(crops) && 0.0 <= AudioDecoded(crops)
    ensures TotalSeconds(crops) == AudioDecoded(crops) <==> AllForward(crops)
  {
    if crops != [] {
      var init, last := crops[..|crops| - 1], crops[|crops| - 1];
      CounterIsAudio(init);
      if AllForward(crops) {
        assert RunsForward(crops[|crops| - 1]);
        assert forall c :: 0 <= c < |init| ==> init[c] == crops[c];
      } else if AllForward(init) && RunsForward(last) {
        assert forall c :: 0 <= c < |init| ==> init[c] == crops[c];
        assert AllForward(crops);
      }
    }
  }

  function Primaries(crops: seq<Crop>): nat {
    if crops == [] then 0
    else Primaries(crops[..|crops| - 1]) + if crops[|crops| - 1].alternate then 0 else 1
  }

  /** The limits of one run, whatever the transcript: calls, the code's counter of seconds, crop length, primaries
      before alternates, and at most one alternate for each decoded primary. */
  ghost predicate WithinBudget(crops: seq<Crop>, duration: Option<real>) {
    && |crops| <= MAX_CROPS
    && TotalSeconds(crops) <= MAX_AUDIO_SECONDS
    && (forall c :: 0 <= c < |crops| ==>
          && 0.0 <= crops[c].start && crops[c].end <= crops[c].start + MAX_CROP_SECONDS
          && (duration.Some? ==> crops[c].end <= duration.value))
    && (forall c, d :: 0 <= c < d < |crops| && crops[c].alternate ==> crops[d].alternate)
    && |crops| <= 2 * Primaries(crops)
  }

  predicate DistinctCrops(crops: seq<Crop>) {
    forall c, d :: 0 <= c < d < |crops| ==> crops[c].start != crops[d].start || crops[c].end != crops[d].end
  }

  /** Every crop has audio. */
  predicate AllAudible(crops: seq<Crop>) {
    forall c :: 0 <= c < |crops| ==> crops[c].start < crops[c].end
  }

  predicate AllLong(queue: seq<Group>) {
    forall k :: 0 <= k < |queue| ==> queue[k].start < queue[k].end
  }

  // ---- the queue ----

  /** The first `n` queue entries are primaries, the rest alternates, each with a window not queued before. */
  ghost predicate Queued(queue: seq<Group>, n: nat, duration: Option<real>, rows: seq<Row>, bounds: Bounds) {
    && n <= |queue|
    && AllSound(queue, duration, false) && Served(queue, rows, bounds)
    && (forall k :: 0 <= k < |queue| ==> (queue[k].alternate <==> k >= n))
    && forall j, k :: 0 <= j < k < |queue| && n <= k
         ==> queue[j].start != queue[k].start || queue[j].end != queue[k].end
  }

  /** The decoded crops are queue entries below `k`, in queue order. */
  ghost predicate DecodedFrom(crops: seq<Crop>, places: seq<nat>, queue: seq<Group>, k: nat) {
    && |places| == |crops|
    && (forall c :: 0 <= c < |crops| ==>
          places[c] < k && places[c] < |queue| && crops[c] == CropOf(queue[places[c]]))
    && (forall c, d :: 0 <= c < d < |places| ==> places[c] < places[d])
  }

  function WindowsOf(queue: seq<Group>): set<(real, real)> {
    set k | 0 <= k < |queue| :: (queue[k].start, queue[k].end)
  }

  lemma {:induction false} AppendKeepsQueue(queue: seq<Group>, n: nat, g: Group, duration: Option<real>, rows: seq<Row>,
                                            bounds: Bounds)
    requires Queued(queue, n, duration, rows, bounds)
    requires Sound(g, duration, false) && ServedBy(g, rows, bounds) && g.alternate
        && (g.start, g.end) !in WindowsOf(queue)
    ensures Queued(queue + [g], n, duration, rows, bounds)
  {
    forall k | 0 <= k < |queue| ensures queue[k].start != g.start || queue[k].end != g.end {
      assert (queue[k].start, queue[k].end) in WindowsOf(queue);
    }
  }

  lemma {:induction false} DecodeNext(crops: seq<Crop>, places: seq<nat>, queue: seq<Group>, k: nat)
    requires k < |queue| && DecodedFrom(crops, places, queue, k)
    ensures var g := queue[k];
            && DecodedFrom(crops + [CropOf(g)], places + [k], queue, k + 1)
            && TotalSeconds(crops + [CropOf(g)]) == TotalSeconds(crops) + (g.end - g.start)
            && Primaries(crops + [CropOf(g)]) == Primaries(crops) + if g.alternate then 0 else 1
  {
    var g := queue[k];
    var after := crops + [CropOf(g)];
    assert after[..|after| - 1] == crops;
  }

  /** Crops decoded in queue order under the limits meet all of them; windows that differ stay so. */
  lemma {:induction false} BudgetKept(crops: seq<Crop>, places: seq<nat>, queue: seq<Group>, n: nat, k: nat,
                                      duration: Option<real>, rows: seq<Row>, bounds: Bounds)
    requires Queued(queue, n, duration, rows, bounds) && DecodedFrom(crops, places, queue, k)
    requires |crops| <= MAX_CROPS && TotalSeconds(crops) <= MAX_AUDIO_SECONDS
    requires |crops| <= 2 * Primaries(crops)
    ensures WithinBudget(crops, duration)
    ensures DistinctWindows(queue[..n]) ==> DistinctCrops(crops)
  {
    hide TotalSeconds, Primaries, ServedBy;
    forall c | 0 <= c < |crops| ensures Sound(queue[places[c]], duration, false) {
    }
    forall c, d | 0 <= c < d < |crops|
      ensures crops[c].alternate ==> crops[d].alternate
      ensures DistinctWindows(queue[..n]) ==> crops[c].start != crops[d].start || crops[c].end != crops[d].end
    {
      assert places[c] < places[d];
      if DistinctWindows(queue[..n]) && places[d] < n {
        assert queue[..n][places[c]] == queue[places[c]] && queue[..n][places[d]] == queue[places[d]];
      }
    }
  }

  // ---- what the budget lets through ----

  /** The crops among the first `k` entries, if no entry is appended: the primaries a run decodes, whatever the decodes
      return. */
  function Afforded(queue: seq<Group>, k: nat, late: nat -> bool): seq<Crop>
    requires k <= |queue|
  {
    if k == 0 then []
    else
      var crops := Afforded(queue, k - 1, late);
      if OverBudget(crops, queue[k - 1]) || late(k - 1) then crops else crops + [CropOf(queue[k - 1])]
  }

  predicate OverBudget(crops: seq<Crop>, g: Group) {
    |crops| >= MAX_CROPS || TotalSeconds(crops) + (g.end - g.start) > MAX_AUDIO_SECONDS
  }

  lemma {:induction false} AffordedStays(queue: seq<Group>, added: seq<Group>, k: nat, late: nat -> bool)
    requires k <= |queue|
    ensures Afforded(queue + added, k, late) == Afforded(queue, k, late)
  {
    hide OverBudget;
    if k > 0 {
      AffordedStays(queue, added, k - 1, late);
    }
  }

  /** The decoded crops begin with the affordable primaries, and go on with alternates. */
  ghost predicate Paid(crops: seq<Crop>, queue: seq<Group>, n: nat, k: nat, late: nat -> bool) {
    && n <= |queue| && k <= |queue|
    && var first := Afforded(queue, if k < n then k else n, late);
       && first <= crops && (k <= n ==> crops == first)
       && forall c :: |first| <= c < |crops| ==> crops[c].alternate
  }

  /** Every alternate contains the crop of a primary decoded before it. */
  ghost predicate Wrapped(queue: seq<Group>, n: nat, crops: seq<Crop>) {
    forall k :: n <= k < |queue| ==> Wraps(queue[k], crops)
  }

  ghost predicate Wraps(g: Group, crops: seq<Crop>) {
    exists c :: 0 <= c < |crops| && !crops[c].alternate && g.start <= crops[c].start && crops[c].end <= g.end
  }

  lemma {:induction false} WrapsMore(g: Group, crops: seq<Crop>, next: Crop)
    requires Wraps(g, crops)
    ensures Wraps(g, crops + [next])
  {
    var c :| 0 <= c < |crops| && !crops[c].alternate && g.start <= crops[c].start && crops[c].end <= g.end;
    assert (crops + [next])[c] == crops[c];
  }

  /** Crops of the run either are primaries it could afford, or contain one. */
  lemma {:induction false} CropIsAfforded(crops: seq<Crop>, places: seq<nat>, queue: seq<Group>, n: nat, k: nat,
                                          late: nat -> bool,
                                          duration: Option<real>, rows: seq<Row>, bounds: Bounds, c: nat)
      returns (d: nat)
    requires Queued(queue, n, duration, rows, bounds) && DecodedFrom(crops, places, queue, k) && n <= k
    requires Paid(crops, queue, n, k, late) && Wrapped(queue, n, crops) && c < |crops|
    ensures d < |Afforded(queue, n, late)| && Afforded(queue, n, late)[d] == crops[d]
    ensures crops[c].start <= crops[d].start && crops[d].end <= crops[c].end
  {
    hide Afforded, Served, AllSound;
    var first := Afforded(queue, n, late);
    if c < |first| {
      d := c;
    } else {
      assert crops[c].alternate && places[c] >= n;
      assert Wraps(queue[places[c]], crops);
      d :| 0 <= d < |crops| && !crops[d].alternate && crops[c].start <= crops[d].start && crops[d].end <= crops[c].end;
    }
  }

  /** A run whose affordable primaries end no earlier than they start counts the audio it decodes; any other run does
      not. Likewise every crop has audio if every affordable primary has. */
  lemma {:induction false} CounterIsAudioExactly(crops: seq<Crop>, places: seq<nat>, queue: seq<Group>, n: nat, k: nat,
                                                 late: nat -> bool, duration: Option<real>, rows: seq<Row>,
                                                     bounds: Bounds)
    requires Queued(queue, n, duration, rows, bounds) && DecodedFrom(crops, places, queue, k) && n <= k
    requires Paid(crops, queue, n, k, late) && Wrapped(queue, n, crops)
    ensures AllForward(crops) <==> AllForward(Afforded(queue, n, late))
    ensures TotalSeconds(crops) == AudioDecoded(crops) <==> AllForward(Afforded(queue, n, late))
    ensures AllAudible(crops) <==> AllAudible(Afforded(queue, n, late))
  {
    hide Afforded, Queued, DecodedFrom, Wrapped, TotalSeconds, AudioDecoded;
    var first := Afforded(queue, n, late);
    assert forall c :: 0 <= c < |first| ==> first[c] == crops[c];
    forall c | 0 <= c < |crops|
      ensures AllForward(first) ==> RunsForward(crops[c])
      ensures AllAudible(first) ==> crops[c].start < crops[c].end
    {
      var d := CropIsAfforded(crops, places, queue, n, k, late, duration, rows, bounds, c);
      assert AllForward(first) ==> RunsForward(first[d]);
    }
    CounterIsAudio(crops);
  }

  predicate IsEntry(crop: Crop, queue: seq<Group>, k: nat) {
    exists j :: 0 <= j < k && j < |queue| && crop == CropOf(queue[j])
  }

  /** Affordable primaries are queue entries; they all have audio if all queue entries do. */
  lemma {:induction false} AffordedAreQueued(queue: seq<Group>, k: nat, late: nat -> bool)
    requires k <= |queue|
    ensures forall c :: 0 <= c < |Afforded(queue, k, late)| ==> IsEntry(Afforded(queue, k, late)[c], queue, k)
    ensures AllLong(queue) ==> AllAudible(Afforded(queue, k, late))
  {
    hide OverBudget;
    if k > 0 {
      AffordedAreQueued(queue, k - 1, late);
      var before, after := Afforded(queue, k - 1, late), Afforded(queue, k, late);
      forall c | 0 <= c < |after| ensures IsEntry(after[c], queue, k) {
        if c < |before| {
          assert after[c] == before[c];
          assert IsEntry(before[c], queue, k - 1);
        } else {
          assert after[c] == CropOf(queue[k - 1]);
        }
      }
    }
  }

  /** Where every window has audio, so has every affordable primary, and the counter is exact. */
  lemma {:induction false} AudibleIsForward(crops: seq<Crop>)
    ensures AllAudible(crops) ==> AllForward(crops)
  {
  }
}
