/** Silence repair of a force-aligned line (`repair_aligned_lrc`): a first word or a
    sung end that absorbed silence is pulled next to its neighbour; a line whose
    leading words were pinned to earlier voice loses its word tags.

    Times are whole centiseconds, the precision of the tags the code writes. */
module SilenceRepair {
  import opened Numbers
  import opened Ranks
  import opened Options
  import opened StableSort
  import opened Text

  /** A line as the tag patterns see it.  `lead` is the text before the first word
      tag and `chunks[k]` the text after word tag `k`. */
  datatype Line =
    | Untimed(text: string)
    | Timed(start: int, lead: string, tags: seq<int>, chunks: seq<string>)

  ghost predicate Parsed(line: Line) {
    line.Timed? ==>
      && |line.chunks| == |line.tags|
      && line.start >= 0
      && forall k :: 0 <= k < |line.tags| ==> line.tags[k] >= 0
  }

  const MAX_INTRA_LINE_GAP: int := 400
  const TYPICAL_WORD: int := 35
  const LEAST_GAP: int := 20
  const LEAST_THRESHOLD: int := 200

  // ---- stretched lines ----

  /** How many leading words, counted from `k`, are each followed by an over-long gap; an index. */
  function Strayed(starts: seq<int>, k: nat): nat
    decreases |starts| - k
  {
    if k + 1 < |starts| && starts[k + 1] - starts[k] > MAX_INTRA_LINE_GAP then Strayed(starts, k + 1) else k
  }

  function StretchedStart(starts: seq<int>): Option<int> {
    var strayed := Strayed(starts, 0);
    if 2 <= strayed < |starts| then Some(starts[strayed]) else None
  }

  lemma {:induction false} StrayedCounts(starts: seq<int>, k: nat)
    requires k < |starts|
    ensures k <= Strayed(starts, k) < |starts|
    ensures forall i :: k <= i < Strayed(starts, k) ==> starts[i + 1] - starts[i] > MAX_INTRA_LINE_GAP
    ensures Strayed(starts, k) + 1 < |starts| ==>
              starts[Strayed(starts, k) + 1] - starts[Strayed(starts, k)] <= MAX_INTRA_LINE_GAP
    decreases |starts| - k
  {
    if k + 1 < |starts| && starts[k + 1] - starts[k] > MAX_INTRA_LINE_GAP {
      StrayedCounts(starts, k + 1);
    }
  }

  /** Fires exactly on at least two leading over-long gaps, and then names the start after the last of them. */
  method StretchedLineStart(starts: seq<int>) returns (r: Option<int>)
    ensures r == StretchedStart(starts)
    ensures r.Some? <==>
              |starts| >= 3 && starts[1] - starts[0] > MAX_INTRA_LINE_GAP && starts[2] - starts[1] > MAX_INTRA_LINE_GAP
    ensures r.Some? ==> exists k :: 2 <= k < |starts| && r.value == starts[k]
                                    && (forall i :: 0 <= i < k ==> starts[i + 1] - starts[i] > MAX_INTRA_LINE_GAP)
                                    && (k + 1 < |starts| ==> starts[k + 1] - starts[k] <= MAX_INTRA_LINE_GAP)
  {
    var strayed := 0;
    while strayed + 1 < |starts| && starts[strayed + 1] - starts[strayed] > MAX_INTRA_LINE_GAP
      invariant strayed == 0 || strayed < |starts|
      invariant Strayed(starts, strayed) == Strayed(starts, 0)
      invariant forall i :: 0 <= i < strayed ==> starts[i + 1] - starts[i] > MAX_INTRA_LINE_GAP
    {
      strayed := strayed + 1;
    }
    r := if strayed >= 2 then Some(starts[strayed]) else None;
  }

  // ---- the reference gap ----

  /** Positive gaps between neighbouring starts. */
  function Gaps(starts: seq<int>): seq<int> {
    if |starts| < 2 then []
    else (if starts[1] > starts[0] then [starts[1] - starts[0]] else []) + Gaps(starts[1..])
  }

  /** Median of the gaps without the largest one, never below `LEAST_GAP`. */
  function MedianGap(gaps: seq<int>): (m: int)
    requires gaps != []
    ensures m >= LEAST_GAP
  {
    var others := Sort(gaps, AtMost)[..|gaps| - 1];
    var middle := if others != [] then others[|others| / 2] else TYPICAL_WORD;
    if middle < LEAST_GAP then LEAST_GAP else middle
  }

  /** The gaps are those behind the positions followed by a later start, each once, in order. */
  ghost predicate GapsAt(starts: seq<int>, gaps: seq<int>, places: seq<nat>) {
    && |places| == |gaps| && (forall m, n :: 0 <= m < n < |places| ==> places[m] < places[n])
    && (forall m :: 0 <= m < |places| ==>
          places[m] + 1 < |starts| && gaps[m] == starts[places[m] + 1] - starts[places[m]])
    && forall i: nat :: i in places <==> FollowedLater(starts, i)
  }

  predicate FollowedLater(starts: seq<int>, i: nat) {
    i + 1 < |starts| && starts[i] < starts[i + 1]
  }

  lemma {:induction false} GapsAreAt(starts: seq<int>) returns (places: seq<nat>)
    ensures GapsAt(starts, Gaps(starts), places)
  {
    if |starts| < 2 {
      places := [];
    } else {
      var later := GapsAreAt(starts[1..]);
      places := OneEarlier(starts, Gaps(starts[1..]), later);
    }
  }

  lemma {:induction false} OneEarlier(starts: seq<int>, gaps: seq<int>, later: seq<nat>) returns (places: seq<nat>)
    requires |starts| >= 2 && GapsAt(starts[1..], gaps, later)
    ensures GapsAt(starts, (if starts[1] > starts[0] then [starts[1] - starts[0]] else []) + gaps, places)
  {
    var moved := Moved(later);
    if starts[1] > starts[0] {
      places := [0] + moved;
    } else {
      places := moved;
    }
    forall i: nat ensures i in places <==> FollowedLater(starts, i) {
      FirstOrMoved(starts, gaps, later, i);
    }
    hide FollowedLater;
  }

  lemma {:induction false} FirstOrMoved(starts: seq<int>, gaps: seq<int>, later: seq<nat>, i: nat)
    requires |starts| >= 2 && GapsAt(starts[1..], gaps, later)
    ensures (i == 0 && starts[1] > starts[0]) || i in Moved(later) <==> FollowedLater(starts, i)
  {
    MovedMember(later, i);
    if i > 0 {
      LaterInRest(starts, i);
      assert i - 1 in later <==> FollowedLater(starts[1..], i - 1);
    }
  }

  function Moved(places: seq<nat>): (moved: seq<nat>)
    ensures |moved| == |places| && forall m :: 0 <= m < |places| ==> moved[m] == places[m] + 1
  {
    seq(|places|, m requires 0 <= m < |places| => places[m] + 1)
  }

  lemma {:induction false} MovedMember(places: seq<nat>, i: nat)
    ensures i in Moved(places) <==> i > 0 && i - 1 in places
  {
    if i > 0 && i - 1 in places {
      var m :| 0 <= m < |places| && places[m] == i - 1;
      assert Moved(places)[m] == i;
    }
    if i in Moved(places) {
      var m :| 0 <= m < |places| && Moved(places)[m] == i;
      assert places[m] == i - 1;
    }
  }

  lemma {:induction false} LaterInRest(starts: seq<int>, i: nat)
    requires i > 0 && |starts| >= 2
    ensures FollowedLater(starts, i) <==> FollowedLater(starts[1..], i - 1)
  {
  }

  /** The reference gap: the middle one of all gaps but the largest, by rank, but at least `LEAST_GAP`; a typical
      word if there is no other gap. */
  ghost predicate Reference(gaps: seq<int>, m: int) {
    if |gaps| == 1 then m == TYPICAL_WORD
    else exists v :: InTheMiddle(gaps, v) && m == if v < LEAST_GAP then LEAST_GAP else v
  }

  predicate InTheMiddle(gaps: seq<int>, v: int) {
    gaps != [] && Ranked(gaps, (|gaps| - 1) / 2, v)
  }

  lemma {:induction false} MedianIsReference(gaps: seq<int>)
    requires gaps != []
    ensures Reference(gaps, MedianGap(gaps))
  {
    hide Sort, Ranked;
    var k := (|gaps| - 1) / 2;
    SortedRanks(gaps, k);
    if |gaps| > 1 {
      assert Sort(gaps, AtMost)[..|gaps| - 1][k] == Sort(gaps, AtMost)[k];
      assert InTheMiddle(gaps, Sort(gaps, AtMost)[k]);
    }
  }

  function Threshold(median: int): int {
    if 3 * median > LEAST_THRESHOLD then 3 * median else LEAST_THRESHOLD
  }

  // ---- one line ----

  function AtLeastZero(t: int): int {
    if t < 0 then 0 else t
  }

  function PlainText(line: Line): string
    requires line.Timed?
  {
    Unwords(Words(line.lead + " " + Chunks(line.chunks)))
  }

  function Chunks(chunks: seq<string>): string {
    if chunks == [] then [] else chunks[0] + " " + Chunks(chunks[1..])
  }

  /** Lines the repair looks into: at least two word starts and a bare end tag. */
  predicate Enhanced(line: Line) {
    line.Timed? && |line.tags| >= 3 && |line.chunks| == |line.tags| && Blank(line.chunks[|line.chunks| - 1])
  }

  function Starts(line: Line): seq<int>
    requires Enhanced(line)
  {
    line.tags[..|line.tags| - 1]
  }

  function SungEnd(line: Line): int
    requires Enhanced(line)
  {
    line.tags[|line.tags| - 1]
  }

  function NewStart(starts: seq<int>, median: int): int
    requires |starts| >= 2
  {
    if starts[1] - starts[0] > Threshold(median) then starts[1] - median else starts[0]
  }

  function NewEnd(starts: seq<int>, end: int, median: int): int
    requires |starts| >= 2
  {
    if end - starts[|starts| - 1] > Threshold(median) then starts[|starts| - 1] + median else end
  }

  function Retimed(line: Line, start: int, end: int): Line
    requires Enhanced(line)
  {
    Timed(AtLeastZero(start), line.lead,
          [AtLeastZero(start)] + line.tags[1..|line.tags| - 1] + [AtLeastZero(end)],
          line.chunks)
  }

  function RepairLine(line: Line): Line {
    if !Enhanced(line) then line
    else
      var starts, end := Starts(line), SungEnd(line);
      var stretched := StretchedStart(starts);
      if stretched.Some? then Timed(AtLeastZero(stretched.value), PlainText(line), [], [])
      else if Gaps(starts) == [] then line
      else
        var median := MedianGap(Gaps(starts));
        var start, finish := NewStart(starts, median), NewEnd(starts, end, median);
        if start == starts[0] && finish == end then line else Retimed(line, start, finish)
  }

  // ---- the reference gap survives the repair ----

  /** Position `k` after inserting `x` into a sorted list. */
  lemma {:induction false} InsertedAt(x: int, s: seq<int>, k: nat)
    requires Sorted(s, AtMost) && k < |s|
    ensures x >= s[k] ==> Insert(x, s, AtMost)[k] == s[k]
    ensures x <= s[k] ==> Insert(x, s, AtMost)[k] >= x
  {
    if x <= s[0] {
      if k > 0 {
        assert AtMost(s[0], s[k - 1]) && AtMost(s[k - 1], s[k]);
      }
    } else if k > 0 {
      InsertedAt(x, s[1..], k - 1);
    }
  }

  /** Replacing a gap that is larger than the reference gap by the reference gap leaves the reference gap alone. */
  lemma {:induction false} MedianUnmoved(first: int, rest: seq<int>)
    requires first > MedianGap([first] + rest)
    ensures MedianGap([MedianGap([first] + rest)] + rest) == MedianGap([first] + rest)
  {
    var m := MedianGap([first] + rest);
    var s := Sort(rest, AtMost);
    AtMostIsTotal();
    SortSorted(rest, AtMost);
    assert ([first] + rest)[1..] == rest;
    assert ([m] + rest)[1..] == rest;
    var before, after := Insert(first, s, AtMost), Insert(m, s, AtMost);
    assert Sort([first] + rest, AtMost) == before;
    assert Sort([m] + rest, AtMost) == after;
    if rest != [] {
      var k := |rest| / 2;
      assert before[..|rest|][k] == before[k] && after[..|rest|][k] == after[k];
      InsertedAt(first, s, k);
      InsertedAt(m, s, k);
    }
  }

  lemma {:induction false} GapsCons(starts: seq<int>)
    requires |starts| >= 2 && starts[1] > starts[0]
    ensures Gaps(starts) == [starts[1] - starts[0]] + Gaps(starts[1..])
  {
  }

  /** The repaired starts teach the same reference gap. */
  lemma {:induction false} RepairedGaps(starts: seq<int>)
    requires |starts| >= 2 && Gaps(starts) != []
    ensures var median := MedianGap(Gaps(starts));
            var moved := [NewStart(starts, median)] + starts[1..];
            Gaps(moved) != [] && MedianGap(Gaps(moved)) == median
  {
    hide Gaps;
    hide MedianGap;
    var median := MedianGap(Gaps(starts));
    var moved := [NewStart(starts, median)] + starts[1..];
    assert moved[1..] == starts[1..];
    if NewStart(starts, median) != starts[0] {
      GapsCons(starts);
      GapsCons(moved);
      MedianUnmoved(starts[1] - starts[0], Gaps(starts[1..]));
    } else {
      assert moved == starts;
    }
  }

  /** What a repaired line looks like. */
  lemma {:induction false} RepairedStarts(line: Line)
    requires Parsed(line) && Enhanced(line) && Gaps(Starts(line)) != []
    ensures var starts, median := Starts(line), MedianGap(Gaps(Starts(line)));
            var start, end := NewStart(starts, median), NewEnd(starts, SungEnd(line), median);
            var r := Retimed(line, start, end);
            && start >= starts[0] && end >= 0
            && Enhanced(r) && Parsed(r)
            && Starts(r) == [start] + starts[1..] && SungEnd(r) == end
            && Gaps(Starts(r)) != [] && MedianGap(Gaps(Starts(r))) == median
  {
    hide Gaps;
    hide MedianGap;
    hide Blank;
    var starts, median := Starts(line), MedianGap(Gaps(Starts(line)));
    var start, end := NewStart(starts, median), NewEnd(starts, SungEnd(line), median);
    var r := Retimed(line, start, end);
    assert line.tags[1..|line.tags| - 1] == starts[1..];
    assert Starts(r) == [start] + starts[1..];
    RepairedGaps(starts);
  }

  /** A repair never makes a line look stretched. */
  lemma {:induction false} RepairedNotStretched(starts: seq<int>, median: int)
    requires |starts| >= 2 && median >= LEAST_GAP && StretchedStart(starts).None?
    ensures StretchedStart([NewStart(starts, median)] + starts[1..]).None?
  {
    StrayedCounts(starts, 0);
    StrayedCounts([NewStart(starts, median)] + starts[1..], 0);
  }

  /** A second pass over a repaired line does nothing. */
  lemma {:induction false} RepairIsIdempotent(line: Line)
    requires Parsed(line)
    ensures RepairLine(RepairLine(line)) == RepairLine(line)
  {
    hide Gaps;
    hide MedianGap;
    hide StretchedStart;
    if Enhanced(line) && StretchedStart(Starts(line)).None? && Gaps(Starts(line)) != [] {
      var starts, median := Starts(line), MedianGap(Gaps(Starts(line)));
      var r := Retimed(line, NewStart(starts, median), NewEnd(starts, SungEnd(line), median));
      RepairedStarts(line);
      RepairedNotStretched(starts, median);
    }
  }

  /** What a line becomes, told from its tags.  Without two word starts and a bare end tag, or without a forward gap,
      it stays.  With two leading over-long gaps it starts behind the last of them, as plain text.  Else its first
      start and its end, if farther than the threshold from their neighbours, move to the reference gap from them,
      and the line tag follows the first start; all else stays. */
  ghost predicate Mends(line: Line, r: Line) {
    if !Enhanced(line) then r == line
    else
      var starts, end := Starts(line), SungEnd(line);
      if StretchedStart(starts).Some? then
        && r.Timed? && r.tags == [] && r.chunks == [] && StretchedStart(starts) == Some(r.start)
        && Words(r.lead) == Words(line.lead + " " + Chunks(line.chunks))
      else if Gaps(starts) == [] then r == line
      else exists m :: Reference(Gaps(starts), m) && MendsBy(line, r, m)
  }

  ghost predicate MendsBy(line: Line, r: Line, m: int)
    requires Enhanced(line)
  {
    var n := |line.tags|;
    && Enhanced(r) && |r.tags| == n && r.lead == line.lead && r.chunks == line.chunks
    && (forall k :: 0 < k < n - 1 ==> r.tags[k] == line.tags[k])
    && r.tags[0] == (if line.tags[1] - line.tags[0] > LEAST_THRESHOLD && line.tags[1] - line.tags[0] > 3 * m
                     then line.tags[1] - m else line.tags[0])
    && r.tags[n - 1] == (if line.tags[n - 1] - line.tags[n - 2] > LEAST_THRESHOLD
                            && line.tags[n - 1] - line.tags[n - 2] > 3 * m
                         then line.tags[n - 2] + m else line.tags[n - 1])
    && r.start == if r.tags == line.tags then line.start else r.tags[0]
  }

  lemma {:induction false} RepairMends(line: Line)
    requires Parsed(line)
    ensures Mends(line, RepairLine(line))
  {
    hide Gaps, Blank, Strayed, Words, Unwords, Reference;
    if Enhanced(line) {
      var starts := Starts(line);
      if StretchedStart(starts).Some? {
        StretchedKeepsWords(line);
        StretchedNotNegative(line);
      } else if Gaps(starts) != [] {
        MedianIsReference(Gaps(starts));
        var m := MedianGap(Gaps(starts));
        hide MedianGap;
        RetimedMends(line, m);
      }
    }
  }

  lemma {:induction false} StretchedNotNegative(line: Line)
    requires Parsed(line) && Enhanced(line) && StretchedStart(Starts(line)).Some?
    ensures StretchedStart(Starts(line)).value >= 0
  {
    StrayedCounts(Starts(line), 0);
  }

  lemma {:induction false} RetimedMends(line: Line, m: int)
    requires Parsed(line) && Enhanced(line) && m >= LEAST_GAP
    ensures var starts, end := Starts(line), SungEnd(line);
            var start, finish := NewStart(starts, m), NewEnd(starts, end, m);
            MendsBy(line, if start == starts[0] && finish == end then line else Retimed(line, start, finish), m)
  {
    hide Blank;
    var starts, end := Starts(line), SungEnd(line);
    var start, finish := NewStart(starts, m), NewEnd(starts, end, m);
    var n, r := |line.tags|, Retimed(line, start, finish);
    assert r.tags[0] == AtLeastZero(start) && r.tags[n - 1] == AtLeastZero(finish);
    assert forall k :: 0 < k < n - 1 ==> r.tags[k] == line.tags[k];
    assert start >= 0 && finish >= 0;
    if start == starts[0] && finish == end {
    } else {
      assert r.tags != line.tags;
    }
  }

  ghost predicate Rising(s: seq<int>) {
    forall i, j :: 0 <= i < j < |s| ==> s[i] <= s[j]
  }

  /** A repair only shrinks the sung interval, keeps the text, the inner word starts and the
      order of the starts, and leaves no first gap and no end gap above the line's own threshold. */
  lemma {:induction false} RepairShrinks(line: Line)
    requires Parsed(line) && Enhanced(line) && RepairLine(line) != line && StretchedStart(Starts(line)).None?
    ensures var r := RepairLine(line);
            && Enhanced(r) && Parsed(r)
            && r.lead == line.lead && r.chunks == line.chunks
            && r.start == Starts(r)[0]
            && Starts(r)[1..] == Starts(line)[1..]
            && Starts(line)[0] <= Starts(r)[0] && SungEnd(r) <= SungEnd(line)
            && (Rising(line.tags) ==> Rising(r.tags))
            && Gaps(Starts(line)) != []
            && var threshold := Threshold(MedianGap(Gaps(Starts(line))));
               && Starts(r)[1] - Starts(r)[0] <= threshold
               && SungEnd(r) - Starts(r)[|Starts(r)| - 1] <= threshold
  {
    hide Gaps;
    hide MedianGap;
    RepairedStarts(line);
    var starts, r := Starts(line), RepairLine(line);
    assert Starts(r) == [Starts(r)[0]] + starts[1..];
    if Rising(line.tags) {
      RetimedRising(line, Starts(r)[0], SungEnd(r));
    }
  }

  lemma {:induction false} RetimedRising(line: Line, start: int, end: int)
    requires Parsed(line) && Enhanced(line) && Rising(line.tags)
    requires line.tags[0] <= start <= line.tags[1]
    requires line.tags[|line.tags| - 2] <= end <= line.tags[|line.tags| - 1]
    ensures Rising(Retimed(line, start, end).tags)
  {
    hide Blank;
    var n, t := |line.tags|, Retimed(line, start, end).tags;
    assert t[0] == start && t[n - 1] == end && forall k :: 1 <= k < n - 1 ==> t[k] == line.tags[k];
    forall i, j | 0 <= i < j < n ensures t[i] <= t[j] {
      assert t[i] <= line.tags[if i == 0 then 1 else i];
      assert line.tags[if j == n - 1 then n - 2 else j] <= t[j];
    }
  }

  /** A stretched line keeps its words and starts where the dense tail starts. */
  lemma {:induction false} StretchedKeepsWords(line: Line)
    requires Parsed(line) && Enhanced(line) && StretchedStart(Starts(line)).Some?
    ensures RepairLine(line).Timed? && RepairLine(line).tags == []
    ensures RepairLine(line).start in Starts(line)
    ensures Words(RepairLine(line).lead) == Words(line.lead + " " + Chunks(line.chunks))
  {
    SplitJoined(Words(line.lead + " " + Chunks(line.chunks)));
    StrayedCounts(Starts(line), 0);
  }

  /** The whole body, line by line. */
  method RepairAlignedLrc(body: seq<Line>) returns (out: seq<Line>)
    requires forall k :: 0 <= k < |body| ==> Parsed(body[k])
    ensures |out| == |body|
    ensures forall k :: 0 <= k < |body| ==> out[k] == RepairLine(body[k])
    ensures forall k :: 0 <= k < |body| ==> RepairLine(out[k]) == out[k] && Mends(body[k], out[k])
  {
    hide RepairLine, Mends;
    out := [];
    for k := 0 to |body|
      invariant |out| == k
      invariant forall i :: 0 <= i < k ==>
                  out[i] == RepairLine(body[i]) && RepairLine(out[i]) == out[i] && Mends(body[i], out[i])
    {
      RepairMends(body[k]);
      var line := RepairOne(body[k]);
      RepairIsIdempotent(body[k]);
      out := out + [line];
    }
  }

  /** The body of the loop: one line, step by step. */
  method RepairOne(line: Line) returns (r: Line)
    ensures r == RepairLine(line)
  {
    hide Gaps;
    hide MedianGap;
    hide StretchedStart;
    if !Enhanced(line) {
      return line;
    }
    var starts, end := Starts(line), SungEnd(line);
    var stretched := StretchedLineStart(starts);
    if stretched.Some? {
      return Timed(AtLeastZero(stretched.value), PlainText(line), [], []);
    }
    var gaps := Gaps(starts);
    if gaps == [] {
      return line;
    }
    var median := MedianGap(gaps);
    var start, finish := starts[0], end;
    if starts[1] - starts[0] > Threshold(median) {
      start := starts[1] - median;
    }
    if end - starts[|starts| - 1] > Threshold(median) {
      finish := starts[|starts| - 1] + median;
    }
    if start == starts[0] && finish == end {
      return line;
    }
    r := Retimed(line, start, finish);
  }
}
