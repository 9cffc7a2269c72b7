/** Owner-pasted lyrics merged with the transcript (`covered_spans`, the two transcript passes of
    `anchor_to_asr`, and `merge_reference_with_asr`).  Tag times are whole centiseconds; heard word
    times are seconds. */
module ManualReference {
  import opened Options
  import opened StableSort

  /** A timed line: line tag, bare end tag if any, the text behind the line tag, and whether that text is speech. */
  datatype Line = Line(start: int, end: Option<int>, body: string, speech: bool)

  datatype Span = Span(lo: int, hi: int)

  const SPAN_GAP: int := 800
  const DEFAULT_LINE: int := 500
  const MAX_LINE: int := 1200
  const SHORTEST_LINE: int := 50
  const MARGIN: int := 100

  function Earlier(x: int, y: int): int {
    if y < x then y else x
  }

  function Later(x: int, y: int): int {
    if y > x then y else x
  }

  ghost predicate SortedLines(lines: seq<Line>) {
    forall i, j :: 0 <= i < j < |lines| ==> lines[i].start <= lines[j].start
  }

  // ---- covered spans ----

  /** Where line `i` stops: its end tag when plausible, else a default length cut at the next line
      (a next line at time zero counts as no next line), and never less than half a second. */
  function Stop(lines: seq<Line>, i: nat): int
    requires i < |lines|
  {
    var line := lines[i];
    var stop :=
      if line.end.Some? && line.end.value - line.start <= MAX_LINE then line.end.value
      else if i + 1 < |lines| && lines[i + 1].start != 0 then Earlier(line.start + DEFAULT_LINE, lines[i + 1].start)
      else line.start + DEFAULT_LINE;
    Later(stop, line.start + SHORTEST_LINE)
  }

  /** A plausible end tag is the stop, any other line stops five seconds on, or at the next line if that is sooner;
      all at least half a second on. */
  lemma {:induction false} StopIs(lines: seq<Line>, i: nat)
    requires i < |lines|
    ensures var line, stop := lines[i], Stop(lines, i);
            var followed := i + 1 < |lines| && lines[i + 1].start != 0;
            && stop >= line.start + 50
            && (line.end.Some? && line.end.value <= line.start + 1200 ==>
                  stop == if line.end.value <= line.start + 50 then line.start + 50 else line.end.value)
            && (line.end.None? || line.end.value > line.start + 1200 ==>
                  && stop <= line.start + 500
                  && (stop == line.start + 500 <==> followed ==> lines[i + 1].start >= line.start + 500)
                  && (followed && lines[i + 1].start < line.start + 500 ==>
                        stop == line.start + 50 || stop == lines[i + 1].start)
                  && (followed && stop == line.start + 50 ==> lines[i + 1].start <= stop))
  {
  }

  /** One more line: the last span is widened, or a new one begins. */
  function Extend(spans: seq<Span>, start: int, stop: int): (next: seq<Span>) {
    if spans != [] && start - spans[|spans| - 1].hi < SPAN_GAP then
      spans[..|spans| - 1] + [Span(spans[|spans| - 1].lo, Later(spans[|spans| - 1].hi, stop))]
    else spans + [Span(start, stop)]
  }

  /** The spans of the first `n` lines. */
  function SpansOf(lines: seq<Line>, n: nat): seq<Span>
    requires n <= |lines|
  {
    if n == 0 then [] else Extend(SpansOf(lines, n - 1), lines[n - 1].start, Stop(lines, n - 1))
  }

  ghost predicate FarApart(spans: seq<Span>) {
    forall k :: 0 <= k < |spans| - 1 ==> spans[k + 1].lo - spans[k].hi >= SPAN_GAP
  }

  ghost predicate Forward(spans: seq<Span>) {
    forall k :: 0 <= k < |spans| ==> spans[k].lo < spans[k].hi
  }

  ghost predicate Covered(lines: seq<Line>, i: nat, spans: seq<Span>)
    requires i < |lines|
  {
    exists k :: 0 <= k < |spans| && spans[k].lo <= lines[i].start && Stop(lines, i) <= spans[k].hi
  }

  /** Each bound of a span is the start or the stop of a line. */
  ghost predicate Tight(lines: seq<Line>, n: nat, span: Span)
    requires n <= |lines|
  {
    && (exists i :: 0 <= i < n && span.lo == lines[i].start)
    && (exists i :: 0 <= i < n && span.hi == Stop(lines, i))
  }

  /** What reading a line that stops at `stop` may do to the spans. */
  ghost predicate Grown(spans: seq<Span>, next: seq<Span>, stop: int) {
    && |spans| <= |next| <= |spans| + 1 && next != []
    && (forall k :: 0 <= k < |spans| ==> next[k].lo == spans[k].lo && next[k].hi >= spans[k].hi)
    && (forall k :: 0 <= k < |spans| - 1 ==> next[k] == spans[k])
    && stop <= next[|next| - 1].hi
    && (|next| > |spans| > 0 ==> next[|spans| - 1] == spans[|spans| - 1] && spans[|spans| - 1].lo < next[|spans|].lo)
  }

  /** One more line changes at most the end of the last span, or begins a new span far behind. */
  lemma {:induction false} ExtendKeeps(spans: seq<Span>, start: int, stop: int)
    requires FarApart(spans) && Forward(spans) && start < stop
    ensures var next := Extend(spans, start, stop);
            && FarApart(next) && Forward(next) && Grown(spans, next, stop)
            && (next[|next| - 1].lo == start || (spans != [] && next[|next| - 1].lo == spans[|spans| - 1].lo))
  {
  }

  /** Spans are far apart; in a time-ordered list the last one starts no later than the last line. */
  lemma {:induction false} SpansAreApart(lines: seq<Line>, n: nat)
    requires n <= |lines|
    ensures FarApart(SpansOf(lines, n)) && Forward(SpansOf(lines, n)) && (n > 0 ==> SpansOf(lines, n) != [])
    ensures SortedLines(lines) && n > 0 ==> SpansOf(lines, n)[|SpansOf(lines, n)| - 1].lo <= lines[n - 1].start
  {
    if n > 0 {
      SpansAreApart(lines, n - 1);
      assert Stop(lines, n - 1) > lines[n - 1].start;
      assert n > 1 && SortedLines(lines) ==> lines[n - 2].start <= lines[n - 1].start;
      hide Stop, Extend, FarApart, Forward, SortedLines, Grown;
      ExtendKeeps(SpansOf(lines, n - 1), lines[n - 1].start, Stop(lines, n - 1));
      GrownIsSome(SpansOf(lines, n - 1), SpansOf(lines, n), Stop(lines, n - 1));
    }
  }

  lemma {:induction false} ReadLine(lines: seq<Line>, n: nat)
    requires n < |lines|
    ensures Grown(SpansOf(lines, n), SpansOf(lines, n + 1), Stop(lines, n))
  {
    SpansAreApart(lines, n);
    assert Stop(lines, n) > lines[n].start;
    hide Stop, Extend, FarApart, Forward, Grown;
    ExtendKeeps(SpansOf(lines, n), lines[n].start, Stop(lines, n));
  }

  /** Reading line `i` itself. */
  lemma {:induction false} OwnSpan(lines: seq<Line>, i: nat, before: seq<Span>, own: seq<Span>)
    requires i < |lines| && Grown(before, own, Stop(lines, i))
    ensures Covered(lines, i, own) <==> own[|own| - 1].lo <= lines[i].start || Covered(lines, i, before)
  {
    hide Stop;
    var last := |own| - 1;
    if own[last].lo <= lines[i].start {
      assert Covered(lines, i, own);
    }
    if k :| 0 <= k < |before| && before[k].lo <= lines[i].start && Stop(lines, i) <= before[k].hi {
      assert own[k].lo == before[k].lo && own[k].hi >= before[k].hi;
      assert Covered(lines, i, own);
    }
    if own[last].lo > lines[i].start && Covered(lines, i, own) {
      var k :| 0 <= k < |own| && own[k].lo <= lines[i].start && Stop(lines, i) <= own[k].hi;
      assert before[k] == own[k];
    }
  }

  /** Reading a later line covers line `i` if and only if it was covered, unless the last span held its start anyway. */
  lemma {:induction false} LaterLine(lines: seq<Line>, i: nat, before: seq<Span>, spans: seq<Span>, stop: int)
    requires i < |lines| && before != [] && Grown(before, spans, stop)
    requires before[|before| - 1].lo > lines[i].start || Covered(lines, i, before)
    ensures Covered(lines, i, spans) <==> Covered(lines, i, before)
    ensures spans[|spans| - 1].lo >= before[|before| - 1].lo
  {
    hide Stop;
    if k :| 0 <= k < |before| && before[k].lo <= lines[i].start && Stop(lines, i) <= before[k].hi {
      assert spans[k].lo == before[k].lo && spans[k].hi >= before[k].hi;
      assert Covered(lines, i, spans);
    }
    if before[|before| - 1].lo > lines[i].start && Covered(lines, i, spans) {
      var k :| 0 <= k < |spans| && spans[k].lo <= lines[i].start && Stop(lines, i) <= spans[k].hi;
      assert before[k] == spans[k];
      assert Covered(lines, i, before);
    }
  }

  /** Whether a line is covered is decided when it is read: it is if and only if the span it then ends up in starts no
      later than it does, or an earlier span holds it by chance.  What is read later changes nothing. */
  lemma {:induction false} CoveredExactly(lines: seq<Line>, i: nat, n: nat)
    requires i < n <= |lines|
    ensures var own, spans := SpansOf(lines, i + 1), SpansOf(lines, n);
            && own != [] && spans != []
            && (Covered(lines, i, spans)
                <==> own[|own| - 1].lo <= lines[i].start || Covered(lines, i, SpansOf(lines, i)))
            && own[|own| - 1].lo <= spans[|spans| - 1].lo
  {
    hide *;
    if n == i + 1 {
      ReadLine(lines, i);
      GrownIsSome(SpansOf(lines, i), SpansOf(lines, i + 1), Stop(lines, i));
      OwnSpan(lines, i, SpansOf(lines, i), SpansOf(lines, i + 1));
    } else {
      CoveredExactly(lines, i, n - 1);
      ReadLine(lines, n - 1);
      GrownIsSome(SpansOf(lines, n - 1), SpansOf(lines, n), Stop(lines, n - 1));
      LaterLine(lines, i, SpansOf(lines, n - 1), SpansOf(lines, n), Stop(lines, n - 1));
    }
  }

  lemma {:induction false} GrownIsSome(spans: seq<Span>, next: seq<Span>, stop: int)
    requires Grown(spans, next, stop)
    ensures next != []
  {
  }

  /** Hence every line of a time-ordered list is covered. */
  lemma {:induction false} SpansCover(lines: seq<Line>)
    requires SortedLines(lines)
    ensures forall i :: 0 <= i < |lines| ==> Covered(lines, i, AllSpans(lines))
  {
    hide Stop, Covered, SpansOf;
    forall i | 0 <= i < |lines| ensures Covered(lines, i, AllSpans(lines)) {
      SpansAreApart(lines, i + 1);
      CoveredExactly(lines, i, |lines|);
    }
  }

  lemma {:induction false} TightAgain(lines: seq<Line>, n: nat, span: Span)
    requires 0 < n <= |lines| && Tight(lines, n - 1, span)
    ensures Tight(lines, n, span)
    ensures Tight(lines, n, Span(span.lo, Later(span.hi, Stop(lines, n - 1))))
  {
    hide Stop;
    var i :| 0 <= i < n - 1 && span.lo == lines[i].start;
    var j :| 0 <= j < n - 1 && span.hi == Stop(lines, j);
    assert span.lo == lines[i].start && span.hi == Stop(lines, j);
    assert Later(span.hi, Stop(lines, n - 1)) == Stop(lines, if Stop(lines, n - 1) > span.hi then n - 1 else j);
  }

  lemma {:induction false} TightLine(lines: seq<Line>, n: nat)
    requires 0 < n <= |lines|
    ensures Tight(lines, n, Span(lines[n - 1].start, Stop(lines, n - 1)))
  {
  }

  lemma {:induction false} SpansAreTight(lines: seq<Line>, n: nat)
    requires n <= |lines|
    ensures forall k :: 0 <= k < |SpansOf(lines, n)| ==> Tight(lines, n, SpansOf(lines, n)[k])
  {
    hide Stop;
    hide Tight;
    if n > 0 {
      SpansAreTight(lines, n - 1);
      var before := SpansOf(lines, n - 1);
      forall k | 0 <= k < |before|
        ensures Tight(lines, n, before[k])
        ensures Tight(lines, n, Span(before[k].lo, Later(before[k].hi, Stop(lines, n - 1))))
      {
        TightAgain(lines, n, before[k]);
      }
      TightLine(lines, n);
    }
  }

  function AllSpans(lines: seq<Line>): seq<Span> {
    SpansOf(lines, |lines|)
  }

  /** The loop that appends a span or widens the last one; `SpansAreApart`,
      `SpansAreTight` and `CoveredExactly` say what comes out. */
  method CoveredSpans(lines: seq<Line>) returns (spans: seq<Span>)
    ensures spans == AllSpans(lines)
  {
    hide Stop;
    spans := [];
    for i := 0 to |lines|
      invariant spans == SpansOf(lines, i)
    {
      var start, stop := lines[i].start, Stop(lines, i);
      if spans != [] && start - spans[|spans| - 1].hi < SPAN_GAP {
        var last := spans[|spans| - 1];
        spans := spans[..|spans| - 1] + [Span(last.lo, Later(last.hi, stop))];
      } else {
        spans := spans + [Span(start, stop)];
      }
    }
  }

  /** A later line that starts earlier joins the last span without widening it to the left. */
  lemma {:induction false} UnsortedLineIsUncovered()
    ensures var lines := [Line(1000, Some(1100), "a", false), Line(200, Some(300), "b", false)];
            SpansOf(lines, 2) == [Span(1000, 1100)] && !Covered(lines, 1, SpansOf(lines, 2))
  {
    var lines := [Line(1000, Some(1100), "a", false), Line(200, Some(300), "b", false)];
    assert Stop(lines, 0) == 1100 && Stop(lines, 1) == 300;
    hide Stop;
    assert SpansOf(lines, 0) == [];
    assert SpansOf(lines, 1) == [Span(1000, 1100)];
    assert SpansOf(lines, 2) == [Span(1000, 1100)];
  }

  // ---- merging ----

  /** A line on its way to the output; pasted lines go first on equal starts. */
  datatype Entry = Entry(start: int, pasted: bool, body: string)

  predicate Before(x: Entry, y: Entry) {
    x.start < y.start || (x.start == y.start && (x.pasted || !y.pasted))
  }

  lemma {:induction false} BeforeIsTotal()
    ensures TotalPreorder(Before)
  {
  }

  predicate InsideSpans(start: int, spans: seq<Span>) {
    exists k :: 0 <= k < |spans| && spans[k].lo - MARGIN <= start <= spans[k].hi + MARGIN
  }

  predicate Added(line: Line, spans: seq<Span>) {
    line.speech || !InsideSpans(line.start, spans)
  }

  function Pasted(lines: seq<Line>): (r: seq<Entry>)
    ensures |r| == |lines|
  {
    seq(|lines|, k requires 0 <= k < |lines| => Entry(lines[k].start, true, lines[k].body))
  }

  function Transcript(lines: seq<Line>, spans: seq<Span>): seq<Entry> {
    if lines == [] then []
    else
      var last := lines[|lines| - 1];
      Transcript(lines[..|lines| - 1], spans) + if Added(last, spans) then [Entry(last.start, false, last.body)] else []
  }

  /** A speech line, or one that starts more than a second away from every span. */
  ghost predicate Outside(line: Line, spans: seq<Span>) {
    line.speech || forall k :: 0 <= k < |spans| ==> line.start < spans[k].lo - 100 || spans[k].hi + 100 < line.start
  }

  /** The transcript lines outside the spans, each once, in order. */
  ghost predicate Chosen(lines: seq<Line>, spans: seq<Span>, places: seq<nat>, added: seq<Entry>) {
    && |added| == |places| && (forall l, m :: 0 <= l < m < |places| ==> places[l] < places[m])
    && (forall m :: 0 <= m < |places| ==>
          places[m] < |lines| && added[m] == Entry(lines[places[m]].start, false, lines[places[m]].body))
    && forall i: nat :: i in places <==> i < |lines| && Outside(lines[i], spans)
  }

  lemma {:induction false} TranscriptIsChosen(lines: seq<Line>, spans: seq<Span>) returns (places: seq<nat>)
    ensures Chosen(lines, spans, places, Transcript(lines, spans))
  {
    places := [];
    if lines != [] {
      var n := |lines| - 1;
      var before := TranscriptIsChosen(lines[..n], spans);
      places := ChosenNext(lines, spans, before, Transcript(lines[..n], spans));
    }
  }

  lemma {:induction false} InLonger(s: seq<nat>, n: nat, i: nat)
    ensures i in s + [n] <==> i in s || i == n
  {
  }

  lemma {:induction false} ChosenNext(lines: seq<Line>, spans: seq<Span>, before: seq<nat>, added: seq<Entry>)
    returns (places: seq<nat>)
    requires lines != [] && Chosen(lines[..|lines| - 1], spans, before, added)
    ensures Chosen(lines, spans, places, added + if Added(lines[|lines| - 1], spans)
                                                 then [Entry(lines[|lines| - 1].start, false, lines[|lines| - 1].body)]
                                                 else [])
  {
    var n := |lines| - 1;
    var last := lines[n];
    assert Added(last, spans) <==> Outside(last, spans);
    hide Outside, Added, InsideSpans;
    places := before;
    if Added(last, spans) {
      places := before + [n];
      assert forall m :: 0 <= m < |before| ==> before[m] < n;
    }
    forall i: nat ensures i in places <==> i < |lines| && Outside(lines[i], spans) {
      InLonger(before, n, i);
      assert i in before <==> i < n && Outside(lines[..n][i], spans);
    }
  }

  /** Pasted lines go first on equal starts. */
  ghost predicate ByStart(entries: seq<Entry>) {
    forall j, k :: 0 <= j < k < |entries| ==>
      && entries[j].start <= entries[k].start
      && (entries[j].start == entries[k].start && entries[k].pasted ==> entries[j].pasted)
  }

  function AtStart(entries: seq<Entry>, start: int, pasted: bool): seq<Entry> {
    Keep(entries, (e: Entry) => e.start == start && e.pasted == pasted)
  }

  /** Lines of one kind that start together keep their order. */
  lemma {:induction false} KeptInPlace(entries: seq<Entry>, start: int, pasted: bool)
    ensures AtStart(Sort(entries, Before), start, pasted) == AtStart(entries, start, pasted)
  {
    SortIsStable(entries, Before, (e: Entry) => e.start == start && e.pasted == pasted);
  }

  /** All pasted lines and the chosen transcript lines, sorted by start, pasted lines first, otherwise as they came. */
  ghost predicate Gathered(reference: seq<Line>, transcript: seq<Line>, spans: seq<Span>, places: seq<nat>,
                           added: seq<Entry>, entries: seq<Entry>) {
    var pasted := seq(|reference|, k requires 0 <= k < |reference| =>
                        Entry(reference[k].start, true, reference[k].body));
    && Chosen(transcript, spans, places, added) && ByStart(entries)
    && multiset(entries) == multiset(pasted) + multiset(added)
    && forall start, kind :: AtStart(entries, start, kind) == AtStart(pasted + added, start, kind)
  }

  lemma {:induction false} SortedIsGathered(reference: seq<Line>, transcript: seq<Line>, spans: seq<Span>,
                                            places: seq<nat>)
    requires Chosen(transcript, spans, places, Transcript(transcript, spans))
    ensures Gathered(reference, transcript, spans, places, Transcript(transcript, spans),
                     Sort(Pasted(reference) + Transcript(transcript, spans), Before))
  {
    hide Chosen, Sort, AtStart;
    var added := Transcript(transcript, spans);
    var pasted := seq(|reference|, k requires 0 <= k < |reference| =>
                        Entry(reference[k].start, true, reference[k].body));
    assert pasted == Pasted(reference);
    BeforeIsTotal();
    SortSorted(pasted + added, Before);
    forall start, kind ensures AtStart(Sort(pasted + added, Before), start, kind)
        == AtStart(pasted + added, start, kind) {
      KeptInPlace(pasted + added, start, kind);
    }
  }

  /** An output line: its final time and where it came from; it is re-tagged when the time moved. */
  datatype Placed = Placed(start: int, source: Entry)

  /** `t` is the largest of the first `i + 1` starts, each plus one centisecond for every line since. */
  ghost predicate MaximumUpTo(entries: seq<Entry>, i: nat, t: int)
    requires i < |entries|
  {
    && (forall j :: 0 <= j <= i ==> t >= entries[j].start + (i - j))
    && (exists j :: 0 <= j <= i && t == entries[j].start + (i - j))
  }

  /** The least times that are strictly increasing and no earlier than the given ones. */
  ghost predicate LeastIncreasing(entries: seq<Entry>, out: seq<Placed>) {
    && |out| == |entries|
    && (forall i :: 0 <= i < |out| ==> out[i].source == entries[i] && MaximumUpTo(entries, i, out[i].start))
    && (forall i, j :: 0 <= i < j < |out| ==> out[i].start < out[j].start)
  }

  /** Final time of entry `i`. */
  ghost function Final(entries: seq<Entry>, i: nat): int
    requires i < |entries|
  {
    if i == 0 then entries[0].start else Later(entries[i].start, Final(entries, i - 1) + 1)
  }

  /** The maximum over earlier entries of their time plus one centisecond for every line since. */
  lemma {:induction false} FinalIsMaximum(entries: seq<Entry>, i: nat)
    requires i < |entries|
    ensures MaximumUpTo(entries, i, Final(entries, i))
  {
    if i == 0 {
      assert Final(entries, 0) == entries[0].start + (0 - 0);
    } else {
      FinalIsMaximum(entries, i - 1);
      if Final(entries, i) == entries[i].start {
        assert Final(entries, i) == entries[i].start + (i - i);
      } else {
        var j :| 0 <= j <= i - 1 && Final(entries, i - 1) == entries[j].start + (i - 1 - j);
        assert Final(entries, i) == entries[j].start + (i - j);
      }
    }
  }

  lemma {:induction false} FinalIncreases(entries: seq<Entry>, i: nat, j: nat)
    requires i < j < |entries|
    ensures Final(entries, i) < Final(entries, j)
    decreases j
  {
    if i < j - 1 {
      FinalIncreases(entries, i, j - 1);
    }
  }

  lemma {:induction false} FinalIsLeastIncreasing(entries: seq<Entry>, out: seq<Placed>)
    requires |out| == |entries|
    requires forall i :: 0 <= i < |out| ==> out[i] == Placed(Final(entries, i), entries[i])
    ensures LeastIncreasing(entries, out)
  {
    hide Final;
    hide MaximumUpTo;
    forall i | 0 <= i < |out| ensures MaximumUpTo(entries, i, out[i].start) {
      FinalIsMaximum(entries, i);
    }
    forall i, j | 0 <= i < j < |out| ensures out[i].start < out[j].start {
      FinalIncreases(entries, i, j);
    }
  }

  /** The last loop: equal or earlier starts are pushed one centisecond behind the line before. */
  method Separate(entries: seq<Entry>) returns (out: seq<Placed>)
    requires forall k :: 0 <= k < |entries| ==> entries[k].start >= 0
    ensures LeastIncreasing(entries, out)
  {
    out := [];
    var previous := -100;
    for i := 0 to |entries|
      invariant |out| == i
      invariant forall k :: 0 <= k < i ==> out[k] == Placed(Final(entries, k), entries[k])
      invariant previous == if i == 0 then -100 else Final(entries, i - 1)
    {
      var start := entries[i].start;
      if start <= previous {
        start := previous + 1;
      }
      previous := start;
      out := out + [Placed(start, entries[i])];
    }
    FinalIsLeastIncreasing(entries, out);
  }

  /** Every pasted line survives, exactly the transcript lines outside the widened spans and the
      speech lines are added, in time order with strictly increasing times. */
  method MergeReference(reference: seq<Line>, transcript: seq<Line>)
    returns (out: seq<Placed>, spans: seq<Span>, ghost places: seq<nat>, ghost added: seq<Entry>,
             ghost entries: seq<Entry>)
    requires forall k :: 0 <= k < |reference| ==> reference[k].start >= 0
    requires forall k :: 0 <= k < |transcript| ==> transcript[k].start >= 0
    ensures spans == AllSpans(reference)
    ensures FarApart(spans) && (SortedLines(reference) ==>
                                   forall i :: 0 <= i < |reference| ==> Covered(reference, i, spans))
    ensures Gathered(reference, transcript, spans, places, added, entries) && LeastIncreasing(entries, out)
  {
    hide Covered;
    hide LeastIncreasing;
    hide SpansOf;
    hide StableSort.Sort;
    hide StableSort.Sorted;
    hide FarApart;
    hide SortedLines;
    hide Stop, Gathered, Chosen;
    spans := CoveredSpans(reference);
    SpansAreApart(reference, |reference|);
    if SortedLines(reference) {
      SpansCover(reference);
    }
    var merged := Pasted(reference);
    for k := 0 to |transcript|
      invariant merged == Pasted(reference) + Transcript(transcript[..k], spans)
    {
      var line := transcript[k];
      assert transcript[..k + 1][..k] == transcript[..k];
      var inside := !line.speech && InsideSpans(line.start, spans);
      if !inside {
        merged := merged + [Entry(line.start, false, line.body)];
      }
    }
    assert transcript[..|transcript|] == transcript;
    var sorted := Sort(merged, Before);
    BeforeIsTotal();
    SortSorted(merged, Before);
    TranscriptStarts(transcript, spans);
    SameStarts(merged, sorted);
    places := TranscriptIsChosen(transcript, spans);
    SortedIsGathered(reference, transcript, spans, places);
    added, entries := Transcript(transcript, spans), sorted;
    out := Separate(sorted);
  }

  lemma {:induction false} SameStarts(merged: seq<Entry>, entries: seq<Entry>)
    requires multiset(entries) == multiset(merged) && forall k :: 0 <= k < |merged| ==> merged[k].start >= 0
    ensures forall k :: 0 <= k < |entries| ==> entries[k].start >= 0
  {
    forall k | 0 <= k < |entries| ensures entries[k].start >= 0 {
      assert entries[k] in multiset(merged);
      assert entries[k] in merged;
    }
  }

  lemma {:induction false} TranscriptStarts(lines: seq<Line>, spans: seq<Span>)
    requires forall k :: 0 <= k < |lines| ==> lines[k].start >= 0
    ensures forall k :: 0 <= k < |Transcript(lines, spans)| ==> Transcript(lines, spans)[k].start >= 0
  {
    if lines != [] {
      TranscriptStarts(lines[..|lines| - 1], spans);
    }
  }

  // ---- the two transcript passes ----

  const CONTIGUOUS_GAP: real := 20.0
  const LEAST_GAP: real := 0.3

  datatype Heard = Heard(key: string, time: real)

  predicate Hit(h: Heard, want: set<string>, lo: real, hi: real) {
    lo <= h.time <= hi && h.key in want
  }

  function FoundKeys(words: seq<Heard>, want: set<string>, lo: real, hi: real): (r: set<string>)
    ensures forall key :: key in r
              <==> exists k :: 0 <= k < |words| && words[k].key == key && Hit(words[k], want, lo, hi)
  {
    set k | 0 <= k < |words| && Hit(words[k], want, lo, hi) :: words[k].key
  }

  /** Time of the first hit; the words are in time order. */
  function FirstHit(words: seq<Heard>, want: set<string>, lo: real, hi: real): (r: Option<real>)
    ensures r.Some? ==> lo <= r.value <= hi
    ensures r.Some? <==> exists k :: 0 <= k < |words| && Hit(words[k], want, lo, hi)
    ensures r.Some? ==> exists k :: 0 <= k < |words| && Hit(words[k], want, lo, hi) && words[k].time == r.value
    ensures r.Some? ==> forall k :: 0 <= k < |words| && Hit(words[k], want, lo, hi) ==> r.value <= words[k].time
  {
    if words == [] then None
    else
      var last := words[|words| - 1];
      var before := FirstHit(words[..|words| - 1], want, lo, hi);
      if Hit(last, want, lo, hi) && (before.None? || last.time < before.value) then Some(last.time) else before
  }

  /** At least two and two fifths of the wanted words are heard in the interval. */
  ghost predicate OftenHeard(words: seq<Heard>, want: set<string>, lo: real, hi: real) {
    var heard := set key | key in want && exists k :: 0 <= k < |words| && words[k].key == key
                                            && lo <= words[k].time <= hi;
    |heard| >= 2 && 5 * |heard| >= 2 * |want|
  }

  /** The earliest time at which a wanted word is heard in the interval. */
  predicate FirstHeard(words: seq<Heard>, want: set<string>, lo: real, hi: real, t: real) {
    && (exists k :: 0 <= k < |words| && words[k].key in want && lo <= words[k].time <= hi && words[k].time == t)
    && forall k :: 0 <= k < |words| && words[k].key in want && lo <= words[k].time <= hi ==> t <= words[k].time
  }

  lemma {:induction false} FoundIsHeard(words: seq<Heard>, want: set<string>, lo: real, hi: real)
    ensures FoundKeys(words, want, lo, hi)
            == set key | key in want && exists k :: 0 <= k < |words| && words[k].key == key && lo <= words[k].time <= hi
  {
    var found := FoundKeys(words, want, lo, hi);
    forall key ensures key in found
      <==> key in want && exists k :: 0 <= k < |words| && words[k].key == key && lo <= words[k].time <= hi
    {
      if key in want && exists k :: 0 <= k < |words| && words[k].key == key && lo <= words[k].time <= hi {
        var k :| 0 <= k < |words| && words[k].key == key && lo <= words[k].time <= hi;
        assert Hit(words[k], want, lo, hi);
      }
    }
  }

  /** When at least two and two fifths of the wanted words are heard in the interval, the earliest of them. */
  function HeardAt(words: seq<Heard>, want: set<string>, lo: real, hi: real): (r: Option<real>)
    ensures r.Some? ==> lo <= r.value <= hi
    ensures r.Some? <==> OftenHeard(words, want, lo, hi)
    ensures r.Some? ==> FirstHeard(words, want, lo, hi, r.value)
  {
    FoundIsHeard(words, want, lo, hi);
    var found := FoundKeys(words, want, lo, hi);
    if |found| >= 2 && 10 * |found| >= 4 * |want| then FirstHit(words, want, lo, hi) else None
  }

  ghost predicate Rising(times: seq<real>) {
    forall i, j :: 0 <= i < j < |times| ==> times[i] <= times[j]
  }

  /** Where a line lands behind a line at `before`. */
  function Followed(before: real, time: real, want: set<string>, words: seq<Heard>): real {
    var t := if time - before > CONTIGUOUS_GAP then HeardAt(words, want, before + LEAST_GAP, before + CONTIGUOUS_GAP)
        else None;
    if t.Some? then t.value else time
  }

  /** Where a line lands ahead of a line at `after`, not before `floor`. */
  function Preceded(floor: real, time: real, after: real, want: set<string>, words: seq<Heard>): real {
    var lo := if after - CONTIGUOUS_GAP > floor then after - CONTIGUOUS_GAP else floor;
    var t := if after - time > CONTIGUOUS_GAP then HeardAt(words, want, lo, after - LEAST_GAP) else None;
    if t.Some? then t.value else time
  }

  /** A line more than 20 s behind its predecessor lands where it is first heard, between 0.3 s and 20 s behind it,
      if it is heard there often enough; any other line stays. */
  lemma {:induction false} FollowedExactly(before: real, time: real, want: set<string>, words: seq<Heard>)
    ensures var r, lo, hi := Followed(before, time, want, words), before + 0.3, before + 20.0;
            if time - before > 20.0 && OftenHeard(words, want, lo, hi) then FirstHeard(words, want, lo, hi, r)
            else r == time
  {
    hide OftenHeard, FirstHeard, HeardAt;
  }

  /** A line more than 20 s ahead of its successor lands where it is first heard in the 20 s before that, up to 0.3 s
      before it and not before the floor; any other line stays. */
  lemma {:induction false} PrecededExactly(floor: real, time: real, after: real, want: set<string>, words: seq<Heard>)
    ensures var r, hi := Preceded(floor, time, after, want, words), after - 0.3;
            var lo := if after - 20.0 > floor then after - 20.0 else floor;
            if after - time > 20.0 && OftenHeard(words, want, lo, hi) then FirstHeard(words, want, lo, hi, r)
            else r == time
  {
    hide OftenHeard, FirstHeard, HeardAt;
  }

  /** Forward: a line more than 20 s behind its predecessor moves to where it is heard behind it.
      Times stay in order and only move earlier, and no line that is still torn away is heard there. */
  method ForwardPass(times: array<real>, moved: array<bool>, wants: seq<set<string>>, words: seq<Heard>)
    requires 2 <= times.Length == moved.Length == |wants| && times as object != moved
    requires Rising(times[..]) && forall k :: 0 <= k < moved.Length ==> !moved[k]
    modifies times, moved
    ensures Rising(times[..])
    ensures times[0] == old(times[0])
    ensures forall k :: 0 < k < times.Length ==> times[k] == Followed(times[k - 1], old(times[k]), wants[k], words)
    ensures forall k :: 0 <= k < times.Length ==> times[k] <= old(times[k]) && (moved[k] <==> times[k] < old(times[k]))
    ensures forall k :: 0 < k < times.Length && times[k] - times[k - 1] > CONTIGUOUS_GAP ==>
                          HeardAt(words, wants[k], times[k - 1] + LEAST_GAP, times[k - 1] + CONTIGUOUS_GAP).None?
  {
    hide HeardAt, OftenHeard, FirstHeard, Rising;
    for i := 1 to times.Length
      invariant Rising(times[..])
      invariant forall k :: 0 <= k < i && k < times.Length
                  ==> times[k] <= old(times[k]) && (moved[k] <==> times[k] < old(times[k]))
      invariant forall k :: i <= k < times.Length ==> times[k] == old(times[k]) && !moved[k]
      invariant times[0] == old(times[0])
      invariant forall k :: 0 < k < i && k < times.Length
                  ==> times[k] == Followed(times[k - 1], old(times[k]), wants[k], words)
    {
      if times[i] - times[i - 1] > CONTIGUOUS_GAP {
        var t := HeardAt(words, wants[i], times[i - 1] + LEAST_GAP, times[i - 1] + CONTIGUOUS_GAP);
        var unmoved := i + 1 >= times.Length || !moved[i + 1];
        if t.Some? {
          var ahead := i + 1 >= times.Length || t.value < times[i + 1];
          if ahead || unmoved {
            ghost var before := times[..];
            StillRising(before, i, t.value);
            times[i], moved[i] := t.value, true;
            assert times[..] == before[i := t.value];
          }
        }
      }
    }
    forall k | 0 < k < times.Length && times[k] - times[k - 1] > CONTIGUOUS_GAP
      ensures HeardAt(words, wants[k], times[k - 1] + LEAST_GAP, times[k - 1] + CONTIGUOUS_GAP).None?
    {
      StillTorn(times[k - 1], old(times[k]), wants[k], words);
    }
  }

  lemma {:induction false} StillTorn(before: real, time: real, want: set<string>, words: seq<Heard>)
    requires Followed(before, time, want, words) - before > CONTIGUOUS_GAP
    ensures HeardAt(words, want, before + LEAST_GAP, before + CONTIGUOUS_GAP).None?
  {
  }

  /** Moving one time keeps the order if it stays above its predecessor and does not pass its
      successor - or does not pass its own old value. */
  lemma {:induction false} StillRising(times: seq<real>, i: nat, t: real)
    requires i < |times| && Rising(times)
    requires i > 0 ==> times[i - 1] <= t
    requires t <= times[i] || i + 1 == |times| || t <= times[i + 1]
    ensures Rising(times[i := t])
  {
    var next := times[i := t];
    forall j, k | 0 <= j < k < |times| ensures next[j] <= next[k] {
      if j == i {
        assert times[i] <= times[i + 1] <= times[k];
      } else if k == i {
        assert times[j] <= times[i - 1];
      }
    }
  }

  /** Backward: a line more than 20 s ahead of its successor moves to where it is heard before it.
      Times stay in order and only move later. */
  method BackwardPass(times: array<real>, moved: array<bool>, wants: seq<set<string>>, words: seq<Heard>)
    requires 2 <= times.Length == moved.Length == |wants| && times as object != moved
    requires Rising(times[..])
    modifies times, moved
    ensures Rising(times[..])
    ensures forall k :: 0 <= k < times.Length
              ==> old(times[k]) <= times[k] && (moved[k] <==> old(moved[k]) || old(times[k]) < times[k])
    ensures times[times.Length - 1] == old(times[times.Length - 1])
    ensures forall k :: 0 <= k < times.Length - 1 ==>
              times[k] == Preceded(if k > 0 then old(times[k - 1]) + LEAST_GAP else 0.0,
                                   old(times[k]), times[k + 1], wants[k], words)
  {
    hide HeardAt, OftenHeard, FirstHeard, Rising;
    var i := times.Length - 2;
    while i >= 0
      invariant -1 <= i < times.Length - 1
      invariant Rising(times[..])
      invariant forall k :: i < k < times.Length
                  ==> old(times[k]) <= times[k] && (moved[k] <==> old(moved[k]) || old(times[k]) < times[k])
      invariant forall k :: 0 <= k <= i ==> times[k] == old(times[k]) && moved[k] == old(moved[k])
      invariant times[times.Length - 1] == old(times[times.Length - 1])
      invariant forall k :: i < k < times.Length - 1 ==>
                  times[k] == Preceded(if k > 0 then old(times[k - 1]) + LEAST_GAP else 0.0,
                                       old(times[k]), times[k + 1], wants[k], words)
    {
      if times[i + 1] - times[i] > CONTIGUOUS_GAP {
        var floor := if i > 0 then times[i - 1] + LEAST_GAP else 0.0;
        var lo := if times[i + 1] - CONTIGUOUS_GAP > floor then times[i + 1] - CONTIGUOUS_GAP else floor;
        var t := HeardAt(words, wants[i], lo, times[i + 1] - LEAST_GAP);
        if t.Some? {
          ghost var before := times[..];
          StillRising(before, i, t.value);
          times[i], moved[i] := t.value, true;
          assert times[..] == before[i := t.value];
        }
      }
      i := i - 1;
    }
  }
}
