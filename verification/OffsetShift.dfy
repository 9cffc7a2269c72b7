/** Estimating and applying a constant offset between curated and aligned line times
    (`estimate_lrclib_offset`, `lrclib_offset_is_reliable`, `shift_lrc`).

    Tag times are whole centiseconds.  The median of an even number of differences can fall
    between two of them, so an offset is counted in half centiseconds, and the shifted tag is
    rounded to a whole centisecond by any rounding to a nearest value. */
module OffsetShift {
  import opened Numbers
  import opened Ranks
  import opened Options
  import opened StableSort
  import Agreement

  datatype Piece = LineTag(time: int) | WordTag(time: int) | Chunk(text: string)

  /** A body line: a metadata line such as `[ar:...]`, or any mix of tags and text. */
  datatype Line = Metadata(raw: string) | Line(pieces: seq<Piece>)

  datatype Timed = Timed(start: int, norm: string)

  datatype Estimate = Estimate(twiceOffset: int, matched: nat, spread: int)

  /** Comparison text of a line: whatever the code makes of the pieces that are not word tags. */
  type Fold = seq<Piece> -> string

  function WithoutWordTags(pieces: seq<Piece>): seq<Piece> {
    if pieces == [] then []
    else (if pieces[0].WordTag? then [] else [pieces[0]]) + WithoutWordTags(pieces[1..])
  }

  /** The curated entry of a line, if it has exactly one leading line tag and some text. */
  function CuratedEntry(line: Line, fold: Fold): Option<Timed> {
    if line.Metadata? || line.pieces == [] || !line.pieces[0].LineTag? then None
    else if |line.pieces| > 1 && line.pieces[1].LineTag? then None
    else
      var norm := fold(WithoutWordTags(line.pieces[1..]));
      if norm == [] then None else Some(Timed(line.pieces[0].time, norm))
  }

  function CuratedLines(body: seq<Line>, fold: Fold): seq<Timed> {
    if body == [] then []
    else
      var entry := CuratedEntry(body[0], fold);
      (if entry.Some? then [entry.value] else []) + CuratedLines(body[1..], fold)
  }

  function Norms(lines: seq<Timed>): (r: seq<string>)
    ensures |r| == |lines|
  {
    seq(|lines|, k requires 0 <= k < |lines| => lines[k].norm)
  }

  function Difference(curated: seq<Timed>, aligner: seq<Timed>, pair: (nat, nat)): int {
    if pair.0 < |curated| && pair.1 < |aligner| then aligner[pair.1].start - curated[pair.0].start else 0
  }

  function Differences(curated: seq<Timed>, aligner: seq<Timed>, pairs: seq<(nat, nat)>): (r: seq<int>)
    ensures |r| == |pairs|
  {
    seq(|pairs|, k requires 0 <= k < |pairs| => Difference(curated, aligner, pairs[k]))
  }

  function Pairing(curated: seq<Timed>, aligner: seq<Timed>): seq<(nat, nat)> {
    Agreement.Trace(Norms(curated), Norms(aligner), |curated|, |aligner|)
  }

  /** Median and interquartile range of sorted differences. */
  function Summary(sorted: seq<int>): Option<Estimate> {
    var n := |sorted|;
    if n < 2 then None
    else
      var upper := if 3 * n / 4 < n then 3 * n / 4 else n - 1;
      Some(Estimate(sorted[n / 2] + sorted[(n - 1) / 2], n, sorted[upper] - sorted[n / 4]))
  }

  function EstimateOf(curated: seq<Timed>, aligner: seq<Timed>): Option<Estimate> {
    Summary(Sort(Differences(curated, aligner, Pairing(curated, aligner)), AtMost))
  }

  /** Twice the median and the interquartile range, by rank: the offset is that of the middle differences, the spread
      lies between the differences at a quarter and at three quarters. */
  ghost predicate Summarises(differences: seq<int>, e: Estimate) {
    && e.matched == |differences|
    && (exists low, high :: Middles(differences, low, high) && e.twiceOffset == low + high)
    && (exists first, third :: Quarters(differences, first, third) && e.spread == third - first)
  }

  predicate Middles(s: seq<int>, low: int, high: int) {
    s != [] && Ranked(s, (|s| - 1) / 2, low) && Ranked(s, |s| / 2, high)
  }

  predicate Quarters(s: seq<int>, first: int, third: int) {
    Ranked(s, |s| / 4, first) && Ranked(s, 3 * |s| / 4, third)
  }

  lemma {:induction false} SummaryRanks(differences: seq<int>)
    ensures var e := Summary(Sort(differences, AtMost));
            (e.Some? <==> |differences| >= 2) && (e.Some? ==> Summarises(differences, e.value))
  {
    hide Sort, Ranked;
    var n := |differences|;
    if n >= 2 {
      assert 3 * n / 4 < n;
      SortedRanks(differences, (n - 1) / 2);
      SortedRanks(differences, n / 2);
      SortedRanks(differences, n / 4);
      SortedRanks(differences, 3 * n / 4);
      var sorted := Sort(differences, AtMost);
      assert Middles(differences, sorted[(n - 1) / 2], sorted[n / 2]);
      assert Quarters(differences, sorted[n / 4], sorted[3 * n / 4]);
    }
  }

  /** The estimate comes from a longest in-order pairing of equal texts. */
  method EstimateOffset(body: seq<Line>, aligned: Option<seq<Timed>>, fold: Fold) returns (r: Option<Estimate>)
    ensures r == if aligned.None? then None else EstimateOf(CuratedLines(body, fold), aligned.value)
    ensures aligned.Some? ==>
              var curated := CuratedLines(body, fold);
              var pairs := Pairing(curated, aligned.value);
              && (r.Some? <==> |pairs| >= 2)
              && (r.Some? ==> Summarises(Differences(curated, aligned.value, pairs), r.value))
    ensures r.Some? ==>
              && aligned.Some?
              && Agreement.Longest(Norms(CuratedLines(body, fold)), Norms(aligned.value), r.value.matched)
              && r.value.matched >= 2 && r.value.spread >= 0
  {
    hide Agreement.Trace, Agreement.Matching, Agreement.Longest, StableSort.Sort, CuratedLines, Differences, Norms;
    if aligned.None? {
      return None;
    }
    var curated := CuratedLines(body, fold);
    EstimateIsSupported(curated, aligned.value);
    SummaryRanks(Differences(curated, aligned.value, Pairing(curated, aligned.value)));
    hide Summarises;
    var pairs := Agreement.LcsPairs(Norms(curated), Norms(aligned.value));
    var deltas := Sort(Differences(curated, aligned.value, pairs), AtMost);
    var n := |deltas|;
    if n < 2 {
      return None;
    }
    var middle := deltas[n / 2] + deltas[(n - 1) / 2];
    var q1 := deltas[n / 4];
    var q3 := deltas[if 3 * n / 4 < n then 3 * n / 4 else n - 1];
    r := Some(Estimate(middle, n, q3 - q1));
  }

  lemma {:induction false} EstimateIsSupported(curated: seq<Timed>, aligner: seq<Timed>)
    ensures var r := EstimateOf(curated, aligner);
            r.Some? ==>
              && Agreement.Longest(Norms(curated), Norms(aligner), r.value.matched)
              && r.value.matched >= 2 && r.value.spread >= 0
  {
    hide Agreement.Trace, Agreement.Matching, Agreement.Longest, StableSort.Sort, StableSort.Sorted;
    var differences := Differences(curated, aligner, Pairing(curated, aligner));
    Agreement.LcsIsLongest(Norms(curated), Norms(aligner));
    AtMostIsTotal();
    SortSorted(differences, AtMost);
    SpreadNotNegative(Sort(differences, AtMost));
  }

  lemma {:induction false} SpreadNotNegative(sorted: seq<int>)
    requires Sorted(sorted, AtMost)
    ensures Summary(sorted).Some? ==> Summary(sorted).value.spread >= 0
  {
    if Summary(sorted).Some? {
      var n := |sorted|;
      var upper := if 3 * n / 4 < n then 3 * n / 4 else n - 1;
      if n / 4 < upper {
        assert AtMost(sorted[n / 4], sorted[upper]);
      }
    }
  }

  const MIN_LINES: nat := 10
  const MAX_SPREAD: int := 100
  const MIN_OFFSET: int := 200

  /** At least two seconds, ten lines, four fifths of the curated lines, one second of spread. */
  predicate Reliable(estimate: Option<Estimate>, curatedLines: nat) {
    && estimate.Some?
    && var e := estimate.value;
       && (if e.twiceOffset < 0 then -e.twiceOffset else e.twiceOffset) >= 2 * MIN_OFFSET
       && e.matched >= MIN_LINES
       && 10 * e.matched >= 8 * (if curatedLines > 1 then curatedLines else 1)
       && e.spread <= MAX_SPREAD
  }

  /** The gate in one line: at least two seconds either way, enough pairs for the body at hand, and a narrow spread. */
  lemma {:induction false} ReliableIff(e: Estimate, curatedLines: nat)
    ensures Reliable(Some(e), curatedLines) <==>
              && (e.twiceOffset >= 400 || e.twiceOffset <= -400) && e.spread <= 100
              && e.matched >= 10 && 5 * e.matched >= 4 * curatedLines
    ensures !Reliable(None, curatedLines)
  {
  }

  // ---- shifting ----

  /** Rounds half centiseconds to a nearest whole centisecond; halves may go either way. */
  ghost predicate Nearest(round: int -> int) {
    forall h :: -1 <= 2 * round(h) - h <= 1
  }

  function ShiftedTime(time: int, twiceOffset: int, round: int -> int): int {
    var h := 2 * time + twiceOffset;
    round(if h < 0 then 0 else h)
  }

  function ShiftedPiece(piece: Piece, twiceOffset: int, round: int -> int): Piece {
    match piece
    case LineTag(t) => LineTag(ShiftedTime(t, twiceOffset, round))
    case WordTag(t) => WordTag(ShiftedTime(t, twiceOffset, round))
    case Chunk(_) => piece
  }

  function ShiftedPieces(pieces: seq<Piece>, twiceOffset: int, round: int -> int): seq<Piece> {
    if pieces == [] then []
    else [ShiftedPiece(pieces[0], twiceOffset, round)] + ShiftedPieces(pieces[1..], twiceOffset, round)
  }

  function ShiftedLine(line: Line, twiceOffset: int, round: int -> int): Line {
    if line.Metadata? then line else Line(ShiftedPieces(line.pieces, twiceOffset, round))
  }

  function Shifted(body: seq<Line>, twiceOffset: int, round: int -> int): seq<Line> {
    if body == [] then [] else [ShiftedLine(body[0], twiceOffset, round)] + Shifted(body[1..], twiceOffset, round)
  }

  /** A time moved by the offset up to the rounding of half a centisecond, or stopped at zero. */
  predicate MovesTime(before: int, after: int, twiceOffset: int) {
    var h := 2 * before + twiceOffset;
    if h < 0 then after == 0 else h - 1 <= 2 * after <= h + 1
  }

  /** Tags stay tags of their kind with moved times, text stays text. */
  predicate MovesPiece(before: Piece, after: Piece, twiceOffset: int) {
    match before
    case LineTag(t) => after.LineTag? && MovesTime(t, after.time, twiceOffset)
    case WordTag(t) => after.WordTag? && MovesTime(t, after.time, twiceOffset)
    case Chunk(_) => after == before
  }

  predicate MovesLine(before: Line, after: Line, twiceOffset: int) {
    match before
    case Metadata(_) => after == before
    case Line(pieces) =>
      && after.Line? && |after.pieces| == |pieces|
      && forall k :: 0 <= k < |pieces| ==> MovesPiece(pieces[k], after.pieces[k], twiceOffset)
  }

  lemma {:induction false} PiecesMove(pieces: seq<Piece>, twiceOffset: int, round: int -> int)
    requires Nearest(round)
    ensures var after := ShiftedPieces(pieces, twiceOffset, round);
            && |after| == |pieces|
            && forall k :: 0 <= k < |pieces| ==> MovesPiece(pieces[k], after[k], twiceOffset)
  {
    hide ShiftedTime, Nearest;
    if pieces != [] {
      PiecesMove(pieces[1..], twiceOffset, round);
      if !pieces[0].Chunk? {
        TimeMoves(pieces[0].time, twiceOffset, round);
      }
      hide MovesTime;
    }
  }

  lemma {:induction false} LineMoves(line: Line, twiceOffset: int, round: int -> int)
    requires Nearest(round)
    ensures MovesLine(line, ShiftedLine(line, twiceOffset, round), twiceOffset)
  {
    hide ShiftedPieces, MovesPiece, Nearest;
    if line.Line? {
      PiecesMove(line.pieces, twiceOffset, round);
    }
  }

  /** The loop over the lines of the body. */
  method ShiftLrc(body: seq<Line>, twiceOffset: int, round: int -> int) returns (out: seq<Line>)
    ensures out == Shifted(body, twiceOffset, round)
    ensures |out| == |body|
    ensures Nearest(round) ==> forall k :: 0 <= k < |body| ==> MovesLine(body[k], out[k], twiceOffset)
  {
    hide ShiftedLine, Nearest, MovesLine;
    out := [];
    assert body[0..] == body;
    for k := 0 to |body|
      invariant |out| == k
      invariant out + Shifted(body[k..], twiceOffset, round) == Shifted(body, twiceOffset, round)
    {
      assert body[k..][1..] == body[k + 1..];
      out := out + [ShiftedLine(body[k], twiceOffset, round)];
    }
    if Nearest(round) {
      LinesMove(body, twiceOffset, round);
    }
  }

  lemma {:induction false} LinesMove(body: seq<Line>, twiceOffset: int, round: int -> int)
    requires Nearest(round)
    ensures var out := Shifted(body, twiceOffset, round);
            |out| == |body| && forall k :: 0 <= k < |body| ==> MovesLine(body[k], out[k], twiceOffset)
  {
    hide ShiftedLine, Nearest, MovesLine;
    if body != [] {
      LineMoves(body[0], twiceOffset, round);
      LinesMove(body[1..], twiceOffset, round);
    }
  }

  /** No line tag inside the text of a curated entry moves, so the text stays as it is. */
  predicate TextStays(line: Line, twiceOffset: int, round: int -> int) {
    line.Metadata? || (|line.pieces| > 1 && line.pieces[1].LineTag?)
    || forall k :: 1 <= k < |line.pieces| ==> TagStays(line.pieces[k], twiceOffset, round)
  }

  predicate TagStays(piece: Piece, twiceOffset: int, round: int -> int) {
    piece.LineTag? ==> ShiftedTime(piece.time, twiceOffset, round) == piece.time
  }

  ghost predicate Unclamped(lines: seq<Timed>, twiceOffset: int) {
    forall k :: 0 <= k < |lines| ==> 2 * lines[k].start + twiceOffset >= 0
  }

  /** The text behind the line tag is unchanged if and only if every line tag hidden in it stays. */
  lemma {:induction false} TextUnmoved(pieces: seq<Piece>, twiceOffset: int, round: int -> int)
    ensures WithoutWordTags(ShiftedPieces(pieces, twiceOffset, round)) == WithoutWordTags(pieces)
            <==> forall k :: 0 <= k < |pieces| ==> TagStays(pieces[k], twiceOffset, round)
  {
    hide ShiftedTime;
    if pieces != [] {
      TextUnmoved(pieces[1..], twiceOffset, round);
      var shifted := ShiftedPieces(pieces, twiceOffset, round);
      var rest := ShiftedPieces(pieces[1..], twiceOffset, round);
      assert shifted == [ShiftedPiece(pieces[0], twiceOffset, round)] + rest && shifted[1..] == rest;
      TextCons(pieces[0], pieces[1..]);
      TextCons(shifted[0], rest);
      assert pieces == [pieces[0]] + pieces[1..];
      FirstOrRest(pieces, twiceOffset, round);
      assert shifted[0] == pieces[0] || pieces[0].WordTag? <==> TagStays(pieces[0], twiceOffset, round);
      SameCons(shifted[0], pieces[0], WithoutWordTags(rest), WithoutWordTags(pieces[1..]));
      assert [] + WithoutWordTags(rest) == WithoutWordTags(rest);
      assert [] + WithoutWordTags(pieces[1..]) == WithoutWordTags(pieces[1..]);
      hide WithoutWordTags, TagStays, ShiftedPieces;
    }
  }

  lemma {:induction false} SameCons(x: Piece, y: Piece, xs: seq<Piece>, ys: seq<Piece>)
    ensures [x] + xs == [y] + ys <==> x == y && xs == ys
  {
    if [x] + xs == [y] + ys {
      assert ([x] + xs)[0] == x && ([y] + ys)[0] == y;
      assert ([x] + xs)[1..] == xs && ([y] + ys)[1..] == ys;
    }
  }

  lemma {:induction false} TextCons(piece: Piece, rest: seq<Piece>)
    ensures WithoutWordTags([piece] + rest) == (if piece.WordTag? then [] else [piece]) + WithoutWordTags(rest)
  {
    assert ([piece] + rest)[1..] == rest;
  }

  lemma {:induction false} FirstOrRest(pieces: seq<Piece>, twiceOffset: int, round: int -> int)
    requires pieces != []
    ensures (forall k :: 0 <= k < |pieces| ==> TagStays(pieces[k], twiceOffset, round))
            <==> TagStays(pieces[0], twiceOffset, round)
                 && forall k :: 0 <= k < |pieces[1..]| ==> TagStays(pieces[1..][k], twiceOffset, round)
  {
    hide TagStays;
    if forall k :: 0 <= k < |pieces[1..]| ==> TagStays(pieces[1..][k], twiceOffset, round) {
      forall k | 1 <= k < |pieces| ensures TagStays(pieces[k], twiceOffset, round) {
        assert pieces[1..][k - 1] == pieces[k];
      }
    }
  }

  lemma {:induction false} EntryShifts(line: Line, fold: Fold, twiceOffset: int, round: int -> int)
    requires TextStays(line, twiceOffset, round)
    ensures var entry := CuratedEntry(line, fold);
            CuratedEntry(ShiftedLine(line, twiceOffset, round), fold) ==
            if entry.None? then None
            else Some(Timed(ShiftedTime(entry.value.start, twiceOffset, round), entry.value.norm))
  {
    hide ShiftedTime;
    if line.Line? && line.pieces != [] {
      var rest := line.pieces[1..];
      var shifted := ShiftedPieces(line.pieces, twiceOffset, round);
      assert shifted[1..] == ShiftedPieces(rest, twiceOffset, round);
      if |line.pieces| > 1 {
        assert shifted[1] == ShiftedPiece(line.pieces[1], twiceOffset, round);
      }
      if |line.pieces| <= 1 || !line.pieces[1].LineTag? {
        assert forall k :: 0 <= k < |rest| ==> rest[k] == line.pieces[k + 1];
        TextUnmoved(rest, twiceOffset, round);
      }
    }
  }

  /** Shifting a body shifts its curated entries and nothing else about them. */
  lemma {:induction false} CuratedShifts(body: seq<Line>, fold: Fold, twiceOffset: int, round: int -> int)
    requires forall k :: 0 <= k < |body| ==> TextStays(body[k], twiceOffset, round)
    ensures var before, after := CuratedLines(body, fold), CuratedLines(Shifted(body, twiceOffset, round), fold);
            && |after| == |before|
            && forall k :: 0 <= k < |before|
                 ==> after[k] == Timed(ShiftedTime(before[k].start, twiceOffset, round), before[k].norm)
  {
    hide CuratedEntry, ShiftedLine, ShiftedTime, TextStays;
    if body != [] {
      var shifted := Shifted(body, twiceOffset, round);
      assert shifted[0] == ShiftedLine(body[0], twiceOffset, round);
      assert shifted[1..] == Shifted(body[1..], twiceOffset, round);
      EntryShifts(body[0], fold, twiceOffset, round);
      CuratedShifts(body[1..], fold, twiceOffset, round);
      CuratedStep(body, fold);
      CuratedStep(shifted, fold);
      hide CuratedLines, Shifted;
    }
  }

  lemma {:induction false} CuratedStep(body: seq<Line>, fold: Fold)
    requires body != []
    ensures var entry := CuratedEntry(body[0], fold);
            CuratedLines(body, fold) == (if entry.Some? then [entry.value] else []) + CuratedLines(body[1..], fold)
  {
    hide CuratedEntry;
  }

  // ---- order statistics move with their data ----

  /** `y` is the difference `x` after a shift by `t` half centiseconds: moved by `-t / 2` up to the rounding of an odd
      `t`, except that with clamped tags a difference above `t / 2` may keep any part of what exceeds it. */
  ghost predicate Moved(x: int, y: int, t: int, clamped: bool) {
    (if clamped && 2 * x > t then 0 else 2 * x - t - t % 2) <= 2 * y <= 2 * x - t + t % 2
  }

  ghost predicate AllMoved(xs: seq<int>, ys: seq<int>, t: int, clamped: bool) {
    |xs| == |ys| && forall k :: 0 <= k < |xs| ==> Moved(xs[k], ys[k], t, clamped)
  }

  /** Both bounds of `Moved` grow with `x`, so a value between two others may change places with them. */
  lemma {:induction false} MovedBetween(x: int, y: int, u: int, v: int, t: int, clamped: bool)
    requires Moved(x, y, t, clamped) && Moved(u, v, t, clamped)
    requires (x <= u && y >= v) || (x >= u && y <= v)
    ensures Moved(x, v, t, clamped) && Moved(u, y, t, clamped)
  {
  }

  lemma {:induction false} InsertMoves(x: int, y: int, xs: seq<int>, ys: seq<int>, t: int, clamped: bool)
    requires Moved(x, y, t, clamped) && AllMoved(xs, ys, t, clamped)
    requires Sorted(xs, AtMost) && Sorted(ys, AtMost)
    ensures AllMoved(Insert(x, xs, AtMost), Insert(y, ys, AtMost), t, clamped)
    decreases |xs|
  {
    hide Sorted, Moved, AllMoved;
    MovedParts(xs, ys, t, clamped);
    if xs == [] {
      ConsMoved(x, y, xs, ys, t, clamped);
    } else {
      var u, v, xr, yr := xs[0], ys[0], xs[1..], ys[1..];
      SortedTail(xs);
      SortedTail(ys);
      if x <= u && y <= v {
        ConsMoved(x, y, xs, ys, t, clamped);
      } else if x > u && y > v {
        InsertMoves(x, y, xr, yr, t, clamped);
        ConsMoved(u, v, Insert(x, xr, AtMost), Insert(y, yr, AtMost), t, clamped);
      } else if x <= u {
        MovedBetween(x, y, u, v, t, clamped);
        InsertMoves(u, y, xr, yr, t, clamped);
        InsertFirst(xs);
        ConsMoved(x, v, xs, Insert(y, yr, AtMost), t, clamped);
      } else {
        MovedBetween(x, y, u, v, t, clamped);
        InsertMoves(x, v, xr, yr, t, clamped);
        InsertFirst(ys);
        ConsMoved(u, y, Insert(x, xr, AtMost), ys, t, clamped);
      }
    }
  }

  lemma {:induction false} MovedParts(xs: seq<int>, ys: seq<int>, t: int, clamped: bool)
    requires AllMoved(xs, ys, t, clamped)
    ensures |xs| == |ys|
    ensures xs != [] ==> Moved(xs[0], ys[0], t, clamped) && AllMoved(xs[1..], ys[1..], t, clamped)
  {
    hide Moved;
  }

  lemma {:induction false} ConsMoved(x: int, y: int, xs: seq<int>, ys: seq<int>, t: int, clamped: bool)
    requires Moved(x, y, t, clamped) && AllMoved(xs, ys, t, clamped)
    ensures AllMoved([x] + xs, [y] + ys, t, clamped)
    ensures xs == [] ==> [x] + xs == [x] && [y] + ys == [y]
  {
    hide Moved;
  }

  lemma {:induction false} InsertFirst(s: seq<int>)
    requires s != [] && Sorted(s, AtMost)
    ensures Insert(s[0], s[1..], AtMost) == s
  {
    if |s| > 1 {
      assert AtMost(s[0], s[1]);
    }
  }

  /** Moving every element moves every order statistic. */
  lemma {:induction false} SortMoves(xs: seq<int>, ys: seq<int>, t: int, clamped: bool)
    requires AllMoved(xs, ys, t, clamped)
    ensures AllMoved(Sort(xs, AtMost), Sort(ys, AtMost), t, clamped)
  {
    hide Moved;
    if xs != [] {
      SortMoves(xs[1..], ys[1..], t, clamped);
      AtMostIsTotal();
      SortSorted(xs[1..], AtMost);
      SortSorted(ys[1..], AtMost);
      InsertMoves(xs[0], ys[0], Sort(xs[1..], AtMost), Sort(ys[1..], AtMost), t, clamped);
    }
  }

  /** The summary after a shift by the offset it gave: as many lines, and an offset of at most half the spread.  A whole
      offset vanishes if and only if the upper middle difference moved fully, which a single middle always does.
      Without clamping offset and spread are off by rounding only. */
  lemma {:induction false} SummaryMoves(xs: seq<int>, ys: seq<int>, t: int, clamped: bool)
    requires AllMoved(xs, ys, t, clamped) && Sorted(xs, AtMost) && Sorted(ys, AtMost)
    requires Summary(xs).Some? && Summary(xs).value.twiceOffset == t
    ensures Summary(ys).Some? && Summary(ys).value.matched == Summary(xs).value.matched == |xs|
    ensures -Summary(ys).value.spread <= Summary(ys).value.twiceOffset <= Summary(ys).value.spread
    ensures t % 2 == 0 ==> (Summary(ys).value.twiceOffset == 0
                            <==> |xs| % 2 == 1 || 2 * ys[|xs| / 2] >= 2 * xs[|xs| / 2] - t)
    ensures !clamped ==>
              && -(t % 2) <= Summary(ys).value.twiceOffset <= t % 2
              && -(t % 2) <= Summary(ys).value.spread - Summary(xs).value.spread <= t % 2
  {
    var n := |xs|;
    var low, high, lower, upper := (n - 1) / 2, n / 2, n / 4, if 3 * n / 4 < n then 3 * n / 4 else n - 1;
    SortedAt(xs, low, high);
    SortedAt(ys, lower, low);
    SortedAt(ys, high, upper);
    assert Moved(xs[high], ys[high], t, clamped) && Moved(xs[low], ys[low], t, clamped);
    assert Moved(xs[upper], ys[upper], t, clamped) && Moved(xs[lower], ys[lower], t, clamped);
    hide Moved, AllMoved, Sorted;
    MiddlesMove(xs[low], xs[high], ys[low], ys[high], t, clamped);
    QuartersMove(xs[lower], xs[upper], ys[lower], ys[upper], t);
  }

  /** The two middle differences around `t / 2`, after the shift: on both sides of zero. */
  lemma {:induction false} MiddlesMove(low: int, high: int, movedLow: int, movedHigh: int, t: int, clamped: bool)
    requires low <= high && low + high == t
    requires Moved(low, movedLow, t, clamped) && Moved(high, movedHigh, t, clamped)
    ensures movedLow <= 0 <= movedHigh || (low == high && movedLow == movedHigh == 0)
    ensures t % 2 == 0 ==>
              && (movedLow + movedHigh == 0 <==> 2 * movedHigh >= 2 * high - t)
              && (low == high ==> movedHigh == movedLow == 0)
    ensures !clamped ==> -(t % 2) <= movedLow + movedHigh <= t % 2
  {
  }

  lemma {:induction false} QuartersMove(low: int, high: int, movedLow: int, movedHigh: int, t: int)
    ensures Moved(low, movedLow, t, false) && Moved(high, movedHigh, t, false) ==>
              -(t % 2) <= (movedHigh - movedLow) - (high - low) <= t % 2
  {
  }

  /** The differences over one pairing, before and after. */
  lemma {:induction false} DifferencesMove(before: seq<Timed>, after: seq<Timed>, aligner: seq<Timed>,
                                           pairs: seq<(nat, nat)>,
                                           t: int, round: int -> int, clamped: bool)
    requires Nearest(round) && |after| == |before|
    requires if clamped then forall k :: 0 <= k < |aligner| ==> aligner[k].start >= 0 else Unclamped(before, t)
    requires forall k :: 0 <= k < |before| ==> after[k] == Timed(ShiftedTime(before[k].start, t, round), before[k].norm)
    requires forall k :: 0 <= k < |pairs| ==> pairs[k].0 < |before| && pairs[k].1 < |aligner|
    ensures AllMoved(Differences(before, aligner, pairs), Differences(after, aligner, pairs), t, clamped)
  {
    forall k | 0 <= k < |pairs|
      ensures Moved(Difference(before, aligner, pairs[k]), Difference(after, aligner, pairs[k]), t, clamped)
    {
      TimeMoves(before[pairs[k].0].start, t, round);
    }
  }

  lemma {:induction false} TimeMoves(time: int, t: int, round: int -> int)
    requires Nearest(round)
    ensures 2 * time + t >= 0 ==> -(t % 2) <= 2 * ShiftedTime(time, t, round) - (2 * time + t) <= t % 2
    ensures 2 * time + t < 0 ==> ShiftedTime(time, t, round) == 0
  {
    var h := 2 * time + t;
    assert -1 <= 2 * round(h) - h <= 1;
    assert -1 <= 2 * round(0) - 0 <= 1;
  }

  /** Texts pair up without looking at times: the same pairs, however the tags moved or clamped. */
  lemma {:induction false} PairingUnmoved(body: seq<Line>, aligner: seq<Timed>, fold: Fold, t: int, round: int -> int)
    requires forall k :: 0 <= k < |body| ==> TextStays(body[k], t, round)
    ensures Pairing(CuratedLines(Shifted(body, t, round), fold), aligner) == Pairing(CuratedLines(body, fold), aligner)
  {
    hide Agreement.Trace;
    CuratedShifts(body, fold, t, round);
    assert Norms(CuratedLines(Shifted(body, t, round), fold)) == Norms(CuratedLines(body, fold));
  }

  lemma {:induction false} PairingInRange(curated: seq<Timed>, aligner: seq<Timed>)
    ensures forall k :: 0 <= k < |Pairing(curated, aligner)| ==>
                          Pairing(curated, aligner)[k].0 < |curated| && Pairing(curated, aligner)[k].1 < |aligner|
  {
    hide Agreement.Trace;
    Agreement.LcsIsLongest(Norms(curated), Norms(aligner));
  }

  // ---- how many differences stay below a bound ----

  lemma {:induction false} CountCompare(xs: seq<int>, high: int, ys: seq<int>, bound: int)
    requires |xs| == |ys| && forall k :: 0 <= k < |xs| && xs[k] < high ==> ys[k] < bound
    ensures CountBelow(xs, high) <= CountBelow(ys, bound)
    ensures CountBelow(ys, bound) <= CountBelow(xs, high)
            <==> forall k :: 0 <= k < |ys| && ys[k] < bound ==> xs[k] < high
  {
    if xs != [] {
      var u, v := xs[1..], ys[1..];
      CountCompare(u, high, v, bound);
      if k :| 0 <= k < |ys| && ys[k] < bound && xs[k] >= high {
        assert k > 0 ==> v[k - 1] < bound && u[k - 1] >= high;
      } else {
        assert forall k :: 0 <= k < |v| && v[k] < bound ==> u[k] < high;
      }
    }
  }

  // ---- one shift is enough ----

  function LowerMiddle(curated: seq<Timed>, aligner: seq<Timed>): int
    requires Pairing(curated, aligner) != []
  {
    var n := |Pairing(curated, aligner)|;
    Sort(Differences(curated, aligner, Pairing(curated, aligner)), AtMost)[(n - 1) / 2]
  }

  function UpperMiddle(curated: seq<Timed>, aligner: seq<Timed>): int
    requires Pairing(curated, aligner) != []
  {
    var n := |Pairing(curated, aligner)|;
    Sort(Differences(curated, aligner, Pairing(curated, aligner)), AtMost)[n / 2]
  }

  /** Pairs that cannot reach the upper middle after a shift by `t`: their difference is smaller already, or the aligned
      line starts closer to zero than the upper middle lies above the offset. */
  function HeldBack(curated: seq<Timed>, aligner: seq<Timed>, pairs: seq<(nat, nat)>, middle: int, t: int): nat {
    if pairs == [] then 0
    else
      var p := pairs[0];
      (if Difference(curated, aligner, p) < middle
       || (p.1 < |aligner| && 2 * aligner[p.1].start < 2 * middle - t) then 1 else 0)
      + HeldBack(curated, aligner, pairs[1..], middle, t)
  }

  /** The held-back pairs are the ones whose shifted difference stays below. */
  lemma {:induction false} HeldBackCounts(before: seq<Timed>, after: seq<Timed>, aligner: seq<Timed>,
                                          pairs: seq<(nat, nat)>,
                                          middle: int, t: int, round: int -> int)
    requires Nearest(round) && |after| == |before| && t % 2 == 0
    requires forall k :: 0 <= k < |before| ==> after[k] == Timed(ShiftedTime(before[k].start, t, round), before[k].norm)
    requires forall k :: 0 <= k < |pairs| ==> pairs[k].0 < |before| && pairs[k].1 < |aligner|
    ensures CountBelow(Differences(after, aligner, pairs), middle - t / 2)
        == HeldBack(before, aligner, pairs, middle, t)
    decreases |pairs|
  {
    hide ShiftedTime;
    if pairs != [] {
      HeldBackCounts(before, after, aligner, pairs[1..], middle, t, round);
      TimeMoves(before[pairs[0].0].start, t, round);
      assert Differences(after, aligner, pairs)[1..] == Differences(after, aligner, pairs[1..]);
    }
  }

  /** Some pair at the lower middle difference has its tag rounded down when it is shifted by an odd `t`. */
  ghost predicate RoundsDown(curated: seq<Timed>, aligner: seq<Timed>, pairs: seq<(nat, nat)>, low: int, t: int,
                             round: int -> int) {
    exists k :: 0 <= k < |pairs| && Difference(curated, aligner, pairs[k]) == low && DownAt(curated, pairs[k], t, round)
  }

  predicate DownAt(curated: seq<Timed>, pair: (nat, nat), t: int, round: int -> int) {
    pair.0 < |curated| && 2 * ShiftedTime(curated[pair.0].start, t, round) < 2 * curated[pair.0].start + t
  }

  /** Pairs with a difference of at least `high` have their aligned line at `level` or later. */
  predicate AllFrom(curated: seq<Timed>, aligner: seq<Timed>, pairs: seq<(nat, nat)>, high: int, level: int) {
    forall k :: 0 <= k < |pairs| && pairs[k].1 < |aligner| && Difference(curated, aligner, pairs[k]) >= high ==>
                  aligner[pairs[k].1].start >= level
  }

  /** For an odd offset half way between the middles `low` and `high`: every pair from the upper middle on has its
      aligned line no closer to zero than the middles lie to the offset, one centisecond closer if the lower middle
      is rounded down. */
  ghost predicate FarEnough(curated: seq<Timed>, aligner: seq<Timed>, pairs: seq<(nat, nat)>, low: int, high: int,
                            t: int,
                            round: int -> int) {
    AllFrom(curated, aligner, pairs, high,
            (high - low - 1) / 2 - if RoundsDown(curated, aligner, pairs, low, t, round) then 1 else 0)
  }

  ghost predicate ShiftedPairs(before: seq<Timed>, after: seq<Timed>, aligner: seq<Timed>, pairs: seq<(nat, nat)>,
                               t: int,
                               round: int -> int) {
    && Nearest(round) && |after| == |before| && (forall k :: 0 <= k < |aligner| ==> aligner[k].start >= 0)
    && (forall k :: 0 <= k < |before| ==> after[k] == Timed(ShiftedTime(before[k].start, t, round), before[k].norm))
    && forall k :: 0 <= k < |pairs| ==> pairs[k].0 < |before| && pairs[k].1 < |aligner|
  }

  /** No difference lies between the middles `low` and `low + 2 * m + 1`. */
  ghost predicate NoneBetween(curated: seq<Timed>, aligner: seq<Timed>, pairs: seq<(nat, nat)>, low: int, m: int) {
    forall k :: 0 <= k < |pairs| ==>
      Difference(curated, aligner, pairs[k]) <= low || Difference(curated, aligner, pairs[k]) > low + 2 * m
  }

  /** Where one difference goes under an odd shift. */
  lemma {:induction false} OddPair(time: int, start: int, low: int, m: int, b: int, t: int, round: int -> int)
    requires Nearest(round) && start >= 0 && m >= 0 && t == 2 * low + 2 * m + 1
    ensures var x, y := start - time, start - ShiftedTime(time, t, round);
            && (x < low ==> y < -m)
            && (x == low ==> -m - 1 <= y <= -m && (y == -m <==> 2 * ShiftedTime(time, t, round) < 2 * time + t))
            && (x > low + 2 * m ==> y >= 0 && (b <= m ==> (y < b <==> start < b)))
  {
    TimeMoves(time, t, round);
  }

  lemma {:induction false} OddPairAt(before: seq<Timed>, after: seq<Timed>, aligner: seq<Timed>, pairs: seq<(nat, nat)>,
                                     low: int, m: int, b: int, t: int, round: int -> int, k: nat)
    requires ShiftedPairs(before, after, aligner, pairs, t, round) && NoneBetween(before, aligner, pairs, low, m)
    requires m >= 0 && t == 2 * low + 2 * m + 1 && k < |pairs|
    ensures var x, y := Difference(before, aligner, pairs[k]), Difference(after, aligner, pairs[k]);
            && (x < low ==> y < -m)
            && (x == low ==> -m - 1 <= y <= -m && (y == -m <==> DownAt(before, pairs[k], t, round)))
            && (x > low ==> x > low + 2 * m && y >= 0 && (b <= m ==> (y < b <==> aligner[pairs[k].1].start < b)))
  {
    hide ShiftedTime, Nearest;
    OddPair(before[pairs[k].0].start, aligner[pairs[k].1].start, low, m, b, t, round);
  }

  /** The lower middle ends one closer to zero exactly if it is rounded down. */
  lemma {:induction false} OddLower(before: seq<Timed>, after: seq<Timed>, aligner: seq<Timed>, pairs: seq<(nat, nat)>,
                                    low: int, m: int, t: int, round: int -> int)
    requires ShiftedPairs(before, after, aligner, pairs, t, round) && NoneBetween(before, aligner, pairs, low, m)
    requires m >= 0 && t == 2 * low + 2 * m + 1
    ensures var high, xs, ys := low + 2 * m + 1, Differences(before, aligner, pairs),
        Differences(after, aligner, pairs);
            && CountBelow(ys, -m) <= CountBelow(xs, high)
            && (CountBelow(xs, high) <= CountBelow(ys, -m) <==> !RoundsDown(before, aligner, pairs, low, t, round))
  {
    var high, xs, ys := low + 2 * m + 1, Differences(before, aligner, pairs), Differences(after, aligner, pairs);
    hide NoneBetween, ShiftedPairs, DownAt, CountBelow, Difference;
    forall k | 0 <= k < |pairs|
      ensures ys[k] < -m ==> xs[k] < high
      ensures xs[k] < high && ys[k] >= -m <==> xs[k] == low && DownAt(before, pairs[k], t, round)
    {
      OddPairAt(before, after, aligner, pairs, low, m, 0, t, round, k);
    }
    CountCompare(ys, -m, xs, high);
  }

  /** The upper middle keeps a level exactly if no pair above it starts closer to zero. */
  lemma {:induction false} OddUpper(before: seq<Timed>, after: seq<Timed>, aligner: seq<Timed>, pairs: seq<(nat, nat)>,
                                    low: int, m: int, level: int, t: int, round: int -> int)
    requires ShiftedPairs(before, after, aligner, pairs, t, round) && NoneBetween(before, aligner, pairs, low, m)
    requires m >= 0 && t == 2 * low + 2 * m + 1
    requires level <= m && -m <= level && (level == -m ==> !RoundsDown(before, aligner, pairs, low, t, round))
    ensures var high, xs, ys := low + 2 * m + 1, Differences(before, aligner, pairs),
        Differences(after, aligner, pairs);
            && CountBelow(xs, high) <= CountBelow(ys, level)
            && (CountBelow(ys, level) <= CountBelow(xs, high) <==> AllFrom(before, aligner, pairs, high, level))
  {
    var high, xs, ys := low + 2 * m + 1, Differences(before, aligner, pairs), Differences(after, aligner, pairs);
    assert forall k :: 0 <= k < |pairs| ==> pairs[k].1 < |aligner|;
    hide NoneBetween, ShiftedPairs, DownAt, CountBelow, Difference;
    forall k | 0 <= k < |pairs|
      ensures xs[k] < high ==> ys[k] < level
      ensures xs[k] >= high ==> (ys[k] < level <==> aligner[pairs[k].1].start < level)
    {
      OddPairAt(before, after, aligner, pairs, low, m, level, t, round, k);
    }
    CountCompare(xs, high, ys, level);
  }

  /** In a sorted list the two middles have nothing between them, and half of the list lies below the upper one. */
  lemma {:induction false} MiddlesApart(xs: seq<int>)
    requires |xs| >= 2 && |xs| % 2 == 0
    ensures var sorted, n := Sort(xs, AtMost), |xs|;
            && sorted[n / 2 - 1] <= sorted[n / 2]
            && (forall k :: 0 <= k < n ==> xs[k] <= sorted[n / 2 - 1] || xs[k] >= sorted[n / 2])
            && (sorted[n / 2 - 1] < sorted[n / 2] ==> CountBelow(xs, sorted[n / 2]) == n / 2)
  {
    hide Sort, Sorted, CountBelow;
    var sorted, n := Sort(xs, AtMost), |xs|;
    AtMostIsTotal();
    SortSorted(xs, AtMost);
    SortedAt(sorted, n / 2 - 1, n / 2);
    forall k | 0 <= k < n ensures xs[k] <= sorted[n / 2 - 1] || xs[k] >= sorted[n / 2] {
      assert xs[k] in multiset(xs);
      assert xs[k] in multiset(sorted);
      var j :| 0 <= j < n && sorted[j] == xs[k];
      if j < n / 2 {
        SortedAt(sorted, j, n / 2 - 1);
      } else {
        SortedAt(sorted, n / 2, j);
      }
    }
    CountSorted(xs, sorted[n / 2]);
    RankByCount(sorted, sorted[n / 2], n / 2);
    RankByCount(sorted, sorted[n / 2], n / 2 - 1);
  }

  /** After a shift by an odd offset at most half a centisecond is left above zero, and below zero if and only if the
      pairs from the upper middle on are far enough from zero. */
  lemma {:induction false} OddSettles(before: seq<Timed>, after: seq<Timed>, aligner: seq<Timed>,
                                      pairs: seq<(nat, nat)>,
                                      t: int, round: int -> int)
    requires ShiftedPairs(before, after, aligner, pairs, t, round) && t % 2 == 1
    requires var e := Summary(Sort(Differences(before, aligner, pairs), AtMost)); e.Some? && e.value.twiceOffset == t
    ensures var xs, ys := Sort(Differences(before, aligner, pairs), AtMost),
        Sort(Differences(after, aligner, pairs), AtMost);
            var n, again := |pairs|, Summary(ys);
            && n >= 2 && again.Some? && again.value.twiceOffset <= 1
            && (again.value.twiceOffset >= -1
                <==> FarEnough(before, aligner, pairs, xs[(n - 1) / 2], xs[n / 2], t, round))
  {
    hide Sort, Sorted, AtMost, CountBelow, Differences, Difference, ShiftedPairs, FarEnough, Moved, Nearest,
        ShiftedTime;
    MiddlesTravel(before, after, aligner, pairs, t, round);
    var xs, ys := Sort(Differences(before, aligner, pairs), AtMost), Sort(Differences(after, aligner, pairs), AtMost);
    OddMiddles(xs, t);
    OddMiddlesSettle(before, after, aligner, pairs, t, round, xs, ys);
  }

  lemma {:induction false} OddMiddlesSettle(before: seq<Timed>, after: seq<Timed>, aligner: seq<Timed>,
                                            pairs: seq<(nat, nat)>,
                                            t: int, round: int -> int, xs: seq<int>, ys: seq<int>)
    requires ShiftedPairs(before, after, aligner, pairs, t, round) && |xs| == |ys| == |pairs| >= 2 && |pairs| % 2 == 0
    requires xs == Sort(Differences(before, aligner, pairs), AtMost)
        && ys == Sort(Differences(after, aligner, pairs), AtMost)
    requires forall k :: 0 <= k < |xs| ==> Moved(xs[k], ys[k], t, true)
    requires t % 2 == 1 && xs[|xs| / 2 - 1] + xs[|xs| / 2] == t
    ensures var u := |pairs| / 2;
            && ys[u - 1] + ys[u] <= 1
            && (ys[u - 1] + ys[u] >= -1 <==> FarEnough(before, aligner, pairs, xs[u - 1], xs[u], t, round))
  {
    hide Sort, CountBelow, Differences, ShiftedPairs, FarEnough, Moved, Difference, AtMost;
    var u := |pairs| / 2;
    MiddlesApart(Differences(before, aligner, pairs));
    var low, high := xs[u - 1], xs[u];
    var m := (high - low - 1) / 2;
    assert high == low + 2 * m + 1;
    PairsAround(before, aligner, pairs, low, m);
    hide NoneBetween;
    OddDecides(before, after, aligner, pairs, low, m, t, round, ys[u - 1], ys[u]);
  }

  lemma {:induction false} PairsAround(curated: seq<Timed>, aligner: seq<Timed>, pairs: seq<(nat, nat)>, low: int,
                                       m: int)
    requires var xs := Differences(curated, aligner, pairs);
             forall k :: 0 <= k < |xs| ==> xs[k] <= low || xs[k] >= low + 2 * m + 1
    ensures NoneBetween(curated, aligner, pairs, low, m)
  {
    hide Difference;
    var xs := Differences(curated, aligner, pairs);
    forall k | 0 <= k < |pairs|
      ensures Difference(curated, aligner, pairs[k]) <= low || Difference(curated, aligner, pairs[k]) > low + 2 * m
    {
      assert xs[k] == Difference(curated, aligner, pairs[k]);
    }
  }

  lemma {:induction false} OddMiddles(xs: seq<int>, t: int)
    requires Summary(xs).Some? && Summary(xs).value.twiceOffset == t && t % 2 == 1
    ensures |xs| >= 2 && |xs| % 2 == 0 && (|xs| - 1) / 2 == |xs| / 2 - 1
    ensures var low, high := xs[|xs| / 2 - 1], xs[|xs| / 2];
            var m := (high - low - 1) / 2;
            low + high == t && high == low + 2 * m + 1 && t == 2 * low + 2 * m + 1
  {
  }

  lemma {:induction false} OddDecides(before: seq<Timed>, after: seq<Timed>, aligner: seq<Timed>,
                                      pairs: seq<(nat, nat)>,
                                      low: int, m: int, t: int, round: int -> int, lower: int, upper: int)
    requires ShiftedPairs(before, after, aligner, pairs, t, round) && NoneBetween(before, aligner, pairs, low, m)
    requires |pairs| >= 2 && m >= 0 && t == 2 * low + 2 * m + 1
    requires CountBelow(Differences(before, aligner, pairs), low + 2 * m + 1) == |pairs| / 2
    requires var ys, u := Sort(Differences(after, aligner, pairs), AtMost), |pairs| / 2;
             ys[u - 1] == lower && ys[u] == upper
    requires Moved(low, lower, t, true) && Moved(low + 2 * m + 1, upper, t, true)
    ensures lower + upper <= 1
    ensures lower + upper >= -1 <==> FarEnough(before, aligner, pairs, low, low + 2 * m + 1, t, round)
  {
    assert -m - 1 <= lower <= -m && 0 <= upper <= m + 1;
    hide Sort, Sorted, CountBelow, Differences, Difference, NoneBetween, ShiftedPairs, AllFrom, RoundsDown, Moved,
        AtMost;
    OddLowerEnds(before, after, aligner, pairs, low, m, t, round);
    var level := m - if RoundsDown(before, aligner, pairs, low, t, round) then 1 else 0;
    if m == 0 {
      NearZero(before, after, aligner, pairs, low + 2 * m + 1, level, t, round);
    } else {
      OddUpperKeeps(before, after, aligner, pairs, low, m, level, t, round);
    }
    assert (low + 2 * m + 1 - low - 1) / 2 == m;
  }

  lemma {:induction false} OddLowerEnds(before: seq<Timed>, after: seq<Timed>, aligner: seq<Timed>,
                                        pairs: seq<(nat, nat)>,
                                        low: int, m: int, t: int, round: int -> int)
    requires ShiftedPairs(before, after, aligner, pairs, t, round) && NoneBetween(before, aligner, pairs, low, m)
    requires |pairs| >= 2 && m >= 0 && t == 2 * low + 2 * m + 1
    requires CountBelow(Differences(before, aligner, pairs), low + 2 * m + 1) == |pairs| / 2
    ensures Sort(Differences(after, aligner, pairs), AtMost)[|pairs| / 2 - 1] >= -m
            <==> RoundsDown(before, aligner, pairs, low, t, round)
  {
    hide Sort, Sorted, CountBelow, Differences, Difference, NoneBetween, ShiftedPairs, RoundsDown, AtMost,
        TotalPreorder;
    AtMostIsTotal();
    var dy := Differences(after, aligner, pairs);
    SortSorted(dy, AtMost);
    OddLower(before, after, aligner, pairs, low, m, t, round);
    CountSorted(dy, -m);
    RankByCount(Sort(dy, AtMost), -m, |pairs| / 2 - 1);
  }

  lemma {:induction false} OddUpperKeeps(before: seq<Timed>, after: seq<Timed>, aligner: seq<Timed>,
                                         pairs: seq<(nat, nat)>,
                                         low: int, m: int, level: int, t: int, round: int -> int)
    requires ShiftedPairs(before, after, aligner, pairs, t, round) && NoneBetween(before, aligner, pairs, low, m)
    requires |pairs| >= 2 && m >= 0 && t == 2 * low + 2 * m + 1
    requires level <= m && -m <= level && (level == -m ==> !RoundsDown(before, aligner, pairs, low, t, round))
    requires CountBelow(Differences(before, aligner, pairs), low + 2 * m + 1) == |pairs| / 2
    ensures Sort(Differences(after, aligner, pairs), AtMost)[|pairs| / 2] >= level
            <==> AllFrom(before, aligner, pairs, low + 2 * m + 1, level)
  {
    hide Sort, Sorted, CountBelow, Differences, Difference, NoneBetween, ShiftedPairs, RoundsDown, AllFrom, AtMost,
        TotalPreorder;
    AtMostIsTotal();
    var dy := Differences(after, aligner, pairs);
    SortSorted(dy, AtMost);
    OddUpper(before, after, aligner, pairs, low, m, level, t, round);
    CountSorted(dy, level);
    RankByCount(Sort(dy, AtMost), level, |pairs| / 2);
  }

  lemma {:induction false} NearZero(before: seq<Timed>, after: seq<Timed>, aligner: seq<Timed>, pairs: seq<(nat, nat)>,
                                    high: int, level: int, t: int, round: int -> int)
    requires ShiftedPairs(before, after, aligner, pairs, t, round) && level <= 0
    ensures AllFrom(before, aligner, pairs, high, level)
  {
  }

  lemma {:induction false} MiddlesTravel(before: seq<Timed>, after: seq<Timed>, aligner: seq<Timed>,
                                         pairs: seq<(nat, nat)>,
                                         t: int, round: int -> int)
    requires ShiftedPairs(before, after, aligner, pairs, t, round) && t % 2 == 1
    ensures var xs, ys := Sort(Differences(before, aligner, pairs), AtMost),
        Sort(Differences(after, aligner, pairs), AtMost);
            |xs| == |ys| == |pairs| && forall k :: 0 <= k < |xs| ==> Moved(xs[k], ys[k], t, true)
  {
    hide Sort, Moved, ShiftedTime, Nearest, Differences;
    DifferencesMove(before, after, aligner, pairs, t, round, true);
    SortMoves(Differences(before, aligner, pairs), Differences(after, aligner, pairs), t, true);
  }

  /** Shift a body by its own estimate, clamped tags or not: the same lines pair up again, and no second shift is
      asked for.  The offset is then at most half the spread; a whole offset is gone if and only if the number of
      pairs is odd or at most half of the pairs are held back from the upper middle, and of an odd one at most half a
      centisecond is left if and only if the pairs from the upper middle on are far enough from zero.  When no tag is
      clamped, offset and spread are exact up to the rounding of a half centisecond. */
  lemma {:induction false} ShiftSettles(body: seq<Line>, aligner: seq<Timed>, fold: Fold, round: int -> int)
    requires Nearest(round) && forall k :: 0 <= k < |aligner| ==> aligner[k].start >= 0
    requires EstimateOf(CuratedLines(body, fold), aligner).Some?
    requires forall k :: 0 <= k < |body|
               ==> TextStays(body[k], EstimateOf(CuratedLines(body, fold), aligner).value.twiceOffset, round)
    ensures var before := CuratedLines(body, fold);
            var e, pairs := EstimateOf(before, aligner).value, Pairing(before, aligner);
            var again := EstimateOf(CuratedLines(Shifted(body, e.twiceOffset, round), fold), aligner);
            && again.Some? && again.value.matched == e.matched == |pairs|
            && -again.value.spread <= again.value.twiceOffset <= again.value.spread
            && (forall n :: !Reliable(again, n))
            && (e.twiceOffset % 2 == 0 ==>
                  (again.value.twiceOffset == 0
                   <==> e.matched % 2 == 1
                        || HeldBack(before, aligner, pairs, UpperMiddle(before, aligner), e.twiceOffset)
                           <= e.matched / 2))
            && (e.twiceOffset % 2 == 1 ==>
                  && again.value.twiceOffset <= 1
                  && (again.value.twiceOffset >= -1
                      <==> FarEnough(before, aligner, pairs, LowerMiddle(before, aligner), UpperMiddle(before, aligner),
                                     e.twiceOffset, round)))
            && (Unclamped(before, e.twiceOffset) ==>
                  && -1 <= again.value.twiceOffset <= 1 && -1 <= again.value.spread - e.spread <= 1
                  && (e.twiceOffset % 2 == 0 ==> again.value == Estimate(0, e.matched, e.spread)))
  {
    hide Agreement.Trace, Pairing, Summary, StableSort.Sort, Sorted, CuratedLines, Shifted, Differences, Moved,
        AllMoved,
         Unclamped, Nearest, ShiftedTime, HeldBack, CountBelow, TextStays, FarEnough;
    var before := CuratedLines(body, fold);
    var t := EstimateOf(before, aligner).value.twiceOffset;
    var after := CuratedLines(Shifted(body, t, round), fold);
    CuratedShifts(body, fold, t, round);
    PairingUnmoved(body, aligner, fold, t, round);
    PairingInRange(before, aligner);
    var pairs := Pairing(before, aligner);
    var xs, ys := Differences(before, aligner, pairs), Differences(after, aligner, pairs);
    SettledSummary(before, after, aligner, pairs, t, round);
  }

  lemma {:induction false} SettledSummary(before: seq<Timed>, after: seq<Timed>, aligner: seq<Timed>,
                                          pairs: seq<(nat, nat)>,
                                          t: int, round: int -> int)
    requires Nearest(round) && |after| == |before| && forall k :: 0 <= k < |aligner| ==> aligner[k].start >= 0
    requires forall k :: 0 <= k < |before| ==> after[k] == Timed(ShiftedTime(before[k].start, t, round), before[k].norm)
    requires forall k :: 0 <= k < |pairs| ==> pairs[k].0 < |before| && pairs[k].1 < |aligner|
    requires var e := Summary(Sort(Differences(before, aligner, pairs), AtMost)); e.Some? && e.value.twiceOffset == t
    ensures var xs, ys := Sort(Differences(before, aligner, pairs), AtMost),
        Sort(Differences(after, aligner, pairs), AtMost);
            var e, again, n := Summary(xs).value, Summary(ys), |pairs|;
            && n >= 2 && again.Some? && again.value.matched == e.matched == n
            && -again.value.spread <= again.value.twiceOffset <= again.value.spread
            && (t % 2 == 0 ==>
                  (again.value.twiceOffset == 0
                   <==> n % 2 == 1 || HeldBack(before, aligner, pairs, xs[n / 2], t) <= n / 2))
            && (t % 2 == 1 ==>
                  && again.value.twiceOffset <= 1
                  && (again.value.twiceOffset >= -1
                      <==> FarEnough(before, aligner, pairs, xs[(n - 1) / 2], xs[n / 2], t, round)))
            && (Unclamped(before, t) ==>
                  && -(t % 2) <= again.value.twiceOffset <= t % 2
                  && -(t % 2) <= again.value.spread - e.spread <= t % 2)
  {
    hide Sort, Sorted, Moved, AllMoved, Unclamped, Nearest, ShiftedTime, HeldBack, CountBelow, Differences, FarEnough;
    var xs, ys := Differences(before, aligner, pairs), Differences(after, aligner, pairs);
    AtMostIsTotal();
    SortSorted(xs, AtMost);
    SortSorted(ys, AtMost);
    DifferencesMove(before, after, aligner, pairs, t, round, true);
    SortMoves(xs, ys, t, true);
    SummaryMoves(Sort(xs, AtMost), Sort(ys, AtMost), t, true);
    if t % 2 == 0 {
      var middle := Sort(xs, AtMost)[|pairs| / 2];
      HeldBackCounts(before, after, aligner, pairs, middle, t, round);
      CountSorted(ys, middle - t / 2);
      RankByCount(Sort(ys, AtMost), middle - t / 2, |pairs| / 2);
    } else {
      OddSettles(before, after, aligner, pairs, t, round);
    }
    if Unclamped(before, t) {
      DifferencesMove(before, after, aligner, pairs, t, round, false);
      SortMoves(xs, ys, t, false);
      SummaryMoves(Sort(xs, AtMost), Sort(ys, AtMost), t, false);
    }
  }

  // ---- a clamped tag and a hidden tag ----

  function TwoLines(first: int, second: int, p: string, q: string): seq<Timed> {
    [Timed(first, p), Timed(second, q)]
  }

  lemma {:induction false} TwoLinesEstimate(first: int, second: int, a: int, b: int, p: string, q: string)
    requires b - second <= a - first
    ensures EstimateOf(TwoLines(first, second, p, q), TwoLines(a, b, p, q)) ==
            Some(Estimate((a - first) + (b - second), 2, (a - first) - (b - second)))
  {
    var x, y := TwoLines(first, second, p, q), TwoLines(a, b, p, q);
    var n := [p, q];
    assert Norms(x) == n && Norms(y) == n;
    assert Agreement.Trace(n, n, 0, 0) == [];
    assert Agreement.Trace(n, n, 1, 1) == [(0, 0)];
    assert Agreement.Trace(n, n, 2, 2) == [(0, 0), (1, 1)];
    var d := Differences(x, y, [(0, 0), (1, 1)]);
    assert d == [a - first, b - second];
    assert d[1..] == [b - second] && d[1..][1..] == [];
    assert Sort(d[1..], AtMost) == [b - second];
    assert Sort(d, AtMost) == Insert(a - first, [b - second], AtMost);
    if a - first == b - second {
      assert Sort(d, AtMost) == [b - second, b - second];
    } else {
      assert [b - second][1..] == [] && Insert(a - first, [], AtMost) == [a - first];
      assert Insert(a - first, [b - second], AtMost) == [b - second] + [a - first];
      assert Sort(d, AtMost) == [b - second, a - first];
    }
  }

  function TwoLineBody(first: int, second: int): seq<Line> {
    [Line([LineTag(first), Chunk("a")]), Line([LineTag(second), Chunk("b")])]
  }

  lemma {:induction false} TwoLineBodyShifts(first: int, second: int, t: int, round: int -> int, fold: Fold)
    requires fold([Chunk("a")]) != [] && fold([Chunk("b")]) != []
    ensures CuratedLines(TwoLineBody(first, second), fold)
        == TwoLines(first, second, fold([Chunk("a")]), fold([Chunk("b")]))
    ensures Shifted(TwoLineBody(first, second), t, round)
        == TwoLineBody(ShiftedTime(first, t, round), ShiftedTime(second, t, round))
  {
    hide ShiftedTime;
    var body := TwoLineBody(first, second);
    assert body[1..] == [body[1]] && body[1..][1..] == [];
    OneLineShifts(first, "a", t, round, fold);
    OneLineShifts(second, "b", t, round, fold);
    assert CuratedLines([], fold) == [] && Shifted([], t, round) == [];
    assert CuratedLines(body[1..], fold) == [Timed(second, fold([Chunk("b")]))];
    assert Shifted(body[1..], t, round) == [ShiftedLine(body[1], t, round)];
  }

  lemma {:induction false} OneLineShifts(time: int, text: string, t: int, round: int -> int, fold: Fold)
    requires fold([Chunk(text)]) != []
    ensures CuratedEntry(Line([LineTag(time), Chunk(text)]), fold) == Some(Timed(time, fold([Chunk(text)])))
    ensures ShiftedLine(Line([LineTag(time), Chunk(text)]), t, round)
        == Line([LineTag(ShiftedTime(time, t, round)), Chunk(text)])
  {
    hide ShiftedTime;
    var pieces := [LineTag(time), Chunk(text)];
    assert pieces[1..] == [Chunk(text)] && [Chunk(text)][1..] == [];
    assert WithoutWordTags([]) == [] && ShiftedPieces([], t, round) == [];
    assert WithoutWordTags([Chunk(text)]) == [Chunk(text)];
    assert ShiftedPieces([Chunk(text)], t, round) == [Chunk(text)];
  }

  /** A body of two lines at 1 s and 20 s, aligned at 0 s and 10 s: the estimate is -5.5 s, the first line stops at zero
      instead of going to -4.5 s, and the estimate over the shifted body is -2.25 s. */
  lemma {:induction false} ClampedShiftLeavesOffset(round: int -> int, fold: Fold)
    requires Nearest(round) && fold([Chunk("a")]) != [] && fold([Chunk("b")]) != []
    ensures var body := TwoLineBody(100, 2000);
            var aligner := TwoLines(0, 1000, fold([Chunk("a")]), fold([Chunk("b")]));
            && EstimateOf(CuratedLines(body, fold), aligner) == Some(Estimate(-1100, 2, 900))
            && EstimateOf(CuratedLines(Shifted(body, -1100, round), fold), aligner) == Some(Estimate(-450, 2, 450))
  {
    hide EstimateOf, CuratedLines, Shifted;
    var p, q := fold([Chunk("a")]), fold([Chunk("b")]);
    TwoLineBodyShifts(100, 2000, -1100, round, fold);
    TwoLinesEstimate(100, 2000, 0, 1000, p, q);
    TimeMoves(100, -1100, round);
    TimeMoves(2000, -1100, round);
    TwoLineBodyShifts(0, 1450, 0, round, fold);
    TwoLinesEstimate(0, 1450, 0, 1000, p, q);
  }

  /** With the second line a centisecond later the estimate is odd, -5.505 s, and at least 2.25 s are left. */
  lemma {:induction false} ClampedOddShiftLeavesOffset(round: int -> int, fold: Fold)
    requires Nearest(round) && fold([Chunk("a")]) != [] && fold([Chunk("b")]) != []
    ensures var body := TwoLineBody(100, 2001);
            var aligner := TwoLines(0, 1000, fold([Chunk("a")]), fold([Chunk("b")]));
            var again := EstimateOf(CuratedLines(Shifted(body, -1101, round), fold), aligner);
            && EstimateOf(CuratedLines(body, fold), aligner) == Some(Estimate(-1101, 2, 901))
            && again.Some? && again.value.twiceOffset <= -450
  {
    hide EstimateOf, CuratedLines, Shifted;
    var p, q := fold([Chunk("a")]), fold([Chunk("b")]);
    TwoLineBodyShifts(100, 2001, -1101, round, fold);
    TwoLinesEstimate(100, 2001, 0, 1000, p, q);
    TimeMoves(100, -1101, round);
    TimeMoves(2001, -1101, round);
    var second := ShiftedTime(2001, -1101, round);
    TwoLineBodyShifts(0, second, 0, round, fold);
    TwoLinesEstimate(0, second, 0, 1000, p, q);
  }

  /** A line tag hidden behind the text moves with the rest, and the line no longer pairs with its aligned counterpart,
      provided texts that differ in a tag differ. */
  lemma {:induction false} HiddenTagLosesPair(round: int -> int, fold: Fold, start: int)
    requires Nearest(round)
    requires fold([Chunk("a"), LineTag(900)]) != []
        && fold([Chunk("a"), LineTag(500)]) != fold([Chunk("a"), LineTag(900)])
    ensures var body := [Line([LineTag(700), Chunk("a"), LineTag(900)])];
            var aligner := [Timed(start, fold([Chunk("a"), LineTag(900)]))];
            && !TextStays(body[0], -800, round)
            && Pairing(CuratedLines(body, fold), aligner) == [(0, 0)]
            && Pairing(CuratedLines(Shifted(body, -800, round), fold), aligner) == []
  {
    TimeMoves(900, -800, round);
    TimeMoves(700, -800, round);
    hide ShiftedTime;
    var pieces, moved := [LineTag(700), Chunk("a"), LineTag(900)], [LineTag(300), Chunk("a"), LineTag(500)];
    var body := [Line(pieces)];
    assert pieces[2].LineTag? && !TagStays(pieces[2], -800, round);
    ShiftThree(700, 900, round);
    assert body[1..] == [];
    assert Shifted([], -800, round) == [] && CuratedLines([], fold) == [];
    assert Shifted(body, -800, round) == [Line(moved)];
    assert [Line(moved)][1..] == [];
    TextOfThree(700, 900);
    TextOfThree(300, 500);
    var before, after := CuratedLines(body, fold), CuratedLines([Line(moved)], fold);
    assert before == [Timed(700, fold([Chunk("a"), LineTag(900)]))];
    var n := [fold([Chunk("a"), LineTag(900)])];
    assert Norms(before) == n;
    assert Agreement.Trace(n, n, 0, 0) == [];
    assert Agreement.Trace(n, n, 1, 1) == [(0, 0)];
    if after != [] {
      assert after == [Timed(300, fold([Chunk("a"), LineTag(500)]))];
      var m := [fold([Chunk("a"), LineTag(500)])];
      assert Norms(after) == m;
      assert Agreement.Trace(m, n, 0, 1) == [] && Agreement.Trace(m, n, 1, 0) == [];
      assert Agreement.Trace(m, n, 1, 1) == [];
    }
  }

  lemma {:induction false} ShiftThree(first: int, hidden: int, round: int -> int)
    ensures ShiftedPieces([LineTag(first), Chunk("a"), LineTag(hidden)], -800, round)
            == [LineTag(ShiftedTime(first, -800, round)), Chunk("a"), LineTag(ShiftedTime(hidden, -800, round))]
  {
    hide ShiftedTime;
    var pieces := [LineTag(first), Chunk("a"), LineTag(hidden)];
    assert pieces[1..] == [Chunk("a"), LineTag(hidden)] && pieces[1..][1..] == [LineTag(hidden)]
        && [LineTag(hidden)][1..] == [];
    assert ShiftedPieces([], -800, round) == [];
    assert ShiftedPieces([LineTag(hidden)], -800, round) == [LineTag(ShiftedTime(hidden, -800, round))];
  }

  lemma {:induction false} TextOfThree(first: int, hidden: int)
    ensures WithoutWordTags([LineTag(first), Chunk("a"), LineTag(hidden)][1..]) == [Chunk("a"), LineTag(hidden)]
  {
    var rest := [Chunk("a"), LineTag(hidden)];
    assert [LineTag(first), Chunk("a"), LineTag(hidden)][1..] == rest && rest[1..] == [LineTag(hidden)]
        && [LineTag(hidden)][1..] == [];
    assert WithoutWordTags([]) == [];
    assert WithoutWordTags([LineTag(hidden)]) == [LineTag(hidden)];
  }
}
