/** Overlaying aligner word times on curated lines (`merge_lrclib_word_tags`).

    One cursor walks the aligner's lines while the curated lines are visited in
    order.  An aligner line is consumed by a curated line with the same text; if
    the times disagree it is dropped, unless a later curated line with the same
    text agrees with it: then the cursor waits. */
module WordTagMerge {
  import opened Options
  import opened Text

  // ---- aligner lines ----

  /** A line of the aligner's output: its line tag, whitespace-normal text, all
      word-tag times, and whether nothing but space follows the last word tag. */
  datatype RawAligned = NoTag | RawAligned(start: int, norm: string, tags: seq<int>, bareEnd: bool)

  datatype Aligned = Aligned(start: int, norm: string, wordStarts: seq<int>, end: Option<int>)

  predicate NonDecreasing(s: seq<int>) {
    forall k :: 0 <= k < |s| - 1 ==> s[k] <= s[k + 1]
  }

  function ParseAligned(raw: RawAligned): Option<Aligned> {
    if raw.NoTag? || raw.norm == [] then None
    else if |raw.tags| >= 2 && raw.bareEnd && NonDecreasing(raw.tags) then
      Some(Aligned(raw.start, raw.norm, raw.tags[..|raw.tags| - 1], Some(raw.tags[|raw.tags| - 1])))
    else Some(Aligned(raw.start, raw.norm, [], None))
  }

  function ParseAlignedLines(raws: seq<RawAligned>): seq<Aligned> {
    if raws == [] then []
    else
      var last := ParseAligned(raws[|raws| - 1]);
      ParseAlignedLines(raws[..|raws| - 1]) + (if last.Some? then [last.value] else [])
  }

  /** Word times come with a sung end, do not decrease, and do not pass the end. */
  ghost predicate UsableTimes(a: Aligned) {
    && (a.wordStarts == [] <==> a.end.None?)
    && (a.end.Some? ==> NonDecreasing(a.wordStarts + [a.end.value]))
  }

  lemma {:induction false} ParsedAligned(raws: seq<RawAligned>)
    ensures forall k :: 0 <= k < |ParseAlignedLines(raws)| ==>
                          ParseAlignedLines(raws)[k].norm != [] && UsableTimes(ParseAlignedLines(raws)[k])
  {
    if raws != [] {
      var raw := raws[|raws| - 1];
      ParsedAligned(raws[..|raws| - 1]);
      var last := ParseAligned(raw);
      if last.Some? && last.value.end.Some? {
        assert last.value.wordStarts + [last.value.end.value] == raw.tags;
      }
    }
  }

  /** The line keeps its start and text; its word times are all its tags but the last, which is the sung end, if these
      are at least two in order with nothing behind them, and none otherwise. */
  predicate ReadsAs(raw: RawAligned, a: Aligned) {
    && raw.RawAligned? && a.start == raw.start && a.norm == raw.norm
    && if |raw.tags| >= 2 && raw.bareEnd && NonDecreasing(raw.tags)
       then a.end.Some? && a.wordStarts + [a.end.value] == raw.tags
       else a.end.None? && a.wordStarts == []
  }

  /** Exactly the lines with a tag and text are kept, in order; `places` tells which. */
  ghost predicate KeptLines(raws: seq<RawAligned>, parsed: seq<Aligned>, places: seq<nat>) {
    && |places| == |parsed| && (forall j, k :: 0 <= j < k < |places| ==> places[j] < places[k])
    && (forall k :: 0 <= k < |places| ==> places[k] < |raws| && ReadsAs(raws[places[k]], parsed[k]))
    && forall i: nat :: i < |raws| ==> (i in places <==> raws[i].RawAligned? && raws[i].norm != [])
  }

  lemma {:induction false} KeepNext(raws: seq<RawAligned>, parsed: seq<Aligned>, places: seq<nat>, raw: RawAligned)
    requires KeptLines(raws, parsed, places)
    ensures var more, a := raws + [raw], ParseAligned(raw);
            && (a.None? ==> KeptLines(more, parsed, places))
            && (a.Some? ==> KeptLines(more, parsed + [a.value], places + [|raws|]))
  {
    var more, a := raws + [raw], ParseAligned(raw);
    if a.Some? {
      assert ReadsAs(raw, a.value) by {
        if a.value.end.Some? {
          assert a.value.wordStarts + [a.value.end.value] == raw.tags;
        }
      }
      hide ReadsAs;
      var ks, lines := places + [|raws|], parsed + [a.value];
      forall i: nat | i < |more| ensures i in ks <==> more[i].RawAligned? && more[i].norm != [] {
        assert i < |raws| ==> (i in ks <==> i in places);
      }
    }
  }

  lemma {:induction false} NothingKept()
    ensures KeptLines([], [], [])
  {
  }

  /** The body of the loop: nothing without a tag or without text; word times only if they and the end never
      decrease. */
  method ParseAlignerLine(raw: RawAligned) returns (a: Option<Aligned>)
    ensures a == ParseAligned(raw)
    ensures a.Some? <==> raw.RawAligned? && raw.norm != []
    ensures a.Some? ==> ReadsAs(raw, a.value)
  {
    a := None;
    if raw.RawAligned? && raw.norm != [] {
      var wordStarts, end := [], None;
      if |raw.tags| >= 2 && raw.bareEnd {
        var starts, last := raw.tags[..|raw.tags| - 1], raw.tags[|raw.tags| - 1];
        var monotonic := NonDecreasing(starts) && last >= starts[|starts| - 1];
        assert monotonic <==> NonDecreasing(raw.tags);
        if monotonic {
          wordStarts, end := starts, Some(last);
        }
      }
      a := Some(Aligned(raw.start, raw.norm, wordStarts, end));
    }
  }

  method ParseAlignerLines(raws: seq<RawAligned>) returns (parsed: seq<Aligned>, ghost places: seq<nat>)
    ensures parsed == ParseAlignedLines(raws)
    ensures forall k :: 0 <= k < |parsed| ==> parsed[k].norm != [] && UsableTimes(parsed[k])
    ensures KeptLines(raws, parsed, places)
  {
    hide KeptLines, UsableTimes, ParseAligned;
    parsed, places := [], [];
    NothingKept();
    for k := 0 to |raws|
      invariant parsed == ParseAlignedLines(raws[..k])
      invariant KeptLines(raws[..k], parsed, places)
    {
      KeepNext(raws[..k], parsed, places, raws[k]);
      assert raws[..k + 1] == raws[..k] + [raws[k]];
      assert raws[..k + 1][..k] == raws[..k];
      var a := ParseAlignerLine(raws[k]);
      if a.Some? {
        parsed, places := parsed + [a.value], places + [k];
      }
    }
    assert raws[..|raws|] == raws;
    ParsedAligned(raws);
  }

  // ---- curated lines ----

  /** A curated line: no line tag at all, or its first tag verbatim, the text behind
      it, that text without tags and whitespace-normal, and all leading tag times. */
  datatype Curated = Untagged(raw: string) | Tagged(prefix: string, text: string, norm: string, times: seq<int>)

  function Raw(c: Curated): string {
    if c.Untagged? then c.raw else c.prefix + c.text
  }

  predicate Candidate(c: Curated) {
    c.Tagged? && c.norm != []
  }

  predicate SingleTag(c: Curated) {
    c.Tagged? && |c.times| == 1
  }

  function Anchors(a: Aligned): seq<int> {
    [a.start] + if |a.wordStarts| >= 2 then [a.wordStarts[1]] else []
  }

  function Apart(x: int, y: int): nat {
    if x < y then y - x else x - y
  }

  predicate Near(a: Aligned, times: seq<int>, tolerance: int) {
    exists k, l :: 0 <= k < |Anchors(a)| && 0 <= l < |times| && Apart(Anchors(a)[k], times[l]) <= tolerance
  }

  /** `a` is the aligner's counterpart of `c`: same text, time within tolerance. */
  predicate Fits(c: Curated, a: Aligned, tolerance: int) {
    Candidate(c) && c.norm == a.norm && Near(a, c.times, tolerance)
  }

  // ---- the walk ----

  datatype Step = Skip | Take | Drop

  function Decide(lines: seq<Curated>, aligner: seq<Aligned>, i: nat, cursor: nat, tolerance: int): Step
    requires i < |lines|
  {
    var c := lines[i];
    if !Candidate(c) || cursor >= |aligner| || aligner[cursor].norm != c.norm then Skip
    else if Near(aligner[cursor], c.times, tolerance) then Take
    else if exists k :: i < k < |lines| && Fits(lines[k], aligner[cursor], tolerance) then Skip
    else Drop
  }

  /** The cursor before line `i`. */
  function CursorAt(lines: seq<Curated>, aligner: seq<Aligned>, i: nat, tolerance: int): (c: nat)
    requires i <= |lines|
    ensures c <= |aligner|
  {
    if i == 0 then 0
    else
      var before := CursorAt(lines, aligner, i - 1, tolerance);
      if Decide(lines, aligner, i - 1, before, tolerance).Skip? then before else before + 1
  }

  function StepAt(lines: seq<Curated>, aligner: seq<Aligned>, i: nat, tolerance: int): Step
    requires i < |lines|
  {
    Decide(lines, aligner, i, CursorAt(lines, aligner, i, tolerance), tolerance)
  }

  /** The curated lines before `i` that took an aligner line. */
  function TakenBy(lines: seq<Curated>, aligner: seq<Aligned>, i: nat, tolerance: int): seq<nat>
    requires i <= |lines|
  {
    if i == 0 then []
    else
      TakenBy(lines, aligner, i - 1, tolerance)
      + (if StepAt(lines, aligner, i - 1, tolerance).Take? then [i - 1] else [])
  }

  function EligibleBefore(lines: seq<Curated>, i: nat): nat
    requires i <= |lines|
  {
    if i == 0 then 0 else EligibleBefore(lines, i - 1) + if Candidate(lines[i - 1])
        && SingleTag(lines[i - 1]) then 1 else 0
  }

  function MatchedBefore(lines: seq<Curated>, aligner: seq<Aligned>, i: nat, tolerance: int): nat
    requires i <= |lines|
  {
    if i == 0 then 0
    else MatchedBefore(lines, aligner, i - 1, tolerance)
         + if StepAt(lines, aligner, i - 1, tolerance).Take? && SingleTag(lines[i - 1]) then 1 else 0
  }

  // ---- completeness of the walk ----

  /** Every aligner line has a curated counterpart, in order. */
  ghost predicate Embeds(lines: seq<Curated>, aligner: seq<Aligned>, places: seq<nat>, tolerance: int) {
    && |places| == |aligner|
    && (forall c :: 0 <= c < |places| ==> places[c] < |lines| && Fits(lines[places[c]], aligner[c], tolerance))
    && (forall c, d :: 0 <= c < d < |places| ==> places[c] < places[d])
  }

  /** A line that stands before the place of the current aligner line, or is that place, never drops it, and passes it
      by only when the place is still ahead. */
  lemma {:induction false} DecisionKeepsPlace(lines: seq<Curated>, aligner: seq<Aligned>, i: nat, cursor: nat,
                                              place: nat, tolerance: int)
    requires i <= place < |lines| && cursor < |aligner| && Fits(lines[place], aligner[cursor], tolerance)
    ensures !Decide(lines, aligner, i, cursor, tolerance).Drop?
    ensures Decide(lines, aligner, i, cursor, tolerance).Skip? ==> i < place
  {
    hide Near;
  }

  lemma {:induction false} PlaceOf(lines: seq<Curated>, aligner: seq<Aligned>, places: seq<nat>, c: nat, tolerance: int)
    requires Embeds(lines, aligner, places, tolerance) && c < |aligner|
    ensures c < |places| && places[c] < |lines| && Fits(lines[places[c]], aligner[c], tolerance)
    ensures forall d :: c < d < |places| ==> places[c] < places[d]
  {
    hide Fits;
  }

  /** With an embedding the cursor never runs past its places, and nothing is dropped. */
  lemma {:induction false} CursorFollows(lines: seq<Curated>, aligner: seq<Aligned>, places: seq<nat>, i: nat,
                                         tolerance: int)
    requires i <= |lines| && Embeds(lines, aligner, places, tolerance)
    ensures var cursor := CursorAt(lines, aligner, i, tolerance);
            && (cursor < |aligner| ==> |places| == |aligner| && i <= places[cursor] < |lines|)
            && |TakenBy(lines, aligner, i, tolerance)| == cursor
  {
    hide Decide, Near, Fits, Embeds;
    var after := CursorAt(lines, aligner, i, tolerance);
    if after < |aligner| {
      PlaceOf(lines, aligner, places, after, tolerance);
      SameNumber(lines, aligner, places, tolerance);
    }
    if i > 0 {
      CursorFollows(lines, aligner, places, i - 1, tolerance);
      var cursor := CursorAt(lines, aligner, i - 1, tolerance);
      if cursor < |aligner| {
        PlaceOf(lines, aligner, places, cursor, tolerance);
        DecisionKeepsPlace(lines, aligner, i - 1, cursor, places[cursor], tolerance);
      } else {
        PastTheEnd(lines, aligner, i - 1, cursor, tolerance);
      }
    }
  }

  lemma {:induction false} SameNumber(lines: seq<Curated>, aligner: seq<Aligned>, places: seq<nat>, tolerance: int)
    requires Embeds(lines, aligner, places, tolerance)
    ensures |places| == |aligner|
  {
  }

  lemma {:induction false} PastTheEnd(lines: seq<Curated>, aligner: seq<Aligned>, i: nat, cursor: nat, tolerance: int)
    requires i < |lines| && cursor >= |aligner|
    ensures Decide(lines, aligner, i, cursor, tolerance) == Skip
  {
  }

  /** Whatever is taken was taken in order, each aligner line at most once, by a fitting line. */
  lemma {:induction false} TakenInOrder(lines: seq<Curated>, aligner: seq<Aligned>, i: nat, tolerance: int)
    requires i <= |lines|
    ensures var taken := TakenBy(lines, aligner, i, tolerance);
            && |taken| <= CursorAt(lines, aligner, i, tolerance)
            && (forall c :: 0 <= c < |taken| ==> taken[c] < i)
            && (forall c, d :: 0 <= c < d < |taken| ==> taken[c] < taken[d])
            && (|taken| == CursorAt(lines, aligner, i, tolerance) ==>
                  forall c :: 0 <= c < |taken| ==> Fits(lines[taken[c]], aligner[c], tolerance))
            && MatchedBefore(lines, aligner, i, tolerance) <= |taken|
  {
    if i > 0 {
      TakenInOrder(lines, aligner, i - 1, tolerance);
    }
  }

  /** Every aligner line is taken if and only if the aligner's lines embed in the curated lines:
      waiting for a later occurrence never loses a counterpart. */
  lemma {:induction false} AllTakenIffEmbeds(lines: seq<Curated>, aligner: seq<Aligned>, tolerance: int)
    ensures |TakenBy(lines, aligner, |lines|, tolerance)| == |aligner|
            <==> exists places :: Embeds(lines, aligner, places, tolerance)
  {
    TakenInOrder(lines, aligner, |lines|, tolerance);
    if |TakenBy(lines, aligner, |lines|, tolerance)| == |aligner| {
      assert Embeds(lines, aligner, TakenBy(lines, aligner, |lines|, tolerance), tolerance);
    }
    if places :| Embeds(lines, aligner, places, tolerance) {
      CursorFollows(lines, aligner, places, |lines|, tolerance);
    }
  }

  lemma {:induction false} MatchedCountsTaken(lines: seq<Curated>, aligner: seq<Aligned>, i: nat, tolerance: int)
    requires i <= |lines| && forall k :: 0 <= k < |lines| && Candidate(lines[k]) ==> SingleTag(lines[k])
    ensures MatchedBefore(lines, aligner, i, tolerance) == |TakenBy(lines, aligner, i, tolerance)|
  {
    if i > 0 {
      MatchedCountsTaken(lines, aligner, i - 1, tolerance);
    }
  }

  /** On single-tag lines the match-quality signal is perfect exactly when the aligner's lines embed. */
  lemma {:induction false} MatchedIsCompleteIffEmbeds(lines: seq<Curated>, aligner: seq<Aligned>, tolerance: int)
    requires forall k :: 0 <= k < |lines| && Candidate(lines[k]) ==> SingleTag(lines[k])
    ensures MatchedBefore(lines, aligner, |lines|, tolerance) == |aligner|
            <==> exists places :: Embeds(lines, aligner, places, tolerance)
  {
    MatchedCountsTaken(lines, aligner, |lines|, tolerance);
    AllTakenIffEmbeds(lines, aligner, tolerance);
  }

  // ---- splicing ----

  datatype Piece = Chunk(s: string) | WordTag(time: int)

  /** The text of a line without the inserted tags. */
  function Bytes(pieces: seq<Piece>): string {
    if pieces == [] then [] else (if pieces[0].Chunk? then pieces[0].s else []) + Bytes(pieces[1..])
  }

  /** The inserted times, in order. */
  function Times(pieces: seq<Piece>): seq<int> {
    if pieces == [] then [] else (if pieces[0].WordTag? then [pieces[0].time] else []) + Times(pieces[1..])
  }

  /** The chunks standing directly behind a tag. */
  function BehindTags(pieces: seq<Piece>): seq<string> {
    if |pieces| < 2 then []
    else (if pieces[0].WordTag? && pieces[1].Chunk? then [pieces[1].s] else []) + BehindTags(pieces[1..])
  }

  /** One tag before each word of `text`; the white space stays as it is. */
  function Splice(text: string, starts: seq<int>): seq<Piece>
    requires |starts| == |Words(text)|
    decreases |text|
  {
    var begin := SpaceLength(text);
    WordsStep(text);
    if begin == |text| then [Chunk(text)]
    else
      var stop := WordEnd(text);
      [Chunk(text[..begin])] + ([WordTag(starts[0])] + ([Chunk(text[begin..stop])] + Splice(text[stop..], starts[1..])))
  }

  /** The white space behind the last word. */
  function Suffix(text: string): string
    decreases |text|
  {
    if SpaceLength(text) == |text| then text else Suffix(text[WordEnd(text)..])
  }

  function Separator(text: string): string {
    var suffix := Suffix(text);
    if suffix != [] && (suffix[|suffix| - 1] == ' ' || suffix[|suffix| - 1] == '\t') then "" else " "
  }

  function SplicedLine(prefix: string, text: string, starts: seq<int>, end: Option<int>): seq<Piece>
    requires |starts| == |Words(text)|
  {
    [Chunk(prefix)] + Splice(text, starts)
    + if end.Some? then [Chunk(Separator(text)), WordTag(end.value)] else []
  }

  lemma {:induction false} PieceCons(piece: Piece, rest: seq<Piece>)
    ensures Bytes([piece] + rest) == (if piece.Chunk? then piece.s else []) + Bytes(rest)
    ensures Times([piece] + rest) == (if piece.WordTag? then [piece.time] else []) + Times(rest)
    ensures piece.Chunk? ==> BehindTags([piece] + rest) == BehindTags(rest)
    ensures piece.WordTag? && rest != [] && rest[0].Chunk?
        ==> BehindTags([piece] + rest) == [rest[0].s] + BehindTags(rest)
  {
    assert ([piece] + rest)[1..] == rest;
  }

  lemma {:induction false} BytesConcat(x: seq<Piece>, y: seq<Piece>)
    ensures Bytes(x + y) == Bytes(x) + Bytes(y) && Times(x + y) == Times(x) + Times(y)
  {
    hide Bytes, Times, BehindTags;
    NoPieces();
    if x == [] {
      assert x + y == y;
    } else {
      var first, rest := x[0], x[1..];
      BytesConcat(rest, y);
      PieceCons(first, rest);
      PieceCons(first, rest + y);
      FirstOfConcat(x, y);
      var s, t := if first.Chunk? then first.s else [], if first.WordTag? then [first.time] else [];
      Regroup(s, Bytes(rest), Bytes(y));
      Regroup(t, Times(rest), Times(y));
    }
  }

  lemma {:induction false} FirstOfConcat(x: seq<Piece>, y: seq<Piece>)
    requires x != []
    ensures x == [x[0]] + x[1..] && x + y == [x[0]] + (x[1..] + y)
  {
  }

  lemma {:induction false} Regroup<T>(x: seq<T>, y: seq<T>, z: seq<T>)
    ensures (x + y) + z == x + (y + z)
  {
  }

  lemma {:induction false} NoPieces()
    ensures Bytes([]) == [] && Times([]) == [] && BehindTags([]) == []
  {
  }

  lemma {:induction false} SpliceKeepsText(text: string, starts: seq<int>)
    requires |starts| == |Words(text)|
    ensures Bytes(Splice(text, starts)) == text
    ensures Times(Splice(text, starts)) == starts
    ensures BehindTags(Splice(text, starts)) == Words(text)
    ensures Splice(text, starts) != [] && Splice(text, starts)[0].Chunk?
    ensures Splice(text, starts)[|Splice(text, starts)| - 1].Chunk?
    decreases |text|
  {
    hide Text.Words;
    hide Text.WordLength;
    hide Text.SpaceLength;
    hide Text.WordEnd;
    hide Text.Blank;
    hide Text.IsSpace;
    hide Text.SpaceFree;
    hide Bytes;
    hide Times;
    hide BehindTags;
    WordsStep(text);
    NoPieces();
    var begin := SpaceLength(text);
    if begin == |text| {
      assert [Chunk(text)] + [] == [Chunk(text)];
      PieceCons(Chunk(text), []);
    } else {
      var stop := WordEnd(text);
      var rest := Splice(text[stop..], starts[1..]);
      SpliceKeepsText(text[stop..], starts[1..]);
      PieceCons(Chunk(text[begin..stop]), rest);
      PieceCons(WordTag(starts[0]), [Chunk(text[begin..stop])] + rest);
      PieceCons(Chunk(text[..begin]), [WordTag(starts[0])] + ([Chunk(text[begin..stop])] + rest));
      assert text[..begin] + (text[begin..stop] + text[stop..]) == text;
      assert starts == [starts[0]] + starts[1..];
    }
  }

  /** Behind a chunk nothing stands directly behind a tag. */
  lemma {:induction false} BehindConcat(x: seq<Piece>, y: seq<Piece>)
    requires x != [] && x[|x| - 1].Chunk?
    ensures BehindTags(x + y) == BehindTags(x) + BehindTags(y)
  {
    hide BehindTags;
    var first, rest := x[0], x[1..];
    FirstOfConcat(x, y);
    BehindStep(first, rest);
    BehindStep(first, rest + y);
    NoPieces();
    if rest == [] {
      assert rest + y == y;
    } else {
      BehindConcat(rest, y);
      Regroup(if first.WordTag? && rest[0].Chunk? then [rest[0].s] else [], BehindTags(rest), BehindTags(y));
    }
  }

  lemma {:induction false} BehindStep(first: Piece, rest: seq<Piece>)
    ensures BehindTags([first] + rest)
            == (if first.WordTag? && rest != [] && rest[0].Chunk? then [rest[0].s] else []) + BehindTags(rest)
  {
    assert ([first] + rest)[1..] == rest;
  }

  predicate EndsBlank(text: string) {
    text != [] && (text[|text| - 1] == ' ' || text[|text| - 1] == '\t')
  }

  /** Whether a separator is put in is seen at the end of the line. */
  lemma {:induction false} SeparatorIs(text: string)
    ensures Separator(text) == if EndsBlank(text) then "" else " "
    decreases |text|
  {
    hide SpaceLength, WordEnd, EndsBlank;
    SuffixEndsAlike(text);
    if SpaceLength(text) < |text| {
      SeparatorIs(text[WordEnd(text)..]);
    }
    BlankEnds(text);
    BlankEnds(Suffix(text));
  }

  lemma {:induction false} BlankEnds(text: string)
    ensures EndsBlank(text) <==> text != [] && (text[|text| - 1] == ' ' || text[|text| - 1] == '\t')
  {
  }

  lemma {:induction false} SuffixEndsAlike(text: string)
    ensures SpaceLength(text) == |text| ==> Suffix(text) == text
    ensures SpaceLength(text) < |text| ==>
              && Suffix(text) == Suffix(text[WordEnd(text)..])
              && (EndsBlank(text) <==> EndsBlank(text[WordEnd(text)..]))
  {
    hide SpaceLength, WordEnd;
    if SpaceLength(text) < |text| {
      WordEndsInk(text);
      assert IsSpace(' ') && IsSpace('\t');
      hide IsSpace;
      var n := WordEnd(text);
      if n < |text| {
        assert text[n..][|text| - n - 1] == text[|text| - 1];
      }
    }
  }

  lemma {:induction false} WordEndsInk(text: string)
    requires SpaceLength(text) < |text|
    ensures !IsSpace(text[WordEnd(text) - 1])
  {
    var p := SpaceLength(text);
    assert text[p..][WordEnd(text) - 1 - p] == text[WordEnd(text) - 1];
  }

  /** A curated line with the aligner's word times: its bytes, a separating space unless it ends blank, each time
      directly before the word of its number, and the sung end behind everything. */
  ghost predicate TimedAs(pieces: seq<Piece>, c: Curated, a: Aligned) {
    && c.Tagged? && a.end.Some?
    && Bytes(pieces) == Raw(c) + (if EndsBlank(c.text) then "" else " ")
    && Times(pieces) == a.wordStarts + [a.end.value]
    && BehindTags(pieces) == Words(c.text)
    && pieces != [] && pieces[|pieces| - 1] == WordTag(a.end.value)
  }

  lemma {:induction false} SplicedIsTimed(c: Curated, a: Aligned)
    requires c.Tagged? && UsableTimes(a) && a.wordStarts != [] && |a.wordStarts| == |Words(c.text)|
    ensures TimedAs(SplicedLine(c.prefix, c.text, a.wordStarts, a.end), c, a)
  {
    hide Splice, Text.Words, BehindTags, Bytes, Times, EndsBlank;
    SplicedLinePreserves(c.prefix, c.text, a);
    SeparatorIs(c.text);
    SpliceKeepsText(c.text, a.wordStarts);
    hide Separator;
    var spliced, tail := Splice(c.text, a.wordStarts), [Chunk(Separator(c.text)), WordTag(a.end.value)];
    BehindStep(Chunk(c.prefix), spliced);
    BehindConcat([Chunk(c.prefix)] + spliced, tail);
    BehindStep(WordTag(a.end.value), []);
    BehindStep(Chunk(Separator(c.text)), [WordTag(a.end.value)]);
    assert [WordTag(a.end.value)] + [] == [WordTag(a.end.value)];
    assert [Chunk(Separator(c.text))] + [WordTag(a.end.value)] == tail;
    NoPieces();
  }

  /** What a merged line is: the curated bytes, one aligner time per word in front of that word, the
      sung end last, times that never decrease - and one extra space before the end tag unless the
      curated line ends in a space or tab. */
  lemma {:induction false} SplicedLinePreserves(prefix: string, text: string, a: Aligned)
    requires UsableTimes(a) && a.wordStarts != [] && |a.wordStarts| == |Words(text)|
    ensures var pieces := SplicedLine(prefix, text, a.wordStarts, a.end);
            && Bytes(pieces) == prefix + text + Separator(text)
            && Times(pieces) == a.wordStarts + [a.end.value]
            && NonDecreasing(Times(pieces))
            && BehindTags(Splice(text, a.wordStarts)) == Words(text)
            && pieces[|pieces| - 1] == WordTag(a.end.value)
  {
    hide Splice;
    hide Text.Words;
    hide BehindTags;
    hide Bytes;
    hide Times;
    SpliceKeepsText(text, a.wordStarts);
    NoPieces();
    var tail := [Chunk(Separator(text)), WordTag(a.end.value)];
    assert tail == [Chunk(Separator(text))] + ([WordTag(a.end.value)] + []);
    PieceCons(WordTag(a.end.value), []);
    PieceCons(Chunk(Separator(text)), [WordTag(a.end.value)] + []);
    PieceCons(Chunk(prefix), Splice(text, a.wordStarts));
    BytesConcat([Chunk(prefix)] + Splice(text, a.wordStarts), tail);
  }

  /** The loop over the words of the text. */
  method SpliceWordTags(prefix: string, text: string, starts: seq<int>, end: Option<int>) returns (parts: seq<Piece>)
    requires |starts| == |Words(text)|
    ensures parts == SplicedLine(prefix, text, starts, end)
  {
    hide Text.Words;
    hide Text.WordLength;
    hide Text.SpaceLength;
    hide Text.WordEnd;
    hide Text.Blank;
    hide Text.IsSpace;
    hide Text.SpaceFree;
    parts := [Chunk(prefix)];
    var rest, times := text, starts;
    while SpaceLength(rest) < |rest|
      invariant |times| == |Words(rest)|
      invariant [Chunk(prefix)] + Splice(text, starts) == parts + Splice(rest, times)
      invariant Suffix(text) == Suffix(rest)
      decreases |rest|
    {
      WordsStep(rest);
      var begin, stop := SpaceLength(rest), WordEnd(rest);
      parts := parts + [Chunk(rest[..begin])] + [WordTag(times[0])] + [Chunk(rest[begin..stop])];
      rest, times := rest[stop..], times[1..];
    }
    parts := parts + [Chunk(rest)];
    if end.Some? {
      var separator := if rest != [] && (rest[|rest| - 1] == ' ' || rest[|rest| - 1] == '\t') then "" else " ";
      parts := parts + [Chunk(separator), WordTag(end.value)];
    }
  }

  // ---- the whole merge ----

  /** One line of the walk, by its cases. */
  lemma {:induction false} StepUnfolds(lines: seq<Curated>, aligner: seq<Aligned>, i: nat, tolerance: int)
    requires i < |lines|
    ensures var cursor := CursorAt(lines, aligner, i, tolerance);
            var next := CursorAt(lines, aligner, i + 1, tolerance);
            var step := StepAt(lines, aligner, i, tolerance);
            && next == (if step.Skip? then cursor else cursor + 1)
            && (!Candidate(lines[i]) ==> step == Skip)
            && (cursor >= |aligner| ==> step == Skip)
            && (Candidate(lines[i]) && cursor < |aligner| ==>
                  && (aligner[cursor].norm != lines[i].norm ==> step == Skip)
                  && (aligner[cursor].norm == lines[i].norm ==>
                        step == if Near(aligner[cursor], lines[i].times, tolerance) then Take
                                else if exists k :: i < k < |lines|
                                          && Fits(lines[k], aligner[cursor], tolerance) then Skip
                                else Drop))
  {
  }

  lemma {:induction false} WalkStarts(lines: seq<Curated>, aligner: seq<Aligned>, tolerance: int)
    ensures CursorAt(lines, aligner, 0, tolerance) == 0
  {
  }

  predicate Merges(lines: seq<Curated>, aligner: seq<Aligned>, i: nat, tolerance: int)
    requires i < |lines|
  {
    && StepAt(lines, aligner, i, tolerance).Take?
    && SingleTag(lines[i])
    && var a := aligner[CursorAt(lines, aligner, i, tolerance)];
       a.wordStarts != [] && |a.wordStarts| == |Words(lines[i].text)|
  }

  function Rendered(lines: seq<Curated>, aligner: seq<Aligned>, i: nat, tolerance: int): seq<Piece>
    requires i < |lines|
  {
    if Merges(lines, aligner, i, tolerance) then
      var a := aligner[CursorAt(lines, aligner, i, tolerance)];
      SplicedLine(lines[i].prefix, lines[i].text, a.wordStarts, a.end)
    else [Chunk(Raw(lines[i]))]
  }

  function Verbatim(lines: seq<Curated>): (r: seq<seq<Piece>>)
    ensures |r| == |lines| && forall i :: 0 <= i < |lines| ==> r[i] == [Chunk(Raw(lines[i]))]
  {
    seq(|lines|, i requires 0 <= i < |lines| => [Chunk(Raw(lines[i]))])
  }

  /** Line `i` uses up the aligner line at the cursor: same text, and either near it in time, or no later line is. */
  predicate Consumes(lines: seq<Curated>, aligner: seq<Aligned>, i: nat, cursor: nat, tolerance: int)
    requires i < |lines|
  {
    && Candidate(lines[i]) && cursor < |aligner| && aligner[cursor].norm == lines[i].norm
    && (Near(aligner[cursor], lines[i].times, tolerance)
        || forall k :: i < k < |lines| ==> !Fits(lines[k], aligner[cursor], tolerance))
  }

  /** The cursor before each line counts the aligner lines used up by then. */
  ghost predicate Walked(lines: seq<Curated>, aligner: seq<Aligned>, cursors: seq<nat>, tolerance: int) {
    && |cursors| == |lines| + 1 && cursors[0] == 0
    && forall i :: 0 <= i < |lines| ==>
         cursors[i + 1] == cursors[i] + if Consumes(lines, aligner, i, cursors[i], tolerance) then 1 else 0
  }

  /** Line `i` meets its counterpart. */
  predicate Meets(lines: seq<Curated>, aligner: seq<Aligned>, i: nat, cursor: nat, tolerance: int)
    requires i < |lines|
  {
    cursor < |aligner| && Fits(lines[i], aligner[cursor], tolerance)
  }

  /** A line with one tag whose counterpart has a time for each of its words. */
  predicate TakesTimes(lines: seq<Curated>, aligner: seq<Aligned>, i: nat, cursor: nat, tolerance: int)
    requires i < |lines|
  {
    && Meets(lines, aligner, i, cursor, tolerance) && lines[i].Tagged? && |lines[i].times| == 1
    && aligner[cursor].wordStarts != [] && |aligner[cursor].wordStarts| == |Words(lines[i].text)|
  }

  /** Exactly the lines that take times carry them, and every other line is as it was. */
  ghost predicate Overlaid(lines: seq<Curated>, aligner: seq<Aligned>, cursors: seq<nat>, out: seq<seq<Piece>>, n: nat,
                           tolerance: int)
    requires n <= |lines| && |cursors| > n && |out| >= n
  {
    forall i :: 0 <= i < n ==>
      if TakesTimes(lines, aligner, i, cursors[i], tolerance) then TimedAs(out[i], lines[i], aligner[cursors[i]])
      else out[i] == [Chunk(Raw(lines[i]))]
  }

  /** The walk of the code, line by line. */
  ghost function Cursors(lines: seq<Curated>, aligner: seq<Aligned>, tolerance: int): (cursors: seq<nat>)
    ensures |cursors| == |lines| + 1
    ensures forall i :: 0 <= i <= |lines| ==> cursors[i] == CursorAt(lines, aligner, i, tolerance)
  {
    seq(|lines| + 1, i requires 0 <= i <= |lines| => CursorAt(lines, aligner, i, tolerance))
  }

  lemma {:induction false} StepConsumes(lines: seq<Curated>, aligner: seq<Aligned>, i: nat, tolerance: int)
    requires i < |lines|
    ensures var cursor := CursorAt(lines, aligner, i, tolerance);
            && CursorAt(lines, aligner, i + 1, tolerance)
               == cursor + (if Consumes(lines, aligner, i, cursor, tolerance) then 1 else 0)
            && (StepAt(lines, aligner, i, tolerance).Take? <==> Meets(lines, aligner, i, cursor, tolerance))
  {
    hide Near;
    StepUnfolds(lines, aligner, i, tolerance);
    hide Decide, CursorAt, StepAt;
  }

  lemma {:induction false} CursorsWalk(lines: seq<Curated>, aligner: seq<Aligned>, tolerance: int)
    ensures Walked(lines, aligner, Cursors(lines, aligner, tolerance), tolerance)
  {
    WalkStarts(lines, aligner, tolerance);
    hide CursorAt, Consumes;
    forall i | 0 <= i < |lines|
      ensures var cursor := CursorAt(lines, aligner, i, tolerance);
              CursorAt(lines, aligner, i + 1, tolerance)
              == cursor + (if Consumes(lines, aligner, i, cursor, tolerance) then 1 else 0)
    {
      StepConsumes(lines, aligner, i, tolerance);
    }
  }

  lemma {:induction false} MergesTakesTimes(lines: seq<Curated>, aligner: seq<Aligned>, i: nat, tolerance: int)
    requires i < |lines|
    ensures Merges(lines, aligner, i, tolerance)
            <==> TakesTimes(lines, aligner, i, CursorAt(lines, aligner, i, tolerance), tolerance)
  {
    StepConsumes(lines, aligner, i, tolerance);
    hide CursorAt, StepAt, Meets;
  }

  lemma {:induction false} RenderedIsOverlaid(lines: seq<Curated>, aligner: seq<Aligned>, out: seq<seq<Piece>>,
                                              tolerance: int)
    requires forall k :: 0 <= k < |aligner| ==> UsableTimes(aligner[k])
    requires |out| == |lines| && forall i :: 0 <= i < |lines| ==> out[i] == Rendered(lines, aligner, i, tolerance)
    ensures Overlaid(lines, aligner, Cursors(lines, aligner, tolerance), out, |lines|, tolerance)
  {
    hide CursorAt, TimedAs, SplicedLine, UsableTimes, Words;
    forall i | 0 <= i < |lines|
      ensures var cursor := CursorAt(lines, aligner, i, tolerance);
              if TakesTimes(lines, aligner, i, cursor, tolerance) then TimedAs(out[i], lines[i], aligner[cursor])
              else out[i] == [Chunk(Raw(lines[i]))]
    {
      var cursor := CursorAt(lines, aligner, i, tolerance);
      MergesTakesTimes(lines, aligner, i, tolerance);
      hide Merges;
      if TakesTimes(lines, aligner, i, cursor, tolerance) {
        SplicedIsTimed(lines[i], aligner[cursor]);
      }
    }
  }

  /** Of two lines that meet a counterpart, the later one meets a later aligner line. */
  lemma {:induction false} MeetsInOrder(lines: seq<Curated>, aligner: seq<Aligned>, cursors: seq<nat>, i: nat, j: nat,
                                        tolerance: int)
    requires Walked(lines, aligner, cursors, tolerance) && i < j < |lines|
    requires Meets(lines, aligner, i, cursors[i], tolerance)
    ensures cursors[i] < cursors[j]
    decreases j
  {
    hide Near;
    if j - 1 > i {
      MeetsInOrder(lines, aligner, cursors, i, j - 1, tolerance);
      hide Meets, Consumes;
    }
  }

  predicate OneTag(lines: seq<Curated>, i: nat)
    requires i < |lines|
  {
    lines[i].Tagged? && |lines[i].times| == 1
  }

  /** The lines with one tag and some text among the first `n`. */
  ghost function SingleBefore(lines: seq<Curated>, n: nat): set<nat>
    requires n <= |lines|
  {
    set i: nat | i < n && Candidate(lines[i]) && OneTag(lines, i)
  }

  lemma {:induction false} EligibleIsNumber(lines: seq<Curated>, n: nat)
    requires n <= |lines|
    ensures EligibleBefore(lines, n) == |SingleBefore(lines, n)|
  {
    hide Candidate;
    if n > 0 {
      EligibleIsNumber(lines, n - 1);
      var before := SingleBefore(lines, n - 1);
      assert SingleBefore(lines, n)
             == if Candidate(lines[n - 1]) && OneTag(lines, n - 1) then before + {n - 1} else before;
    } else {
      assert SingleBefore(lines, n) == {};
    }
  }

  lemma {:induction false} MatchedIsNumber(lines: seq<Curated>, aligner: seq<Aligned>, n: nat, tolerance: int)
    requires n <= |lines|
    ensures MatchedBefore(lines, aligner, n, tolerance)
            == |MetBefore(lines, aligner, Cursors(lines, aligner, tolerance), n, tolerance)|
  {
    hide CursorAt, StepAt, Meets, MetBefore;
    var cursors := Cursors(lines, aligner, tolerance);
    MetNext(lines, aligner, cursors, n, tolerance);
    if n > 0 {
      MatchedIsNumber(lines, aligner, n - 1, tolerance);
      StepConsumes(lines, aligner, n - 1, tolerance);
    }
  }

  /** The lines with one tag among the first `n` that meet their counterpart. */
  ghost function MetBefore(lines: seq<Curated>, aligner: seq<Aligned>, cursors: seq<nat>, n: nat, tolerance: int)
      : set<nat>
    requires n <= |lines| && |cursors| > n
  {
    set i: nat | i < n && OneTag(lines, i) && Meets(lines, aligner, i, cursors[i], tolerance)
  }

  lemma {:induction false} MetNext(lines: seq<Curated>, aligner: seq<Aligned>, cursors: seq<nat>, n: nat,
                                   tolerance: int)
    requires n <= |lines| && |cursors| > |lines|
    ensures n == 0 ==> MetBefore(lines, aligner, cursors, n, tolerance) == {}
    ensures n > 0 ==>
              |MetBefore(lines, aligner, cursors, n, tolerance)|
              == |MetBefore(lines, aligner, cursors, n - 1, tolerance)|
                 + if SingleTag(lines[n - 1]) && Meets(lines, aligner, n - 1, cursors[n - 1], tolerance) then 1 else 0
  {
    hide Meets;
    if n > 0 {
      var before := MetBefore(lines, aligner, cursors, n - 1, tolerance);
      assert MetBefore(lines, aligner, cursors, n, tolerance)
             == if OneTag(lines, n - 1) && Meets(lines, aligner, n - 1, cursors[n - 1], tolerance)
                then before + {n - 1} else before;
    }
  }

  /** What a merge comes to: aligner lines as they read, the walk over them, the overlaid lines and the counts. */
  ghost predicate MergedFrom(lines: seq<Curated>, raws: seq<RawAligned>, aligner: seq<Aligned>, places: seq<nat>,
                             cursors: seq<nat>, tolerance: int, out: seq<seq<Piece>>, mergedAny: bool, eligible: nat,
                             matched: nat) {
    && KeptLines(raws, aligner, places) && Walked(lines, aligner, cursors, tolerance)
    && |out| == |lines| && Overlaid(lines, aligner, cursors, out, |lines|, tolerance)
    && (mergedAny <==> exists i :: 0 <= i < |lines| && TakesTimes(lines, aligner, i, cursors[i], tolerance))
    && eligible == |SingleBefore(lines, |lines|)|
    && matched == |MetBefore(lines, aligner, cursors, |lines|, tolerance)|
  }

  lemma {:induction false} RenderedIsMerged(lines: seq<Curated>, raws: seq<RawAligned>, aligner: seq<Aligned>,
                                            places: seq<nat>, tolerance: int, out: seq<seq<Piece>>, mergedAny: bool)
    requires KeptLines(raws, aligner, places) && forall k :: 0 <= k < |aligner| ==> UsableTimes(aligner[k])
    requires |out| == |lines| && forall i :: 0 <= i < |lines| ==> out[i] == Rendered(lines, aligner, i, tolerance)
    requires mergedAny <==> exists i :: 0 <= i < |lines| && Merges(lines, aligner, i, tolerance)
    ensures MergedFrom(lines, raws, aligner, places, Cursors(lines, aligner, tolerance), tolerance, out, mergedAny,
                       EligibleBefore(lines, |lines|), MatchedBefore(lines, aligner, |lines|, tolerance))
  {
    hide CursorAt, Rendered, Merges, TakesTimes, Meets, KeptLines, Walked, Overlaid, MatchedBefore, EligibleBefore,
         MetBefore, SingleBefore, UsableTimes;
    CursorsWalk(lines, aligner, tolerance);
    RenderedIsOverlaid(lines, aligner, out, tolerance);
    EligibleIsNumber(lines, |lines|);
    MatchedIsNumber(lines, aligner, |lines|, tolerance);
    forall i | 0 <= i < |lines|
      ensures Merges(lines, aligner, i, tolerance)
              <==> TakesTimes(lines, aligner, i, Cursors(lines, aligner, tolerance)[i], tolerance)
    {
      MergesTakesTimes(lines, aligner, i, tolerance);
    }
  }

  method MergeWordTags(lines: seq<Curated>, aligned: Option<seq<RawAligned>>, tolerance: int)
    returns (out: seq<seq<Piece>>, mergedAny: bool, eligible: nat, matched: nat,
             ghost aligner: seq<Aligned>, ghost places: seq<nat>, ghost cursors: seq<nat>)
    ensures |out| == |lines|
    ensures aligned.Some? ==>
              MergedFrom(lines, aligned.value, aligner, places, cursors, tolerance, out, mergedAny, eligible, matched)
    ensures aligned.None? ==> out == Verbatim(lines) && !mergedAny && eligible == matched == 0
    ensures aligned.Some? ==>
              && aligner == ParseAlignedLines(aligned.value)
              && (forall i :: 0 <= i < |lines| ==> out[i] == Rendered(lines, aligner, i, tolerance))
              && (mergedAny <==> exists i :: 0 <= i < |lines| && Merges(lines, aligner, i, tolerance))
              && eligible == EligibleBefore(lines, |lines|)
              && matched == MatchedBefore(lines, aligner, |lines|, tolerance)
    ensures !mergedAny ==> out == Verbatim(lines)
  {
    hide *;
    if aligned.None? {
      return Verbatim(lines), false, 0, 0, [], [], [];
    }
    var parsed;
    parsed, places := ParseAlignerLines(aligned.value);
    aligner, cursors := parsed, Cursors(lines, parsed, tolerance);
    out, mergedAny, eligible, matched := WalkLines(lines, parsed, tolerance);
    RenderedIsMerged(lines, aligned.value, parsed, places, tolerance, out, mergedAny);
    if !mergedAny {
      NothingMerged(lines, parsed, out, tolerance);
      out := Verbatim(lines);
    }
  }

  lemma {:induction false} NothingMerged(lines: seq<Curated>, aligner: seq<Aligned>, out: seq<seq<Piece>>,
                                         tolerance: int)
    requires |out| == |lines| && forall i :: 0 <= i < |lines| ==> out[i] == Rendered(lines, aligner, i, tolerance)
    requires forall i :: 0 <= i < |lines| ==> !Merges(lines, aligner, i, tolerance)
    ensures out == Verbatim(lines)
  {
    hide Merges;
  }

  method WalkLines(lines: seq<Curated>, aligner: seq<Aligned>, tolerance: int)
    returns (out: seq<seq<Piece>>, mergedAny: bool, eligible: nat, matched: nat)
    ensures |out| == |lines| && forall i :: 0 <= i < |lines| ==> out[i] == Rendered(lines, aligner, i, tolerance)
    ensures mergedAny <==> exists i :: 0 <= i < |lines| && Merges(lines, aligner, i, tolerance)
    ensures eligible == EligibleBefore(lines, |lines|)
    ensures matched == MatchedBefore(lines, aligner, |lines|, tolerance)
  {
    hide Decide, CursorAt, Near, Words, SplicedLine;
    out, mergedAny, eligible, matched := [], false, 0, 0;
    var cursor := 0;
    WalkStarts(lines, aligner, tolerance);
    for i := 0 to |lines|
      invariant cursor == CursorAt(lines, aligner, i, tolerance)
      invariant |out| == i && forall k :: 0 <= k < i ==> out[k] == Rendered(lines, aligner, k, tolerance)
      invariant mergedAny <==> exists k :: 0 <= k < i && Merges(lines, aligner, k, tolerance)
      invariant eligible == EligibleBefore(lines, i)
      invariant matched == MatchedBefore(lines, aligner, i, tolerance)
    {
      var c := lines[i];
      StepUnfolds(lines, aligner, i, tolerance);
      ghost var merges := Merges(lines, aligner, i, tolerance);
      assert (exists k :: 0 <= k < i + 1 && Merges(lines, aligner, k, tolerance)) <==> mergedAny || merges;
      if !Candidate(c) {
        out := out + [[Chunk(Raw(c))]];
        continue;
      }
      if SingleTag(c) {
        eligible := eligible + 1;
      }
      if cursor >= |aligner| || aligner[cursor].norm != c.norm {
        out := out + [[Chunk(Raw(c))]];
        continue;
      }
      var a := aligner[cursor];
      if !Near(a, c.times, tolerance) {
        var waits := exists k :: i < k < |lines| && Fits(lines[k], a, tolerance);
        if !waits {
          cursor := cursor + 1;
        }
        out := out + [[Chunk(Raw(c))]];
        continue;
      }
      cursor := cursor + 1;
      if SingleTag(c) {
        matched := matched + 1;
      }
      if SingleTag(c) && a.wordStarts != [] && |a.wordStarts| == |Words(c.text)| {
        var spliced := SpliceWordTags(c.prefix, c.text, a.wordStarts, a.end);
        out := out + [spliced];
        mergedAny := true;
        continue;
      }
      out := out + [[Chunk(Raw(c))]];
    }
  }

  /** Every output line is the curated line, verbatim or spliced as `SplicedLinePreserves` describes. */
  lemma {:induction false} MergePreservesText(lines: seq<Curated>, raws: seq<RawAligned>, i: nat, tolerance: int)
    requires i < |lines|
    ensures var aligner := ParseAlignedLines(raws);
            var pieces := Rendered(lines, aligner, i, tolerance);
            if Merges(lines, aligner, i, tolerance) then
              && Bytes(pieces) == Raw(lines[i]) + Separator(lines[i].text)
              && NonDecreasing(Times(pieces)) && |Times(pieces)| == |Words(lines[i].text)| + 1
            else
              Bytes(pieces) == Raw(lines[i]) && Times(pieces) == []
  {
    hide CursorAt;
    hide Decide;
    var aligner := ParseAlignedLines(raws);
    ParsedAligned(raws);
    StepUnfolds(lines, aligner, i, tolerance);
    if Merges(lines, aligner, i, tolerance) {
      var a := aligner[CursorAt(lines, aligner, i, tolerance)];
      SplicedLinePreserves(lines[i].prefix, lines[i].text, a);
    } else {
      assert [Chunk(Raw(lines[i]))][1..] == [];
    }
  }
}
