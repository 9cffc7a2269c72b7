/** The validator and the player agree: an accepted body is rendered line for line, no word timing
    is degraded, and validating what was stored changes nothing. */
module LrcAgreement {
  import opened Options
  import opened StableSort
  import opened Text
  import opened LrcTags
  import opened LrcReview

  // ---- what a clean lyric text rules out ----

  /** No opening bracket stands directly before a digit. */
  ghost predicate NoTagStart(t: string) {
    forall i :: 0 <= i < |t| - 1 && t[i] == '[' ==> !Digit(t[i + 1])
  }

  lemma {:induction false} BracketStays(t: string)
    requires '<' in t
    ensures !CleanText(LyricText(t))
  {
    hide Text.Strip;
    StripKeeps(t, '<');
    var s := Strip(t);
    var k :| 0 <= k < |s| && s[k] == '<';
    if StartsWith(s, SPEECH) {
      assert forall i :: 0 <= i < |SPEECH| ==> s[i] == s[..|SPEECH|][i];
      assert k >= |SPEECH|;
      var rest := s[|SPEECH|..];
      assert rest[k - |SPEECH|] == '<';
      StripKeeps(rest, '<');
    }
    var j :| 0 <= j < |LyricText(t)| && LyricText(t)[j] == '<';
    assert Bracket(LyricText(t)[j]);
  }

  lemma {:induction false} CleanHidesWordTags(t: string)
    requires CleanText(LyricText(t))
    ensures '<' !in t
  {
    if '<' in t {
      BracketStays(t);
    }
  }

  lemma {:induction false} CleanHidesLineTags(t: string)
    requires CleanText(LyricText(t))
    ensures NoTagStart(t)
  {
    hide Text.Strip;
    var a, b := StripSplits(t);
    var s := Strip(t);
    forall i | 0 <= i < |t| - 1 && t[i] == '[' ensures !Digit(t[i + 1]) {
      if Digit(t[i + 1]) {
        assert !IsSpace(t[i]) && !IsSpace(t[i + 1]);
        assert a <= i && i + 1 < b;
        assert s[i - a] == '[' && s[i - a + 1] == t[i + 1];
        BracketInStripped(s, i - a);
      }
    }
  }

  /** A bracket before a digit is not the marker's, so it is in the lyric text. */
  lemma {:induction false} BracketInStripped(s: string, k: nat)
    requires k + 1 < |s| && s[k] == '[' && Digit(s[k + 1])
    ensures !CleanText(if StartsWith(s, SPEECH) then Strip(s[|SPEECH|..]) else s)
  {
    hide Text.Strip;
    assert Bracket(s[k]);
    if StartsWith(s, SPEECH) {
      assert forall i :: 0 <= i < |SPEECH| ==> s[i] == s[..|SPEECH|][i];
      assert k >= |SPEECH|;
      var rest := s[|SPEECH|..];
      assert rest[k - |SPEECH|] == '[';
      StripKeeps(rest, '[');
      var j :| 0 <= j < |Strip(rest)| && Strip(rest)[j] == '[';
      assert Bracket(Strip(rest)[j]);
    }
  }

  // ---- the loose line scan sees only the line tag ----

  ghost predicate NoLineTagIn(s: string) {
    s == [] || (TagAt(s, LINE, true).None? && NoLineTagIn(s[1..]))
  }

  lemma {:induction false} SkipPlain(s: string, n: nat)
    requires n <= |s| && (forall k :: 0 <= k < n ==> s[k] != '[') && NoLineTagIn(s[n..])
    ensures NoLineTagIn(s)
    decreases n
  {
    if n > 0 {
      assert s[1..][n - 1..] == s[n..];
      assert TagAt(s, LINE, true).None?;
      SkipPlain(s[1..], n - 1);
    } else {
      assert s[0..] == s;
    }
  }

  lemma {:induction false} CleanHasNoLineTag(s: string)
    requires NoTagStart(Chars(Scan(s, WORD, false)))
    ensures NoLineTagIn(s)
    decreases |s|
  {
    hide LrcTags.TagAt;
    hide LrcTags.Scan;
    hide LrcTags.Chars;
    if s != [] {
      ScanStep(s, WORD, false);
      var tag := TagAt(s, WORD, false);
      if tag.Some? {
        TagShape(s, WORD, false);
        CleanHasNoLineTag(s[tag.value.length..]);
        WordTagHasNoBracket(s);
        SkipPlain(s, tag.value.length);
      } else {
        var tail := Chars(Scan(s[1..], WORD, false));
        var whole := Chars(Scan(s, WORD, false));
        assert forall i :: 0 <= i < |tail| ==> tail[i] == whole[i + 1];
        CleanHasNoLineTag(s[1..]);
        HeadIsNoLineTag(s);
      }
    }
  }

  lemma {:induction false} WordTagHasNoBracket(s: string)
    requires TagAt(s, WORD, false).Some?
    ensures var n := TagAt(s, WORD, false).value.length;
            n <= |s| && forall k :: 0 <= k < n ==> s[k] != '['
  {
    hide LrcTags.TagAt;
    TagShape(s, WORD, false);
    var n := TagAt(s, WORD, false).value.length;
    forall k | 0 <= k < n ensures s[k] != '[' {
      if 1 <= k < n - 1 {
        assert Plain(s[k]);
      }
    }
  }

  lemma {:induction false} LineTagShows(s: string)
    requires TagAt(s, LINE, true).Some?
    ensures !NoTagStart(Chars(Scan(s, WORD, false)))
  {
    hide LrcTags.TagAt;
    hide LrcTags.Scan;
    hide LrcTags.Chars;
    TagShape(s, LINE, true);
    NoWordTagAt(s);
    NoWordTagAt(s[1..]);
    ScanStep(s, WORD, false);
    ScanStep(s[1..], WORD, false);
    var t := Chars(Scan(s, WORD, false));
    assert t[0] == '[' && t[1] == s[1];
  }

  lemma {:induction false} NoWordTagAt(s: string)
    requires s != [] && s[0] != '<'
    ensures TagAt(s, WORD, false).None?
  {
  }

  lemma {:induction false} HeadIsNoLineTag(s: string)
    requires NoTagStart(Chars(Scan(s, WORD, false)))
    ensures TagAt(s, LINE, true).None?
  {
    hide LrcTags.TagAt;
    hide LrcTags.Scan;
    hide LrcTags.Chars;
    hide NoTagStart;
    if TagAt(s, LINE, true).Some? {
      LineTagShows(s);
    }
  }

  lemma {:induction false} ScanWithoutTags(s: string)
    requires NoLineTagIn(s)
    ensures Scan(s, LINE, true) == Letters(s)
  {
    hide LrcTags.TagAt;
    if s != [] {
      ScanWithoutTags(s[1..]);
      assert Letters(s) == [Ch(s[0])] + Letters(s[1..]);
    }
  }

  /** The loose patterns read an accepted line as the strict ones do: one line tag in front, the same
      word tags behind it. */
  lemma {:induction false} PatternsAgree(raw: string)
    requires LineTag(raw).Some? && CleanText(LyricText(Chars(BodyOf(raw))))
    ensures Marks(Scan(raw, LINE, true)) == [LineTag(raw).value.time]
    ensures Scan(Chars(Scan(raw, LINE, true)), WORD, true) == BodyOf(raw)
  {
    hide LrcTags.TagAt;
    hide LrcTags.Scan;
    hide LyricText;
    hide CleanText;
    StrictIsLoose(raw, LINE);
    TagShape(raw, LINE, false);
    var tag := LineTag(raw).value;
    var rest := raw[tag.length..];
    var text := Chars(BodyOf(raw));
    CleanHidesWordTags(text);
    CleanHidesLineTags(text);
    CleanHasNoLineTag(rest);
    ScanWithoutTags(rest);
    ScanStep(raw, LINE, true);
    CharsOfLetters(rest);
    ScansAgree(rest, WORD);
  }

  // ---- word timing is not degraded ----

  lemma {:induction false} PartsStep(pieces: seq<Piece>)
    requires pieces != []
    ensures var rest := pieces[1..];
            if pieces[0].Mark? then
              && Lead(pieces) == [] && Chars(pieces) == Chars(rest)
              && Marks(pieces) == [pieces[0].time] + Marks(rest)
              && Segments(pieces) == [(pieces[0].time, Lead(rest))] + Segments(rest)
            else
              && Lead(pieces) == [pieces[0].c] + Lead(rest) && Chars(pieces) == [pieces[0].c] + Chars(rest)
              && Marks(pieces) == Marks(rest) && Segments(pieces) == Segments(rest)
  {
  }

  lemma {:induction false} BlankConcat(s: string, t: string)
    ensures Blank(s + t) <==> Blank(s) && Blank(t)
  {
    if Blank(s + t) {
      assert forall k :: 0 <= k < |s| ==> s[k] == (s + t)[k];
      assert forall k :: 0 <= k < |t| ==> t[k] == (s + t)[|s| + k];
    }
  }

  ghost predicate SegmentsBlank(segments: Segs) {
    forall k :: 0 <= k < |segments| ==> Blank(segments[k].1)
  }

  lemma {:induction false} SegmentsBlankCons(segment: (nat, string), segments: Segs)
    ensures SegmentsBlank([segment] + segments) <==> Blank(segment.1) && SegmentsBlank(segments)
  {
    var all := [segment] + segments;
    assert all[0] == segment;
    assert forall k :: 0 <= k < |segments| ==> segments[k] == all[k + 1];
  }

  lemma {:induction false} AllBlank(pieces: seq<Piece>)
    requires Blank(Lead(pieces)) && SegmentsBlank(Segments(pieces))
    ensures Blank(Chars(pieces))
  {
    hide Text.Blank;
    hide SegmentsBlank;
    hide Lead;
    hide Segments;
    hide LrcTags.Chars;
    if pieces == [] {
      NoPieces();
    } else {
      var rest := pieces[1..];
      PartsStep(pieces);
      if pieces[0].Mark? {
        SegmentsBlankCons((pieces[0].time, Lead(rest)), Segments(rest));
        AllBlank(rest);
      } else {
        BlankConcat([pieces[0].c], Lead(rest));
        AllBlank(rest);
        BlankConcat([pieces[0].c], Chars(rest));
      }
    }
  }

  lemma {:induction false} NoPieces()
    ensures Blank(Chars([])) && Segments([]) == [] && Lead([]) == [] && Marks([]) == []
  {
  }

  /** Every known duration is positive, and only the last word's may be unknown. */
  ghost predicate Playable(words: seq<PlayerWord>) {
    forall k :: 0 <= k < |words| ==>
      && (words[k].d.Some? ==> words[k].d.value > 0)
      && (words[k].d.None? ==> k == |words| - 1)
      && words[k].text != []
  }

  /** The words carry the tags' times and the text behind them. */
  ghost predicate Follows(words: seq<PlayerWord>, segments: Segs) {
    && |words| <= |segments| <= |words| + 1
    && forall k :: 0 <= k < |words| ==> words[k].t == segments[k].0 && words[k].text == Strip(segments[k].1)
  }

  lemma {:induction false} TimingSurvives(pieces: seq<Piece>)
    requires TagLed(pieces) && StrictlyIncreasing(Marks(pieces)) && Marks(pieces) != []
    requires CleanText(LyricText(Chars(pieces)))
    ensures TimingOf(pieces).words.Some?
    ensures Playable(TimingOf(pieces).words.value)
    ensures Follows(TimingOf(pieces).words.value, Segments(pieces))
    ensures TimingOf(pieces).end.Some? <==> |TimingOf(pieces).words.value| < |Segments(pieces)|
    ensures Lasts(TimingOf(pieces).words.value, TimingOf(pieces).end)
    ensures EndsAt(Segments(pieces), |TimingOf(pieces).words.value|, TimingOf(pieces).end)
  {
    TimingIsRight(pieces);
    hide Lasts, EndsAt;
    hide Text.Strip;
    hide Text.Blank;
    hide Lead;
    hide Segments;
    hide LrcTags.Chars;
    hide LrcTags.Marks;
    hide Playable;
    hide Follows;
    var segments := Segments(pieces);
    SungIsTimed(pieces);
    SungIsPlayable(segments);
  }

  lemma {:induction false} SungIsTimed(pieces: seq<Piece>)
    requires TagLed(pieces) && Segments(pieces) != []
    requires CleanText(LyricText(Chars(pieces)))
    ensures Sung(Segments(pieces)) != [] && !AnyBlank(Sung(Segments(pieces)))
  {
    hide Text.Strip;
    hide Text.Blank;
    hide Lead;
    hide Segments;
    hide LrcTags.Chars;
    hide LrcTags.Marks;
    var segments := Segments(pieces);
    if |segments| == 1 && SungEnd(segments).Some? {
      OnlyBareTag(pieces);
    }
    forall k | 0 <= k < |Sung(segments)| ensures !Blank(Sung(segments)[k].1) {
      assert Sung(segments)[k] == segments[k];
    }
  }

  /** A line whose only tag is bare has no text at all. */
  lemma {:induction false} OnlyBareTag(pieces: seq<Piece>)
    requires |Segments(pieces)| == 1 && Blank(Segments(pieces)[0].1) && Blank(Lead(pieces))
    ensures !CleanText(LyricText(Chars(pieces)))
  {
    hide Text.Strip;
    AllBlank(pieces);
    BlankStripsEmpty(Chars(pieces));
  }

  lemma {:induction false} SungIsPlayable(segments: Segs)
    requires segments != [] && !AnyBlank(Sung(segments))
    requires forall k :: 0 <= k < |segments| - 1 ==> segments[k].0 < segments[k + 1].0
    ensures Playable(PlayerWords(Sung(segments), SungEnd(segments)))
    ensures Follows(PlayerWords(Sung(segments), SungEnd(segments)), segments)
  {
    hide Text.Strip;
    hide Text.Blank;
    var sung, end := Sung(segments), SungEnd(segments);
    var words := PlayerWords(sung, end);
    forall k | 0 <= k < |words|
      ensures (words[k].d.Some? ==> words[k].d.value > 0) && (words[k].d.None? ==> k == |words| - 1)
          && words[k].text != []
    {
      BlankStripsEmpty(sung[k].1);
      assert words[k] == WordAt(sung, end, k);
      if k + 1 < |segments| {
        assert segments[k].0 < segments[k + 1].0;
      }
    }
  }

  /** What the player shows for a stored line. */
  ghost predicate Rendered(raw: string, p: PlayerLine)
    requires LineTag(raw).Some?
  {
    var pieces := BodyOf(raw);
    && p.t == LineTag(raw).value.time
    && p.text == LyricText(Chars(pieces)) && p.text != []
    && (p.speech <==> StartsWith(Strip(Chars(pieces)), SPEECH))
    && (!p.speech && Marks(pieces) != [] ==>
          && p.words.Some? && Playable(p.words.value) && Follows(p.words.value, Segments(pieces))
          && Lasts(p.words.value, p.end) && EndsAt(Segments(pieces), |p.words.value|, p.end))
    && (Marks(pieces) == [] ==> p.words.None?)
  }

  /** An accepted line gives exactly one player line, at its own time, with its own text and word timing. */
  lemma {:induction false} AcceptedLineIsRendered(raw: string, previous: int, limit: int)
    requires FaultOf(raw, previous, limit).None?
    ensures LineTag(raw).Some? && |ParseLine(raw)| == 1 && Rendered(raw, ParseLine(raw)[0])
  {
    hide LrcTags.TagAt;
    hide LrcTags.Scan;
    hide LrcTags.Chars;
    hide Text.Strip;
    hide TimingOf;
    hide Playable, Lasts, EndsAt;
    hide Follows;
    hide TagLed;
    hide StrictlyIncreasing;
    var pieces := BodyOf(raw);
    PatternsAgree(raw);
    var speech := StartsWith(Strip(Chars(pieces)), SPEECH);
    if !speech {
      if Marks(pieces) != [] {
        TimingSurvives(pieces);
      } else {
        NoTagsNoWords(pieces);
      }
    }
  }

  lemma {:induction false} NoTagsNoWords(pieces: seq<Piece>)
    requires Marks(pieces) == []
    ensures TimingOf(pieces) == PLAIN
  {
  }

  // ---- trailing space changes nothing ----

  lemma {:induction false} StripAppend(s: string, w: string)
    requires Inert(w)
    ensures Strip(s + w) == Strip(s)
  {
    if Blank(s) {
      assert Blank(s + w) by { BlankConcat(s, w); }
      BlankStripsEmpty(s);
      BlankStripsEmpty(s + w);
    } else {
      SpaceLengthAppend(s, w);
      var n := SpaceLength(s);
      assert (s + w)[n..] == s[n..] + w;
      TrimAppend(s[n..], w);
    }
  }

  lemma {:induction false} SpaceLengthAppend(s: string, w: string)
    requires !Blank(s)
    ensures SpaceLength(s + w) == SpaceLength(s)
  {
    if IsSpace(s[0]) {
      assert (s + w)[1..] == s[1..] + w;
      assert s == [s[0]] + s[1..];
      BlankConcat([s[0]], s[1..]);
      SpaceLengthAppend(s[1..], w);
    }
  }

  lemma {:induction false} TrimAppend(s: string, w: string)
    requires Inert(w)
    ensures TrimEnd(s + w) == TrimEnd(s)
    decreases |w|
  {
    if w == [] {
      assert s + w == s;
    } else {
      assert (s + w)[..|s + w| - 1] == s + w[..|w| - 1];
      assert (s + w)[|s + w| - 1] == w[|w| - 1];
      TrimAppend(s, w[..|w| - 1]);
    }
  }

  /** The last segment with more text behind it. */
  ghost function ExtendLast(segments: Segs, w: string): Segs {
    if segments == [] then []
    else
      var last := segments[|segments| - 1];
      segments[..|segments| - 1] + [(last.0, last.1 + w)]
  }

  lemma {:induction false} ExtendLastCons(first: (nat, string), rest: Segs, w: string)
    ensures ExtendLast([first] + rest, w) == if rest == [] then [(first.0, first.1 + w)]
        else [first] + ExtendLast(rest, w)
  {
    var all: Segs := [first] + rest;
    if rest != [] {
      assert all[..|all| - 1] == [first] + rest[..|rest| - 1];
    } else {
      assert all == [first];
    }
  }

  lemma {:induction false} PartsAppend(pieces: seq<Piece>, w: string)
    ensures Chars(pieces + Letters(w)) == Chars(pieces) + w
    ensures Marks(pieces + Letters(w)) == Marks(pieces)
    ensures Lead(pieces + Letters(w)) == Lead(pieces) + if Segments(pieces) == [] then w else []
    ensures Segments(pieces + Letters(w)) == ExtendLast(Segments(pieces), w)
  {
    hide Lead;
    hide Segments;
    hide LrcTags.Chars;
    hide LrcTags.Marks;
    hide ExtendLast;
    if pieces == [] {
      assert pieces + Letters(w) == Letters(w);
      NoPieces();
      LettersParts(w);
      NothingToExtend(w);
    } else {
      var rest := pieces[1..];
      assert (pieces + Letters(w))[1..] == rest + Letters(w);
      PartsStep(pieces);
      PartsStep(pieces + Letters(w));
      PartsAppend(rest, w);
      if pieces[0].Mark? {
        ExtendLastCons((pieces[0].time, Lead(rest)), Segments(rest), w);
        NothingToExtend(w);
        assert Lead(rest) + [] == Lead(rest);
      }
    }
  }

  lemma {:induction false} NothingToExtend(w: string)
    ensures ExtendLast([], w) == []
  {
  }

  lemma {:induction false} LettersParts(w: string)
    ensures Chars(Letters(w)) == w && Marks(Letters(w)) == [] && Lead(Letters(w)) == w && Segments(Letters(w)) == []
    ensures Chars([]) == []
  {
    if w != [] {
      assert Letters(w)[1..] == Letters(w[1..]);
      LettersParts(w[1..]);
    }
  }

  lemma {:induction false} TagLedAppend(pieces: seq<Piece>, w: string)
    requires Inert(w)
    ensures TagLed(pieces + Letters(w)) == TagLed(pieces)
  {
    hide Segments;
    hide Lead;
    PartsAppend(pieces, w);
    var x, y := Segments(pieces), Segments(pieces + Letters(w));
    assert forall k :: 0 <= k < |x| - 1 ==> y[k] == x[k];
    assert Lead(pieces) + [] == Lead(pieces);
  }

  /** A line and the same line without trailing space are judged alike. */
  lemma {:induction false} TrimmedLineIsJudgedAlike(raw: string, previous: int, limit: int)
    ensures LineTag(TrimEnd(raw)) == LineTag(raw)
    ensures FaultOf(TrimEnd(raw), previous, limit) == FaultOf(raw, previous, limit)
    ensures Blank(TrimEnd(raw)) == Blank(raw) && TrimEnd(TrimEnd(raw)) == TrimEnd(raw)
  {
    hide FaultOf, LineTag, LrcTags.Inert;
    var k, w := TrimEnd(raw), raw[TrimmedLength(raw)..];
    assert raw == k + w;
    TrailIsInert(raw);
    BlankConcat(k, w);
    TrimAppend(k, w);
    FaultAppend(k, w, previous, limit);
  }

  lemma {:induction false} FaultAppend(s: string, w: string, previous: int, limit: int)
    requires Inert(w)
    ensures LineTag(s + w) == LineTag(s) && FaultOf(s + w, previous, limit) == FaultOf(s, previous, limit)
  {
    hide LrcTags.TagAt, LrcTags.Scan, LrcTags.Chars, LrcTags.Marks, LrcTags.Inert, Text.Strip, TagLed, CleanText;
    BodyAppend(s, w);
    if LineTag(s).Some? {
      PartsAppend(BodyOf(s), w);
      TagLedAppend(BodyOf(s), w);
      StripAppend(Chars(BodyOf(s)), w);
      hide BodyOf, LineTag;
    }
  }

  lemma {:induction false} BodyAppend(s: string, w: string)
    requires Inert(w)
    ensures LineTag(s + w) == LineTag(s)
    ensures LineTag(s).Some? ==> BodyOf(s + w) == BodyOf(s) + Letters(w)
  {
    hide LrcTags.TagAt, LrcTags.Scan, LrcTags.Inert;
    TagAppend(s, w, LINE, false);
    if LineTag(s).Some? {
      TagShape(s, LINE, false);
      var n := LineTag(s).value.length;
      assert (s + w)[n..] == s[n..] + w;
      ScanAppend(s[n..], w, WORD, false);
    }
  }

  lemma {:induction false} TrailIsInert(raw: string)
    ensures Inert(raw[TrimmedLength(raw)..])
  {
  }

  // ---- whole bodies ----

  lemma {:induction false} LastStartOfPrefix(lines: seq<string>, n: nat, k: nat)
    requires k <= n <= |lines|
    ensures LastStart(lines[..n], k) == LastStart(lines, k)
  {
    if k > 0 {
      assert lines[..n][k - 1] == lines[k - 1];
      LastStartOfPrefix(lines, n, k - 1);
    }
  }

  lemma {:induction false} AcceptablePrefix(lines: seq<string>, limit: int)
    requires lines != [] && Acceptable(lines, limit)
    ensures Acceptable(lines[..|lines| - 1], limit)
    ensures LineAccepted(lines, |lines| - 1, limit)
    ensures LastStart(lines[..|lines| - 1], |lines| - 1) == LastStart(lines, |lines| - 1)
  {
    hide FaultOf;
    hide LastStart;
    var n := |lines| - 1;
    var init := lines[..n];
    LastStartOfPrefix(lines, n, n);
    forall k | 0 <= k < n ensures LineAccepted(init, k, limit) {
      LastStartOfPrefix(lines, n, k);
      assert LineAccepted(lines, k, limit);
    }
  }

  lemma {:induction false} AcceptableSnoc(lines: seq<string>, raw: string, limit: int)
    requires Acceptable(lines, limit) && FaultOf(raw, LastStart(lines, |lines|), limit).None?
    ensures Acceptable(lines + [raw], limit)
    ensures !Blank(raw) && LineTag(raw).Some? ==> LastStart(lines + [raw], |lines| + 1) == LineTag(raw).value.time
  {
    hide FaultOf;
    var all := lines + [raw];
    assert all[..|lines|] == lines;
    forall k | 0 <= k < |all| ensures LineAccepted(all, k, limit) {
      LastStartOfPrefix(all, |lines|, k);
      if k < |lines| {
        assert LineAccepted(lines, k, limit);
      }
    }
  }

  /** The last line of an acceptable body, on its own. */
  lemma {:induction false} LastLine(lines: seq<string>, limit: int)
    requires lines != [] && Acceptable(lines, limit)
    ensures var n := |lines| - 1;
            var init, raw := lines[..n], lines[n];
            && Acceptable(init, limit)
            && Kept(lines) == Kept(init) + (if Blank(raw) then [] else [TrimEnd(raw)])
            && (Blank(raw) ==> LastStart(lines, n + 1) == LastStart(init, n))
            && (!Blank(raw) ==>
                  && FaultOf(raw, LastStart(init, n), limit).None?
                  && LineTag(raw).Some?
                  && LastStart(lines, n + 1) == LineTag(raw).value.time > LastStart(init, n))
  {
    hide FaultOf;
    hide Text.TrimEnd;
    hide Text.Blank;
    AcceptablePrefix(lines, limit);
    var n := |lines| - 1;
    if !Blank(lines[n]) {
      FaultFreeIsLater(lines[n], LastStart(lines, n), limit);
    }
  }

  lemma {:induction false} FaultFreeIsLater(raw: string, previous: int, limit: int)
    requires FaultOf(raw, previous, limit).None?
    ensures LineTag(raw).Some? && LineTag(raw).value.time > previous
  {
  }

  lemma {:induction false} KeptSnoc(lines: seq<string>, raw: string)
    ensures Kept(lines + [raw]) == Kept(lines) + if Blank(raw) then [] else [TrimEnd(raw)]
  {
    assert (lines + [raw])[..|lines|] == lines;
  }

  /** The stored lines are acceptable again, end at the same time, and are stored unchanged. */
  lemma {:induction false} StoredIsAcceptable(lines: seq<string>, limit: int)
    requires Acceptable(lines, limit)
    ensures Acceptable(Kept(lines), limit)
    ensures LastStart(Kept(lines), |Kept(lines)|) == LastStart(lines, |lines|)
    ensures Kept(Kept(lines)) == Kept(lines)
    ensures forall k :: 0 <= k < |Kept(lines)| ==> !Blank(Kept(lines)[k])
  {
    hide FaultOf;
    hide Text.TrimEnd;
    hide Text.Blank;
    if lines != [] {
      hide Kept;
      hide LastStart;
      hide Acceptable;
      var n := |lines| - 1;
      var raw, init := lines[n], lines[..n];
      LastLine(lines, limit);
      StoredIsAcceptable(init, limit);
      assert Kept(init) + [] == Kept(init);
      if !Blank(raw) {
        TrimmedLineIsJudgedAlike(raw, LastStart(init, n), limit);
        AcceptableSnoc(Kept(init), TrimEnd(raw), limit);
        KeptSnoc(Kept(init), TrimEnd(raw));
      }
    }
  }

  /** Validating what was stored accepts it and stores the same lines, whatever the duration was. */
  lemma {:induction false} ValidationIsIdempotent(lines: seq<string>, duration: Option<int>)
    requires Acceptable(lines, Limit(duration)) && exists k :: 0 <= k < |lines| && !Blank(lines[k])
    ensures Acceptable(Kept(lines), Limit(duration)) && Kept(Kept(lines)) == Kept(lines)
    ensures exists k :: 0 <= k < |Kept(lines)| && !Blank(Kept(lines)[k])
  {
    hide FaultOf;
    hide Text.Blank;
    StoredIsAcceptable(lines, Limit(duration));
    var k :| 0 <= k < |lines| && !Blank(lines[k]);
    SomethingKept(lines, k);
    assert !Blank(Kept(lines)[0]);
  }

  lemma {:induction false} SomethingKept(lines: seq<string>, k: nat)
    requires k < |lines| && !Blank(lines[k])
    ensures Kept(lines) != []
  {
    hide Text.Blank;
    if k < |lines| - 1 {
      SomethingKept(lines[..|lines| - 1], k);
    }
  }

  /** Stored lines and player lines correspond one to one, at strictly increasing times. */
  ghost predicate RenderedInOrder(stored: seq<string>, shown: seq<PlayerLine>) {
    && |shown| == |stored|
    && (forall k :: 0 <= k < |shown| ==> LineTag(stored[k]).Some? && Rendered(stored[k], shown[k]))
    && (forall j, k :: 0 <= j < k < |shown| ==> shown[j].t < shown[k].t)
  }

  lemma {:induction false} RenderedSnoc(stored: seq<string>, shown: seq<PlayerLine>, raw: string, p: PlayerLine)
    requires RenderedInOrder(stored, shown) && LineTag(raw).Some? && Rendered(raw, p)
    requires shown != [] ==> shown[|shown| - 1].t < p.t
    ensures RenderedInOrder(stored + [raw], shown + [p])
  {
    hide Rendered;
    var all := shown + [p];
    forall j, k | 0 <= j < k < |all| ensures all[j].t < all[k].t {
      if k == |shown| && j < |shown| - 1 {
        assert shown[j].t < shown[|shown| - 1].t;
      }
    }
  }

  /** Parsing acceptable lines without blanks, in file order. */
  lemma {:induction false} ParsesInOrder(stored: seq<string>, limit: int)
    requires Acceptable(stored, limit) && forall k :: 0 <= k < |stored| ==> !Blank(stored[k])
    ensures RenderedInOrder(stored, ParseAll(stored))
    ensures stored != [] ==>
              && ParseAll(stored) != []
              && ParseAll(stored)[|ParseAll(stored)| - 1].t == LastStart(stored, |stored|)
  {
    hide FaultOf;
    hide ParseLine;
    hide Text.Blank;
    hide RenderedInOrder;
    hide Acceptable;
    hide LastStart;
    hide Rendered;
    hide LineTag;
    hide ParseAll;
    if stored == [] {
      NothingRendered();
    } else {
      var n := |stored| - 1;
      var raw, init := stored[n], stored[..n];
      LastLine(stored, limit);
      ParsesInOrder(init, limit);
      AcceptedLineIsRendered(raw, LastStart(init, n), limit);
      var p := ParseLine(raw)[0];
      assert ParseLine(raw) == [p];
      RenderedAtTag(raw, p);
      NothingParsed(init);
      ParseAllSnoc(stored);
      RenderedSnoc(init, ParseAll(init), raw, p);
      assert init + [raw] == stored;
    }
  }

  lemma {:induction false} ParseAllSnoc(stored: seq<string>)
    requires stored != []
    ensures ParseAll(stored) == ParseAll(stored[..|stored| - 1]) + ParseLine(stored[|stored| - 1])
  {
  }

  lemma {:induction false} NothingParsed(stored: seq<string>)
    ensures stored == [] ==> ParseAll(stored) == []
  {
  }

  lemma {:induction false} NothingRendered()
    ensures RenderedInOrder([], ParseAll([]))
  {
  }

  lemma {:induction false} RenderedAtTag(raw: string, p: PlayerLine)
    requires LineTag(raw).Some? && Rendered(raw, p)
    ensures p.t == LineTag(raw).value.time
  {
  }

  /** An accepted body, as stored, is shown line for line: one player line per stored line, strictly
      increasing in time, and no word timing degraded to a plain line. */
  lemma {:induction false} AcceptedBodyIsRendered(lines: seq<string>, duration: Option<int>)
    requires Acceptable(lines, Limit(duration))
    ensures RenderedInOrder(Kept(lines), Sort(ParseAll(Kept(lines)), NotAfter))
  {
    hide StableSort.Sort;
    var stored := Kept(lines);
    StoredIsAcceptable(lines, Limit(duration));
    ParsesInOrder(stored, Limit(duration));
    var shown := ParseAll(stored);
    InOrderIsSorted(stored, shown);
    SortedIsUnchanged(shown, NotAfter);
  }

  lemma {:induction false} InOrderIsSorted(stored: seq<string>, shown: seq<PlayerLine>)
    requires RenderedInOrder(stored, shown)
    ensures Sorted(shown, NotAfter)
  {
    hide Rendered;
    forall j, k | 0 <= j < k < |shown| ensures NotAfter(shown[j], shown[k]) {
      assert shown[j].t < shown[k].t;
    }
  }
}
