/** The review validator (`validate_lrc`) and the player's parser (`_parse_lrc_lines`,
    `_parse_lrc_words`): what the validator accepts, the player renders line for line.

    Times in milliseconds.  A body is the list of its lines. */
module LrcReview {
  import opened Options
  import opened StableSort
  import opened Text
  import opened LrcTags

  const SPEECH: string := "[speech]"

  predicate StartsWith(s: string, prefix: string) {
    prefix <= s
  }

  // ---- segments between word tags ----

  /** The text before the first tag. */
  function Lead(pieces: seq<Piece>): string {
    if pieces == [] || pieces[0].Mark? then [] else [pieces[0].c] + Lead(pieces[1..])
  }

  /** Each tag with the text up to the next tag. */
  function Segments(pieces: seq<Piece>): (r: seq<(nat, string)>)
    ensures |r| == |Marks(pieces)|
    ensures forall k :: 0 <= k < |r| ==> r[k].0 == Marks(pieces)[k]
  {
    if pieces == [] then []
    else (if pieces[0].Mark? then [(pieces[0].time, Lead(pieces[1..]))] else []) + Segments(pieces[1..])
  }

  // ---- the validator ----

  const MAX_BYTES: nat := 262144
  const LEAD_IN: int := 2000
  const DAY: int := 86400000

  function Limit(duration: Option<int>): int {
    if duration.Some? && duration.value != 0 then duration.value + LEAD_IN else DAY
  }

  function LineTag(raw: string): Option<Tag> {
    TagAt(raw, LINE, false)
  }

  /** Everything behind the line tag, as word tags and characters. */
  function BodyOf(raw: string): seq<Piece>
    requires LineTag(raw).Some?
  {
    TagShape(raw, LINE, false);
    Scan(raw[LineTag(raw).value.length..], WORD, false)
  }

  /** The lyric text: stripped, without a leading speech marker. */
  function LyricText(text: string): string {
    var t := Strip(text);
    if StartsWith(t, SPEECH) then Strip(t[|SPEECH|..]) else t
  }

  predicate Bracket(c: char) {
    c == '<' || c == '>' || c == '[' || c == ']'
  }

  predicate CleanText(t: string) {
    t != [] && forall k :: 0 <= k < |t| ==> !Bracket(t[k])
  }

  /** Words are led by their tags, and only the last tag may be bare. */
  predicate TagLed(pieces: seq<Piece>) {
    var segments := Segments(pieces);
    segments != [] ==>
      Blank(Lead(pieces)) && forall k :: 0 <= k < |segments| - 1 ==> !Blank(segments[k].1)
  }

  predicate StrictlyIncreasing(times: seq<nat>) {
    forall k :: 0 <= k < |times| - 1 ==> times[k] < times[k + 1]
  }

  datatype Fault = NoLineTag | BadText | BadWordTags | OutOfOrder | WordsOutOfOrder

  /** The first thing wrong with a line that follows a line starting at `previous`. */
  function FaultOf(raw: string, previous: int, limit: int): Option<Fault> {
    if LineTag(raw).None? then Some(NoLineTag)
    else
      var start, pieces := LineTag(raw).value.time, BodyOf(raw);
      var times := Marks(pieces);
      if !CleanText(LyricText(Chars(pieces))) then Some(BadText)
      else if !TagLed(pieces) then Some(BadWordTags)
      else if start <= previous || start > limit then Some(OutOfOrder)
      else if exists k :: 0 <= k < |times| && times[k] > limit then Some(OutOfOrder)
      else if times != [] && (times[0] < start - LEAD_IN || !StrictlyIncreasing(times)) then Some(WordsOutOfOrder)
      else None
  }

  /** Start of the last timed line before line `k`, or one second before zero. */
  function LastStart(lines: seq<string>, k: nat): int
    requires k <= |lines|
  {
    if k == 0 then -1000
    else if Blank(lines[k - 1]) || LineTag(lines[k - 1]).None? then LastStart(lines, k - 1)
    else LineTag(lines[k - 1]).value.time
  }

  predicate LineAccepted(lines: seq<string>, k: nat, limit: int)
    requires k < |lines|
  {
    Blank(lines[k]) || FaultOf(lines[k], LastStart(lines, k), limit).None?
  }

  ghost predicate Acceptable(lines: seq<string>, limit: int) {
    forall k :: 0 <= k < |lines| ==> LineAccepted(lines, k, limit)
  }

  /** The lines that are stored: not blank, without trailing space. */
  function Kept(lines: seq<string>): seq<string> {
    if lines == [] then []
    else Kept(lines[..|lines| - 1]) + if Blank(lines[|lines| - 1]) then [] else [TrimEnd(lines[|lines| - 1])]
  }

  datatype Outcome = Accepted(kept: seq<string>) | TooLarge | NothingThere | Rejected(line: nat, why: Fault)

  /** Accepts exactly the acceptable bodies and keeps every line with text; otherwise names the first bad line. */
  method ValidateLrc(lines: seq<string>, bytes: nat, duration: Option<int>) returns (r: Outcome)
    ensures r.TooLarge? <==> bytes > MAX_BYTES
    ensures r.NothingThere? <==> bytes <= MAX_BYTES && forall k :: 0 <= k < |lines| ==> Blank(lines[k])
    ensures r.Accepted? <==>
              && bytes <= MAX_BYTES && Acceptable(lines, Limit(duration))
              && exists k :: 0 <= k < |lines| && !Blank(lines[k])
    ensures r.Accepted? ==> r.kept == Kept(lines)
    ensures r.Rejected? ==>
              && 1 <= r.line <= |lines| && !Blank(lines[r.line - 1])
              && FaultOf(lines[r.line - 1], LastStart(lines, r.line - 1), Limit(duration)) == Some(r.why)
              && forall k :: 0 <= k < r.line - 1 ==> LineAccepted(lines, k, Limit(duration))
  {
    hide FaultOf;
    hide Text.Blank;
    hide Text.TrimEnd;
    hide LrcTags.TagAt;
    if bytes > MAX_BYTES {
      return TooLarge;
    }
    if forall k :: 0 <= k < |lines| ==> Blank(lines[k]) {
      return NothingThere;
    }
    var limit := Limit(duration);
    var previous: int := -1000;
    var kept: seq<string> := [];
    for k := 0 to |lines|
      invariant previous == LastStart(lines, k)
      invariant forall i :: 0 <= i < k ==> LineAccepted(lines, i, limit)
      invariant kept == Kept(lines[..k])
    {
      var raw := lines[k];
      assert lines[..k + 1][..k] == lines[..k];
      if Blank(raw) {
        continue;
      }
      var fault := CheckLine(raw, previous, limit);
      if fault.Some? {
        assert !LineAccepted(lines, k, limit);
        return Rejected(k + 1, fault.value);
      }
      FaultFreeHasTag(raw, previous, limit);
      previous := LineTag(raw).value.time;
      kept := kept + [TrimEnd(raw)];
    }
    assert lines[..|lines|] == lines;
    r := Accepted(kept);
  }

  lemma {:induction false} FaultFreeHasTag(raw: string, previous: int, limit: int)
    requires FaultOf(raw, previous, limit).None?
    ensures LineTag(raw).Some?
  {
  }

  /** The checks of the loop body, in their order. */
  method CheckLine(raw: string, previous: int, limit: int) returns (fault: Option<Fault>)
    ensures fault == FaultOf(raw, previous, limit)
  {
    hide LyricText;
    hide TagLed;
    hide LrcTags.Scan;
    var tag := LineTag(raw);
    if tag.None? {
      return Some(NoLineTag);
    }
    var start, pieces := tag.value.time, BodyOf(raw);
    if !CleanText(LyricText(Chars(pieces))) {
      return Some(BadText);
    }
    var times := Marks(pieces);
    if !TagLed(pieces) {
      return Some(BadWordTags);
    }
    if start <= previous || start > limit || exists k :: 0 <= k < |times| && times[k] > limit {
      return Some(OutOfOrder);
    }
    if times != [] && (times[0] < start - LEAD_IN || exists k :: 0 <= k < |times| - 1 && times[k] >= times[k + 1]) {
      return Some(WordsOutOfOrder);
    }
    return None;
  }

  // ---- the player's parser ----

  datatype PlayerWord = PlayerWord(t: nat, d: Option<int>, text: string)

  datatype PlayerLine = PlayerLine(t: nat, text: string, end: Option<nat>, words: Option<seq<PlayerWord>>, speech: bool)

  datatype Timing = Timing(words: Option<seq<PlayerWord>>, end: Option<nat>)

  const PLAIN: Timing := Timing(None, None)

  type Segs = seq<(nat, string)>

  /** A bare last tag is the sung end. */
  function SungEnd(segments: Segs): Option<nat>
    requires segments != []
  {
    if Blank(segments[|segments| - 1].1) then Some(segments[|segments| - 1].0) else None
  }

  function Sung(segments: Segs): Segs
    requires segments != []
  {
    if SungEnd(segments).Some? then segments[..|segments| - 1] else segments
  }

  predicate AnyBlank(segments: Segs) {
    exists k :: 0 <= k < |segments| && Blank(segments[k].1)
  }

  /** How long the word at position `i` lasts: until the next tag, the last one until the sung end if there is one. */
  function Duration(sung: Segs, end: Option<nat>, i: nat): Option<int>
    requires i < |sung|
  {
    if i + 1 < |sung| then
      var d: int := sung[i + 1].0 as int - sung[i].0 as int;
      Some(d)
    else if end.Some? then
      var d: int := end.value as int - sung[i].0 as int;
      Some(d)
    else None
  }

  function WordAt(sung: Segs, end: Option<nat>, i: nat): PlayerWord
    requires i < |sung|
  {
    PlayerWord(sung[i].0, Duration(sung, end, i), Strip(sung[i].1))
  }

  function PlayerWords(sung: Segs, end: Option<nat>): (r: seq<PlayerWord>)
    ensures |r| == |sung| && forall i :: 0 <= i < |sung| ==> r[i] == WordAt(sung, end, i)
  {
    seq(|sung|, i requires 0 <= i < |sung| => WordAt(sung, end, i))
  }

  function TimingOf(pieces: seq<Piece>): Timing {
    var segments := Segments(pieces);
    if segments == [] || !Blank(Lead(pieces)) then PLAIN
    else
      var sung, end := Sung(segments), SungEnd(segments);
      if sung == [] || AnyBlank(sung) then PLAIN
      else Timing(Some(PlayerWords(sung, end)), end)
  }

  /** Each word lasts until the next one starts, the last one until the sung end, or nobody knows how long. */
  predicate Lasts(words: seq<PlayerWord>, end: Option<nat>) {
    && (forall k :: 0 <= k < |words| - 1 ==> words[k].d == Some(words[k + 1].t as int - words[k].t as int))
    && (words != [] ==>
          var last := words[|words| - 1];
          if end.Some? then last.d == Some(end.value as int - last.t as int) else last.d.None?)
  }

  /** The segments but for a bare last tag, which is the sung end. */
  predicate EndsAt(segments: Segs, n: nat, end: Option<nat>) {
    if segments != [] && Blank(segments[|segments| - 1].1)
    then n + 1 == |segments| && end == Some(segments[n].0)
    else n == |segments| && end.None?
  }

  /** Word timing of the text before the first tag and the tags with the text behind each: lost exactly if text comes
      first, or no tag leads a word, or a tag other than the last leads none. */
  ghost predicate TimedRight(lead: string, segments: Segs, r: Timing) {
    && (r.words.Some? <==>
          && segments != [] && Blank(lead) && (|segments| > 1 || !Blank(segments[0].1))
          && forall k :: 0 <= k < |segments| - 1 ==> !Blank(segments[k].1))
    && (r.words.None? ==> r.end.None?)
    && (r.words.Some? ==>
          var words := r.words.value;
          && EndsAt(segments, |words|, r.end) && Lasts(words, r.end)
          && forall k :: 0 <= k < |words| ==> words[k].t == segments[k].0 && words[k].text == Strip(segments[k].1))
  }

  lemma {:induction false} TimingIsRight(pieces: seq<Piece>)
    ensures TimedRight(Lead(pieces), Segments(pieces), TimingOf(pieces))
  {
    hide Blank, Strip, Lead, Segments;
    var segments := Segments(pieces);
    if segments != [] {
      var sung, end := Sung(segments), SungEnd(segments);
      assert forall k :: 0 <= k < |sung| ==> sung[k] == segments[k];
      SungBlank(segments);
      if TimingOf(pieces).words.Some? {
        var words := TimingOf(pieces).words.value;
        forall k | 0 <= k < |words| ensures words[k] == WordAt(sung, end, k) {
        }
      }
    }
  }

  lemma {:induction false} SungBlank(segments: Segs)
    requires segments != []
    ensures Sung(segments) != [] && !AnyBlank(Sung(segments)) <==>
              && (|segments| > 1 || !Blank(segments[0].1))
              && forall k :: 0 <= k < |segments| - 1 ==> !Blank(segments[k].1)
  {
    hide Blank;
    var sung := Sung(segments);
    assert forall k :: 0 <= k < |sung| ==> sung[k] == segments[k];
    if forall k :: 0 <= k < |segments| - 1 ==> !Blank(segments[k].1) {
      forall k | 0 <= k < |sung| ensures !Blank(sung[k].1) {
        assert sung[k] == segments[k];
      }
    }
    if !AnyBlank(sung) {
      forall k | 0 <= k < |segments| - 1 ensures !Blank(segments[k].1) {
        assert sung[k] == segments[k];
      }
    }
  }

  method ParseLrcWords(body: string) returns (r: Timing)
    ensures r == TimingOf(Scan(body, WORD, true))
    ensures TimedRight(Lead(Scan(body, WORD, true)), Segments(Scan(body, WORD, true)), r)
  {
    TimingIsRight(Scan(body, WORD, true));
    hide TimedRight, PlayerWords;
    hide LrcTags.Scan;
    hide Text.Strip;
    var pieces := Scan(body, WORD, true);
    var segments := Segments(pieces);
    if segments == [] || !Blank(Lead(pieces)) {
      return PLAIN;
    }
    var end: Option<nat> := None;
    var sung := segments;
    if Blank(segments[|segments| - 1].1) {
      end := Some(segments[|segments| - 1].0);
      sung := segments[..|segments| - 1];
    }
    if sung == [] || AnyBlank(sung) {
      return PLAIN;
    }
    var words := PlayWords(sung, end);
    r := Timing(Some(words), end);
  }

  /** The loop over the sung segments. */
  method PlayWords(sung: Segs, end: Option<nat>) returns (words: seq<PlayerWord>)
    ensures words == PlayerWords(sung, end)
  {
    hide Text.Strip;
    words := [];
    for i := 0 to |sung|
      invariant |words| == i && forall k :: 0 <= k < i ==> words[k] == WordAt(sung, end, k)
    {
      var d: Option<int> := None;
      if i + 1 < |sung| {
        var gap: int := sung[i + 1].0 as int - sung[i].0 as int;
        d := Some(gap);
      } else if end.Some? {
        var gap: int := end.value as int - sung[i].0 as int;
        d := Some(gap);
      }
      words := words + [PlayerWord(sung[i].0, d, Strip(sung[i].1))];
    }
    assert words == PlayerWords(sung, end);
  }

  /** `s.replace(marker, "", 1)`. */
  function RemoveFirst(s: string, marker: string): string
    requires marker != []
  {
    if s == [] then []
    else if StartsWith(s, marker) then s[|marker|..]
    else [s[0]] + RemoveFirst(s[1..], marker)
  }

  function Entries(times: seq<nat>, text: string, timing: Timing, speech: bool): (r: seq<PlayerLine>)
    ensures |r| == |times|
  {
    seq(|times|, k requires 0 <= k < |times| =>
      PlayerLine(times[k], text, timing.end, if speech then None else timing.words, speech))
  }

  /** The player lines of one stored line: one for each line tag anywhere in it. */
  function ParseLine(raw: string): seq<PlayerLine> {
    var pieces := Scan(raw, LINE, true);
    var body := Chars(pieces);
    var whole := Strip(Chars(Scan(body, WORD, true)));
    var speech := StartsWith(whole, SPEECH);
    var text := if speech then Strip(whole[|SPEECH|..]) else whole;
    if Marks(pieces) == [] || text == [] then []
    else
      Entries(Marks(pieces), text,
              TimingOf(Scan(if speech then RemoveFirst(body, SPEECH) else body, WORD, true)), speech)
  }

  /** The marker's first occurrence is taken out; without one the text stays. */
  lemma {:induction false} RemovesFirst(s: string, marker: string, n: nat)
    requires marker != [] && n <= |s| && forall k :: 0 <= k < n ==> !StartsWith(s[k..], marker)
    ensures StartsWith(s[n..], marker) ==> RemoveFirst(s, marker) == s[..n] + s[n + |marker|..]
    ensures n == |s| ==> RemoveFirst(s, marker) == s
  {
    if n == 0 {
      assert s[0..] == s;
      if StartsWith(s, marker) {
        assert s[..0] + s[|marker|..] == s[|marker|..];
      }
    } else {
      assert s[0..] == s;
      forall k | 0 <= k < n - 1 ensures !StartsWith(s[1..][k..], marker) {
        assert s[1..][k..] == s[k + 1..];
      }
      RemovesFirst(s[1..], marker, n - 1);
      assert s[1..][n - 1..] == s[n..];
      if StartsWith(s[n..], marker) {
        assert s[1..][n - 1 + |marker|..] == s[n + |marker|..];
        assert [s[0]] + s[1..][..n - 1] == s[..n];
      }
    }
  }

  /** What the player makes of one stored line: nothing without a line tag or without text, else one entry for each line
      tag, with the text behind the speech marker and, unless it is speech, its word timing. */
  ghost predicate ShowsLine(raw: string, entries: seq<PlayerLine>) {
    var pieces := Scan(raw, LINE, true);
    var body := Chars(pieces);
    var whole := Strip(Chars(Scan(body, WORD, true)));
    var speech := StartsWith(whole, SPEECH);
    var text := if speech then Strip(whole[|SPEECH|..]) else whole;
    var timed := Scan(if speech then RemoveFirst(body, SPEECH) else body, WORD, true);
    && |entries| == (if text == [] then 0 else |Marks(pieces)|)
    && forall k :: 0 <= k < |entries| ==>
         && entries[k].t == Marks(pieces)[k] && entries[k].text == text && entries[k].speech == speech
         && exists timing ::
              && TimedRight(Lead(timed), Segments(timed), timing)
              && entries[k].end == timing.end && entries[k].words == if speech then None else timing.words
  }

  lemma {:induction false} ParseLineShows(raw: string)
    ensures ShowsLine(raw, ParseLine(raw))
  {
    hide LrcTags.Scan, LrcTags.Chars, LrcTags.Marks, TimingOf, Strip, RemoveFirst, TimedRight, Lead, Segments;
    var body := Chars(Scan(raw, LINE, true));
    TimingIsRight(Scan(RemoveFirst(body, SPEECH), WORD, true));
    TimingIsRight(Scan(body, WORD, true));
  }

  function Flatten(parts: seq<seq<PlayerLine>>): seq<PlayerLine> {
    if parts == [] then [] else Flatten(parts[..|parts| - 1]) + parts[|parts| - 1]
  }

  function ParseAll(lines: seq<string>): seq<PlayerLine> {
    if lines == [] then [] else ParseAll(lines[..|lines| - 1]) + ParseLine(lines[|lines| - 1])
  }

  predicate NotAfter(x: PlayerLine, y: PlayerLine) {
    x.t <= y.t
  }

  function AtTime(lines: seq<PlayerLine>, t: nat): seq<PlayerLine> {
    Keep(lines, (line: PlayerLine) => line.t == t)
  }

  /** Sorting leaves the lines of each moment in the order in which they were read. */
  lemma {:induction false} ParsedInPlace(lines: seq<PlayerLine>, t: nat)
    ensures AtTime(Sort(lines, NotAfter), t) == AtTime(lines, t)
  {
    SortIsStable(lines, NotAfter, (line: PlayerLine) => line.t == t);
  }

  /** Word timing of a shown line: durations are those between its own times. */
  ghost predicate WellTimed(p: PlayerLine) {
    p.words.Some? ==> p.words.value != [] && Lasts(p.words.value, p.end)
  }

  lemma {:induction false} ShownIsWellTimed(raw: string, entries: seq<PlayerLine>)
    requires ShowsLine(raw, entries)
    ensures forall k :: 0 <= k < |entries| ==> WellTimed(entries[k])
  {
    hide LrcTags.Scan, LrcTags.Chars, LrcTags.Marks, Strip, RemoveFirst, Lead, Segments, Lasts;
  }

  /** The lines of all parts, sorted by time, those of one moment in the order in which they were read. */
  method ParseLrcLines(lines: seq<string>) returns (out: seq<PlayerLine>, ghost parts: seq<seq<PlayerLine>>)
    ensures out == Sort(ParseAll(lines), NotAfter)
    ensures |parts| == |lines| && forall i :: 0 <= i < |lines| ==> ShowsLine(lines[i], parts[i])
    ensures Sorted(out, NotAfter) && multiset(out) == multiset(Flatten(parts))
    ensures forall t :: AtTime(out, t) == AtTime(Flatten(parts), t)
    ensures forall k :: 0 <= k < |out| ==> WellTimed(out[k])
  {
    hide ParseLine, AtTime, ShowsLine, WellTimed;
    out, parts := [], [];
    for k := 0 to |lines|
      invariant out == ParseAll(lines[..k]) == Flatten(parts)
      invariant |parts| == k && forall i :: 0 <= i < k ==> ShowsLine(lines[i], parts[i])
      invariant forall i :: 0 <= i < |out| ==> WellTimed(out[i])
    {
      var parsed := ParseOne(lines[k]);
      assert lines[..k + 1][..k] == lines[..k];
      ShownIsWellTimed(lines[k], parsed);
      assert (parts + [parsed])[..k] == parts;
      out, parts := out + parsed, parts + [parsed];
    }
    assert lines[..|lines|] == lines;
    NotAfterIsTotal();
    SortSorted(out, NotAfter);
    forall t ensures AtTime(Sort(out, NotAfter), t) == AtTime(out, t) {
      ParsedInPlace(out, t);
    }
    var sorted := Sort(out, NotAfter);
    forall k | 0 <= k < |sorted| ensures WellTimed(sorted[k]) {
      assert sorted[k] in multiset(sorted);
      assert sorted[k] in out;
    }
    out := sorted;
  }

  lemma {:induction false} NotAfterIsTotal()
    ensures TotalPreorder(NotAfter)
  {
  }

  method ParseOne(raw: string) returns (entries: seq<PlayerLine>)
    ensures entries == ParseLine(raw) && ShowsLine(raw, entries)
  {
    ParseLineShows(raw);
    hide ShowsLine, TimedRight;
    hide LrcTags.Scan;
    hide LrcTags.Chars;
    hide LrcTags.Marks;
    hide TimingOf;
    hide Entries;
    hide Text.Strip;
    hide RemoveFirst;
    var pieces := Scan(raw, LINE, true);
    var times := Marks(pieces);
    if times == [] {
      return [];
    }
    var body := Chars(pieces);
    var text := Strip(Chars(Scan(body, WORD, true)));
    var speech := StartsWith(text, SPEECH);
    if speech {
      text := Strip(text[|SPEECH|..]);
      body := RemoveFirst(body, SPEECH);
    }
    if text == [] {
      return [];
    }
    var timing := ParseLrcWords(body);
    entries := ExpandTags(times, text, timing, speech);
  }

  /** One entry for each line tag. */
  method ExpandTags(times: seq<nat>, text: string, timing: Timing, speech: bool) returns (entries: seq<PlayerLine>)
    ensures entries == Entries(times, text, timing, speech)
  {
    entries := [];
    for k := 0 to |times|
      invariant entries == Entries(times, text, timing, speech)[..k]
    {
      entries := entries + [PlayerLine(times[k], text, timing.end, if speech then None else timing.words, speech)];
    }
  }
}
