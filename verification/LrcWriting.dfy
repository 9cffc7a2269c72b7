/** Lines written from data, tag by tag, and what validator and player make of them. */
module LrcWriting {
  import opened Options
  import opened Text
  import opened LrcTags
  import opened LrcReview
  import opened LrcAgreement

  // ---- tags ----

  predicate AllDigits(s: string) {
    forall k :: 0 <= k < |s| ==> Digit(s[k])
  }

  /** The parts of a tag: one or two digits of minutes, two of seconds, and up to three behind a dot; the loose pattern
      also takes sixty seconds and more, and a colon for the dot. */
  datatype Parts = Parts(minutes: string, seconds: string, point: string, fraction: string)

  predicate Writable(p: Parts, loose: bool) {
    && AllDigits(p.minutes) && 1 <= |p.minutes| <= 2
    && AllDigits(p.seconds) && |p.seconds| == 2 && (loose || p.seconds[0] <= '5')
    && AllDigits(p.fraction) && |p.fraction| <= 3
    && if p.fraction == [] then p.point == [] else p.point == "." || (loose && p.point == ":")
  }

  function Written(p: Parts, b: Brackets): string {
    [b.open] + (p.minutes + ([':'] + (p.seconds + (p.point + (p.fraction + [b.close])))))
  }

  /** The tag with these parts stands at the front of a text. */
  predicate Stands(p: Parts, s: string, b: Brackets, loose: bool) {
    Writable(p, loose) && Written(p, b) <= s
  }

  function MinutesOf(p: Parts): nat
    requires Writable(p, true)
  {
    if |p.minutes| == 1 then Value(p.minutes[0]) else 10 * Value(p.minutes[0]) + Value(p.minutes[1])
  }

  function SecondsOf(p: Parts): nat
    requires Writable(p, true)
  {
    10 * Value(p.seconds[0]) + Value(p.seconds[1])
  }

  /** Tenths, hundredths and thousandths, in milliseconds. */
  function FractionOf(p: Parts): nat
    requires Writable(p, true)
  {
    (if |p.fraction| > 0 then 100 * Value(p.fraction[0]) else 0)
    + (if |p.fraction| > 1 then 10 * Value(p.fraction[1]) else 0)
    + (if |p.fraction| > 2 then Value(p.fraction[2]) else 0)
  }

  /** The time written, in milliseconds, digit by digit. */
  function TimeOf(p: Parts): nat
    requires Writable(p, true)
  {
    MinutesOf(p) * 60000 + SecondsOf(p) * 1000 + FractionOf(p)
  }

  lemma {:induction false} DigitRunIs(d: string, rest: string)
    requires AllDigits(d) && (rest == [] || !Digit(rest[0]))
    ensures DigitRun(d + rest) == |d|
  {
    if d == [] {
      assert d + rest == rest;
    } else {
      assert (d + rest)[1..] == d[1..] + rest;
      DigitRunIs(d[1..], rest);
    }
  }

  lemma {:induction false} NumberIs(d: string, rest: string)
    requires AllDigits(d) && |d| <= 3
    ensures forall k :: 0 <= k < |d| ==> Digit((d + rest)[k])
    ensures |d| == 1 ==> Number(d + rest, 1) == Value(d[0])
    ensures |d| == 2 ==> Number(d + rest, 2) == 10 * Value(d[0]) + Value(d[1])
    ensures |d| == 3 ==> Number(d + rest, 3) == 100 * Value(d[0]) + 10 * Value(d[1]) + Value(d[2])
  {
    var s := d + rest;
    assert Number(s, 0) == 0;
    if |d| >= 1 {
      assert Number(s, 1) == Value(d[0]);
    }
    if |d| >= 2 {
      assert Number(s, 2) == 10 * Value(d[0]) + Value(d[1]);
    }
  }

  lemma {:induction false} TailReads(p: Parts, b: Brackets, loose: bool, rest: string)
    requires Writable(p, loose) && !Digit(b.close) && b.close != '.' && b.close != ':'
    ensures TailTag(p.point + (p.fraction + [b.close]) + rest, b, loose)
            == Some(Tag(|p.point| + |p.fraction| + 1, FractionOf(p)))
  {
    var s := p.point + (p.fraction + [b.close]) + rest;
    if p.fraction == [] {
      assert s[0] == b.close;
    } else {
      var after := [b.close] + rest;
      assert s[1..] == p.fraction + after && s[0] == p.point[0];
      DigitRunIs(p.fraction, after);
      NumberIs(p.fraction, after);
      assert s[|p.fraction| + 1] == b.close;
      hide DigitRun, Number;
    }
  }

  lemma {:induction false} Regroup(front: string, middle: string, rest: string)
    ensures front + middle + rest == front + (middle + rest)
    ensures (front + middle + rest)[|front|..] == middle + rest
  {
  }

  lemma {:induction false} SecondsRead(p: Parts, b: Brackets, loose: bool, rest: string)
    requires Writable(p, loose) && !Digit(b.close) && b.close != '.' && b.close != ':'
    ensures SecondsTag(p.seconds + (p.point + (p.fraction + [b.close])) + rest, b, loose)
            == Some(Tag(|p.point| + |p.fraction| + 3, SecondsOf(p) * 1000 + FractionOf(p)))
  {
    TailReads(p, b, loose, rest);
    var after := p.point + (p.fraction + [b.close]) + rest;
    var s := p.seconds + (p.point + (p.fraction + [b.close])) + rest;
    Regroup(p.seconds, p.point + (p.fraction + [b.close]), rest);
    DigitRunIs(p.seconds, after);
    NumberIs(p.seconds, after);
    hide TailTag, DigitRun, Number, FractionOf, AllDigits;
    assert s[2..] == after && s[0] == p.seconds[0];
  }

  lemma {:induction false} Behind(open: char, minutes: string, body: string, rest: string)
    ensures var s := [open] + (minutes + ([':'] + body)) + rest;
            && |s| == |minutes| + |body| + |rest| + 2 && s[0] == open && s[1..] == minutes + ([':'] + (body + rest))
            && s[|minutes| + 1] == ':' && s[|minutes| + 2..] == body + rest
  {
  }

  lemma {:induction false} MinutesRead(p: Parts, next: string)
    requires Writable(p, true) && next != [] && next[0] == ':'
    ensures DigitRun(p.minutes + next) == |p.minutes|
    ensures Number(p.minutes + next, |p.minutes|) == MinutesOf(p)
  {
    DigitRunIs(p.minutes, next);
    NumberIs(p.minutes, next);
    hide DigitRun, Number;
  }

  lemma {:induction false} WrittenIs(p: Parts, b: Brackets, loose: bool)
    requires Writable(p, loose)
    ensures var body := p.seconds + (p.point + (p.fraction + [b.close]));
            && Written(p, b) == [b.open] + (p.minutes + ([':'] + body)) && |body| == |p.point| + |p.fraction| + 3
            && Writable(p, true) && 1 <= |p.minutes| <= 2
            && TimeOf(p) == MinutesOf(p) * 60000 + SecondsOf(p) * 1000 + FractionOf(p)
  {
    hide AllDigits;
  }

  /** A written tag is read back with its length and its time, whatever follows. */
  lemma {:induction false} TagReads(p: Parts, b: Brackets, loose: bool, rest: string)
    requires Writable(p, loose) && !Digit(b.close) && b.close != '.' && b.close != ':'
    ensures TagAt(Written(p, b) + rest, b, loose) == Some(Tag(|Written(p, b)|, TimeOf(p)))
  {
    var body := p.seconds + (p.point + (p.fraction + [b.close]));
    WrittenIs(p, b, loose);
    SecondsRead(p, b, loose, rest);
    var s, next := Written(p, b) + rest, [':'] + (body + rest);
    hide *;
    Behind(b.open, p.minutes, body, rest);
    assert next[0] == ':';
    MinutesRead(p, next);
    TagFrom(s, b, loose, |p.minutes|, Tag(|p.point| + |p.fraction| + 3, SecondsOf(p) * 1000 + FractionOf(p)));
  }

  /** What a tail that is read is made of. */
  lemma {:induction false} TailParts(s: string, b: Brackets, loose: bool) returns (point: string, fraction: string)
    requires TailTag(s, b, loose).Some?
    ensures AllDigits(fraction) && |fraction| <= 3
    ensures if fraction == [] then point == [] else point == "." || (loose && point == ":")
    ensures |point| + |fraction| + 1 <= |s| && s[..|point| + |fraction| + 1] == point + (fraction + [b.close])
  {
    point, fraction := [], [];
    if s[0] != b.close {
      var f := DigitRun(s[1..]);
      point, fraction := [s[0]], s[1..][..f];
      assert AllDigits(fraction);
      assert s[f + 1] == b.close;
    }
  }

  lemma {:induction false} SecondsParts(s: string, b: Brackets, loose: bool)
    returns (seconds: string, point: string, fraction: string)
    requires SecondsTag(s, b, loose).Some?
    ensures AllDigits(seconds) && |seconds| == 2 && (loose || seconds[0] <= '5')
    ensures AllDigits(fraction) && |fraction| <= 3
    ensures if fraction == [] then point == [] else point == "." || (loose && point == ":")
    ensures |point| + |fraction| + 3 <= |s|
            && s[..|point| + |fraction| + 3] == seconds + (point + (fraction + [b.close]))
  {
    point, fraction := TailParts(s[2..], b, loose);
    hide TailTag;
    seconds := s[..2];
    assert AllDigits(seconds);
    hide DigitRun, AllDigits;
    var n := |point| + |fraction| + 1;
    assert s[..n + 2] == s[..2] + s[2..][..n];
  }

  lemma {:induction false} Assembled(s: string, d: nat, tail: string)
    requires |tail| + d + 2 <= |s| && s[d + 2..][..|tail|] == tail
    ensures s[..|tail| + d + 2] == [s[0]] + (s[1..][..d] + ([s[d + 1]] + tail))
  {
    assert forall k :: 0 <= k < |tail| ==> tail[k] == s[d + 2 + k];
  }

  /** Every tag that is read was written so. */
  lemma {:induction false} TagWasWritten(s: string, b: Brackets, loose: bool) returns (p: Parts)
    requires TagAt(s, b, loose).Some?
    ensures Writable(p, loose) && |Written(p, b)| <= |s| && s[..|Written(p, b)|] == Written(p, b)
  {
    TagInto(s, b, loose);
    var d := DigitRun(s[1..]);
    var seconds, point, fraction := SecondsParts(s[d + 2..], b, loose);
    hide TagAt, SecondsTag;
    var minutes := s[1..][..d];
    assert AllDigits(minutes);
    hide DigitRun, AllDigits;
    p := Parts(minutes, seconds, point, fraction);
    var tail := seconds + (point + (fraction + [b.close]));
    Assembled(s, d, tail);
    assert Written(p, b) == [b.open] + (p.minutes + ([':'] + tail));
  }

  /** Exactly the written tags are read, each with its own time. */
  lemma {:induction false} ReadsTheWritten(s: string, b: Brackets, loose: bool)
    requires !Digit(b.close) && b.close != '.' && b.close != ':'
    ensures TagAt(s, b, loose).Some? <==> exists p :: Stands(p, s, b, loose)
    ensures forall p :: Stands(p, s, b, loose) ==> TagAt(s, b, loose) == Some(Tag(|Written(p, b)|, TimeOf(p)))
  {
    hide TagAt, TimeOf;
    forall p | Stands(p, s, b, loose)
      ensures TagAt(s, b, loose) == Some(Tag(|Written(p, b)|, TimeOf(p)))
    {
      assert s == Written(p, b) + s[|Written(p, b)|..];
      TagReads(p, b, loose, s[|Written(p, b)|..]);
    }
    if TagAt(s, b, loose).Some? {
      var p := TagWasWritten(s, b, loose);
      assert Stands(p, s, b, loose);
    }
  }

  // ---- lines ----

  /** A word tag with the text up to the next one. */
  datatype Seg = Seg(tag: Parts, text: string)

  function Texts(segs: seq<Seg>): string {
    if segs == [] then [] else segs[0].text + Texts(segs[1..])
  }

  function WrittenBody(lead: string, segs: seq<Seg>): string
    decreases |segs|
  {
    lead + if segs == [] then [] else Written(segs[0].tag, WORD) + WrittenBody(segs[0].text, segs[1..])
  }

  function WrittenLine(head: Parts, lead: string, segs: seq<Seg>): string {
    Written(head, LINE) + WrittenBody(lead, segs)
  }

  /** Word tags as the pattern has them, and none inside the texts. */
  predicate Spelled(lead: string, segs: seq<Seg>, loose: bool) {
    && '<' !in lead
    && forall k :: 0 <= k < |segs| ==> Writable(segs[k].tag, loose) && '<' !in segs[k].text
  }

  /** The scan of a written text gives back what was written. */
  ghost predicate ScannedTo(pieces: seq<Piece>, lead: string, segs: seq<Seg>)
    requires forall k :: 0 <= k < |segs| ==> Writable(segs[k].tag, true)
  {
    && Lead(pieces) == lead && Chars(pieces) == lead + Texts(segs) && |Segments(pieces)| == |segs|
    && forall k :: 0 <= k < |segs| ==> Segments(pieces)[k] == (TimeOf(segs[k].tag), segs[k].text)
  }

  lemma {:induction false} LetterRead(c: char, pieces: seq<Piece>)
    ensures var all := [Ch(c)] + pieces;
            Lead(all) == [c] + Lead(pieces) && Chars(all) == [c] + Chars(pieces) && Segments(all) == Segments(pieces)
  {
    assert ([Ch(c)] + pieces)[1..] == pieces;
  }

  lemma {:induction false} LetterScanned(c: char, pieces: seq<Piece>, lead: string, segs: seq<Seg>)
    requires forall k :: 0 <= k < |segs| ==> Writable(segs[k].tag, true)
    requires ScannedTo(pieces, lead, segs)
    ensures ScannedTo([Ch(c)] + pieces, [c] + lead, segs)
  {
    hide Texts, TimeOf, Writable;
    LetterRead(c, pieces);
    hide Lead, Chars, Segments;
    assert [c] + lead + Texts(segs) == [c] + (lead + Texts(segs));
  }

  lemma {:induction false} MarkScanned(pieces: seq<Piece>, segs: seq<Seg>)
    requires segs != [] && forall k :: 0 <= k < |segs| ==> Writable(segs[k].tag, true)
    requires ScannedTo(pieces, segs[0].text, segs[1..])
    ensures ScannedTo([Mark(TimeOf(segs[0].tag))] + pieces, [], segs)
  {
    var all := [Mark(TimeOf(segs[0].tag))] + pieces;
    assert all[1..] == pieces;
    assert Segments(all) == [(TimeOf(segs[0].tag), segs[0].text)] + Segments(pieces);
  }

  lemma {:induction false} CharRead(s: string, c: char, rest: string, lead: string, segs: seq<Seg>, loose: bool)
    requires s == [c] + rest && c != '<' && forall k :: 0 <= k < |segs| ==> Writable(segs[k].tag, true)
    requires ScannedTo(Scan(rest, WORD, loose), lead, segs)
    ensures ScannedTo(Scan(s, WORD, loose), [c] + lead, segs)
  {
    assert TagAt(s, WORD, loose).None?;
    ScanStep(s, WORD, loose);
    hide LrcTags.TagAt, LrcTags.Scan, ScannedTo, Writable;
    assert s[1..] == rest;
    LetterScanned(c, Scan(rest, WORD, loose), lead, segs);
  }

  lemma {:induction false} TagWordRead(s: string, rest: string, segs: seq<Seg>, loose: bool)
    requires segs != [] && Writable(segs[0].tag, loose) && forall k :: 0 <= k < |segs| ==> Writable(segs[k].tag, true)
    requires s == Written(segs[0].tag, WORD) + rest
    requires ScannedTo(Scan(rest, WORD, loose), segs[0].text, segs[1..])
    ensures ScannedTo(Scan(s, WORD, loose), [], segs)
  {
    TagReads(segs[0].tag, WORD, loose, rest);
    hide LrcTags.TagAt, LrcTags.Scan, ScannedTo, TimeOf;
    ScanStep(s, WORD, loose);
    assert s[|Written(segs[0].tag, WORD)|..] == rest;
    MarkScanned(Scan(rest, WORD, loose), segs);
  }

  lemma {:induction false} NothingScanned(loose: bool)
    ensures ScannedTo(Scan([], WORD, loose), [], [])
  {
  }

  /** What is written is scanned back, tag by tag and text by text. */
  lemma {:induction false} ScanOfWritten(lead: string, segs: seq<Seg>, loose: bool)
    requires Spelled(lead, segs, loose)
    ensures ScannedTo(Scan(WrittenBody(lead, segs), WORD, loose), lead, segs)
    decreases |segs|, |lead|
  {
    var s := WrittenBody(lead, segs);
    hide LrcTags.Scan, ScannedTo, Writable, Written;
    assert forall k :: 0 <= k < |segs| ==> Writable(segs[k].tag, loose);
    if lead != [] {
      var rest := WrittenBody(lead[1..], segs);
      assert s == [lead[0]] + rest && [lead[0]] + lead[1..] == lead;
      ScanOfWritten(lead[1..], segs, loose);
      Loosely(segs, loose);
      CharRead(s, lead[0], rest, lead[1..], segs, loose);
    } else if segs != [] {
      var rest := WrittenBody(segs[0].text, segs[1..]);
      assert s == Written(segs[0].tag, WORD) + rest;
      ScanOfWritten(segs[0].text, segs[1..], loose);
      Loosely(segs, loose);
      TagWordRead(s, rest, segs, loose);
    } else {
      NothingScanned(loose);
    }
  }

  lemma {:induction false} Loosely(segs: seq<Seg>, loose: bool)
    requires forall k :: 0 <= k < |segs| ==> Writable(segs[k].tag, loose)
    ensures forall k :: 0 <= k < |segs| ==> Writable(segs[k].tag, true)
  {
  }

  lemma {:induction false} FrontTag(s: string, b: Brackets, loose: bool) returns (p: Parts, rest: string)
    requires TagAt(s, b, loose).Some? && !Digit(b.close) && b.close != '.' && b.close != ':'
    ensures Writable(p, loose) && Writable(p, true) && s == Written(p, b) + rest && |rest| < |s|
    ensures TagAt(s, b, loose) == Some(Tag(|Written(p, b)|, TimeOf(p)))
    ensures rest == s[|Written(p, b)|..]
  {
    p := TagWasWritten(s, b, loose);
    hide TagAt, TimeOf, AllDigits;
    assert |Written(p, b)| > 0;
    rest := s[|Written(p, b)|..];
    assert s == Written(p, b) + rest;
    TagReads(p, b, loose, rest);
  }

  lemma {:induction false} TagPut(p: Parts, text: string, more: seq<Seg>, loose: bool)
    requires Writable(p, loose) && Spelled(text, more, loose)
    ensures Spelled([], [Seg(p, text)] + more, loose)
    ensures WrittenBody([], [Seg(p, text)] + more) == Written(p, WORD) + WrittenBody(text, more)
  {
    hide Writable, Written;
    var segs := [Seg(p, text)] + more;
    assert segs[1..] == more && WrittenBody([], segs) == [] + (Written(p, WORD) + WrittenBody(text, more));
  }

  lemma {:induction false} LetterPut(c: char, lead: string, segs: seq<Seg>, loose: bool)
    requires c != '<' && Spelled(lead, segs, loose)
    ensures Spelled([c] + lead, segs, loose) && WrittenBody([c] + lead, segs) == [c] + WrittenBody(lead, segs)
  {
    hide Writable, Written;
  }

  /** A text is what was written, unless a bracket is left over. */
  lemma {:induction false} ScanWasWritten(s: string, loose: bool) returns (lead: string, segs: seq<Seg>)
    requires '<' !in Chars(Scan(s, WORD, loose))
    ensures Spelled(lead, segs, loose) && s == WrittenBody(lead, segs)
    decreases |s|
  {
    hide LrcTags.TagAt, LrcTags.Scan, LrcTags.Chars;
    lead, segs := [], [];
    if s != [] {
      ScanStep(s, WORD, loose);
      if TagAt(s, WORD, loose).Some? {
        var p, rest := FrontTag(s, WORD, loose);
        hide Written, Writable, TimeOf, Spelled, WrittenBody;
        var text, more := ScanWasWritten(rest, loose);
        segs := [Seg(p, text)] + more;
        TagPut(p, text, more, loose);
      } else {
        lead, segs := ScanWasWritten(s[1..], loose);
        hide Written, Writable, TimeOf, Spelled, WrittenBody;
        LetterPut(s[0], lead, segs, loose);
        lead := [s[0]] + lead;
        assert s == [s[0]] + s[1..];
      }
    }
  }

  // ---- the validator's lines ----

  predicate Ordered(segs: seq<Seg>)
    requires forall k :: 0 <= k < |segs| ==> Writable(segs[k].tag, true)
  {
    forall k :: 0 <= k < |segs| - 1 ==> TimeOf(segs[k].tag) < TimeOf(segs[k + 1].tag)
  }

  predicate Unbracketed(text: string) {
    text != [] && forall c :: c in text ==> c != '<' && c != '>' && c != '[' && c != ']'
  }

  /** A line as the validator wants it: behind the start come text without brackets, or words each led by its tag, in
      time order, with at most the last tag bare. */
  predicate InOrder(head: Parts, lead: string, segs: seq<Seg>, previous: int, limit: int) {
    && Writable(head, false) && Spelled(lead, segs, false)
    && previous < TimeOf(head) <= limit
    && (forall k :: 0 <= k < |segs| ==> TimeOf(segs[k].tag) <= limit)
    && Ordered(segs)
    && (segs != [] ==>
          && TimeOf(head) - 2000 <= TimeOf(segs[0].tag)
          && Blank(lead) && forall k :: 0 <= k < |segs| - 1 ==> !Blank(segs[k].text))
    && Unbracketed(LyricText(lead + Texts(segs)))
  }

  ghost predicate Writes(raw: string, head: Parts, lead: string, segs: seq<Seg>, previous: int, limit: int) {
    raw == WrittenLine(head, lead, segs) && InOrder(head, lead, segs, previous, limit)
  }

  /** Marks and body of a written line. */
  lemma {:induction false} LineScanned(head: Parts, lead: string, segs: seq<Seg>)
    requires Writable(head, false) && Spelled(lead, segs, false)
    ensures var raw := WrittenLine(head, lead, segs);
            && LineTag(raw) == Some(Tag(|Written(head, LINE)|, TimeOf(head)))
            && Writable(head, true) && (forall k :: 0 <= k < |segs| ==> Writable(segs[k].tag, true))
            && ScannedTo(BodyOf(raw), lead, segs)
  {
    var raw, body := WrittenLine(head, lead, segs), WrittenBody(lead, segs);
    TagReads(head, LINE, false, body);
    ScanOfWritten(lead, segs, false);
    Loosely(segs, false);
    hide LrcTags.TagAt, LrcTags.Scan, ScannedTo, Spelled, TimeOf, WrittenBody, Written;
    assert raw[|Written(head, LINE)|..] == body;
  }

  /** The times of the scan are those of the tags. */
  lemma {:induction false} MarksAreTimes(pieces: seq<Piece>, lead: string, segs: seq<Seg>)
    requires forall k :: 0 <= k < |segs| ==> Writable(segs[k].tag, true)
    requires ScannedTo(pieces, lead, segs)
    ensures |Marks(pieces)| == |segs| && forall k :: 0 <= k < |segs| ==> Marks(pieces)[k] == TimeOf(segs[k].tag)
    ensures TagLed(pieces) <==>
              (segs != [] ==> Blank(lead) && forall k :: 0 <= k < |segs| - 1 ==> !Blank(segs[k].text))
    ensures StrictlyIncreasing(Marks(pieces)) <==> Ordered(segs)
    ensures Chars(pieces) == lead + Texts(segs)
  {
    hide TimeOf, Blank, Texts;
    var segments := Segments(pieces);
    assert forall k :: 0 <= k < |segs| ==> segments[k].0 == Marks(pieces)[k];
    assert forall k :: 0 <= k < |segs| ==> segments[k].1 == segs[k].text;
  }

  lemma {:induction false} CleanIs(t: string)
    ensures CleanText(t) <==> Unbracketed(t)
  {
    if !CleanText(t) && t != [] {
      var k :| 0 <= k < |t| && Bracket(t[k]);
      assert t[k] in t;
    }
  }

  lemma {:induction false} NoFaultMeans(raw: string, previous: int, limit: int)
    requires LineTag(raw).Some?
    ensures var start, pieces := LineTag(raw).value.time, BodyOf(raw);
            FaultOf(raw, previous, limit).None? <==>
              && CleanText(LyricText(Chars(pieces))) && TagLed(pieces) && previous < start <= limit
              && (forall k :: 0 <= k < |Marks(pieces)| ==> Marks(pieces)[k] <= limit)
              && StrictlyIncreasing(Marks(pieces))
              && (Marks(pieces) != [] ==> start - LEAD_IN <= Marks(pieces)[0])
  {
    hide LineTag, BodyOf, CleanText, LyricText, TagLed, Chars, Marks;
  }

  lemma {:induction false} InOrderMeans(head: Parts, lead: string, segs: seq<Seg>, previous: int, limit: int)
    requires Writable(head, false) && Spelled(lead, segs, false)
    ensures Writable(head, true) && forall k :: 0 <= k < |segs| ==> Writable(segs[k].tag, true)
    ensures InOrder(head, lead, segs, previous, limit) <==>
              && Unbracketed(LyricText(lead + Texts(segs))) && previous < TimeOf(head) <= limit
              && (forall k :: 0 <= k < |segs| ==> TimeOf(segs[k].tag) <= limit)
              && Ordered(segs)
              && (segs != [] ==>
                    && TimeOf(head) - LEAD_IN <= TimeOf(segs[0].tag)
                    && Blank(lead) && forall k :: 0 <= k < |segs| - 1 ==> !Blank(segs[k].text))
  {
    Loosely(segs, false);
    hide Ordered, LyricText, Texts, TimeOf, Blank, Unbracketed;
  }

  /** On a written line, the validator finds no fault exactly if all is in order. */
  lemma {:induction false} WrittenIsAccepted(head: Parts, lead: string, segs: seq<Seg>, previous: int, limit: int)
    requires Writable(head, false) && Spelled(lead, segs, false)
    ensures FaultOf(WrittenLine(head, lead, segs), previous, limit).None?
        <==> InOrder(head, lead, segs, previous, limit)
  {
    hide *;
    LineScanned(head, lead, segs);
    var raw := WrittenLine(head, lead, segs);
    var pieces := BodyOf(raw);
    MarksAreTimes(pieces, lead, segs);
    NoFaultMeans(raw, previous, limit);
    CleanIs(LyricText(lead + Texts(segs)));
    InOrderMeans(head, lead, segs, previous, limit);
    var times := Marks(pieces);
    assert (forall k :: 0 <= k < |times| ==> times[k] <= limit)
      <==> (forall k :: 0 <= k < |segs| ==> TimeOf(segs[k].tag) <= limit);
  }

  /** The validator accepts exactly the lines that can be written in order. */
  lemma {:induction false} AcceptedIffWritten(raw: string, previous: int, limit: int)
    ensures FaultOf(raw, previous, limit).None?
            <==> exists head, lead, segs :: Writes(raw, head, lead, segs, previous, limit)
  {
    hide FaultOf, InOrder, WrittenLine;
    forall head, lead, segs | Writes(raw, head, lead, segs, previous, limit)
      ensures FaultOf(raw, previous, limit).None?
    {
      assert Writable(head, false) && Spelled(lead, segs, false) by {
        OrderedIsSpelled(head, lead, segs, previous, limit);
      }
      WrittenIsAccepted(head, lead, segs, previous, limit);
    }
    if FaultOf(raw, previous, limit).None? {
      var head, lead, segs := AcceptedWasWritten(raw, previous, limit);
      WrittenIsAccepted(head, lead, segs, previous, limit);
      assert Writes(raw, head, lead, segs, previous, limit);
    }
  }

  lemma {:induction false} OrderedIsSpelled(head: Parts, lead: string, segs: seq<Seg>, previous: int, limit: int)
    requires InOrder(head, lead, segs, previous, limit)
    ensures Writable(head, false) && Spelled(lead, segs, false)
  {
  }

  lemma {:induction false} AcceptedWasWritten(raw: string, previous: int, limit: int)
    returns (head: Parts, lead: string, segs: seq<Seg>)
    requires FaultOf(raw, previous, limit).None?
    ensures raw == WrittenLine(head, lead, segs) && Writable(head, false) && Spelled(lead, segs, false)
  {
    CleanHidesWordTags(Chars(BodyOf(raw)));
    assert LineTag(raw).Some?;
    hide FaultOf, CleanText, LyricText, LrcTags.Scan, LrcTags.Chars;
    var rest;
    head, rest := FrontTag(raw, LINE, false);
    hide LrcTags.TagAt, Written, Writable, TimeOf, Spelled, WrittenBody;
    lead, segs := ScanWasWritten(rest, false);
  }

  // ---- what the player shows ----

  /** One word for each tag that leads one, lasting until the next tag; a bare last tag is the end of the line. */
  ghost predicate Plays(segs: seq<Seg>, words: seq<PlayerWord>, end: Option<nat>)
    requires segs != [] && forall k :: 0 <= k < |segs| ==> Writable(segs[k].tag, true)
  {
    var last := segs[|segs| - 1];
    && end == (if Blank(last.text) then Some(TimeOf(last.tag)) else None)
    && |words| == (if Blank(last.text) then |segs| - 1 else |segs|)
    && forall k :: 0 <= k < |words| ==>
         && words[k].t == TimeOf(segs[k].tag) && words[k].text == Strip(segs[k].text)
         && words[k].d == if k + 1 < |segs| then Some(TimeOf(segs[k + 1].tag) - TimeOf(segs[k].tag)) else None
  }

  /** The player shows a line that is in order once, at the time written, with the text and the words written. */
  ghost predicate ShowsWritten(p: PlayerLine, head: Parts, lead: string, segs: seq<Seg>)
    requires Writable(head, true) && forall k :: 0 <= k < |segs| ==> Writable(segs[k].tag, true)
  {
    var text := lead + Texts(segs);
    && p.t == TimeOf(head) && p.text == LyricText(text) && (p.speech <==> StartsWith(Strip(text), SPEECH))
    && (p.words.Some? <==> segs != [] && !p.speech)
    && (p.words.Some? ==> Plays(segs, p.words.value, p.end))
  }

  lemma {:induction false} FollowedIsPlayed(pieces: seq<Piece>, lead: string, segs: seq<Seg>, words: seq<PlayerWord>,
                                            end: Option<nat>)
    requires segs != [] && forall k :: 0 <= k < |segs| ==> Writable(segs[k].tag, true)
    requires ScannedTo(pieces, lead, segs)
    requires Follows(words, Segments(pieces)) && Lasts(words, end) && EndsAt(Segments(pieces), |words|, end)
    ensures Plays(segs, words, end)
  {
    hide TimeOf, Blank, Strip, Texts, Lead, Segments, Chars;
  }

  lemma {:induction false} RenderedIsPlayed(raw: string, p: PlayerLine, head: Parts, lead: string, segs: seq<Seg>)
    requires Writable(head, true) && forall k :: 0 <= k < |segs| ==> Writable(segs[k].tag, true)
    requires LineTag(raw).Some? && LineTag(raw).value.time == TimeOf(head) && ScannedTo(BodyOf(raw), lead, segs)
    requires Chars(BodyOf(raw)) == lead + Texts(segs) && |Marks(BodyOf(raw))| == |segs|
    requires Rendered(raw, p) && (p.speech ==> p.words.None?)
    ensures ShowsWritten(p, head, lead, segs)
  {
    hide LineTag, BodyOf, Marks, Chars, LyricText, Texts, Follows, Lasts, EndsAt, Plays, ScannedTo, Playable, Strip;
    hide Writable, TimeOf;
    if segs != [] && !p.speech {
      FollowedIsPlayed(BodyOf(raw), lead, segs, p.words.value, p.end);
    }
  }

  /** An accepted line is played as it was written. */
  lemma {:induction false} WrittenIsPlayed(head: Parts, lead: string, segs: seq<Seg>, previous: int, limit: int)
    requires InOrder(head, lead, segs, previous, limit)
    ensures Writable(head, true) && forall k :: 0 <= k < |segs| ==> Writable(segs[k].tag, true)
    ensures |ParseLine(WrittenLine(head, lead, segs))| == 1
    ensures ShowsWritten(ParseLine(WrittenLine(head, lead, segs))[0], head, lead, segs)
  {
    var raw := WrittenLine(head, lead, segs);
    OrderedIsSpelled(head, lead, segs, previous, limit);
    WrittenIsAccepted(head, lead, segs, previous, limit);
    LineScanned(head, lead, segs);
    AcceptedLineIsRendered(raw, previous, limit);
    SpeechHasNoWords(raw);
    var pieces, p := BodyOf(raw), ParseLine(raw)[0];
    MarksAreTimes(pieces, lead, segs);
    hide *;
    RenderedIsPlayed(raw, p, head, lead, segs);
  }

  lemma {:induction false} SpeechHasNoWords(raw: string)
    ensures forall k :: 0 <= k < |ParseLine(raw)| ==> ParseLine(raw)[k].speech ==> ParseLine(raw)[k].words.None?
  {
    ParseLineShows(raw);
    hide ParseLine, LrcTags.Scan, LrcTags.Chars, LrcTags.Marks, Strip, RemoveFirst, TimedRight, Lead, Segments;
  }
}
