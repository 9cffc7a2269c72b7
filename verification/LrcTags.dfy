/** Time tags inside a line of text, character by character.

    Two patterns are in use.  The review validator's is strict: seconds below sixty and a dot before
    the fraction.  The player's parser is loose: any two second digits, and a dot or a colon. */
module LrcTags {
  import opened Options
  import opened Text

  predicate Digit(c: char) {
    '0' <= c <= '9'
  }

  function Value(c: char): nat
    requires Digit(c)
  {
    c as int - '0' as int
  }

  /** Length of the leading run of digits. */
  function DigitRun(s: string): (n: nat)
    ensures n <= |s|
    ensures forall k :: 0 <= k < n ==> Digit(s[k])
    ensures n < |s| ==> !Digit(s[n])
  {
    if s == [] || !Digit(s[0]) then 0 else 1 + DigitRun(s[1..])
  }

  /** The number written by the first `n` digits. */
  function Number(s: string, n: nat): nat
    requires n <= |s| && forall k :: 0 <= k < n ==> Digit(s[k])
  {
    if n == 0 then 0 else 10 * Number(s, n - 1) + Value(s[n - 1])
  }

  datatype Brackets = Brackets(open: char, close: char)

  const LINE: Brackets := Brackets('[', ']')
  const WORD: Brackets := Brackets('<', '>')

  /** A tag at the front of a text: its length and its time in milliseconds. */
  datatype Tag = Tag(length: nat, time: nat)

  /** Fraction and closing bracket, behind the seconds. */
  function TailTag(s: string, b: Brackets, loose: bool): Option<Tag> {
    if s == [] then None
    else if s[0] == b.close then Some(Tag(1, 0))
    else if s[0] == '.' || (loose && s[0] == ':') then
      var f := DigitRun(s[1..]);
      if 1 <= f <= 3 && f + 1 < |s| && s[f + 1] == b.close then
        Some(Tag(f + 2, Number(s[1..], f) * (if f == 1 then 100 else if f == 2 then 10 else 1)))
      else None
    else None
  }

  /** Seconds and what follows, behind the colon. */
  function SecondsTag(s: string, b: Brackets, loose: bool): Option<Tag> {
    if DigitRun(s) != 2 || (!loose && s[0] > '5') then None
    else
      var tail := TailTag(s[2..], b, loose);
      if tail.None? then None else Some(Tag(tail.value.length + 2, Number(s, 2) * 1000 + tail.value.time))
  }

  /** `mm:ss` with an optional fraction, between brackets. */
  function TagAt(s: string, b: Brackets, loose: bool): Option<Tag> {
    if s == [] || s[0] != b.open then None
    else
      var d := DigitRun(s[1..]);
      if !(1 <= d <= 2) || d + 1 >= |s| || s[d + 1] != ':' then None
      else
        var rest := SecondsTag(s[d + 2..], b, loose);
        if rest.None? then None
        else Some(Tag(rest.value.length + d + 2, Number(s[1..], d) * 60000 + rest.value.time))
  }

  predicate Plain(c: char) {
    Digit(c) || c == ':' || c == '.'
  }

  lemma {:induction false} TailTagShape(s: string, b: Brackets, loose: bool)
    requires TailTag(s, b, loose).Some?
    ensures var n := TailTag(s, b, loose).value.length;
            0 < n <= |s| && s[n - 1] == b.close && forall k :: 0 <= k < n - 1 ==> Plain(s[k])
  {
    if s[0] != b.close {
      var f := DigitRun(s[1..]);
      forall k | 0 <= k < f + 1 ensures Plain(s[k]) {
        if k > 0 {
          assert Digit(s[1..][k - 1]);
        }
      }
    }
  }

  lemma {:induction false} SecondsTagShape(s: string, b: Brackets, loose: bool)
    requires SecondsTag(s, b, loose).Some?
    ensures var n := SecondsTag(s, b, loose).value.length;
            0 < n <= |s| && s[n - 1] == b.close && forall k :: 0 <= k < n - 1 ==> Plain(s[k])
  {
    hide TailTag;
    TailTagShape(s[2..], b, loose);
    var m := TailTag(s[2..], b, loose).value.length;
    forall k | 0 <= k < m + 1 ensures Plain(s[k]) {
      if k >= 2 {
        assert Plain(s[2..][k - 2]);
      } else {
        assert Digit(s[k]);
      }
    }
  }

  /** A tag starts with the bracket and a digit, ends with the bracket, and has only digits, colons and dots inside. */
  lemma {:induction false} TagShape(s: string, b: Brackets, loose: bool)
    requires TagAt(s, b, loose).Some?
    ensures var n := TagAt(s, b, loose).value.length;
            && 2 < n <= |s| && s[0] == b.open && Digit(s[1]) && s[n - 1] == b.close
            && forall k :: 1 <= k < n - 1 ==> Plain(s[k])
  {
    hide SecondsTag;
    var d := DigitRun(s[1..]);
    SecondsTagShape(s[d + 2..], b, loose);
    var m := SecondsTag(s[d + 2..], b, loose).value.length;
    assert Digit(s[1..][0]);
    forall k | 1 <= k < m + d + 1 ensures Plain(s[k]) {
      if k >= d + 2 {
        assert Plain(s[d + 2..][k - d - 2]);
      } else if k <= d {
        assert Digit(s[1..][k - 1]);
      }
    }
    assert s[d + 2..][m - 1] == s[m + d + 1];
  }

  /** What the strict pattern accepts, the loose one accepts the same way. */
  lemma {:induction false} StrictIsLoose(s: string, b: Brackets)
    requires TagAt(s, b, false).Some?
    ensures TagAt(s, b, true) == TagAt(s, b, false)
  {
  }

  // ---- a tag read alone ----

  lemma {:induction false} DigitRunCut(s: string, n: nat)
    requires DigitRun(s) < n <= |s|
    ensures DigitRun(s[..n]) == DigitRun(s)
  {
    if Digit(s[0]) {
      assert s[..n][1..] == s[1..][..n - 1];
      DigitRunCut(s[1..], n - 1);
    }
  }

  lemma {:induction false} NumberCut(s: string, d: nat, n: nat)
    requires d <= n <= |s| && forall k :: 0 <= k < d ==> Digit(s[k])
    ensures Number(s[..n], d) == Number(s, d)
  {
    if d > 0 {
      NumberCut(s, d - 1, n);
    }
  }

  lemma {:induction false} TailTagCut(s: string, b: Brackets, loose: bool)
    requires TailTag(s, b, loose).Some?
    ensures TailTag(s, b, loose).value.length <= |s|
    ensures TailTag(s[..TailTag(s, b, loose).value.length], b, loose) == TailTag(s, b, loose)
  {
    hide DigitRun, Number;
    var f, n := DigitRun(s[1..]), TailTag(s, b, loose).value.length;
    if s[0] != b.close {
      assert s[..n][1..] == s[1..][..f + 1];
      DigitRunCut(s[1..], f + 1);
      NumberCut(s[1..], f, f + 1);
    }
  }

  lemma {:induction false} SecondsTagCut(s: string, b: Brackets, loose: bool)
    requires SecondsTag(s, b, loose).Some?
    ensures SecondsTag(s, b, loose).value.length <= |s|
    ensures SecondsTag(s[..SecondsTag(s, b, loose).value.length], b, loose) == SecondsTag(s, b, loose)
  {
    SecondsTagShape(s, b, loose);
    TailTagShape(s[2..], b, loose);
    hide DigitRun, Number, TailTag;
    var n := SecondsTag(s, b, loose).value.length;
    DigitRunCut(s, n);
    NumberCut(s, 2, n);
    assert s[..n][2..] == s[2..][..n - 2];
    TailTagCut(s[2..], b, loose);
  }

  lemma {:induction false} TagFrom(s: string, b: Brackets, loose: bool, d: nat, rest: Tag)
    requires 1 <= d <= 2 && d + 1 < |s| && s[0] == b.open && s[d + 1] == ':' && DigitRun(s[1..]) == d
    requires SecondsTag(s[d + 2..], b, loose) == Some(rest)
    ensures TagAt(s, b, loose) == Some(Tag(rest.length + d + 2, Number(s[1..], d) * 60000 + rest.time))
  {
    hide SecondsTag, DigitRun, Number;
  }

  lemma {:induction false} TagInto(s: string, b: Brackets, loose: bool)
    requires TagAt(s, b, loose).Some?
    ensures s != [] && s[0] == b.open
    ensures var d := DigitRun(s[1..]);
            && 1 <= d <= 2 && d + 1 < |s| && s[d + 1] == ':'
            && SecondsTag(s[d + 2..], b, loose).Some?
            && var rest := SecondsTag(s[d + 2..], b, loose).value;
               TagAt(s, b, loose).value == Tag(rest.length + d + 2, Number(s[1..], d) * 60000 + rest.time)
  {
    hide SecondsTag, DigitRun, Number;
  }

  /** A tag at the front of a text is the same tag read alone. */
  lemma {:induction false} TagCut(s: string, b: Brackets, loose: bool)
    requires TagAt(s, b, loose).Some?
    ensures TagAt(s, b, loose).value.length <= |s|
    ensures TagAt(s[..TagAt(s, b, loose).value.length], b, loose) == TagAt(s, b, loose)
  {
    hide DigitRun, Number, SecondsTag, TagAt;
    TagInto(s, b, loose);
    var d, n := DigitRun(s[1..]), TagAt(s, b, loose).value.length;
    SecondsTagCut(s[d + 2..], b, loose);
    SecondsTagShape(s[d + 2..], b, loose);
    var front := s[..n];
    assert front[1..] == s[1..][..n - 1];
    DigitRunCut(s[1..], n - 1);
    NumberCut(s[1..], d, n - 1);
    assert front[d + 2..] == s[d + 2..][..n - d - 2];
    TagFrom(front, b, loose, d, SecondsTag(s[d + 2..], b, loose).value);
  }

  // ---- trailing space never completes a tag ----

  predicate Inert(w: string) {
    forall k :: 0 <= k < |w| ==> IsSpace(w[k])
  }

  lemma {:induction false} DigitRunAppend(s: string, w: string)
    requires Inert(w)
    ensures DigitRun(s + w) == DigitRun(s)
  {
    if s == [] {
      assert s + w == w;
    } else {
      assert (s + w)[1..] == s[1..] + w;
      DigitRunAppend(s[1..], w);
    }
  }

  lemma {:induction false} NumberAppend(s: string, w: string, n: nat)
    requires n <= |s| && forall k :: 0 <= k < n ==> Digit(s[k])
    ensures forall k :: 0 <= k < n ==> Digit((s + w)[k])
    ensures Number(s + w, n) == Number(s, n)
  {
    if n > 0 {
      NumberAppend(s, w, n - 1);
    }
  }

  lemma {:induction false} TailTagAppend(s: string, w: string, b: Brackets, loose: bool)
    requires Inert(w) && !IsSpace(b.close)
    ensures TailTag(s + w, b, loose) == TailTag(s, b, loose)
  {
    hide DigitRun;
    hide Number;
    if s == [] {
      assert s + w == w;
      if w != [] {
        assert IsSpace(w[0]);
      }
    } else {
      assert (s + w)[1..] == s[1..] + w;
      DigitRunAppend(s[1..], w);
      var f := DigitRun(s[1..]);
      NumberAppend(s[1..], w, f);
      if f + 1 >= |s| && f + 1 < |s + w| {
        assert (s + w)[f + 1] == w[f + 1 - |s|];
      }
    }
  }

  lemma {:induction false} SecondsTagAppend(s: string, w: string, b: Brackets, loose: bool)
    requires Inert(w) && !IsSpace(b.close)
    ensures SecondsTag(s + w, b, loose) == SecondsTag(s, b, loose)
  {
    hide DigitRun;
    hide Number;
    hide TailTag;
    DigitRunAppend(s, w);
    if DigitRun(s) == 2 {
      NumberAppend(s, w, 2);
      assert (s + w)[2..] == s[2..] + w;
      TailTagAppend(s[2..], w, b, loose);
    }
  }

  lemma {:induction false} TagAppend(s: string, w: string, b: Brackets, loose: bool)
    requires Inert(w) && !IsSpace(b.open) && !IsSpace(b.close)
    ensures TagAt(s + w, b, loose) == TagAt(s, b, loose)
  {
    hide DigitRun;
    hide Number;
    hide SecondsTag;
    if s == [] {
      assert s + w == w;
      if w != [] {
        assert IsSpace(w[0]);
      }
    } else {
      assert (s + w)[1..] == s[1..] + w;
      DigitRunAppend(s[1..], w);
      var d := DigitRun(s[1..]);
      NumberAppend(s[1..], w, d);
      if d + 1 < |s| {
        assert (s + w)[d + 2..] == s[d + 2..] + w;
        SecondsTagAppend(s[d + 2..], w, b, loose);
      } else if d + 1 < |s + w| {
        assert (s + w)[d + 1] == w[d + 1 - |s|];
      }
    }
  }

  // ---- scanning ----

  /** A line as the pattern matcher sees it: tags and the characters between them. */
  datatype Piece = Mark(time: nat) | Ch(c: char)

  function Scan(s: string, b: Brackets, loose: bool): seq<Piece>
    decreases |s|
  {
    if s == [] then []
    else
      var tag := TagAt(s, b, loose);
      if tag.Some? then
        TagShape(s, b, loose);
        [Mark(tag.value.time)] + Scan(s[tag.value.length..], b, loose)
      else [Ch(s[0])] + Scan(s[1..], b, loose)
  }

  /** The text with all tags removed. */
  function Chars(pieces: seq<Piece>): string {
    if pieces == [] then [] else (if pieces[0].Ch? then [pieces[0].c] else []) + Chars(pieces[1..])
  }

  function Marks(pieces: seq<Piece>): seq<nat> {
    if pieces == [] then [] else (if pieces[0].Mark? then [pieces[0].time] else []) + Marks(pieces[1..])
  }

  function Letters(s: string): (r: seq<Piece>)
    ensures |r| == |s|
  {
    seq(|s|, k requires 0 <= k < |s| => Ch(s[k]))
  }

  lemma {:induction false} CharsOfLetters(s: string)
    ensures Chars(Letters(s)) == s && Marks(Letters(s)) == []
  {
    if s != [] {
      assert Letters(s)[1..] == Letters(s[1..]);
      CharsOfLetters(s[1..]);
    }
  }

  lemma {:induction false} ScanStep(s: string, b: Brackets, loose: bool)
    requires s != []
    ensures TagAt(s, b, loose).Some? ==>
              var tag := TagAt(s, b, loose).value;
              && tag.length <= |s|
              && Scan(s, b, loose) == [Mark(tag.time)] + Scan(s[tag.length..], b, loose)
              && Chars(Scan(s, b, loose)) == Chars(Scan(s[tag.length..], b, loose))
              && Marks(Scan(s, b, loose)) == [tag.time] + Marks(Scan(s[tag.length..], b, loose))
    ensures TagAt(s, b, loose).None? ==>
              && Scan(s, b, loose) == [Ch(s[0])] + Scan(s[1..], b, loose)
              && Chars(Scan(s, b, loose)) == [s[0]] + Chars(Scan(s[1..], b, loose))
              && Marks(Scan(s, b, loose)) == Marks(Scan(s[1..], b, loose))
  {
    hide TagAt;
    if TagAt(s, b, loose).Some? {
      TagShape(s, b, loose);
      var rest := Scan(s[TagAt(s, b, loose).value.length..], b, loose);
      assert ([Mark(TagAt(s, b, loose).value.time)] + rest)[1..] == rest;
    } else {
      var rest := Scan(s[1..], b, loose);
      assert ([Ch(s[0])] + rest)[1..] == rest;
    }
  }

  /** When the strict scan leaves no opening bracket behind, the loose scan sees the same pieces. */
  lemma {:induction false} ScansAgree(s: string, b: Brackets)
    requires b.open !in Chars(Scan(s, b, false))
    ensures Scan(s, b, true) == Scan(s, b, false)
    decreases |s|
  {
    hide TagAt;
    hide Scan;
    hide Chars;
    if s == [] {
      EmptyScan(b);
    } else {
      ScanStep(s, b, false);
      ScanStep(s, b, true);
      if TagAt(s, b, false).Some? {
        StrictIsLoose(s, b);
        TagShape(s, b, false);
        ScansAgree(s[TagAt(s, b, false).value.length..], b);
      } else {
        if TagAt(s, b, true).Some? {
          TagShape(s, b, true);
        }
        ScansAgree(s[1..], b);
      }
    }
  }

  lemma {:induction false} EmptyScan(b: Brackets)
    ensures Scan([], b, true) == [] && Scan([], b, false) == [] && Chars([]) == [] && Marks([]) == []
  {
  }

  lemma {:induction false} ScanOfSpace(w: string, b: Brackets, loose: bool)
    requires Inert(w) && !IsSpace(b.open) && !IsSpace(b.close)
    ensures Scan(w, b, loose) == Letters(w)
  {
    hide TagAt;
    hide Chars;
    hide Marks;
    hide Text.IsSpace;
    if w != [] {
      assert [] + w == w;
      TagAppend([], w, b, loose);
      NoTagInNothing(b, loose);
      ScanOfSpace(w[1..], b, loose);
      assert Letters(w) == [Ch(w[0])] + Letters(w[1..]);
    }
  }

  /** The first piece of a scan, and what is left to scan. */
  lemma {:induction false} ScanCons(s: string, b: Brackets, loose: bool)
    requires s != []
    ensures TagAt(s, b, loose).Some? ==>
              var tag := TagAt(s, b, loose).value;
              0 < tag.length <= |s| && Scan(s, b, loose) == [Mark(tag.time)] + Scan(s[tag.length..], b, loose)
    ensures TagAt(s, b, loose).None? ==> Scan(s, b, loose) == [Ch(s[0])] + Scan(s[1..], b, loose)
  {
    hide TagAt;
    if TagAt(s, b, loose).Some? {
      TagShape(s, b, loose);
    }
  }

  lemma {:induction false} ConcatAssociates<T>(x: seq<T>, y: seq<T>, z: seq<T>)
    ensures (x + y) + z == x + (y + z)
  {
  }

  /** Trailing space is scanned as plain characters. */
  lemma {:induction false} ScanAppend(s: string, w: string, b: Brackets, loose: bool)
    requires Inert(w) && !IsSpace(b.open) && !IsSpace(b.close)
    ensures Scan(s + w, b, loose) == Scan(s, b, loose) + Letters(w)
    decreases |s|
  {
    hide TagAt;
    hide Scan;
    hide Inert;
    hide Text.IsSpace;
    if s == [] {
      assert s + w == w;
      EmptyScan(b);
      ScanOfSpace(w, b, loose);
    } else {
      TagAppend(s, w, b, loose);
      ScanCons(s, b, loose);
      ScanCons(s + w, b, loose);
      var tag := TagAt(s, b, loose);
      var n := if tag.Some? then tag.value.length else 1;
      var first := [if tag.Some? then Mark(tag.value.time) else Ch(s[0])];
      assert (s + w)[n..] == s[n..] + w && (s + w)[0] == s[0];
      ScanAppend(s[n..], w, b, loose);
      ConcatAssociates(first, Scan(s[n..], b, loose), Letters(w));
    }
  }

  lemma {:induction false} NoTagInNothing(b: Brackets, loose: bool)
    ensures TagAt([], b, loose) == None
  {
  }
}
