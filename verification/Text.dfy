/** Whitespace, words and blank text, as `str.split`, `str.strip` and `\s` see them. */
module Text {

  predicate IsSpace(c: char) {
    var u := c as int;
    || 9 <= u <= 13 || 28 <= u <= 32 || u == 0x85 || u == 0xA0 || u == 0x1680
    || 0x2000 <= u <= 0x200A || u == 0x2028 || u == 0x2029 || u == 0x202F || u == 0x205F || u == 0x3000
  }

  predicate Blank(s: string) {
    forall k :: 0 <= k < |s| ==> IsSpace(s[k])
  }

  predicate SpaceFree(s: string) {
    s != [] && forall k :: 0 <= k < |s| ==> !IsSpace(s[k])
  }

  /** Length of the leading run of non-space characters. */
  function WordLength(s: string): (n: nat)
    ensures n <= |s|
    ensures forall k :: 0 <= k < n ==> !IsSpace(s[k])
    ensures n < |s| ==> IsSpace(s[n])
  {
    if s == [] || IsSpace(s[0]) then 0 else 1 + WordLength(s[1..])
  }

  /** `s.split()`, also the matches of `\S+`. */
  function Words(s: string): (ws: seq<string>)
    ensures forall k :: 0 <= k < |ws| ==> SpaceFree(ws[k])
    decreases |s|
  {
    if s == [] then []
    else if IsSpace(s[0]) then Words(s[1..])
    else
      var n := WordLength(s);
      [s[..n]] + Words(s[n..])
  }

  /** `" ".join(ws)`. */
  function Unwords(ws: seq<string>): string {
    if ws == [] then []
    else if |ws| == 1 then ws[0]
    else ws[0] + " " + Unwords(ws[1..])
  }

  lemma {:induction false} WordLengthOf(w: string, rest: string)
    requires SpaceFree(w) && (rest == [] || IsSpace(rest[0]))
    ensures WordLength(w + rest) == |w|
  {
    assert (w + rest)[0] == w[0];
    assert (w + rest)[1..] == w[1..] + rest;
    if |w| > 1 {
      WordLengthOf(w[1..], rest);
    } else {
      assert w[1..] + rest == rest;
    }
  }

  /** Joining words and splitting again gives the words back. */
  lemma {:induction false} SplitJoined(ws: seq<string>)
    requires forall k :: 0 <= k < |ws| ==> SpaceFree(ws[k])
    ensures Words(Unwords(ws)) == ws
  {
    assert IsSpace(' ');
    hide IsSpace;
    hide WordLength;
    if |ws| == 1 {
      WordLengthOf(ws[0], []);
      assert ws[0] + [] == ws[0];
      assert ws[0][|ws[0]|..] == [];
      assert ws == [ws[0]];
    } else if |ws| > 1 {
      var rest := " " + Unwords(ws[1..]);
      var s := ws[0] + rest;
      assert Unwords(ws) == s;
      WordLengthOf(ws[0], rest);
      assert s[..|ws[0]|] == ws[0] && s[|ws[0]|..] == rest;
      assert rest[1..] == Unwords(ws[1..]);
      SplitJoined(ws[1..]);
      assert ws == [ws[0]] + ws[1..];
    }
  }

  /** Length of the leading run of spaces. */
  function SpaceLength(s: string): (n: nat)
    ensures n <= |s|
    ensures Blank(s[..n])
    ensures n < |s| ==> !IsSpace(s[n])
  {
    if s == [] || !IsSpace(s[0]) then 0 else 1 + SpaceLength(s[1..])
  }

  lemma {:induction false} WordsSkipSpaces(s: string)
    ensures Words(s) == Words(s[SpaceLength(s)..])
  {
    if s != [] && IsSpace(s[0]) {
      WordsSkipSpaces(s[1..]);
      assert s[1..][SpaceLength(s[1..])..] == s[SpaceLength(s)..];
    } else {
      assert s[0..] == s;
    }
  }

  /** Where the first word of a text stops. */
  function WordEnd(s: string): (n: nat)
    requires SpaceLength(s) < |s|
    ensures SpaceLength(s) < n <= |s|
  {
    SpaceLength(s) + WordLength(s[SpaceLength(s)..])
  }

  lemma {:induction false} WordsAtWord(s: string)
    requires s != [] && !IsSpace(s[0])
    ensures Words(s) == [s[..WordLength(s)]] + Words(s[WordLength(s)..])
  {
  }

  /** First word of a text, and the words after it. */
  lemma {:induction false} WordsStep(s: string)
    ensures SpaceLength(s) == |s| ==> Words(s) == []
    ensures SpaceLength(s) < |s| ==> Words(s) == [s[SpaceLength(s)..WordEnd(s)]] + Words(s[WordEnd(s)..])
  {
    hide Words;
    hide WordLength;
    hide SpaceLength;
    hide Blank;
    hide SpaceFree;
    hide IsSpace;
    WordsSkipSpaces(s);
    var p := SpaceLength(s);
    var t := s[p..];
    if p < |s| {
      WordsAtWord(t);
      assert t[..WordLength(t)] == s[p..WordEnd(s)];
      assert t[WordLength(t)..] == s[WordEnd(s)..];
    } else {
      NoWords();
    }
  }

  lemma {:induction false} NoWords()
    ensures Words([]) == []
  {
  }

  /** Length without trailing spaces. */
  function TrimmedLength(s: string): (n: nat)
    ensures n <= |s|
    ensures forall k :: n <= k < |s| ==> IsSpace(s[k])
    ensures n > 0 ==> !IsSpace(s[n - 1])
  {
    if s == [] || !IsSpace(s[|s| - 1]) then |s| else TrimmedLength(s[..|s| - 1])
  }

  /** `s.rstrip()`. */
  function TrimEnd(s: string): string {
    s[..TrimmedLength(s)]
  }

  /** `s.strip()`. */
  function Strip(s: string): string {
    TrimEnd(s[SpaceLength(s)..])
  }

  /** What stripping removes is space on both sides. */
  lemma {:induction false} StripSplits(s: string) returns (a: nat, b: nat)
    ensures a <= b <= |s| && Strip(s) == s[a..b]
    ensures forall k :: 0 <= k < a || b <= k < |s| ==> IsSpace(s[k])
  {
    a := SpaceLength(s);
    b := a + TrimmedLength(s[a..]);
    forall k | 0 <= k < a ensures IsSpace(s[k]) {
      assert s[..a][k] == s[k];
    }
    forall k | b <= k < |s| ensures IsSpace(s[k]) {
      assert s[a..][k - a] == s[k];
    }
  }

  /** A visible character survives stripping. */
  lemma {:induction false} StripKeeps(s: string, c: char)
    requires c in s && !IsSpace(c)
    ensures c in Strip(s)
  {
    var a, b := StripSplits(s);
    var k :| 0 <= k < |s| && s[k] == c;
    assert s[a..b][k - a] == c;
  }

  lemma {:induction false} BlankStripsEmpty(s: string)
    ensures Blank(s) <==> Strip(s) == []
  {
    var a, b := StripSplits(s);
    if Blank(s) {
      assert s[SpaceLength(s)..] == [];
    }
  }
}
