/** Corrections applied to the lines of the text they were computed on: the corrected words are replaced, and every
  * line that is not metadata has its spacing tidied.
  */
module EditApplication {
  import opened Options
  import opened StableSort
  import opened Text
  import opened LineCutting
  import opened EditCorrections

  // ---- the spacing pass ----

  predicate Gapped(c: char) {
    c == ' ' || c == '\t'
  }

  function GapRun(s: string): (n: nat)
    ensures n <= |s| && (forall k :: 0 <= k < n ==> Gapped(s[k])) && (n < |s| ==> !Gapped(s[n]))
  {
    if s == [] || !Gapped(s[0]) then 0 else 1 + GapRun(s[1..])
  }

  /** Two or more blanks in a row become one space. */
  function Squeeze(s: string): string
    decreases |s|
  {
    if s == [] then []
    else if GapRun(s) >= 2 then " " + Squeeze(s[GapRun(s)..])
    else [s[0]] + Squeeze(s[1..])
  }

  function Tidy(s: string): string {
    TrimEnd(Squeeze(s))
  }

  lemma {:induction false} SqueezeStep(s: string)
    requires s != []
    ensures Squeeze(s) == if GapRun(s) >= 2 then " " + Squeeze(s[GapRun(s)..]) else [s[0]] + Squeeze(s[1..])
  {
  }

  lemma {:induction false} NothingSqueezed()
    ensures Squeeze([]) == []
  {
  }

  lemma {:induction false} SqueezeWord(s: string)
    ensures Squeeze(s) == s[..WordLength(s)] + Squeeze(s[WordLength(s)..])
    ensures WordLength(Squeeze(s)) == WordLength(s)
  {
    hide Squeeze, IsSpace;
    if s == [] {
      NothingSqueezed();
    } else if IsSpace(s[0]) {
      SqueezedSpace(s);
      assert s[0..] == s;
    } else {
      InkIsNoGap(s);
      SqueezeStep(s);
      SqueezeWord(s[1..]);
      var n := WordLength(s[1..]);
      assert s[1..][n..] == s[n + 1..] && [s[0]] + s[1..][..n] == s[..n + 1];
      WordStep(s[0], Squeeze(s[1..]));
    }
  }

  lemma {:induction false} InkIsNoGap(s: string)
    requires s != [] && !IsSpace(s[0])
    ensures GapRun(s) == 0
  {
  }

  lemma {:induction false} SqueezedSpace(s: string)
    requires s != [] && IsSpace(s[0])
    ensures Squeeze(s) != [] && IsSpace(Squeeze(s)[0]) && WordLength(s) == 0 && WordLength(Squeeze(s)) == 0
  {
    assert IsSpace(' ');
    hide IsSpace, Squeeze;
    SqueezeStep(s);
  }

  lemma {:induction false} WordsSkipRun(s: string, n: nat)
    requires n <= |s| && forall k :: 0 <= k < n ==> IsSpace(s[k])
    ensures Words(s) == Words(s[n..])
  {
    hide IsSpace, Words;
    if n == 0 {
      assert s[0..] == s;
    } else {
      WordsSkipOne(s[0], s[1..]);
      assert s == [s[0]] + s[1..];
      WordsSkipRun(s[1..], n - 1);
      assert s[1..][n - 1..] == s[n..];
    }
  }

  lemma {:induction false} GapIsSpace(s: string)
    ensures IsSpace(' ') && forall k :: 0 <= k < GapRun(s) ==> IsSpace(s[k])
  {
  }

  lemma {:induction false} SqueezeKeepsWords(s: string)
    ensures Words(Squeeze(s)) == Words(s)
    decreases |s|
  {
    hide IsSpace, Words, Squeeze, GapRun;
    if s == [] {
      NothingSqueezed();
    } else if IsSpace(s[0]) {
      SqueezeStep(s);
      GapIsSpace(s);
      var n := if GapRun(s) >= 2 then GapRun(s) else 1;
      WordsSkipRun(s, n);
      SqueezeKeepsWords(s[n..]);
      WordsSkipOne(if GapRun(s) >= 2 then ' ' else s[0], Squeeze(s[n..]));
    } else {
      SqueezeWord(s);
      var m, t := WordLength(s), Squeeze(s);
      InkFirst(s);
      SqueezeKeepsWords(s[m..]);
      assert t[..m] == s[..m] && t[m..] == Squeeze(s[m..]) && t[0] == s[0];
      WordsAtWord(s);
      WordsAtWord(t);
    }
  }

  lemma {:induction false} InkFirst(s: string)
    requires s != [] && !IsSpace(s[0])
    ensures WordLength(s) > 0
  {
  }

  lemma {:induction false} TrailingSpace(s: string, w: string)
    requires forall k :: 0 <= k < |w| ==> IsSpace(w[k])
    ensures Words(s + w) == Words(s)
    decreases |s|
  {
    hide IsSpace, Words;
    if s == [] {
      assert s + w == w;
      WordsSkipRun(w, |w|);
      assert w[|w|..] == s;
    } else if IsSpace(s[0]) {
      assert s + w == [s[0]] + (s[1..] + w) && s == [s[0]] + s[1..];
      WordsSkipOne(s[0], s[1..] + w);
      WordsSkipOne(s[0], s[1..]);
      TrailingSpace(s[1..], w);
    } else {
      TrailingWord(s, w);
      InkFirst(s);
      var m := WordLength(s);
      WordsAtWord(s);
      WordsAtWord(s + w);
      assert (s + w)[..m] == s[..m] && (s + w)[m..] == s[m..] + w;
      TrailingSpace(s[m..], w);
    }
  }

  lemma {:induction false} TrailingWord(s: string, w: string)
    requires forall k :: 0 <= k < |w| ==> IsSpace(w[k])
    ensures WordLength(s + w) == WordLength(s)
  {
    hide IsSpace;
    if s == [] {
      assert s + w == w;
    } else {
      assert (s + w)[1..] == s[1..] + w;
      TrailingWord(s[1..], w);
    }
  }

  /** Tidying a line keeps all its words, its tags among them. */
  lemma {:induction false} TidyKeepsWords(s: string)
    ensures Words(Tidy(s)) == Words(s)
  {
    hide IsSpace, Words, Squeeze;
    var t := Squeeze(s);
    SqueezeKeepsWords(s);
    assert t == t[..TrimmedLength(t)] + t[TrimmedLength(t)..];
    TrailingSpace(t[..TrimmedLength(t)], t[TrimmedLength(t)..]);
  }

  predicate NoDouble(s: string) {
    forall k :: 0 <= k < |s| - 1 ==> !(Gapped(s[k]) && Gapped(s[k + 1]))
  }

  lemma {:induction false} SqueezeShortens(s: string)
    ensures |Squeeze(s)| <= |s| && (|Squeeze(s)| == |s| <==> NoDouble(s)) && (NoDouble(s) ==> Squeeze(s) == s)
    decreases |s|
  {
    hide Squeeze, Gapped;
    if s == [] {
      NothingSqueezed();
    } else {
      SqueezeStep(s);
      var n := GapRun(s);
      if n >= 2 {
        SqueezeShortens(s[n..]);
        assert Gapped(s[0]) && Gapped(s[0 + 1]);
      } else {
        SqueezeShortens(s[1..]);
        SingleGap(s);
      }
    }
  }

  lemma {:induction false} SingleGap(s: string)
    requires s != [] && GapRun(s) < 2
    ensures NoDouble(s) <==> NoDouble(s[1..])
  {
    if NoDouble(s[1..]) {
      forall k | 0 <= k < |s| - 1 ensures !(Gapped(s[k]) && Gapped(s[k + 1])) {
        if k > 0 {
          assert s[1..][k - 1] == s[k] && s[1..][k - 1 + 1] == s[k + 1];
        }
      }
    }
    if NoDouble(s) {
      forall k | 0 <= k < |s[1..]| - 1 ensures !(Gapped(s[1..][k]) && Gapped(s[1..][k + 1])) {
        assert s[1..][k] == s[k + 1] && s[1..][k + 1] == s[k + 1 + 1];
      }
    }
  }

  lemma {:induction false} GapRunIs(g: string, b: string)
    requires (forall k :: 0 <= k < |g| ==> g[k] == ' ' || g[k] == '\t')
    requires b == [] || (b[0] != ' ' && b[0] != '\t')
    ensures GapRun(g + b) == |g| && (g + b)[|g|..] == b
  {
    if g == [] {
      assert g + b == b;
    } else {
      assert (g + b)[1..] == g[1..] + b;
      GapRunIs(g[1..], b);
    }
  }

  lemma {:induction false} GapRunInside(a: string, rest: string)
    requires a != [] && a[|a| - 1] != ' ' && a[|a| - 1] != '\t'
    ensures GapRun(a + rest) == GapRun(a) < |a|
  {
    if Gapped(a[0]) {
      assert (a + rest)[1..] == a[1..] + rest;
      GapRunInside(a[1..], rest);
    }
  }

  /** Each run of two or more spaces and tabs becomes one space, and what stands on its two sides is squeezed on its
      own; what has no such run stays, by `SqueezeShortens`. */
  lemma {:induction false} SqueezesRun(a: string, g: string, b: string)
    requires |g| >= 2 && forall k :: 0 <= k < |g| ==> g[k] == ' ' || g[k] == '\t'
    requires a == [] || (a[|a| - 1] != ' ' && a[|a| - 1] != '\t')
    requires b == [] || (b[0] != ' ' && b[0] != '\t')
    ensures Squeeze(a + (g + b)) == Squeeze(a) + (" " + Squeeze(b))
    decreases |a|
  {
    hide Squeeze, GapRun, Gapped;
    var s := a + (g + b);
    if a == [] {
      assert s == g + b;
      GapRunIs(g, b);
      SqueezeStep(s);
      NothingSqueezed();
    } else {
      GapRunInside(a, g + b);
      var n := if GapRun(a) >= 2 then GapRun(a) else 1;
      SqueezesRun(a[n..], g, b);
      assert s[n..] == a[n..] + (g + b);
      SqueezeFront(s, n);
      SqueezeFront(a, n);
      Regrouped(if n >= 2 then " " else [a[0]], Squeeze(a[n..]), " " + Squeeze(b));
    }
  }

  lemma {:induction false} SqueezeFront(s: string, n: nat)
    requires s != [] && n == if GapRun(s) >= 2 then GapRun(s) else 1
    ensures n <= |s| && Squeeze(s) == (if n >= 2 then " " else [s[0]]) + Squeeze(s[n..])
  {
    hide Squeeze, GapRun, Gapped;
    SqueezeStep(s);
  }

  lemma {:induction false} Regrouped(a: string, b: string, c: string)
    ensures a + (b + c) == a + b + c
  {
  }

  /** Exactly the lines without double blanks and without space at the end are left as they are. */
  lemma {:induction false} TidyIsSame(s: string)
    ensures Tidy(s) == s <==> NoDouble(s) && (s == [] || !IsSpace(s[|s| - 1]))
  {
    hide Squeeze, IsSpace, NoDouble;
    SqueezeShortens(s);
    var t := Squeeze(s);
    assert |Tidy(s)| == TrimmedLength(t) <= |t|;
    if TrimmedLength(t) == |t| {
      assert t[..|t|] == t;
    }
  }

  /** Correction `c` lies within the line whose tokens are numbered from `index` and sit at the pieces `words`. */
  predicate Lands(c: Correction, words: seq<nat>, index: nat) {
    1 <= c.length && index <= c.start && c.start + c.length <= index + |words|
  }

  function Head(c: Correction, words: seq<nat>, index: nat): nat
    requires Lands(c, words, index)
  {
    words[c.start - index]
  }

  function Last(c: Correction, words: seq<nat>, index: nat): nat
    requires Lands(c, words, index)
  {
    words[c.start + c.length - 1 - index]
  }

  predicate Inside(c: Correction, words: seq<nat>, index: nat, piece: nat)
    requires Lands(c, words, index)
  {
    Head(c, words, index) <= piece <= Last(c, words, index)
  }

  predicate Touched(cs: seq<Correction>, words: seq<nat>, index: nat, piece: nat) {
    exists k :: 0 <= k < |cs| && Lands(cs[k], words, index) && Inside(cs[k], words, index, piece)
  }

  /** The line after its corrections: the replacement stands where the corrected run began, the rest of the run
    * with the tags and spaces inside it is gone, and every other piece is as it was. */
  ghost predicate Rewritten(pieces: seq<Piece>, out: seq<string>, words: seq<nat>, index: nat, cs: seq<Correction>) {
    && |out| == |pieces|
    && (forall p: nat :: p < |pieces| && !Touched(cs, words, index, p) ==> out[p] == pieces[p].text)
    && (forall k, p: nat :: 0 <= k < |cs| && Lands(cs[k], words, index) && Inside(cs[k], words, index, p)
                              && p < |pieces| ==>
          out[p] == if p == Head(cs[k], words, index) then Unwords(cs[k].replacement) else "")
  }

  ghost predicate IsByStart(cs: seq<Correction>, byStart: map<nat, Correction>) {
    && (forall k :: 0 <= k < |cs| ==> cs[k].start in byStart && byStart[cs[k].start] == cs[k])
    && forall s :: s in byStart ==> byStart[s] in cs && byStart[s].start == s
  }

  method ByStart(cs: seq<Correction>) returns (byStart: map<nat, Correction>)
    requires InOrder(cs) && forall k :: 0 <= k < |cs| ==> 1 <= cs[k].length
    ensures IsByStart(cs, byStart)
  {
    byStart := map[];
    for i := 0 to |cs|
      invariant IsByStart(cs[..i], byStart)
    {
      assert cs[..i + 1] == cs[..i] + [cs[i]];
      byStart := byStart[cs[i].start := cs[i]];
    }
    assert cs[..|cs|] == cs;
  }

  predicate Started(c: Correction, words: seq<nat>, index: nat, position: nat) {
    Lands(c, words, index) && c.start < index + position
  }

  /** What the pass over a line's words has done before word number `position`. */
  ghost predicate Rewriting(pieces: seq<Piece>, out: seq<string>, words: seq<nat>, index: nat, cs: seq<Correction>,
                            position: nat) {
    && |out| == |pieces|
    && (forall p: nat :: p < |pieces| && !Touched(cs, words, index, p) ==> out[p] == pieces[p].text)
    && (forall k, p: nat :: 0 <= k < |cs| && Started(cs[k], words, index, position) && Inside(cs[k], words, index, p)
                              && p < |pieces| ==>
          out[p] == if p == Head(cs[k], words, index) then Unwords(cs[k].replacement) else "")
  }

  /** `skipUntil` is just past the last word of the latest correction made. */
  ghost predicate Skipping(words: seq<nat>, index: nat, cs: seq<Correction>, position: nat, skipUntil: nat) {
    && (skipUntil == 0 || exists k :: 0 <= k < |cs| && Started(cs[k], words, index, position)
                            && skipUntil == Last(cs[k], words, index) + 1)
    && (forall k :: 0 <= k < |cs| && Started(cs[k], words, index, position) ==> Last(cs[k], words, index) < skipUntil)
  }

  lemma {:induction false} IncreasingIndex(words: seq<nat>, n: nat, i: nat, j: nat)
    requires Increasing(words, n) && i < |words| && j < |words| && words[i] <= words[j]
    ensures i <= j
  {
  }

  lemma {:induction false} SkippedIsBlank(pieces: seq<Piece>, out: seq<string>, words: seq<nat>, index: nat,
                                          cs: seq<Correction>, position: nat, skipUntil: nat)
    requires Increasing(words, |pieces|) && position < |words| && words[position] < skipUntil
    requires InOrder(cs) && forall k :: 0 <= k < |cs| ==> 1 <= cs[k].length
    requires Rewriting(pieces, out, words, index, cs, position) && Skipping(words, index, cs, position, skipUntil)
    ensures |out| == |pieces| && out[words[position] := ""] == out
    ensures forall k :: 0 <= k < |cs| ==> cs[k].start != index + position
  {
    var k :| 0 <= k < |cs| && Started(cs[k], words, index, position) && skipUntil == Last(cs[k], words, index) + 1;
    var end := cs[k].start + cs[k].length - 1 - index;
    IncreasingIndex(words, |pieces|, position, end);
    assert words[position] <= words[end];
    assert words[cs[k].start - index] < words[position];
    assert Inside(cs[k], words, index, words[position]);
    forall j | 0 <= j < |cs| ensures cs[j].start != index + position {
      assert j < k ==> cs[j].start + cs[j].length <= cs[k].start;
      assert k < j ==> cs[k].start + cs[k].length <= cs[j].start;
    }
  }

  lemma {:induction false} NoneStarts(pieces: seq<Piece>, out: seq<string>, words: seq<nat>, index: nat,
                                      cs: seq<Correction>, position: nat, skipUntil: nat)
    requires Rewriting(pieces, out, words, index, cs, position) && Skipping(words, index, cs, position, skipUntil)
    requires forall k :: 0 <= k < |cs| && Lands(cs[k], words, index) ==> cs[k].start != index + position
    ensures Rewriting(pieces, out, words, index, cs, position + 1)
        && Skipping(words, index, cs, position + 1, skipUntil)
  {
    forall k | 0 <= k < |cs| ensures Started(cs[k], words, index, position + 1)
        <==> Started(cs[k], words, index, position) {
    }
  }

  lemma {:induction false} MadeOne(pieces: seq<Piece>, before: seq<string>, out: seq<string>, words: seq<nat>,
                                   index: nat, cs: seq<Correction>,
                position: nat, skipUntil: nat, k: nat)
    requires Increasing(words, |pieces|) && position < |words| && words[position] >= skipUntil
    requires InOrder(cs) && forall j :: 0 <= j < |cs| ==> 1 <= cs[j].length
    requires k < |cs| && cs[k].start == index + position && Lands(cs[k], words, index)
    requires Rewriting(pieces, before, words, index, cs, position) && Skipping(words, index, cs, position, skipUntil)
    requires |out| == |before|
    requires forall q :: 0 <= q < |out| ==>
      out[q] == if q == words[position] then Unwords(cs[k].replacement)
          else if words[position] < q <= Last(cs[k], words, index) then "" else before[q]
    ensures Rewriting(pieces, out, words, index, cs, position + 1)
    ensures Skipping(words, index, cs, position + 1, Last(cs[k], words, index) + 1)
  {
    assert words[position] <= Last(cs[k], words, index);
    forall j | 0 <= j < |cs| && Started(cs[j], words, index, position + 1)
      ensures j == k || (Started(cs[j], words, index, position) && Last(cs[j], words, index) < words[position])
    {
      assert j < k ==> cs[j].start + cs[j].length <= cs[k].start;
    }
    forall p: nat | p < |pieces| && !Touched(cs, words, index, p) ensures out[p] == pieces[p].text {
      assert !Inside(cs[k], words, index, p);
    }
    assert Started(cs[k], words, index, position + 1);
  }

  predicate Increasing(words: seq<nat>, n: nat) {
    && (forall j, k :: 0 <= j < k < |words| ==> words[j] < words[k])
    && forall k :: 0 <= k < |words| ==> words[k] < n
  }

  method Blank(pieces: seq<string>, from: nat, to: nat) returns (out: seq<string>)
    requires from <= to <= |pieces|
    ensures |out| == |pieces|
    ensures forall q :: 0 <= q < |out| ==> out[q] == if from <= q < to then "" else pieces[q]
  {
    out := pieces;
    for p := from to to
      invariant |out| == |pieces|
      invariant forall q :: 0 <= q < |out| ==> out[q] == if from <= q < p then "" else pieces[q]
    {
      out := out[p := ""];
    }
  }

  /** The pass over one line. A word inside a run already replaced is skipped; a correction that would reach past
    * the line is left alone. */
  method ApplyToLine(pieces: seq<Piece>, words: seq<nat>, index: nat, ghost cs: seq<Correction>,
                     byStart: map<nat, Correction>)
      returns (out: seq<string>)
    requires Increasing(words, |pieces|) && IsByStart(cs, byStart)
    requires InOrder(cs) && forall k :: 0 <= k < |cs| ==> 1 <= cs[k].length
    ensures Rewritten(pieces, out, words, index, cs)
  {
    out := seq(|pieces|, k requires 0 <= k < |pieces| => pieces[k].text);
    var skipUntil: nat := 0;
    assert Rewriting(pieces, out, words, index, cs, 0) && Skipping(words, index, cs, 0, skipUntil);
    hide Rewriting, Skipping, Rewritten, InOrder, IsByStart, Lands;
    for position := 0 to |words|
      invariant |out| == |pieces|
      invariant Rewriting(pieces, out, words, index, cs, position)
      invariant Skipping(words, index, cs, position, skipUntil)
    {
      var piece := words[position];
      if piece < skipUntil {
        SkippedIsBlank(pieces, out, words, index, cs, position, skipUntil);
        NoneStarts(pieces, out, words, index, cs, position, skipUntil);
        out := out[piece := ""];
        continue;
      }
      StartsAt(words, index, cs, byStart, position);
      if index + position in byStart && position + byStart[index + position].length <= |words| {
        out, skipUntil := ReplaceRun(pieces, out, words, index, cs, position, skipUntil, byStart[index + position]);
      } else {
        NoneStarts(pieces, out, words, index, cs, position, skipUntil);
      }
    }
    RewrittenAtEnd(pieces, out, words, index, cs);
  }

  lemma {:induction false} StartsAt(words: seq<nat>, index: nat, cs: seq<Correction>, byStart: map<nat, Correction>,
                                    position: nat)
    requires IsByStart(cs, byStart) && forall k :: 0 <= k < |cs| ==> 1 <= cs[k].length
    ensures if index + position in byStart && position + byStart[index + position].length <= |words| then
        var c := byStart[index + position];
        c in cs && c.start == index + position && Lands(c, words, index)
      else
        forall k :: 0 <= k < |cs| && Lands(cs[k], words, index) ==> cs[k].start != index + position
  {
  }

  lemma {:induction false} RewrittenAtEnd(pieces: seq<Piece>, out: seq<string>, words: seq<nat>, index: nat,
                                          cs: seq<Correction>)
    requires Rewriting(pieces, out, words, index, cs, |words|)
    ensures Rewritten(pieces, out, words, index, cs)
  {
  }

  method ReplaceRun(ghost pieces: seq<Piece>, before: seq<string>, words: seq<nat>, ghost index: nat,
                    ghost cs: seq<Correction>,
                    position: nat, ghost skipped: nat, c: Correction)
      returns (out: seq<string>, skipUntil: nat)
    requires Increasing(words, |pieces|) && position < |words| && words[position] >= skipped
    requires InOrder(cs) && forall j :: 0 <= j < |cs| ==> 1 <= cs[j].length
    requires c in cs && c.start == index + position && Lands(c, words, index)
    requires Rewriting(pieces, before, words, index, cs, position) && Skipping(words, index, cs, position, skipped)
    ensures |out| == |pieces|
    ensures Rewriting(pieces, out, words, index, cs, position + 1)
        && Skipping(words, index, cs, position + 1, skipUntil)
  {
    ghost var k: nat :| k < |cs| && cs[k] == c;
    var last := words[position + c.length - 1];
    assert words[position] <= last < |pieces|;
    out := before[words[position] := Unwords(c.replacement)];
    out := Blank(out, words[position] + 1, last + 1);
    MadeOne(pieces, before, out, words, index, cs, position, skipped, k);
    skipUntil := last + 1;
  }

  function Flat(texts: seq<string>): string {
    if texts == [] then [] else texts[0] + Flat(texts[1..])
  }

  /** A line of the corrected text: metadata as it was, any other line rewritten and tidied. */
  ghost predicate LineRewritten(raw: string, line: string, index: nat, cs: seq<Correction>, normal: string -> string) {
    if IsMeta(raw) then line == raw
    else exists out :: Rewritten(Cut(raw), out, WordPieces(raw, normal), index, cs) && line == Tidy(Flat(out))
  }

  /** The corrections leave no choice about the pieces. */
  lemma {:induction false} RewrittenIsDetermined(pieces: seq<Piece>, x: seq<string>, y: seq<string>, words: seq<nat>,
                                                 index: nat, cs: seq<Correction>)
    requires Rewritten(pieces, x, words, index, cs) && Rewritten(pieces, y, words, index, cs)
    ensures x == y
  {
    forall p: nat | p < |pieces| ensures x[p] == y[p] {
      if Touched(cs, words, index, p) {
        var k :| 0 <= k < |cs| && Lands(cs[k], words, index) && Inside(cs[k], words, index, p);
      }
    }
  }

  lemma {:induction false} PiecesFlat(pieces: seq<Piece>, out: seq<string>)
    requires |out| == |pieces| && forall p :: 0 <= p < |pieces| ==> out[p] == pieces[p].text
    ensures Flat(out) == Joined(pieces)
  {
    if pieces != [] {
      PiecesFlat(pieces[1..], out[1..]);
    }
  }

  /** A line on which no correction lands only has its spacing tidied, and keeps its words. */
  lemma {:induction false} UncorrectedLine(raw: string, line: string, index: nat, cs: seq<Correction>,
                                           normal: string -> string)
    requires LineRewritten(raw, line, index, cs, normal)
    requires forall k :: 0 <= k < |cs| ==> !Lands(cs[k], WordPieces(raw, normal), index)
    ensures line == (if IsMeta(raw) then raw else Tidy(raw)) && Words(line) == Words(raw)
  {
    hide Cut, IsMeta, WordPieces, Tidy, Words;
    TidyKeepsWords(raw);
    if !IsMeta(raw) {
      var words := WordPieces(raw, normal);
      var out :| Rewritten(Cut(raw), out, words, index, cs) && line == Tidy(Flat(out));
      assert forall p: nat :: p < |Cut(raw)| ==> !Touched(cs, words, index, p);
      PiecesFlat(Cut(raw), out);
      CutJoins(raw);
    }
  }

  /** The first `|out|` lines, each with the words numbered through the text. */
  ghost predicate TextRewritten(lines: seq<string>, out: seq<string>, cs: seq<Correction>, normal: string -> string) {
    && |out| <= |lines|
    && forall n :: 0 <= n < |out| ==> LineRewritten(lines[n], out[n], WordOffset(lines, n, normal), cs, normal)
  }

  lemma {:induction false} NextRewritten(lines: seq<string>, out: seq<string>, line: string, cs: seq<Correction>,
                                         normal: string -> string)
    requires TextRewritten(lines, out, cs, normal) && |out| < |lines|
    requires LineRewritten(lines[|out|], line, WordOffset(lines, |out|, normal), cs, normal)
    ensures TextRewritten(lines, out + [line], cs, normal)
  {
    hide LineRewritten, WordOffset;
  }

  lemma {:induction false} NothingRewritten(lines: seq<string>, cs: seq<Correction>, normal: string -> string)
    ensures TextRewritten(lines, [], cs, normal) && WordOffset(lines, 0, normal) == 0
  {
  }

  /** The corrected lines. Without corrections the text is returned as it is. */
  method ApplyCorrections(lines: seq<string>, cs: seq<Correction>, normal: string -> string) returns (out: seq<string>)
    requires InOrder(cs) && forall k :: 0 <= k < |cs| ==> 1 <= cs[k].length
    ensures |out| == |lines| && (cs == [] ==> out == lines)
    ensures cs != [] ==> TextRewritten(lines, out, cs, normal)
  {
    hide *;
    if cs == [] {
      return lines;
    }
    var byStart := ByStart(cs);
    out := RewriteLines(lines, cs, byStart, normal);
  }

  method RewriteLines(lines: seq<string>, ghost cs: seq<Correction>, byStart: map<nat, Correction>,
                      normal: string -> string)
      returns (out: seq<string>)
    requires IsByStart(cs, byStart)
    requires InOrder(cs) && forall k :: 0 <= k < |cs| ==> 1 <= cs[k].length
    ensures |out| == |lines| && TextRewritten(lines, out, cs, normal)
  {
    hide *;
    NothingRewritten(lines, cs, normal);
    out := [];
    var index := 0;
    for n := 0 to |lines|
      invariant |out| == n && index == WordOffset(lines, n, normal)
      invariant TextRewritten(lines, out, cs, normal)
    {
      var line, count := RewriteLine(lines[n], index, cs, byStart, normal);
      NextRewritten(lines, out, line, cs, normal);
      OffsetStep(lines, n, normal);
      out, index := out + [line], index + count;
    }
  }

  method RewriteLine(raw: string, index: nat, ghost cs: seq<Correction>, byStart: map<nat, Correction>,
                     normal: string -> string)
      returns (line: string, count: nat)
    requires IsByStart(cs, byStart)
    requires InOrder(cs) && forall k :: 0 <= k < |cs| ==> 1 <= cs[k].length
    ensures LineRewritten(raw, line, index, cs, normal) && count == |WordPieces(raw, normal)|
  {
    hide IsByStart, InOrder, Tidy, Cut, Rewritten, KeyedIn;
    if IsMeta(raw) {
      return raw, 0;
    }
    hide IsMeta;
    var words := WordPieces(raw, normal);
    var out := ApplyToLine(Cut(raw), words, index, cs, byStart);
    line, count := Tidy(Flat(out)), |words|;
  }

  // ---- corrections on the text they were computed on ----

  /** Lines occupy consecutive stretches of the token numbers, in line order. */
  lemma {:induction false} TokenOfLine(lines: seq<string>, m: nat, n: nat, k: nat, normal: string -> string)
    requires n < m <= |lines| && k < |LineTokens(lines[n], n, normal)|
    ensures Offset(lines, n, normal) + k < Offset(lines, m, normal)
    ensures Tokens(lines, m, normal)[Offset(lines, n, normal) + k] == LineTokens(lines[n], n, normal)[k]
  {
    hide LineTokens;
    if n < m - 1 {
      TokenOfLine(lines, m - 1, n, k, normal);
    }
  }

  lemma {:induction false} LineOfToken(lines: seq<string>, m: nat, i: nat, normal: string -> string) returns (n: nat)
    requires m <= |lines| && i < Offset(lines, m, normal)
    ensures n < m && Tokens(lines, m, normal)[i].line == n
    ensures Offset(lines, n, normal) <= i < Offset(lines, n + 1, normal)
  {
    hide LineTokens;
    if i < Offset(lines, m - 1, normal) {
      n := LineOfToken(lines, m - 1, i, normal);
    } else {
      n := m - 1;
    }
  }

  lemma {:induction false} TokensAreOrdered(lines: seq<string>, m: nat, normal: string -> string)
    requires m <= |lines|
    ensures Ordered(Tokens(lines, m, normal))
    ensures forall i :: 0 <= i < Offset(lines, m, normal) ==> Tokens(lines, m, normal)[i].line < m
  {
    hide LineTokens;
    if m > 0 {
      TokensAreOrdered(lines, m - 1, normal);
    }
  }

  /** Word number `i` of the rewriter is the only word in the stretch of line `n` from which token `i` was read. */
  ghost predicate Standing(lines: seq<string>, n: nat, i: nat, normal: string -> string) {
    && n < |lines| && i < Offset(lines, |lines|, normal)
    && WordOffset(lines, n, normal) <= i < WordOffset(lines, n, normal) + |WordPieces(lines[n], normal)|
    && AloneIn(Cut(lines[n]), WordPieces(lines[n], normal)[i - WordOffset(lines, n, normal)],
               Tokens(lines, |lines|, normal)[i].surface, normal)
  }

  ghost predicate AloneIn(pieces: seq<Piece>, piece: nat, surface: string, normal: string -> string) {
    exists st :: OnlyWord(pieces, st, piece, surface, normal)
  }

  ghost predicate OnlyWord(pieces: seq<Piece>, st: Stretch, piece: nat, surface: string, normal: string -> string) {
    && Within(pieces, st) && st in Stretches(pieces, 0)
    && StretchText(pieces, st) == surface && KeyedIn(pieces, st.from, st.to, normal) == [piece]
  }

  /** Word `j` of an even line is the only word of spoken stretch `j`. */
  lemma {:induction false} SpokenWord(raw: string, j: nat, normal: string -> string)
    requires Even(raw, normal) && j < |LineSpoken(raw, normal)|
    ensures |WordPieces(raw, normal)| == |LineSpoken(raw, normal)|
    ensures var st := LineSpoken(raw, normal)[j];
            OnlyWord(Cut(raw), st, WordPieces(raw, normal)[j], StretchText(Cut(raw), st), normal)
  {
    hide Cut, Stretches, Spoken, StretchText, KeyedIn, IsMeta, Within;
    LinePairedIffEven(raw, normal);
    var st, w, pieces := LineSpoken(raw, normal)[j], WordPieces(raw, normal)[j], Cut(raw);
    PairAt(WordPieces(raw, normal), LineSpoken(raw, normal), j);
    assert st in Stretches(pieces, 0);
    EvenHasOne(pieces, st, w, normal);
  }

  lemma {:induction false} EvenHasOne(pieces: seq<Piece>, st: Stretch, w: nat, normal: string -> string)
    requires EvenFrom(pieces, 0, normal) && st in Stretches(pieces, 0) && Within(pieces, st)
    requires normal(StretchText(pieces, st)) != "" && Holds(st, w) && Keyed(pieces[w], normal)
    ensures KeyedIn(pieces, st.from, st.to, normal) == [w]
  {
    hide StretchText, Keyed;
    var k :| 0 <= k < |Stretches(pieces, 0)| && Stretches(pieces, 0)[k] == st;
    assert EvenStretch(pieces, st, normal);
    hide Stretches;
    KeyedInIsComplete(pieces, st.from, st.to, w, normal);
    hide KeyedIn;
  }

  lemma {:induction false} TokenStands(lines: seq<string>, n: nat, i: nat, normal: string -> string)
    requires AllEven(lines, normal) && ReadFrom(lines, n, i, normal)
    ensures Standing(lines, n, i, normal)
  {
    hide Tokens, LineTokens, WordPieces, LineSpoken, Even, OnlyWord, Offset, WordOffset, Standing, Cut, StretchText;
    EvenOffsets(lines, n, normal);
    OffsetStep(lines, n, normal);
    TokensAreSpoken(lines[n], n, normal);
    var j := i - Offset(lines, n, normal);
    SpokenWord(lines[n], j, normal);
    TokenOfLine(lines, |lines|, n, j, normal);
    OffsetIsCount(lines, |lines|, normal);
    StandsAt(lines, n, i, j, LineSpoken(lines[n], normal)[j], normal);
  }

  lemma {:induction false} StandsAt(lines: seq<string>, n: nat, i: nat, j: nat, st: Stretch, normal: string -> string)
    requires n < |lines| && i == WordOffset(lines, n, normal) + j && j < |WordPieces(lines[n], normal)|
    requires i < Offset(lines, |lines|, normal) == |Tokens(lines, |lines|, normal)|
    requires OnlyWord(Cut(lines[n]), st, WordPieces(lines[n], normal)[j], Tokens(lines, |lines|, normal)[i].surface,
                      normal)
    ensures Standing(lines, n, i, normal)
  {
    hide Tokens, WordPieces, OnlyWord, Offset, WordOffset, Cut;
  }

  lemma {:induction false} OffsetIsCount(lines: seq<string>, m: nat, normal: string -> string)
    requires m <= |lines|
    ensures Offset(lines, m, normal) == |Tokens(lines, m, normal)|
  {
  }

  /** Token number `i` was read from line `n`. */
  ghost predicate ReadFrom(lines: seq<string>, n: nat, i: nat, normal: string -> string) {
    n < |lines| && Offset(lines, n, normal) <= i < Offset(lines, n + 1, normal)
  }

  lemma {:induction false} TokenIsRead(lines: seq<string>, i: nat, normal: string -> string)
    requires i < |Tokens(lines, |lines|, normal)|
    ensures ReadFrom(lines, Tokens(lines, |lines|, normal)[i].line, i, normal)
  {
    OffsetIsCount(lines, |lines|, normal);
    hide Tokens, Offset;
    var n := LineOfToken(lines, |lines|, i, normal);
  }

  /** Where both cuts number the text alike, corrections never miss: each lies within one line, and each word it
    * replaces is the only word in the chunk it was read from. */
  lemma {:induction false} EveryCorrectionLands(lines: seq<string>, c: Correction, normal: string -> string)
      returns (n: nat)
    requires OnOneLine(Tokens(lines, |lines|, normal), c)
    ensures forall i :: c.start <= i < c.start + c.length ==> ReadFrom(lines, n, i, normal)
    ensures n < |lines|
    ensures NumberedAlike(lines, normal) ==>
      && Lands(c, WordPieces(lines[n], normal), WordOffset(lines, n, normal))
      && forall i :: c.start <= i < c.start + c.length ==> Standing(lines, n, i, normal)
  {
    hide Tokens, Offset, WordOffset, WordPieces, NumberedAlike, AllEven, Standing, ReadFrom;
    var tokens := Tokens(lines, |lines|, normal);
    n := tokens[c.start].line;
    forall i | c.start <= i < c.start + c.length ensures ReadFrom(lines, n, i, normal) {
      TokenIsRead(lines, i, normal);
      assert tokens[i].line == n;
    }
    ReadLine(lines, n, c.start, normal);
    if NumberedAlike(lines, normal) {
      NumberedAlikeIffEven(lines, normal);
      forall i | c.start <= i < c.start + c.length ensures Standing(lines, n, i, normal) {
        TokenStands(lines, n, i, normal);
      }
      StandsBetween(lines, n, c.start, normal);
      StandsBetween(lines, n, c.start + c.length - 1, normal);
    }
  }

  lemma {:induction false} ReadLine(lines: seq<string>, n: nat, i: nat, normal: string -> string)
    requires ReadFrom(lines, n, i, normal)
    ensures n < |lines|
  {
    hide Offset;
  }

  lemma {:induction false} StandsBetween(lines: seq<string>, n: nat, i: nat, normal: string -> string)
    requires Standing(lines, n, i, normal)
    ensures WordOffset(lines, n, normal) <= i < WordOffset(lines, n, normal) + |WordPieces(lines[n], normal)|
  {
    hide AloneIn, WordPieces, WordOffset;
  }

  /** Where both cuts number the text alike, a line from which no corrected token was read only has its spacing
      tidied. */
  lemma {:induction false} OtherLinesAreTidied(lines: seq<string>, out: seq<string>, cs: seq<Correction>, n: nat,
                                               normal: string -> string)
    requires TextRewritten(lines, out, cs, normal) && n < |out|
    requires forall k :: 0 <= k < |cs| ==> !ReadFrom(lines, n, cs[k].start, normal)
    ensures NumberedAlike(lines, normal) ==>
              out[n] == (if IsMeta(lines[n]) then lines[n] else Tidy(lines[n])) && Words(out[n]) == Words(lines[n])
  {
    hide *;
    NextIsRewritten(lines, out, cs, n, normal);
    if NumberedAlike(lines, normal) {
      NoneLandsElsewhere(lines, cs, n, normal);
      UncorrectedLine(lines[n], out[n], WordOffset(lines, n, normal), cs, normal);
    }
  }

  lemma {:induction false} NoneLandsElsewhere(lines: seq<string>, cs: seq<Correction>, n: nat, normal: string -> string)
    requires NumberedAlike(lines, normal) && n < |lines|
    requires forall k :: 0 <= k < |cs| ==> !ReadFrom(lines, n, cs[k].start, normal)
    ensures forall k :: 0 <= k < |cs| ==> !Lands(cs[k], WordPieces(lines[n], normal), WordOffset(lines, n, normal))
  {
    hide Offset, WordOffset, WordPieces, NumberedAlike, Even, ReadFrom, Lands;
    NumberedAlikeIffEven(lines, normal);
    EvenOffsets(lines, n, normal);
    EvenOffsets(lines, n + 1, normal);
    hide AllEven;
    forall k | 0 <= k < |cs| ensures !Lands(cs[k], WordPieces(lines[n], normal), WordOffset(lines, n, normal)) {
      ElsewhereRead(lines, n, cs[k], normal);
    }
  }

  lemma {:induction false} ElsewhereRead(lines: seq<string>, n: nat, c: Correction, normal: string -> string)
    requires n < |lines| && !ReadFrom(lines, n, c.start, normal)
    requires WordOffset(lines, n, normal) == Offset(lines, n, normal)
    requires WordOffset(lines, n + 1, normal) == Offset(lines, n + 1, normal)
    ensures !Lands(c, WordPieces(lines[n], normal), WordOffset(lines, n, normal))
  {
    OffsetStep(lines, n, normal);
    hide Offset, WordOffset, WordPieces;
  }

  lemma {:induction false} NextIsRewritten(lines: seq<string>, out: seq<string>, cs: seq<Correction>, n: nat,
                                           normal: string -> string)
    requires TextRewritten(lines, out, cs, normal) && n < |out|
    ensures n < |lines| && LineRewritten(lines[n], out[n], WordOffset(lines, n, normal), cs, normal)
  {
    hide LineRewritten, WordOffset;
  }

  // ---- a correction that misses ----

  /** What comparison keys do to the words of the line `la[x2] foo`. */
  predicate PlainKeys(normal: string -> string) {
    && normal("la[x2]") == "la x2" && normal("la") == "la" && normal("[") == "" && normal("x2]") == "x2"
    && normal("foo") == "foo" && normal("bar") == "bar"
  }

  /** The line has a bracket that starts no tag. Asked to replace its `foo` by `bar`, the plan names token 1, which
    * was read from `foo`; the rewriter's word 1 is `x2]`, and that is what it replaces. */
  lemma {:induction false} BracketMakesCorrectionMiss(line: string, normal: string -> string)
    requires PlainKeys(normal)
    ensures var raw := "la[x2] foo";
            var tokens, c := Tokens([raw], 1, normal), Correction(1, 1, ["foo"], ["bar"]);
            && !NumberedAlike([raw], normal)
            && Plan(tokens, [0], [Edit(Some(1), ["foo"], ["bar"])], 1, normal) == [c]
                && 2 * TotalLength([c]) <= |tokens|
            && (LineRewritten(raw, line, WordOffset([raw], 0, normal), [c], normal) <==> line == "la[bar foo")
  {
    var raw := "la[x2] foo";
    var c := Correction(1, 1, ["foo"], ["bar"]);
    BracketShiftsNumbers(normal);
    NumberedAlikeIffEven([raw], normal);
    assert !AllEven([raw], normal) by {
      assert !Even([raw][0], normal);
    }
    OneLineTokens(raw, normal);
    BracketPlan(normal);
    BracketIsNoMeta();
    hide Plan, Tokens, LineTokens, Tidy, IsMeta, Even, NumberedAlike, Cut, WordPieces, LineRewritten, AllEven,
        TotalLength;
    BracketLine(raw, line, c, normal);
  }

  lemma {:induction false} BracketLine(raw: string, line: string, c: Correction, normal: string -> string)
    requires !IsMeta(raw) && WordPieces(raw, normal) == [0, 2, 4]
    requires Cut(raw) == [Word("la"), Word("["), Word("x2]"), Gap(" "), Word("foo")]
        && c == Correction(1, 1, ["foo"], ["bar"])
    ensures LineRewritten(raw, line, 0, [c], normal) <==> line == "la[bar foo"
  {
    hide Tidy, IsMeta, Cut, WordPieces, Flat, Rewritten;
    var all := ["la", "[", "bar", " ", "foo"];
    BracketFlat(all);
    TidyIsSame("la[bar foo");
    BracketRewritten(Cut(raw), all, c);
    if LineRewritten(raw, line, 0, [c], normal) {
      var out :| Rewritten(Cut(raw), out, WordPieces(raw, normal), 0, [c]) && line == Tidy(Flat(out));
      BracketRewritten(Cut(raw), out, c);
    }
  }

  lemma {:induction false} OneLineTokens(raw: string, normal: string -> string)
    ensures Tokens([raw], 1, normal) == LineTokens(raw, 0, normal) && WordOffset([raw], 0, normal) == 0
  {
    hide LineTokens;
    assert Tokens([raw], 0, normal) == [];
    assert [] + LineTokens(raw, 0, normal) == LineTokens(raw, 0, normal);
  }

  lemma {:induction false} BracketPlan(normal: string -> string)
    requires PlainKeys(normal)
    ensures var tokens, c := [Token("la[x2]", "la x2", 0), Token("foo", "foo", 0)], Correction(1, 1, ["foo"], ["bar"]);
            && Plan(tokens, [0], [Edit(Some(1), ["foo"], ["bar"])], 1, normal) == [c]
            && TotalLength([c]) == 1
  {
    var tokens := [Token("la[x2]", "la x2", 0), Token("foo", "foo", 0)];
    var e := Edit(Some(1), ["foo"], ["bar"]);
    var c := Correction(1, 1, ["foo"], ["bar"]);
    OneKey("foo", normal);
    OneKey("bar", normal);
    assert Usable(e, 1, normal) by {
      assert !Unsafe(["bar"]);
    }
    assert !Fits(tokens, [], 0, ["foo"], 0) by {
      assert tokens[0 + 0].key != ["foo"][0];
    }
    assert Fits(tokens, [], 0, ["foo"], 1);
    FirstFitIs(tokens, [], 0, ["foo"]);
    assert MakeCorrection(tokens, 1, 1, ["bar"]) == c by {
      assert MakeCorrection(tokens, 1, 1, ["bar"]).original == ["foo"];
    }
    hide Usable, FirstFit, MakeCorrection, Keys;
    assert Target(tokens, [0], [], e, normal) == Some(1);
    assert Plan(tokens, [0], [e], 0, normal) == [];
    assert TotalLength([c][1..]) == 0;
  }

  lemma {:induction false} OneKey(w: string, normal: string -> string)
    requires normal(w) != ""
    ensures Keys([w], normal) == [normal(w)]
  {
    assert Keys([w][1..], normal) == [];
  }

  lemma {:induction false} FirstFitIs(tokens: seq<Token>, chosen: seq<Correction>, line: nat, keys: seq<string>)
    requires !Fits(tokens, chosen, line, keys, 0) && Fits(tokens, chosen, line, keys, 1)
    ensures FirstFit(tokens, chosen, line, keys, 0) == Some(1)
  {
    hide Fits;
    assert |tokens| >= 1 by {
      FitsInside(tokens, chosen, line, keys, 1);
    }
  }

  lemma {:induction false} FitsInside(tokens: seq<Token>, chosen: seq<Correction>, line: nat, keys: seq<string>, s: nat)
    requires Fits(tokens, chosen, line, keys, s)
    ensures s <= |tokens|
  {
  }

  lemma {:induction false} OneWordRewritten(pieces: seq<Piece>, out: seq<string>, words: seq<nat>, index: nat,
                                            c: Correction)
    requires c.length == 1 && Lands(c, words, index) && Head(c, words, index) < |pieces|
    ensures Rewritten(pieces, out, words, index, [c]) <==>
              && |out| == |pieces|
              && forall p: nat :: p < |pieces| ==>
                   out[p] == if p == Head(c, words, index) then Unwords(c.replacement) else pieces[p].text
  {
    hide Unwords;
    var cs, h := [c], Head(c, words, index);
    assert cs[0] == c;
    forall p: nat ensures Touched(cs, words, index, p) <==> p == h {
      if p == h {
        assert Inside(cs[0], words, index, p);
      }
    }
    if Rewritten(pieces, out, words, index, cs) && h < |pieces| {
      assert Inside(cs[0], words, index, h);
    }
    hide Touched;
  }

  lemma {:induction false} FiveTexts(pieces: seq<Piece>, out: seq<string>, a: string, b: string, r: string, d: string,
                                     e: string)
    requires |pieces| == 5 && pieces[0].text == a && pieces[1].text == b && pieces[3].text == d && pieces[4].text == e
    ensures (|out| == |pieces| && forall p: nat :: p < |pieces| ==> out[p] == if p == 2 then r else pieces[p].text)
            <==> out == [a, b, r, d, e]
  {
    var all := [a, b, r, d, e];
    assert all[0] == a && all[1] == b && all[2] == r && all[3] == d && all[4] == e;
    if |out| == |pieces| && forall p: nat :: p < |pieces| ==> out[p] == if p == 2 then r else pieces[p].text {
      assert out[0] == a && out[1] == b && out[2] == r && out[3] == d && out[4] == e;
    }
  }

  lemma {:induction false} BracketRewritten(pieces: seq<Piece>, out: seq<string>, c: Correction)
    requires pieces == [Word("la"), Word("["), Word("x2]"), Gap(" "), Word("foo")]
    requires c == Correction(1, 1, ["foo"], ["bar"])
    ensures Rewritten(pieces, out, [0, 2, 4], 0, [c]) <==> out == ["la", "[", "bar", " ", "foo"]
  {
    var words := [0, 2, 4];
    assert Head(c, words, 0) == 2;
    OneWordRewritten(pieces, out, words, 0, c);
    hide Rewritten;
    FiveTexts(pieces, out, "la", "[", "bar", " ", "foo");
  }

  lemma {:induction false} BracketFlat(out: seq<string>)
    requires out == ["la", "[", "bar", " ", "foo"]
    ensures Flat(out) == "la[bar foo"
  {
    var r1 := out[1..];
    var r2 := r1[1..];
    var r3 := r2[1..];
    var r4 := r3[1..];
    assert r4[1..] == [] && Flat(r4) == "foo" + [];
    assert Flat(r3) == " " + Flat(r4) && Flat(r2) == "bar" + Flat(r3) && Flat(r1) == "[" + Flat(r2);
  }

  /** `correct_transcript` after the model has answered.  Every edit is answered where its words first stand free;
    * unless the answers exceed half of the tokens they are the corrections, every usable edit is served, and the
    * answered edits are reported in order.  Nothing outside the words the corrections name changes but the spacing,
    * and a text without corrections is unchanged. */
  method CorrectTranscript(lines: seq<string>, sent: seq<nat>, edits: seq<Edit>, normal: string -> string)
      returns (out: seq<string>, corrections: seq<Correction>, applied: seq<Edit>,
               ghost answers: seq<Option<Correction>>)
    ensures Outcome(Tokens(lines, |lines|, normal), sent, edits, answers, corrections, applied, normal)
    ensures var tokens, capped := Tokens(lines, |lines|, normal),
        2 * TotalLength(Chosen(answers)) > Offset(lines, |lines|, normal);
      && (!capped ==>
            forall i :: 0 <= i < |edits| && Usable(edits[i], |sent|, normal) ==>
              Served(tokens, sent, edits[i], corrections, normal))
      && (corrections == [] <==>
            || capped
            || forall i, s: nat :: 0 <= i < |edits| && Usable(edits[i], |sent|, normal) ==>
                 !WordsStandAt(tokens, sent, edits[i], normal, s))
    ensures var tokens := Tokens(lines, |lines|, normal);
      && OnTokens(tokens, corrections)
      && (forall k :: 0 <= k < |corrections| ==> AnswersSome(tokens, sent, edits, corrections[k], normal))
    ensures 2 * TotalLength(corrections) <= |Tokens(lines, |lines|, normal)|
    ensures |out| == |lines| && |applied| == |corrections|
    ensures corrections == [] ==> out == lines
    ensures corrections != [] ==> TextRewritten(lines, out, corrections, normal)
  {
    hide *;
    var tokens := Tokens(lines, |lines|, normal);
    OffsetIsCount(lines, |lines|, normal);
    TokensAreOrdered(lines, |lines|, normal);
    corrections, applied := EditsToCorrections(tokens, sent, edits, normal);
    answers := PlanAnswers(tokens, sent, edits, |edits|, normal);
    OutcomeServes(tokens, sent, edits, answers, corrections, applied, normal);
    CorrectionsFit(tokens, sent, edits, corrections, applied, normal);
    out := ApplyCorrections(lines, corrections, normal);
  }

  lemma {:induction false} CorrectionsFit(tokens: seq<Token>, sent: seq<nat>, edits: seq<Edit>,
                                          corrections: seq<Correction>, applied: seq<Edit>, normal: string -> string)
    requires var plan := Plan(tokens, sent, edits, |edits|, normal);
      if 2 * TotalLength(plan) > |tokens| then corrections == [] && applied == []
      else corrections == Sort(plan, StartsFirst) && applied == Applied(tokens, sent, edits, |edits|, normal)
    ensures OnTokens(tokens, corrections) && 2 * TotalLength(corrections) <= |tokens| && |applied| == |corrections|
    ensures forall k :: 0 <= k < |corrections| ==> AnswersSome(tokens, sent, edits, corrections[k], normal)
    ensures InOrder(corrections) && forall k :: 0 <= k < |corrections| ==> 1 <= corrections[k].length
  {
    PlannedAreOnTokens(tokens, sent, edits, normal);
    SortKeepsLength(Plan(tokens, sent, edits, |edits|, normal));
    hide AnswersSome, Plan, Applied, Sort;
  }
}
