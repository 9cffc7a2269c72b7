/** The two ways a transcript line is cut into words.
  *
  * The tokenizer blanks out the timing tags and splits at spaces; the rewriter keeps every character, in pieces: tags,
  * runs of space, runs of other characters, and single opening brackets that start no tag. Both number the words whose
  * comparison key (`normal`) is not empty through the whole text, and corrections name words by number. A line is a
  * string, as `splitlines` gives it.
  */
module LineCutting {
  import opened Text
  import LrcTags

  /** The length of the timing tag at the front, or 0. */
  function TagLength(s: string): (n: nat)
    ensures n <= |s|
    ensures n > 0 ==> Opens(s[0]) && forall k :: 0 <= k < n ==> !IsSpace(s[k])
  {
    var line, word := LrcTags.TagAt(s, LrcTags.LINE, true), LrcTags.TagAt(s, LrcTags.WORD, true);
    if line.Some? then
      LrcTags.TagShape(s, LrcTags.LINE, true);
      line.value.length
    else if word.Some? then
      LrcTags.TagShape(s, LrcTags.WORD, true);
      word.value.length
    else 0
  }

  predicate Opens(c: char) {
    c == '[' || c == '<'
  }

  predicate IsTag(s: string) {
    s != [] && TagLength(s) == |s|
  }

  lemma {:induction false} TagAlone(s: string)
    requires TagLength(s) > 0
    ensures IsTag(s[..TagLength(s)])
  {
    hide LrcTags.TagAt;
    var n := TagLength(s);
    if LrcTags.TagAt(s, LrcTags.LINE, true).Some? {
      LrcTags.TagCut(s, LrcTags.LINE, true);
    } else {
      LrcTags.TagCut(s, LrcTags.WORD, true);
      if LrcTags.TagAt(s[..n], LrcTags.LINE, true).Some? {
        LrcTags.TagShape(s[..n], LrcTags.LINE, true);
        LrcTags.TagShape(s, LrcTags.WORD, true);
        assert false;
      }
    }
  }

  // ---- metadata ----

  predicate Letter(c: char) {
    'a' <= c <= 'z' || 'A' <= c <= 'Z'
  }

  function LetterRun(s: string): (n: nat)
    ensures n <= |s|
  {
    if s == [] || !Letter(s[0]) then 0 else 1 + LetterRun(s[1..])
  }

  /** `[name: value]` and nothing else on the line. */
  predicate IsMeta(raw: string) {
    var s := Strip(raw);
    && s != [] && s[0] == '['
    && var d := LetterRun(s[1..]);
       && d > 0 && d + 2 < |s| && s[d + 1] == ':' && s[|s| - 1] == ']'
       && forall k :: d + 2 <= k < |s| - 1 ==> s[k] != ']'
  }

  /** A name of ASCII letters, a colon and a value between brackets. */
  predicate MetaOf(s: string, name: string, value: string) {
    && s == "[" + name + ":" + value + "]"
    && name != [] && (forall c :: c in name ==> 'a' <= c <= 'z' || 'A' <= c <= 'Z') && ']' !in value
  }

  lemma {:induction false} LetterRunIs(name: string, rest: string)
    requires (forall c :: c in name ==> 'a' <= c <= 'z' || 'A' <= c <= 'Z') && rest != [] && !Letter(rest[0])
    ensures LetterRun(name + rest) == |name|
  {
    if name == [] {
      assert name + rest == rest;
    } else {
      assert name[0] in name && (name + rest)[1..] == name[1..] + rest;
      assert forall c :: c in name[1..] ==> c in name;
      LetterRunIs(name[1..], rest);
    }
  }

  lemma {:induction false} LettersOfRun(s: string)
    ensures forall k :: 0 <= k < LetterRun(s) ==> 'a' <= s[k] <= 'z' || 'A' <= s[k] <= 'Z'
  {
    if s != [] && Letter(s[0]) {
      LettersOfRun(s[1..]);
      forall k | 0 <= k < LetterRun(s) ensures 'a' <= s[k] <= 'z' || 'A' <= s[k] <= 'Z' {
        if k > 0 {
          assert s[k] == s[1..][k - 1];
        }
      }
    }
  }

  /** A line is metadata exactly if, stripped, it is a named value between brackets. */
  lemma {:induction false} MetaIff(raw: string)
    ensures IsMeta(raw) <==> exists name, value :: MetaOf(Strip(raw), name, value)
  {
    hide LetterRun, Strip;
    var s := Strip(raw);
    forall name, value | MetaOf(s, name, value) ensures IsMeta(raw) {
      var rest := ":" + value + "]";
      assert s[1..] == name + rest;
      LetterRunIs(name, rest);
      forall k | |name| + 2 <= k < |s| - 1 ensures s[k] != ']' {
        assert s[k] == value[k - |name| - 2];
      }
    }
    if IsMeta(raw) {
      var d := LetterRun(s[1..]);
      LettersOfRun(s[1..]);
      var name, value := s[1..][..d], s[d + 2..|s| - 1];
      assert forall k :: 0 <= k < |name| ==> name[k] == s[1..][k];
      assert s == "[" + name + ":" + value + "]";
      assert MetaOf(s, name, value);
    }
  }

  // ---- the tokenizer's cut ----

  /** Every tag replaced by a space. */
  function Blanked(s: string): string
    decreases |s|
  {
    if s == [] then []
    else if TagLength(s) > 0 then " " + Blanked(s[TagLength(s)..])
    else [s[0]] + Blanked(s[1..])
  }

  /** The words between tags and spaces. */
  function Surfaces(raw: string): seq<string> {
    Words(Blanked(raw))
  }

  // ---- the rewriter's cut ----

  datatype Piece = Gap(text: string) | Word(text: string)

  function InkLength(s: string): (n: nat)
    ensures n <= |s|
    ensures n < |s| ==> IsSpace(s[n]) || Opens(s[n])
  {
    if s == [] || IsSpace(s[0]) || Opens(s[0]) then 0 else 1 + InkLength(s[1..])
  }

  function PieceLength(s: string): (n: nat)
    requires s != []
    ensures 0 < n <= |s|
  {
    if TagLength(s) > 0 then TagLength(s)
    else if IsSpace(s[0]) then SpaceLength(s)
    else if Opens(s[0]) then 1
    else InkLength(s)
  }

  /** What is neither space nor a tag can be a word. */
  function Classed(text: string): Piece {
    if Blank(text) || IsTag(text) then Gap(text) else Word(text)
  }

  function Cut(s: string): (pieces: seq<Piece>)
    decreases |s|
  {
    if s == [] then [] else [Classed(s[..PieceLength(s)])] + Cut(s[PieceLength(s)..])
  }

  function Joined(pieces: seq<Piece>): string {
    if pieces == [] then [] else pieces[0].text + Joined(pieces[1..])
  }

  /** The rewriter's cut loses nothing. */
  lemma {:induction false} CutJoins(s: string)
    ensures Joined(Cut(s)) == s
    decreases |s|
  {
    hide PieceLength, Classed, Joined, Cut;
    if s == [] {
      EmptyCut();
      NothingJoined();
    } else {
      var n := PieceLength(s);
      CutStep(s);
      CutJoins(s[n..]);
      ClassedText(s[..n]);
      JoinedStep(Classed(s[..n]), Cut(s[n..]));
      assert s == s[..n] + s[n..];
    }
  }

  lemma {:induction false} NothingJoined()
    ensures Joined([]) == []
  {
  }

  lemma {:induction false} JoinedStep(p: Piece, rest: seq<Piece>)
    ensures Joined([p] + rest) == p.text + Joined(rest)
  {
    assert ([p] + rest)[1..] == rest;
  }

  lemma {:induction false} ClassedText(text: string)
    ensures Classed(text).text == text
  {
  }

  /** A piece is a gap exactly when it was cut as a tag or as space. */
  lemma {:induction false} PieceKind(s: string)
    requires s != []
    ensures Classed(s[..PieceLength(s)]).text == s[..PieceLength(s)]
    ensures Classed(s[..PieceLength(s)]).Gap? <==> TagLength(s) > 0 || IsSpace(s[0])
  {
    var n := PieceLength(s);
    var text := s[..n];
    assert text[0] == s[0];
    if TagLength(s) > 0 {
      TagAlone(s);
    } else if IsSpace(s[0]) {
      assert Blank(text);
    } else {
      assert !Blank(text);
      NotTag(s);
    }
  }

  /** Ink and lone brackets are no tags. */
  lemma {:induction false} NotTag(s: string)
    requires s != [] && TagLength(s) == 0 && !IsSpace(s[0])
    ensures !IsTag(s[..PieceLength(s)])
  {
    var n := PieceLength(s);
    var text := s[..n];
    if Opens(s[0]) {
      LoneBracket(text);
    } else {
      assert text[0] == s[0];
    }
  }

  lemma {:induction false} LoneBracket(text: string)
    requires |text| == 1
    ensures TagLength(text) == 0
  {
    hide LrcTags.TagAt;
    if LrcTags.TagAt(text, LrcTags.LINE, true).Some? {
      LrcTags.TagShape(text, LrcTags.LINE, true);
    }
    if LrcTags.TagAt(text, LrcTags.WORD, true).Some? {
      LrcTags.TagShape(text, LrcTags.WORD, true);
    }
  }

  lemma {:induction false} CutStep(s: string)
    requires s != []
    ensures Cut(s) == [Classed(s[..PieceLength(s)])] + Cut(s[PieceLength(s)..])
  {
  }

  // ---- stretches: the pieces between two gaps ----

  datatype Stretch = Stretch(from: nat, to: nat)

  predicate Within(pieces: seq<Piece>, st: Stretch) {
    st.from < st.to <= |pieces|
  }

  function StretchEnd(pieces: seq<Piece>, p: nat): (q: nat)
    requires p <= |pieces|
    ensures p <= q <= |pieces| && (forall k :: p <= k < q ==> pieces[k].Word?) && (q < |pieces| ==> pieces[q].Gap?)
    decreases |pieces| - p
  {
    if p == |pieces| || pieces[p].Gap? then p else StretchEnd(pieces, p + 1)
  }

  /** The longest runs of pieces without a gap, from piece `p` on. */
  function Stretches(pieces: seq<Piece>, p: nat): (sts: seq<Stretch>)
    requires p <= |pieces|
    ensures forall k :: 0 <= k < |sts| ==> Within(pieces, sts[k]) && p <= sts[k].from
    decreases |pieces| - p
  {
    if p == |pieces| then []
    else if pieces[p].Gap? then Stretches(pieces, p + 1)
    else [Stretch(p, StretchEnd(pieces, p))] + Stretches(pieces, StretchEnd(pieces, p))
  }

  function StretchText(pieces: seq<Piece>, st: Stretch): string
    requires Within(pieces, st)
  {
    Joined(pieces[st.from..st.to])
  }

  function Texts(pieces: seq<Piece>, sts: seq<Stretch>): (ts: seq<string>)
    requires forall k :: 0 <= k < |sts| ==> Within(pieces, sts[k])
    ensures |ts| == |sts|
  {
    seq(|sts|, k requires 0 <= k < |sts| => StretchText(pieces, sts[k]))
  }

  /** Characters up to the next space or tag. */
  function ChunkLength(s: string): (n: nat)
    ensures n <= |s|
  {
    if s == [] || IsSpace(s[0]) || TagLength(s) > 0 then 0 else 1 + ChunkLength(s[1..])
  }

  lemma {:induction false} BlankedStep(s: string)
    requires s != []
    ensures Blanked(s) == if TagLength(s) > 0 then " " + Blanked(s[TagLength(s)..]) else [s[0]] + Blanked(s[1..])
  {
  }

  lemma {:induction false} BlankedChunk(s: string)
    ensures Blanked(s) == s[..ChunkLength(s)] + Blanked(s[ChunkLength(s)..])
    ensures WordLength(Blanked(s)) == ChunkLength(s)
  {
    hide TagLength, Blanked, IsSpace, WordLength, ChunkLength;
    if s == [] {
      NothingBlanked();
    } else if IsSpace(s[0]) || TagLength(s) > 0 {
      ChunkStep(s);
      NoWordThere(s);
      assert s[0..] == s;
    } else {
      ChunkStep(s);
      BlankedStep(s);
      BlankedChunk(s[1..]);
      WordStep(s[0], Blanked(s[1..]));
      SplitAfter(s, ChunkLength(s[1..]), Blanked(s[ChunkLength(s)..]));
    }
  }

  lemma {:induction false} SplitAfter(s: string, n: nat, rest: string)
    requires n < |s|
    ensures s[1..][n..] == s[n + 1..] && [s[0]] + (s[1..][..n] + rest) == s[..n + 1] + rest
  {
  }

  lemma {:induction false} ChunkStep(s: string)
    requires s != []
    ensures ChunkLength(s) == if IsSpace(s[0]) || TagLength(s) > 0 then 0 else 1 + ChunkLength(s[1..])
  {
    hide TagLength, IsSpace;
  }

  lemma {:induction false} WordStep(c: char, s: string)
    requires !IsSpace(c)
    ensures WordLength([c] + s) == 1 + WordLength(s)
  {
    hide IsSpace;
    assert ([c] + s)[1..] == s;
  }

  lemma {:induction false} NoWordThere(s: string)
    requires s != [] && (IsSpace(s[0]) || TagLength(s) > 0)
    ensures WordLength(Blanked(s)) == 0
  {
    assert IsSpace(' ');
    hide TagLength, IsSpace;
    BlankedStep(s);
  }

  lemma {:induction false} NothingBlanked()
    ensures Blanked([]) == [] && ChunkLength([]) == 0 && WordLength([]) == 0
  {
  }

  lemma {:induction false} WordsSkipOne(c: char, s: string)
    requires IsSpace(c)
    ensures Words([c] + s) == Words(s)
  {
    assert ([c] + s)[1..] == s;
  }

  lemma {:induction false} BlankedSpaces(s: string)
    ensures Words(Blanked(s)) == Words(Blanked(s[SpaceLength(s)..]))
  {
    hide TagLength, Blanked, Words, IsSpace;
    if s == [] || !IsSpace(s[0]) {
      assert s[0..] == s;
    } else {
      BlankedStep(s);
      SpaceIsNoTag(s);
      WordsSkipOne(s[0], Blanked(s[1..]));
      BlankedSpaces(s[1..]);
      assert s[1..][SpaceLength(s[1..])..] == s[SpaceLength(s)..];
    }
  }

  lemma {:induction false} SpaceIsNoTag(s: string)
    requires s != [] && IsSpace(s[0])
    ensures TagLength(s) == 0
  {
  }

  lemma {:induction false} InkInChunk(s: string)
    ensures ChunkLength(s) == InkLength(s) + ChunkLength(s[InkLength(s)..])
  {
    hide IsSpace;
    if s == [] || InkLength(s) == 0 {
      assert s[0..] == s;
    } else {
      InkInChunk(s[1..]);
      assert s[1..][InkLength(s[1..])..] == s[InkLength(s)..];
    }
  }

  /** One piece after another fills a chunk. */
  lemma {:induction false} PieceInChunk(s: string)
    requires s != [] && !IsSpace(s[0]) && TagLength(s) == 0
    ensures ChunkLength(s) == PieceLength(s) + ChunkLength(s[PieceLength(s)..])
  {
    if !Opens(s[0]) {
      InkInChunk(s);
    }
  }

  lemma {:induction false} ChunkPieces(s: string, pieces: seq<Piece>, p: nat)
    requires p <= |pieces| && pieces[p..] == Cut(s)
    ensures var q, m := StretchEnd(pieces, p), ChunkLength(s);
            Joined(pieces[p..q]) == s[..m] && pieces[q..] == Cut(s[m..])
    decreases |s|
  {
    hide TagLength, IsSpace, PieceLength, Classed, Cut;
    if s == [] {
      EmptyCut();
    } else {
      var n := PieceLength(s);
      CutStep(s);
      PieceKind(s);
      assert pieces[p] == pieces[p..][0] == Classed(s[..n]);
      assert pieces[p + 1..] == pieces[p..][1..] == Cut(s[n..]);
      if pieces[p].Gap? {
        assert s[0..] == s;
      } else {
        PieceInChunk(s);
        ChunkPieces(s[n..], pieces, p + 1);
        var q, m := StretchEnd(pieces, p), ChunkLength(s[n..]);
        assert pieces[p..q][1..] == pieces[p + 1..q];
        TakeMore(s, n, m);
      }
    }
  }

  lemma {:induction false} TakeMore(s: string, n: nat, m: nat)
    requires n + m <= |s|
    ensures s[..n] + s[n..][..m] == s[..n + m] && s[n..][m..] == s[n + m..]
  {
  }

  lemma {:induction false} EmptyCut()
    ensures Cut([]) == []
  {
  }

  /** The chunks the tokenizer sees are the stretches of the rewriter's pieces. */
  lemma {:induction false} SurfacesAreStretches(s: string, pieces: seq<Piece>, p: nat)
    requires p <= |pieces| && pieces[p..] == Cut(s)
    ensures Surfaces(s) == Texts(pieces, Stretches(pieces, p))
    decreases |s|
  {
    hide TagLength, IsSpace, PieceLength, Classed, Cut, Blanked, Words;
    if s == [] {
      EmptyCut();
      NothingBlanked();
      NoWords();
    } else {
      var n := PieceLength(s);
      CutStep(s);
      PieceKind(s);
      assert pieces[p] == pieces[p..][0] == Classed(s[..n]);
      assert pieces[p + 1..] == pieces[p..][1..] == Cut(s[n..]);
      if pieces[p].Gap? {
        GapIsSkipped(s);
        SurfacesAreStretches(s[n..], pieces, p + 1);
      } else {
        var q, m := StretchEnd(pieces, p), ChunkLength(s);
        ChunkPieces(s, pieces, p);
        ChunkIsWord(s);
        SurfacesAreStretches(s[m..], pieces, q);
        assert StretchText(pieces, Stretch(p, q)) == s[..m];
      }
    }
  }

  lemma {:induction false} GapIsSkipped(s: string)
    requires s != [] && (TagLength(s) > 0 || IsSpace(s[0]))
    ensures Surfaces(s) == Surfaces(s[PieceLength(s)..])
  {
    if TagLength(s) > 0 {
      BlankedStep(s);
      assert IsSpace(' ');
      WordsSkipOne(' ', Blanked(s[TagLength(s)..]));
    } else {
      BlankedSpaces(s);
    }
  }

  lemma {:induction false} ChunkIsWord(s: string)
    requires s != [] && !IsSpace(s[0]) && TagLength(s) == 0
    ensures 0 < ChunkLength(s) && Surfaces(s) == [s[..ChunkLength(s)]] + Surfaces(s[ChunkLength(s)..])
  {
    hide TagLength, Blanked, Words, IsSpace;
    var m, b := ChunkLength(s), Blanked(s);
    BlankedChunk(s);
    BlankedStep(s);
    WordsAtWord(b);
    assert b[..m] == s[..m] && b[m..] == Blanked(s[m..]);
  }

  // ---- tokens and words ----

  datatype Token = Token(surface: string, key: string, line: nat)

  function TokensOf(surfaces: seq<string>, line: nat, normal: string -> string): (ts: seq<Token>)
    ensures forall k :: 0 <= k < |ts| ==> ts[k].line == line
  {
    if surfaces == [] then []
    else
      (if normal(surfaces[0]) == "" then [] else [Token(surfaces[0], normal(surfaces[0]), line)])
      + TokensOf(surfaces[1..], line, normal)
  }

  function LineTokens(raw: string, line: nat, normal: string -> string): (ts: seq<Token>)
    ensures forall k :: 0 <= k < |ts| ==> ts[k].line == line
  {
    if IsMeta(raw) then [] else TokensOf(Surfaces(raw), line, normal)
  }

  /** The tokens of the first `m` lines. */
  function Tokens(lines: seq<string>, m: nat, normal: string -> string): (ts: seq<Token>)
    requires m <= |lines|
  {
    if m == 0 then [] else Tokens(lines, m - 1, normal) + LineTokens(lines[m - 1], m - 1, normal)
  }

  /** The number of the first token of line `m`. */
  function Offset(lines: seq<string>, m: nat, normal: string -> string): nat
    requires m <= |lines|
  {
    |Tokens(lines, m, normal)|
  }

  predicate Keyed(p: Piece, normal: string -> string) {
    p.Word? && normal(p.text) != ""
  }

  /** The positions of the pieces with a key, from `p` up to `q`. */
  function KeyedIn(pieces: seq<Piece>, p: nat, q: nat, normal: string -> string): (ws: seq<nat>)
    requires p <= q <= |pieces|
    ensures forall k :: 0 <= k < |ws| ==> p <= ws[k] < q && Keyed(pieces[ws[k]], normal)
    ensures forall j, k :: 0 <= j < k < |ws| ==> ws[j] < ws[k]
    decreases q
  {
    if p == q then []
    else
      var ws := KeyedIn(pieces, p, q - 1, normal);
      if Keyed(pieces[q - 1], normal) then ws + [q - 1] else ws
  }

  lemma {:induction false} KeyedInIsComplete(pieces: seq<Piece>, p: nat, q: nat, i: nat, normal: string -> string)
    requires p <= i < q <= |pieces| && Keyed(pieces[i], normal)
    ensures i in KeyedIn(pieces, p, q, normal)
    decreases q
  {
    if i < q - 1 {
      KeyedInIsComplete(pieces, p, q - 1, i, normal);
    }
  }

  /** The words of a line as the rewriter counts them. */
  function WordPieces(raw: string, normal: string -> string): (ws: seq<nat>)
    ensures forall k :: 0 <= k < |ws| ==> ws[k] < |Cut(raw)|
    ensures forall j, k :: 0 <= j < k < |ws| ==> ws[j] < ws[k]
  {
    if IsMeta(raw) then [] else KeyedIn(Cut(raw), 0, |Cut(raw)|, normal)
  }

  /** The number of the rewriter's first word of line `m`. */
  function WordOffset(lines: seq<string>, m: nat, normal: string -> string): nat
    requires m <= |lines|
  {
    if m == 0 then 0 else WordOffset(lines, m - 1, normal) + |WordPieces(lines[m - 1], normal)|
  }

  /** The stretches that make a token. */
  function Spoken(pieces: seq<Piece>, sts: seq<Stretch>, normal: string -> string): (ss: seq<Stretch>)
    requires forall k :: 0 <= k < |sts| ==> Within(pieces, sts[k])
    ensures forall k :: 0 <= k < |ss| ==> ss[k] in sts && normal(StretchText(pieces, ss[k])) != ""
  {
    if sts == [] then []
    else (if normal(StretchText(pieces, sts[0])) == "" then [] else [sts[0]]) + Spoken(pieces, sts[1..], normal)
  }

  function LineSpoken(raw: string, normal: string -> string): (ss: seq<Stretch>)
    ensures forall k :: 0 <= k < |ss| ==> Within(Cut(raw), ss[k])
  {
    if IsMeta(raw) then [] else Spoken(Cut(raw), Stretches(Cut(raw), 0), normal)
  }

  /** Token number `j` of a line is the text of spoken stretch number `j`. */
  lemma {:induction false} TokensAreSpoken(raw: string, line: nat, normal: string -> string)
    ensures |LineTokens(raw, line, normal)| == |LineSpoken(raw, normal)|
    ensures forall j :: 0 <= j < |LineSpoken(raw, normal)| ==>
              LineTokens(raw, line, normal)[j].surface == StretchText(Cut(raw), LineSpoken(raw, normal)[j])
  {
    hide Cut, Surfaces, IsMeta;
    var pieces := Cut(raw);
    assert pieces[0..] == pieces;
    SurfacesAreStretches(raw, pieces, 0);
    SpokenTokens(pieces, Stretches(pieces, 0), line, normal);
  }

  lemma {:induction false} SpokenTokens(pieces: seq<Piece>, sts: seq<Stretch>, line: nat, normal: string -> string)
    requires forall k :: 0 <= k < |sts| ==> Within(pieces, sts[k])
    ensures var ts, ss := TokensOf(Texts(pieces, sts), line, normal), Spoken(pieces, sts, normal);
            |ts| == |ss| && forall j :: 0 <= j < |ss| ==> ts[j].surface == StretchText(pieces, ss[j])
  {
    if sts != [] {
      SpokenTokens(pieces, sts[1..], line, normal);
      assert Texts(pieces, sts)[1..] == Texts(pieces, sts[1..]);
    }
  }

  // ---- when both cuts count alike ----

  predicate Holds(st: Stretch, piece: nat) {
    st.from <= piece < st.to
  }

  /** One keyed piece in a stretch with a key, and none in a stretch without. */
  predicate EvenStretch(pieces: seq<Piece>, st: Stretch, normal: string -> string)
    requires Within(pieces, st)
  {
    |KeyedIn(pieces, st.from, st.to, normal)| == if normal(StretchText(pieces, st)) == "" then 0 else 1
  }

  predicate EvenFrom(pieces: seq<Piece>, p: nat, normal: string -> string)
    requires p <= |pieces|
  {
    forall k :: 0 <= k < |Stretches(pieces, p)| ==> EvenStretch(pieces, Stretches(pieces, p)[k], normal)
  }

  /** Every stretch of the line is even. */
  predicate Even(raw: string, normal: string -> string) {
    IsMeta(raw) || EvenFrom(Cut(raw), 0, normal)
  }

  /** As many words as spoken stretches, each word in the stretch of the same number. */
  ghost predicate Paired(ws: seq<nat>, ss: seq<Stretch>) {
    |ws| == |ss| && forall j :: 0 <= j < |ws| ==> Holds(ss[j], ws[j])
  }

  lemma {:induction false} KeyedSplit(pieces: seq<Piece>, p: nat, q: nat, r: nat, normal: string -> string)
    requires p <= q <= r <= |pieces|
    ensures KeyedIn(pieces, p, r, normal) == KeyedIn(pieces, p, q, normal) + KeyedIn(pieces, q, r, normal)
    decreases r
  {
    if q < r {
      KeyedSplit(pieces, p, q, r - 1, normal);
    }
  }

  ghost predicate PairedFrom(pieces: seq<Piece>, p: nat, normal: string -> string)
    requires p <= |pieces|
  {
    Paired(KeyedIn(pieces, p, |pieces|, normal), Spoken(pieces, Stretches(pieces, p), normal))
  }

  /** A line's words pair with its tokens exactly when every stretch is even. */
  lemma {:induction false} PairedIffEven(pieces: seq<Piece>, p: nat, normal: string -> string)
    requires p <= |pieces|
    ensures PairedFrom(pieces, p, normal) <==> EvenFrom(pieces, p, normal)
    decreases |pieces| - p
  {
    hide PairedFrom, EvenFrom, EvenStretch, StretchEnd;
    if p == |pieces| {
      NothingPairs(pieces, normal);
    } else if pieces[p].Gap? {
      PairedIffEven(pieces, p + 1, normal);
      GapPairs(pieces, p, normal);
    } else {
      StretchPairs(pieces, p, normal);
      StretchEvens(pieces, p, normal);
      PairedIffEven(pieces, StretchEnd(pieces, p), normal);
    }
  }

  lemma {:induction false} NothingPairs(pieces: seq<Piece>, normal: string -> string)
    ensures PairedFrom(pieces, |pieces|, normal) && EvenFrom(pieces, |pieces|, normal)
  {
  }

  lemma {:induction false} GapPairs(pieces: seq<Piece>, p: nat, normal: string -> string)
    requires p < |pieces| && pieces[p].Gap?
    ensures PairedFrom(pieces, p, normal) <==> PairedFrom(pieces, p + 1, normal)
    ensures EvenFrom(pieces, p, normal) <==> EvenFrom(pieces, p + 1, normal)
  {
    GapStretches(pieces, p);
    GapKeyed(pieces, p, normal);
    hide KeyedIn, Stretches, EvenStretch, Spoken, Paired, Within, StretchText;
  }

  lemma {:induction false} GapKeyed(pieces: seq<Piece>, p: nat, normal: string -> string)
    requires p < |pieces| && pieces[p].Gap?
    ensures KeyedIn(pieces, p, |pieces|, normal) == KeyedIn(pieces, p + 1, |pieces|, normal)
  {
    hide KeyedIn, Keyed;
    KeyedSplit(pieces, p, p + 1, |pieces|, normal);
    NoneKeyed(pieces, p, normal);
    NothingBefore(KeyedIn(pieces, p + 1, |pieces|, normal));
  }

  lemma {:induction false} NothingBefore(ws: seq<nat>)
    ensures [] + ws == ws
  {
  }

  lemma {:induction false} GapStretches(pieces: seq<Piece>, p: nat)
    requires p < |pieces| && pieces[p].Gap?
    ensures Stretches(pieces, p) == Stretches(pieces, p + 1)
  {
  }

  lemma {:induction false} NoneKeyed(pieces: seq<Piece>, p: nat, normal: string -> string)
    requires p < |pieces| && pieces[p].Gap?
    ensures KeyedIn(pieces, p, p + 1, normal) == []
  {
  }

  lemma {:induction false} StretchEvens(pieces: seq<Piece>, p: nat, normal: string -> string)
    requires p < |pieces| && pieces[p].Word?
    ensures var q := StretchEnd(pieces, p);
            p < q && (EvenFrom(pieces, p, normal)
                      <==> EvenStretch(pieces, Stretch(p, q), normal) && EvenFrom(pieces, q, normal))
  {
    hide EvenStretch, StretchEnd;
    var q := StretchEnd(pieces, p);
    var sts, rest := Stretches(pieces, p), Stretches(pieces, q);
    assert sts == [Stretch(p, q)] + rest;
    if EvenFrom(pieces, p, normal) {
      forall k | 0 <= k < |rest| ensures EvenStretch(pieces, rest[k], normal) {
        assert sts[k + 1] == rest[k];
      }
      assert sts[0] == Stretch(p, q);
    }
  }

  /** The pairing of a stretch and what follows it. */
  lemma {:induction false} StretchPairs(pieces: seq<Piece>, p: nat, normal: string -> string)
    requires p < |pieces| && pieces[p].Word?
    ensures var q := StretchEnd(pieces, p);
            p < q && (PairedFrom(pieces, p, normal)
                      <==> EvenStretch(pieces, Stretch(p, q), normal) && PairedFrom(pieces, q, normal))
  {
    hide KeyedIn, Spoken, Stretches, StretchText, StretchEnd, Paired, Keyed;
    StretchSpoken(pieces, p, normal);
    var q := StretchEnd(pieces, p);
    var own, ws, ss := KeyedIn(pieces, p, q, normal), KeyedIn(pieces, q, |pieces|, normal),
        Spoken(pieces, Stretches(pieces, q), normal);
    KeyedSplit(pieces, p, q, |pieces|, normal);
    SpokenBehind(pieces, q, normal);
    PairsSplit(own, ws, if normal(StretchText(pieces, Stretch(p, q))) == "" then [] else [Stretch(p, q)], ss, q);
  }

  lemma {:induction false} SpokenBehind(pieces: seq<Piece>, q: nat, normal: string -> string)
    requires q <= |pieces|
    ensures forall k :: 0 <= k < |Spoken(pieces, Stretches(pieces, q), normal)|
              ==> q <= Spoken(pieces, Stretches(pieces, q), normal)[k].from
  {
    hide Spoken, Stretches, StretchText;
  }

  lemma {:induction false} StretchSpoken(pieces: seq<Piece>, p: nat, normal: string -> string)
    requires p < |pieces| && pieces[p].Word?
    ensures var q := StretchEnd(pieces, p);
            && p < q
            && Spoken(pieces, Stretches(pieces, p), normal)
               == (if normal(StretchText(pieces, Stretch(p, q))) == "" then [] else [Stretch(p, q)])
                  + Spoken(pieces, Stretches(pieces, q), normal)
  {
    hide StretchText;
    assert Stretches(pieces, p)[1..] == Stretches(pieces, StretchEnd(pieces, p));
  }

  lemma {:induction false} PairAt(ws: seq<nat>, ss: seq<Stretch>, j: nat)
    requires Paired(ws, ss) && j < |ws|
    ensures Holds(ss[j], ws[j])
  {
  }

  /** Two numberings with a common border pair up exactly when they do on both sides of it. */
  lemma {:induction false} PairsSplit(own: seq<nat>, ws: seq<nat>, head: seq<Stretch>, ss: seq<Stretch>, q: nat)
    requires |head| <= 1 && forall j, k :: 0 <= j < |head| && 0 <= k < |own| ==> Holds(head[j], own[k])
    requires (forall k :: 0 <= k < |own| ==> own[k] < q) && (forall k :: 0 <= k < |ws| ==> q <= ws[k])
    requires (forall k :: 0 <= k < |head| ==> head[k].to <= q) && (forall k :: 0 <= k < |ss| ==> q <= ss[k].from)
    ensures Paired(own + ws, head + ss) <==> |own| == |head| && Paired(ws, ss)
  {
    var left, right := own + ws, head + ss;
    if Paired(left, right) {
      if |own| < |head| {
        PairAt(left, right, 0);
        assert false;
      } else if |head| < |own| {
        PairAt(left, right, |head|);
        assert false;
      }
      forall j | 0 <= j < |ws| ensures Holds(ss[j], ws[j]) {
        assert Holds(right[|head| + j], left[|own| + j]);
      }
    }
  }

  /** Word number `i` of the rewriter stands in the stretch of token number `i`, on the same line. */
  ghost predicate Matches(lines: seq<string>, n: nat, j: nat, normal: string -> string)
    requires n < |lines| && j < |WordPieces(lines[n], normal)|
  {
    var i, ss := WordOffset(lines, n, normal) + j, LineSpoken(lines[n], normal);
    Offset(lines, n, normal) <= i < Offset(lines, n, normal) + |ss|
    && Holds(ss[i - Offset(lines, n, normal)], WordPieces(lines[n], normal)[j])
  }

  /** Both cuts give the text the same number of words, and every word stands where the token of its number was read. */
  ghost predicate NumberedAlike(lines: seq<string>, normal: string -> string) {
    && WordOffset(lines, |lines|, normal) == Offset(lines, |lines|, normal)
    && forall n, j :: 0 <= n < |lines| && 0 <= j < |WordPieces(lines[n], normal)| ==> Matches(lines, n, j, normal)
  }

  predicate AllEven(lines: seq<string>, normal: string -> string) {
    forall n :: 0 <= n < |lines| ==> Even(lines[n], normal)
  }

  lemma {:induction false} OffsetStep(lines: seq<string>, n: nat, normal: string -> string)
    requires n < |lines|
    ensures Offset(lines, n + 1, normal) == Offset(lines, n, normal) + |LineSpoken(lines[n], normal)|
    ensures WordOffset(lines, n + 1, normal) == WordOffset(lines, n, normal) + |WordPieces(lines[n], normal)|
  {
    hide LineTokens, LineSpoken, WordPieces;
    TokensAreSpoken(lines[n], n, normal);
  }

  lemma {:induction false} LinePairedIffEven(raw: string, normal: string -> string)
    ensures Paired(WordPieces(raw, normal), LineSpoken(raw, normal)) <==> Even(raw, normal)
  {
    hide IsMeta, Cut;
    PairedIffEven(Cut(raw), 0, normal);
  }

  lemma {:induction false} EvenOffsets(lines: seq<string>, n: nat, normal: string -> string)
    requires n <= |lines| && forall k :: 0 <= k < n ==> Even(lines[k], normal)
    ensures WordOffset(lines, n, normal) == Offset(lines, n, normal)
  {
    hide Even, LineSpoken, WordPieces, LineTokens;
    if n > 0 {
      EvenOffsets(lines, n - 1, normal);
      OffsetStep(lines, n - 1, normal);
      LinePairedIffEven(lines[n - 1], normal);
    }
  }

  lemma {:induction false} MatchAt(lines: seq<string>, n: nat, j: nat, normal: string -> string)
    requires forall m, j :: 0 <= m < |lines| && 0 <= j < |WordPieces(lines[m], normal)| ==> Matches(lines, m, j, normal)
    requires n < |lines| && j < |WordPieces(lines[n], normal)|
    ensures var i := WordOffset(lines, n, normal) + j;
            Offset(lines, n, normal) <= i < Offset(lines, n, normal) + |LineSpoken(lines[n], normal)|
  {
    assert Matches(lines, n, j, normal);
  }

  /** Once the rewriter is behind the tokenizer, a text that matches word for word has no more words. */
  lemma {:induction false} BehindStays(lines: seq<string>, n: nat, normal: string -> string)
    requires n <= |lines| && WordOffset(lines, n, normal) < Offset(lines, n, normal)
    requires forall m, j :: 0 <= m < |lines| && 0 <= j < |WordPieces(lines[m], normal)| ==> Matches(lines, m, j, normal)
    ensures WordOffset(lines, |lines|, normal) < Offset(lines, |lines|, normal)
    decreases |lines| - n
  {
    hide LineSpoken, WordPieces, LineTokens, Tokens, WordOffset, Offset;
    if n < |lines| {
      OffsetStep(lines, n, normal);
      if WordPieces(lines[n], normal) != [] {
        MatchAt(lines, n, 0, normal);
        assert false;
      }
      BehindStays(lines, n + 1, normal);
    }
  }

  lemma {:induction false} AlikeOffsets(lines: seq<string>, n: nat, normal: string -> string)
    requires n <= |lines| && NumberedAlike(lines, normal)
    ensures WordOffset(lines, n, normal) == Offset(lines, n, normal)
  {
    hide LineSpoken, WordPieces, LineTokens;
    if n > 0 {
      AlikeOffsets(lines, n - 1, normal);
      OffsetStep(lines, n - 1, normal);
      var ws, ss := WordPieces(lines[n - 1], normal), LineSpoken(lines[n - 1], normal);
      if |ws| > |ss| {
        MatchAt(lines, n - 1, |ss|, normal);
        assert false;
      }
      if |ws| < |ss| {
        BehindStays(lines, n, normal);
      }
    }
  }

  lemma {:induction false} EvenIsAlike(lines: seq<string>, n: nat, j: nat, normal: string -> string)
    requires AllEven(lines, normal) && n < |lines| && j < |WordPieces(lines[n], normal)|
    ensures Matches(lines, n, j, normal)
  {
    hide LineSpoken, WordPieces, LineTokens, Tokens, WordOffset, Offset, Even, Holds, Paired, Matches, Cut, IsMeta;
    EvenOffsets(lines, n, normal);
    LinePairedIffEven(lines[n], normal);
    PairMatches(lines, n, j, normal);
  }

  lemma {:induction false} PairMatches(lines: seq<string>, n: nat, j: nat, normal: string -> string)
    requires n < |lines| && j < |WordPieces(lines[n], normal)|
        && WordOffset(lines, n, normal) == Offset(lines, n, normal)
    requires Paired(WordPieces(lines[n], normal), LineSpoken(lines[n], normal))
    ensures Matches(lines, n, j, normal)
  {
    hide LineSpoken, WordPieces, LineTokens, Tokens, WordOffset, Offset, Holds, Cut, Within, IsMeta, Stretches, Spoken,
        KeyedIn;
  }

  lemma {:induction false} AlikeIsEven(lines: seq<string>, n: nat, normal: string -> string)
    requires NumberedAlike(lines, normal) && n < |lines|
    ensures Even(lines[n], normal)
  {
    AlikeOffsets(lines, n, normal);
    AlikeOffsets(lines, n + 1, normal);
    hide LineSpoken, WordPieces, LineTokens, Tokens, WordOffset, Offset, Even, Holds, Matches;
    OffsetStep(lines, n, normal);
    var ws, ss := WordPieces(lines[n], normal), LineSpoken(lines[n], normal);
    forall j | 0 <= j < |ws| ensures Holds(ss[j], ws[j]) {
      assert Matches(lines, n, j, normal);
      MatchHolds(lines, n, j, normal);
    }
    LinePairedIffEven(lines[n], normal);
  }

  lemma {:induction false} MatchHolds(lines: seq<string>, n: nat, j: nat, normal: string -> string)
    requires n < |lines| && j < |WordPieces(lines[n], normal)| && Matches(lines, n, j, normal)
    requires WordOffset(lines, n, normal) == Offset(lines, n, normal) && j < |LineSpoken(lines[n], normal)|
    ensures Holds(LineSpoken(lines[n], normal)[j], WordPieces(lines[n], normal)[j])
  {
    hide LineSpoken, WordPieces, LineTokens, Tokens, WordOffset, Offset, Holds, Cut, Within, IsMeta, Stretches, Spoken,
        KeyedIn;
  }

  /** The two cuts number a text alike exactly when every stretch of every line is even. */
  lemma {:induction false} NumberedAlikeIffEven(lines: seq<string>, normal: string -> string)
    ensures NumberedAlike(lines, normal) <==> AllEven(lines, normal)
  {
    if AllEven(lines, normal) {
      EvenOffsets(lines, |lines|, normal);
      forall n, j | 0 <= n < |lines| && 0 <= j < |WordPieces(lines[n], normal)| ensures Matches(lines, n, j, normal) {
        EvenIsAlike(lines, n, j, normal);
      }
    }
    if NumberedAlike(lines, normal) {
      forall n | 0 <= n < |lines| ensures Even(lines[n], normal) {
        AlikeIsEven(lines, n, normal);
      }
    }
    hide LineSpoken, WordPieces, LineTokens, Tokens, WordOffset, Offset, Even, Matches;
  }

  // ---- lines that are even, and one that is not ----

  lemma {:induction false} AdjacentWords(s: string, k: nat)
    requires k + 1 < |Cut(s)| && Cut(s)[k].Word? && Cut(s)[k + 1].Word?
    ensures exists c :: Opens(c) && (c in Cut(s)[k].text || c in Cut(s)[k + 1].text)
    decreases k
  {
    hide TagLength, IsSpace, Classed, Cut, PieceLength;
    if s == [] {
      EmptyCut();
    } else {
      CutStep(s);
      var rest := s[PieceLength(s)..];
      if k > 0 {
        AdjacentWords(rest, k - 1);
      } else if rest == [] {
        EmptyCut();
      } else {
        CutStep(rest);
        FirstTwo(s);
      }
    }
  }

  lemma {:induction false} FirstTwo(s: string)
    requires s != [] && PieceLength(s) < |s|
    requires Classed(s[..PieceLength(s)]).Word?
    requires var rest := s[PieceLength(s)..]; Classed(rest[..PieceLength(rest)]).Word?
    ensures var rest := s[PieceLength(s)..];
            exists c :: Opens(c) && (c in Classed(s[..PieceLength(s)]).text
                                     || c in Classed(rest[..PieceLength(rest)]).text)
  {
    var n, rest := PieceLength(s), s[PieceLength(s)..];
    PieceKind(s);
    PieceKind(rest);
    assert s[..n][0] == s[0] && rest[0] == s[n];
    assert rest[..PieceLength(rest)][0] == rest[0];
    if !Opens(s[0]) {
      assert n == InkLength(s);
      assert Opens(rest[0]);
    }
  }

  lemma {:induction false} JoinedHas(pieces: seq<Piece>, k: nat, c: char)
    requires k < |pieces| && c in pieces[k].text
    ensures c in Joined(pieces)
  {
    if k > 0 {
      JoinedHas(pieces[1..], k - 1, c);
    }
  }

  /** No opening bracket outside the tags. */
  predicate BracketFree(raw: string) {
    forall k, c :: 0 <= k < |Surfaces(raw)| && c in Surfaces(raw)[k] ==> !Opens(c)
  }

  /** Without a stray bracket every stretch is a single piece, whatever the keys are. */
  lemma {:induction false} BracketFreeIsEven(raw: string, normal: string -> string)
    requires BracketFree(raw)
    ensures Even(raw, normal)
  {
    hide TagLength, IsSpace, Classed, Cut, PieceLength, Surfaces, IsMeta, StretchEnd;
    var pieces := Cut(raw);
    var sts := Stretches(pieces, 0);
    assert pieces[0..] == pieces;
    SurfacesAreStretches(raw, pieces, 0);
    StretchesAreWords(pieces, 0);
    forall k | 0 <= k < |sts| ensures EvenStretch(pieces, sts[k], normal) {
      var st := sts[k];
      assert Surfaces(raw)[k] == StretchText(pieces, st);
      if st.from + 1 < st.to {
        AdjacentWords(raw, st.from);
        var c :| Opens(c) && (c in pieces[st.from].text || c in pieces[st.from + 1].text);
        StretchHas(pieces, st, if c in pieces[st.from].text then st.from else st.from + 1, c);
        assert false;
      }
      SingleIsEven(pieces, st, normal);
    }
  }

  lemma {:induction false} StretchHas(pieces: seq<Piece>, st: Stretch, p: nat, c: char)
    requires Within(pieces, st) && Holds(st, p) && c in pieces[p].text
    ensures c in StretchText(pieces, st)
  {
    assert pieces[st.from..st.to][p - st.from] == pieces[p];
    JoinedHas(pieces[st.from..st.to], p - st.from, c);
  }

  lemma {:induction false} StretchesAreWords(pieces: seq<Piece>, p: nat)
    requires p <= |pieces|
    ensures forall k, i: nat :: 0 <= k < |Stretches(pieces, p)| && Holds(Stretches(pieces, p)[k], i) ==> pieces[i].Word?
    decreases |pieces| - p
  {
    if p < |pieces| {
      StretchesAreWords(pieces, if pieces[p].Gap? then p + 1 else StretchEnd(pieces, p));
    }
  }

  lemma {:induction false} SingleIsEven(pieces: seq<Piece>, st: Stretch, normal: string -> string)
    requires Within(pieces, st) && st.to == st.from + 1 && pieces[st.from].Word?
    ensures EvenStretch(pieces, st, normal)
  {
    SingleText(pieces, st.from);
    KeyedStep(pieces, st.from, st.from, normal);
    hide KeyedIn;
    NoneIn(pieces, st.from, normal);
  }

  lemma {:induction false} SingleText(pieces: seq<Piece>, p: nat)
    requires p < |pieces|
    ensures StretchText(pieces, Stretch(p, p + 1)) == pieces[p].text
  {
    var one := pieces[p..p + 1];
    assert one[1..] == [] && one[0] == pieces[p];
    assert Joined(one[1..]) == [];
    assert pieces[p].text + [] == pieces[p].text;
  }

  lemma {:induction false} KeyedStep(pieces: seq<Piece>, p: nat, q: nat, normal: string -> string)
    requires p <= q < |pieces|
    ensures KeyedIn(pieces, p, q + 1, normal)
        == KeyedIn(pieces, p, q, normal) + (if Keyed(pieces[q], normal) then [q] else [])
  {
  }

  lemma {:induction false} NoneIn(pieces: seq<Piece>, p: nat, normal: string -> string)
    requires p <= |pieces|
    ensures KeyedIn(pieces, p, p, normal) == []
  {
  }

  /** Where no line has a bracket outside its tags, the numbers agree for every choice of keys. */
  lemma {:induction false} BracketFreeTextIsNumberedAlike(lines: seq<string>, normal: string -> string)
    requires forall n :: 0 <= n < |lines| ==> BracketFree(lines[n])
    ensures NumberedAlike(lines, normal)
  {
    forall n | 0 <= n < |lines| ensures Even(lines[n], normal) {
      BracketFreeIsEven(lines[n], normal);
    }
    NumberedAlikeIffEven(lines, normal);
  }

  lemma {:induction false} BracketPieces()
    ensures Cut("la[x2] foo") == [Word("la"), Word("["), Word("x2]"), Gap(" "), Word("foo")]
  {
    PieceLengths();
    BracketTail();
    var first, second := "la[x2] foo", "[x2] foo";
    hide Cut, PieceLength, TagLength, Classed;
    CutAt(first, 2, "la", second);
    CutAt(second, 1, "[", "x2] foo");
  }

  lemma {:induction false} BracketTail()
    ensures Cut("x2] foo") == [Word("x2]"), Gap(" "), Word("foo")]
  {
    PieceLengths();
    hide Cut, PieceLength, TagLength, Classed;
    CutAt("foo", 3, "foo", "");
    EmptyCut();
    assert Cut("foo") == [Word("foo")];
    CutAt(" foo", 1, " ", "foo");
    CutAt("x2] foo", 3, "x2]", " foo");
  }

  lemma {:induction false} CutAt(s: string, n: nat, text: string, rest: string)
    requires text != [] && s == text + rest && |text| == n
    requires PieceLength(s) == n && TagLength(s) == 0
    ensures Cut(s) == [if IsSpace(text[0]) then Gap(text) else Word(text)] + Cut(rest)
  {
    hide TagLength, IsSpace, Classed;
    assert s[..n] == text && s[n..] == rest;
    PieceKind(s);
    CutStep(s);
  }

  lemma {:induction false} PieceLengths()
    ensures PieceLength("la[x2] foo") == 2 && TagLength("la[x2] foo") == 0
    ensures PieceLength("[x2] foo") == 1 && TagLength("[x2] foo") == 0
    ensures PieceLength("x2] foo") == 3 && TagLength("x2] foo") == 0
    ensures PieceLength(" foo") == 1 && TagLength(" foo") == 0
    ensures PieceLength("foo") == 3 && TagLength("foo") == 0
  {
    BracketNoTag("[x2] foo");
    hide TagLength, SpaceLength;
    InkOfTwo("la[x2] foo");
    InkOf("x2] foo");
    InkOf("foo");
    OneSpace(" foo");
  }

  lemma {:induction false} OneSpace(s: string)
    requires |s| > 1 && IsSpace(s[0]) && !IsSpace(s[1])
    ensures SpaceLength(s) == 1
  {
    assert SpaceLength(s[1..]) == 0;
  }

  lemma {:induction false} InkOfTwo(s: string)
    requires |s| > 2 && !IsSpace(s[0]) && !IsSpace(s[1]) && !Opens(s[0]) && !Opens(s[1]) && Opens(s[2])
    ensures InkLength(s) == 2
  {
    assert InkLength(s[1..][1..]) == 0;
  }

  lemma {:induction false} InkOf(s: string)
    requires |s| >= 3 && (forall k :: 0 <= k < 3 ==> !IsSpace(s[k]) && !Opens(s[k]))
    requires |s| == 3 || IsSpace(s[3])
    ensures InkLength(s) == 3
  {
    assert InkLength(s[1..][1..][1..]) == 0;
    assert InkLength(s[1..][1..]) == 1;
  }

  lemma {:induction false} BracketNoTag(s: string)
    requires |s| > 1 && s[0] == '[' && !LrcTags.Digit(s[1])
    ensures TagLength(s) == 0
  {
    assert s[1..][0] == s[1];
    assert LrcTags.DigitRun(s[1..]) == 0;
  }

  /** A bracket glued inside a chunk: two tokens for the tokenizer, three words for the rewriter, so that number 1 is
      `foo` to the one and `x2]` to the other. */
  lemma {:induction false} BracketShiftsNumbers(normal: string -> string)
    requires normal("[") == "" && normal("la") != "" && normal("x2]") != "" && normal("la[x2]") != ""
        && normal("foo") != ""
    ensures var raw := "la[x2] foo";
            && LineTokens(raw, 0, normal) == [Token("la[x2]", normal("la[x2]"), 0), Token("foo", normal("foo"), 0)]
            && Cut(raw) == [Word("la"), Word("["), Word("x2]"), Gap(" "), Word("foo")]
                && WordPieces(raw, normal) == [0, 2, 4]
            && !Even(raw, normal)
  {
    var raw := "la[x2] foo";
    BracketPieces();
    BracketIsNoMeta();
    BracketSurfaces();
    BracketTokens(normal);
    BracketWords(Cut(raw), normal);
    BracketUneven(Cut(raw), normal);
    hide Cut, IsMeta, Surfaces, KeyedIn, TokensOf, EvenFrom;
  }

  lemma {:induction false} BracketSurfaces()
    ensures Surfaces("la[x2] foo") == ["la[x2]", "foo"]
  {
    BracketPieces();
    hide Cut, Surfaces;
    var raw := "la[x2] foo";
    var pieces := Cut(raw);
    BracketStretches(pieces);
    assert pieces[0..] == pieces;
    SurfacesAreStretches(raw, pieces, 0);
    hide Stretches, StretchText;
  }

  lemma {:induction false} BracketUneven(pieces: seq<Piece>, normal: string -> string)
    requires pieces == [Word("la"), Word("["), Word("x2]"), Gap(" "), Word("foo")]
    requires normal("[") == "" && normal("la") != "" && normal("x2]") != "" && normal("foo") != ""
    ensures !EvenFrom(pieces, 0, normal)
  {
    BracketWords(pieces, normal);
    BracketStretches(pieces);
    hide KeyedIn, Stretches, StretchText;
    assert !EvenStretch(pieces, Stretches(pieces, 0)[0], normal);
  }

  lemma {:induction false} BracketTokens(normal: string -> string)
    requires normal("la[x2]") != "" && normal("foo") != ""
    ensures TokensOf(["la[x2]", "foo"], 0, normal)
        == [Token("la[x2]", normal("la[x2]"), 0), Token("foo", normal("foo"), 0)]
  {
    assert ["la[x2]", "foo"][1..] == ["foo"];
    assert TokensOf(["foo"][1..], 0, normal) == [];
    assert TokensOf(["foo"], 0, normal) == [Token("foo", normal("foo"), 0)];
  }

  lemma {:induction false} BracketIsNoMeta()
    ensures !IsMeta("la[x2] foo")
  {
    var s := "la[x2] foo";
    assert SpaceLength(s) == 0;
    assert s[0..] == s;
    assert TrimmedLength(s) == |s|;
    assert Strip(s)[0] == 'l';
  }

  lemma {:induction false} BracketStretches(pieces: seq<Piece>)
    requires pieces == [Word("la"), Word("["), Word("x2]"), Gap(" "), Word("foo")]
    ensures Stretches(pieces, 0) == [Stretch(0, 3), Stretch(4, 5)]
    ensures StretchText(pieces, Stretch(0, 3)) == "la[x2]" && StretchText(pieces, Stretch(4, 5)) == "foo"
  {
    assert StretchEnd(pieces, 3) == 3 && StretchEnd(pieces, 2) == 3 && StretchEnd(pieces, 1) == 3
        && StretchEnd(pieces, 0) == 3;
    assert StretchEnd(pieces, 5) == 5 && StretchEnd(pieces, 4) == 5;
    assert Stretches(pieces, 5) == [] && Stretches(pieces, 4) == [Stretch(4, 5)]
        && Stretches(pieces, 3) == [Stretch(4, 5)];
    var a, b := pieces[0..3], pieces[4..5];
    assert a[1..][1..][1..] == [] && b[1..] == [];
    assert Joined(a[1..][1..]) == "x2]" + [];
    assert Joined(a[1..]) == "[" + Joined(a[1..][1..]);
    assert Joined(a) == "la" + Joined(a[1..]);
    assert Joined(b) == "foo" + [];
  }

  lemma {:induction false} BracketWords(pieces: seq<Piece>, normal: string -> string)
    requires pieces == [Word("la"), Word("["), Word("x2]"), Gap(" "), Word("foo")]
    requires normal("[") == "" && normal("la") != "" && normal("x2]") != "" && normal("foo") != ""
    ensures KeyedIn(pieces, 0, 5, normal) == [0, 2, 4]
    ensures |KeyedIn(pieces, 0, 3, normal)| == 2
  {
    EveryOther(pieces, normal);
  }

  lemma {:induction false} EveryOther(pieces: seq<Piece>, normal: string -> string)
    requires |pieces| == 5 && Keyed(pieces[0], normal) && Keyed(pieces[2], normal) && Keyed(pieces[4], normal)
    requires !Keyed(pieces[1], normal) && !Keyed(pieces[3], normal)
    ensures KeyedIn(pieces, 0, 5, normal) == [0, 2, 4]
    ensures |KeyedIn(pieces, 0, 3, normal)| == 2
  {
    hide KeyedIn, Keyed;
    NoneIn(pieces, 0, normal);
    KeyedStep(pieces, 0, 0, normal);
    assert KeyedIn(pieces, 0, 1, normal) == [0];
    KeyedStep(pieces, 0, 1, normal);
    KeyedStep(pieces, 0, 2, normal);
    assert KeyedIn(pieces, 0, 3, normal) == [0, 2];
    KeyedStep(pieces, 0, 3, normal);
    KeyedStep(pieces, 0, 4, normal);
  }
}
