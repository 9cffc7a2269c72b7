/** Composing several decodes of the same audio into one list of heard words (`_compose_asr`).

    Each incoming word is matched with an earlier reading of the same occurrence, or recorded as a
    conflict with an overlapping reading, or added.  Times in seconds; the token list of a word's
    text is part of the word. */
module AsrComposition {
  import opened Numbers
  import opened Options
  import opened StableSort

  datatype Word = Word(text: string, tokens: seq<string>, start: real, end: real, probability: Option<real>)

  /** A canonical word and the decoding attempts that confirmed it. */
  datatype Entry = Entry(word: Word, owners: set<string>)

  datatype Segment = Segment(words: seq<Word>, attempt: Option<string>, replaced: Option<string>,
                             alternateCrop: bool, logprob: Option<real>, silence: Option<real>)

  datatype Conflict = Conflict(text: string, alternate: string, start: real, end: real)

  const MAX_WORDS: nat := 4000

  /** Words as they leave the parser: timed, with tokens, sorted by start. */
  ghost predicate Parsed(words: seq<Word>) {
    && (forall k :: 0 <= k < |words| ==> 0.0 <= words[k].start < words[k].end && words[k].tokens != [])
    && forall j, k :: 0 <= j < k < |words| ==> words[j].start <= words[k].start
  }

  predicate SameInterval(x: Word, y: Word) {
    && Distance(x.start, y.start) <= 1.0 && Distance(x.end, y.end) <= 1.0
    && Least(x.end, y.end) - Most(x.start, y.start) >= 0.5 * Least(x.end - x.start, y.end - y.start)
  }

  // ---- matching ----

  predicate SameReading(x: Word, y: Word) {
    x.tokens == y.tokens && SameInterval(x, y)
  }

  function Misfit(x: Word, y: Word): real {
    Distance(x.start, y.start) + Distance(x.end, y.end)
  }

  /** The first closest entry with the same reading among those after `last` and before `n`. */
  function Closest(canonical: seq<Entry>, word: Word, last: int, n: nat): (r: Option<nat>)
    requires n <= |canonical|
    ensures r.Some? ==>
              && last < r.value < n && SameReading(canonical[r.value].word, word)
              && forall i :: last < i < n && 0 <= i && SameReading(canonical[i].word, word) ==>
                               && Misfit(canonical[r.value].word, word) <= Misfit(canonical[i].word, word)
                               && (i < r.value ==>
                                     Misfit(canonical[r.value].word, word) < Misfit(canonical[i].word, word))
    ensures r.None? ==> forall i :: last < i < n && 0 <= i ==> !SameReading(canonical[i].word, word)
  {
    if n == 0 then None
    else
      var before := Closest(canonical, word, last, n - 1);
      var prior := canonical[n - 1].word;
      if last < n - 1 && SameReading(prior, word)
         && (before.None? || Misfit(prior, word) < Misfit(canonical[before.value].word, word))
      then Some(n - 1) else before
  }

  /** Index of the last matched entry before incoming word `j`, or -1. */
  function LastMatch(canonical: seq<Entry>, incoming: seq<Word>, j: nat): (r: int)
    requires j <= |incoming|
    ensures -1 <= r < |canonical|
  {
    if j == 0 then -1
    else
      var last := LastMatch(canonical, incoming, j - 1);
      var r := Closest(canonical, incoming[j - 1], last, |canonical|);
      if r.Some? then r.value else last
  }

  function MatchOf(canonical: seq<Entry>, incoming: seq<Word>, j: nat): (r: Option<nat>)
    requires j < |incoming|
    ensures r.Some? ==> r.value < |canonical|
  {
    Closest(canonical, incoming[j], LastMatch(canonical, incoming, j), |canonical|)
  }

  lemma {:induction false} LastMatchGrows(canonical: seq<Entry>, incoming: seq<Word>, j: nat, k: nat)
    requires j <= k <= |incoming|
    ensures LastMatch(canonical, incoming, j) <= LastMatch(canonical, incoming, k)
    decreases k
  {
    if j < k {
      LastMatchGrows(canonical, incoming, j, k - 1);
    }
  }

  /** One-to-one and in order: later incoming words match later entries, each with the same tokens in the same
      interval. */
  lemma {:induction false} MatchesIncrease(canonical: seq<Entry>, incoming: seq<Word>, j: nat, k: nat)
    requires j < k < |incoming|
    requires MatchOf(canonical, incoming, j).Some? && MatchOf(canonical, incoming, k).Some?
    ensures MatchOf(canonical, incoming, j).value < MatchOf(canonical, incoming, k).value
    ensures SameReading(canonical[MatchOf(canonical, incoming, j).value].word, incoming[j])
  {
    LastMatchGrows(canonical, incoming, j + 1, k);
  }

  /** Entry `i` reads like incoming word `j`, and lies behind every entry matched before. */
  predicate Eligible(canonical: seq<Entry>, incoming: seq<Word>, matches: seq<Option<nat>>, j: nat, i: nat)
    requires |matches| == |incoming| && j < |incoming|
  {
    && i < |canonical| && SameReading(canonical[i].word, incoming[j])
    && forall k :: 0 <= k < j && matches[k].Some? ==> matches[k].value < i
  }

  /** The eligible entry whose times fit best, the first such one on ties; none if no entry is eligible. */
  ghost predicate BestMatch(canonical: seq<Entry>, incoming: seq<Word>, matches: seq<Option<nat>>, j: nat)
    requires |matches| == |incoming| && j < |incoming|
  {
    match matches[j]
    case None => forall i: nat :: !Eligible(canonical, incoming, matches, j, i)
    case Some(i) =>
      && Eligible(canonical, incoming, matches, j, i)
      && forall other: nat :: Eligible(canonical, incoming, matches, j, other) ==>
           && Misfit(canonical[i].word, incoming[j]) <= Misfit(canonical[other].word, incoming[j])
           && (other < i ==> Misfit(canonical[i].word, incoming[j]) < Misfit(canonical[other].word, incoming[j]))
  }

  ghost predicate Matching(canonical: seq<Entry>, incoming: seq<Word>, matches: seq<Option<nat>>) {
    |matches| == |incoming| && forall j :: 0 <= j < |incoming| ==> BestMatch(canonical, incoming, matches, j)
  }

  function MatchList(canonical: seq<Entry>, incoming: seq<Word>): (matches: seq<Option<nat>>)
    ensures |matches| == |incoming|
  {
    seq(|incoming|, j requires 0 <= j < |incoming| => MatchOf(canonical, incoming, j))
  }

  /** `LastMatch` is the last of the matches before, and so behind all of them. */
  lemma {:induction false} LastMatchIsLast(canonical: seq<Entry>, incoming: seq<Word>, j: nat, i: nat)
    requires j <= |incoming|
    ensures LastMatch(canonical, incoming, j) < i
            <==> forall k :: 0 <= k < j && MatchOf(canonical, incoming, k).Some? ==>
                   MatchOf(canonical, incoming, k).value < i
  {
    hide Closest;
    if j > 0 {
      LastMatchIsLast(canonical, incoming, j - 1, i);
      var r := MatchOf(canonical, incoming, j - 1);
      if r.Some? {
        assert LastMatch(canonical, incoming, j - 1) < r.value;
      }
    }
  }

  lemma {:induction false} MatchesAreBest(canonical: seq<Entry>, incoming: seq<Word>)
    ensures Matching(canonical, incoming, MatchList(canonical, incoming))
  {
    hide SameReading, Misfit, LastMatch;
    var matches := MatchList(canonical, incoming);
    forall j | 0 <= j < |incoming| ensures BestMatch(canonical, incoming, matches, j) {
      forall i: nat
        ensures Eligible(canonical, incoming, matches, j, i)
                <==> i < |canonical| && SameReading(canonical[i].word, incoming[j])
                     && LastMatch(canonical, incoming, j) < i
      {
        LastMatchIsLast(canonical, incoming, j, i);
        assert forall k :: 0 <= k < j ==> matches[k] == MatchOf(canonical, incoming, k);
      }
    }
  }

  /** The first loop: exact lexical matching. */
  method MatchWords(canonical: seq<Entry>, incoming: seq<Word>) returns (matches: seq<Option<nat>>)
    ensures |matches| == |incoming| && Matching(canonical, incoming, matches)
    ensures forall j :: 0 <= j < |incoming| ==> matches[j] == MatchOf(canonical, incoming, j)
    ensures forall j, k :: 0 <= j < k < |incoming| && matches[j].Some? && matches[k].Some?
              ==> matches[j].value < matches[k].value
  {
    hide Closest, SameReading, Misfit;
    matches := [];
    var last: int := -1;
    for j := 0 to |incoming|
      invariant |matches| == j && last == LastMatch(canonical, incoming, j)
      invariant forall k :: 0 <= k < j ==> matches[k] == MatchOf(canonical, incoming, k)
    {
      var r := Closest(canonical, incoming[j], last, |canonical|);
      matches := matches + [r];
      if r.Some? {
        last := r.value;
      }
    }
    forall j, k | 0 <= j < k < |incoming| && matches[j].Some? && matches[k].Some?
      ensures matches[j].value < matches[k].value
    {
      MatchesIncrease(canonical, incoming, j, k);
    }
    assert matches == MatchList(canonical, incoming);
    MatchesAreBest(canonical, incoming);
  }

  // ---- reconciling ----

  /** A trusted wider decode that supersedes an attempt seen before. */
  predicate ExplicitAlternate(s: Segment, seen: set<string>) {
    && s.alternateCrop && s.attempt.Some? && s.replaced.Some?
    && s.replaced.value in seen && s.attempt != s.replaced
    && s.logprob.Some? && s.logprob.value >= -1.0
    && s.silence.Some? && 0.0 <= s.silence.value < 0.6
  }

  function LowerConfidence(p: Option<real>, q: Option<real>): Option<real> {
    if p.Some? && q.Some? then Some(Least(p.value, q.value)) else None
  }

  /** A matched entry after another observation of it. */
  function Confirmed(e: Entry, word: Word, s: Segment, alternate: bool): Entry {
    var better := alternate && s.replaced.Some? && s.replaced.value in e.owners;
    Entry(if better then word else e.word.(probability := LowerConfidence(e.word.probability, word.probability)),
          if s.attempt.Some? then e.owners + {s.attempt.value} else e.owners)
  }

  /** The first entry closest in start among those in the same interval, before `n`. */
  function Overlapping(canonical: seq<Entry>, word: Word, n: nat): (r: Option<nat>)
    requires n <= |canonical|
    ensures r.Some? ==> r.value < n && SameInterval(canonical[r.value].word, word)
    ensures r.None? <==> forall i :: 0 <= i < n ==> !SameInterval(canonical[i].word, word)
  {
    if n == 0 then None
    else
      var before := Overlapping(canonical, word, n - 1);
      var prior := canonical[n - 1].word;
      if SameInterval(prior, word)
         && (before.None?
             || Distance(prior.start, word.start) < Distance(canonical[before.value].word.start, word.start))
      then Some(n - 1) else before
  }

  function ConflictOf(prior: Word, word: Word): Conflict {
    Conflict(prior.text, word.text, Least(prior.start, word.start), Most(prior.end, word.end))
  }

  datatype Work = Work(canonical: seq<Entry>, additions: seq<Word>, conflicts: seq<Conflict>)

  /** One incoming word: confirm its match, record a conflict once, or add it. */
  function Reconcile(w: Work, word: Word, found: Option<nat>, s: Segment, alternate: bool): (r: Work)
    requires found.Some? ==> found.value < |w.canonical|
    ensures |r.canonical| == |w.canonical|
  {
    if found.Some? then
      w.(canonical := w.canonical[found.value := Confirmed(w.canonical[found.value], word, s, alternate)])
    else
      var prior := Overlapping(w.canonical, word, |w.canonical|);
      if prior.None? then w.(additions := w.additions + [word])
      else
        var c := ConflictOf(w.canonical[prior.value].word, word);
        if c in w.conflicts then w else w.(conflicts := w.conflicts + [c])
  }

  function Reconciled(canonical: seq<Entry>, conflicts: seq<Conflict>, s: Segment, alternate: bool, j: nat): (r: Work)
    requires j <= |s.words|
    ensures |r.canonical| == |canonical|
  {
    if j == 0 then Work(canonical, [], conflicts)
    else Reconcile(Reconciled(canonical, conflicts, s, alternate, j - 1), s.words[j - 1],
                   MatchOf(canonical, s.words, j - 1), s, alternate)
  }

  predicate NoLater(x: Entry, y: Entry) {
    x.word.start <= y.word.start
  }

  function NewEntries(additions: seq<Word>, attempt: Option<string>): (r: seq<Entry>)
    ensures |r| == |additions| && forall k :: 0 <= k < |additions| ==> r[k].word == additions[k]
  {
    seq(|additions|, k requires 0 <= k < |additions| =>
      Entry(additions[k], if attempt.Some? then {attempt.value} else {}))
  }

  datatype State = State(canonical: seq<Entry>, seen: set<string>, conflicts: seq<Conflict>)

  const EMPTY: State := State([], {}, [])

  function Fold(st: State, s: Segment): State {
    if s.words == [] then st
    else
      var alternate := ExplicitAlternate(s, st.seen);
      var w := Reconciled(st.canonical, st.conflicts, s, alternate, |s.words|);
      State(Sort(w.canonical + NewEntries(w.additions, s.attempt), NoLater),
            if s.attempt.Some? then st.seen + {s.attempt.value} else st.seen,
            w.conflicts)
  }

  predicate Oversized(st: State, s: Segment) {
    s.words != [] && |st.canonical| + |s.words| > MAX_WORDS
  }

  function WordsOf(entries: seq<Entry>): (r: seq<Word>)
    ensures |r| == |entries|
  {
    seq(|entries|, k requires 0 <= k < |entries| => entries[k].word)
  }

  /** The result of folding the segments from state `st` on; an oversized segment ends it unmerged. */
  function Composed(st: State, segments: seq<Segment>): (seq<Word>, seq<Conflict>)
    decreases |segments|
  {
    if segments == [] then (WordsOf(st.canonical), st.conflicts)
    else if Oversized(st, segments[0]) then (WordsOf(st.canonical) + segments[0].words, st.conflicts)
    else Composed(Fold(st, segments[0]), segments[1..])
  }

  /** One segment after another, each doing what its words call for, from nothing up to the first oversized one. */
  ghost predicate Heard(segments: seq<Segment>, states: seq<State>) {
    && 0 < |states| <= |segments| + 1 && states[0] == EMPTY
    && forall k :: 0 <= k < |states| - 1 ==>
         && !Oversized(states[k], segments[k])
         && Listens(states[k], segments[k], states[k + 1])
  }

  ghost predicate Listens(st: State, s: Segment, next: State) {
    if s.words == [] then next == st else exists h, newcomers :: Observed(st, s, next, h, newcomers)
  }

  method ComposeAsr(segments: seq<Segment>)
      returns (words: seq<Word>, conflicts: seq<Conflict>, ghost states: seq<State>)
    requires forall k :: 0 <= k < |segments| ==> Parsed(segments[k].words)
    ensures (words, conflicts) == Composed(EMPTY, segments)
    ensures Heard(segments, states)
    ensures var n, last := |states| - 1, states[|states| - 1];
            && conflicts == last.conflicts
            && if n == |segments| then words == WordsOf(last.canonical)
               else Oversized(last, segments[n]) && words == WordsOf(last.canonical) + segments[n].words
  {
    hide Fold, Observed;
    var st := EMPTY;
    states := [st];
    assert segments[0..] == segments;
    for k := 0 to |segments|
      invariant Composed(EMPTY, segments) == Composed(st, segments[k..])
      invariant |states| == k + 1 && states[k] == st && Heard(segments, states)
    {
      var s := segments[k];
      assert segments[k..][0] == s && segments[k..][1..] == segments[k + 1..];
      if s.words != [] && |st.canonical| + |s.words| > MAX_WORDS {
        return WordsOf(st.canonical) + s.words, st.conflicts, states;
      }
      st := FoldSegment(st, s);
      states := states + [st];
    }
    return WordsOf(st.canonical), st.conflicts, states;
  }

  /** One segment: match, reconcile word by word, append, sort. */
  method FoldSegment(st: State, s: Segment) returns (next: State)
    ensures next == Fold(st, s) && Listens(st, s, next)
  {
    hide MatchOf, Reconcile, Observed, Matching;
    if s.words == [] {
      return st;
    }
    FoldIsObserved(st, s);
    var alternate := ExplicitAlternate(s, st.seen);
    var matches := MatchWords(st.canonical, s.words);
    var work := Work(st.canonical, [], st.conflicts);
    for j := 0 to |s.words|
      invariant work == Reconciled(st.canonical, st.conflicts, s, alternate, j)
    {
      assert matches[j] == MatchOf(st.canonical, s.words, j);
      work := Reconcile(work, s.words[j], matches[j], s, alternate);
    }
    var sorted := Sort(work.canonical + NewEntries(work.additions, s.attempt), NoLater);
    next := State(sorted, if s.attempt.Some? then st.seen + {s.attempt.value} else st.seen, work.conflicts);
  }

  // ---- what one segment does, told from its words ----

  /** How a segment was heard against the entries: the match of each word, the entries when each word came up, and the
      numbers of the words that were added and of those that put a new conflict on record. */
  datatype Hearing = Hearing(matches: seq<Option<nat>>, stages: seq<seq<Entry>>, added: seq<nat>, contrary: seq<nat>)

  /** The lower of two known confidences, else unknown. */
  predicate JointConfidence(p: Option<real>, q: Option<real>, r: Option<real>) {
    && (r.Some? <==> p.Some? && q.Some?)
    && (r.Some? ==> r.value <= p.value && r.value <= q.value && (r == p || r == q))
  }

  /** A matched entry becomes the word of an explicit alternate of a decode that had confirmed it; any other word only
      lowers its confidence.  The decode is noted among its owners. */
  ghost predicate BecomesBy(e: Entry, word: Word, s: Segment, alternate: bool, after: Entry) {
    && (if alternate && s.replaced.Some? && s.replaced.value in e.owners then after.word == word
        else
          && after.word.text == e.word.text && after.word.tokens == e.word.tokens
          && after.word.start == e.word.start && after.word.end == e.word.end
          && JointConfidence(e.word.probability, word.probability, after.word.probability))
    && (forall o :: o in after.owners <==> o in e.owners || s.attempt == Some(o))
  }

  /** Entry `i` before word `j`: changed by the one word matched with it by then, if any. */
  ghost predicate EntryThen(canonical: seq<Entry>, s: Segment, alternate: bool, matches: seq<Option<nat>>, i: nat,
                            j: nat,
                            e: Entry)
    requires |matches| == |s.words| && i < |canonical| && j <= |s.words|
  {
    || (e == canonical[i] && forall k :: 0 <= k < j ==> matches[k] != Some(i))
    || exists k :: 0 <= k < j && matches[k] == Some(i) && BecomesBy(canonical[i], s.words[k], s, alternate, e)
  }

  ghost predicate Staged(canonical: seq<Entry>, s: Segment, alternate: bool, matches: seq<Option<nat>>,
                         stages: seq<seq<Entry>>)
    requires |matches| == |s.words|
  {
    && |stages| == |s.words| + 1
    && forall j :: 0 <= j < |stages| ==>
         && |stages[j]| == |canonical|
         && forall i :: 0 <= i < |canonical| ==> EntryThen(canonical, s, alternate, matches, i, j, stages[j][i])
  }

  /** Some entry lies in the interval of the word. */
  predicate Rivalled(entries: seq<Entry>, word: Word) {
    exists i :: 0 <= i < |entries| && SameInterval(entries[i].word, word)
  }

  /** The conflict names the entry in the word's interval whose start is nearest, the first such one on ties, and the
      span of both readings. */
  ghost predicate NamesRival(entries: seq<Entry>, word: Word, c: Conflict) {
    exists i :: 0 <= i < |entries| && Nearest(entries, word, i) && SpansBoth(entries[i].word, word, c)
  }

  predicate Nearest(entries: seq<Entry>, word: Word, i: nat)
    requires i < |entries|
  {
    && SameInterval(entries[i].word, word)
    && forall other :: 0 <= other < |entries| && SameInterval(entries[other].word, word) ==>
         && Distance(entries[i].word.start, word.start) <= Distance(entries[other].word.start, word.start)
         && (other < i ==> Distance(entries[i].word.start, word.start) < Distance(entries[other].word.start,
             word.start))
  }

  predicate SpansBoth(prior: Word, word: Word, c: Conflict) {
    && c.text == prior.text && c.alternate == word.text
    && c.start <= prior.start && c.start <= word.start && (c.start == prior.start || c.start == word.start)
    && c.end >= prior.end && c.end >= word.end && (c.end == prior.end || c.end == word.end)
  }

  predicate Increasing(ks: seq<nat>, n: nat) {
    (forall m :: 0 <= m < |ks| ==> ks[m] < n) && forall l, m :: 0 <= l < m < |ks| ==> ks[l] < ks[m]
  }

  /** An incoming word is added if and only if it is unmatched and no entry lies in its interval. */
  ghost predicate AddsRight(s: Segment, h: Hearing)
    requires |h.matches| == |s.words| && |h.stages| == |s.words| + 1
  {
    && Increasing(h.added, |s.words|)
    && forall j: nat :: j < |s.words| ==>
         (j in h.added <==> h.matches[j].None? && !Rivalled(h.stages[j], s.words[j]))
  }

  /** Any other unmatched word has a conflict with its nearest rival on record; each conflict is recorded once, in the
      order of the words, and no other conflict arises. */
  ghost predicate ConflictsRight(s: Segment, h: Hearing, before: seq<Conflict>, after: seq<Conflict>)
    requires |h.matches| == |s.words| && |h.stages| == |s.words| + 1
  {
    && Increasing(h.contrary, |s.words|) && before <= after && |after| == |before| + |h.contrary|
    && (forall m :: 0 <= m < |h.contrary| ==>
          var j, c := h.contrary[m], after[|before| + m];
          && h.matches[j].None? && Rivalled(h.stages[j], s.words[j]) && NamesRival(h.stages[j], s.words[j], c)
          && c !in after[..|before| + m])
    && forall j: nat :: j < |s.words| && h.matches[j].None? && Rivalled(h.stages[j], s.words[j]) ==>
         exists c :: c in after && NamesRival(h.stages[j], s.words[j], c)
  }

  /** The entries that start at one moment, in order. */
  function AtStart(entries: seq<Entry>, t: real): seq<Entry> {
    Keep(entries, (e: Entry) => e.word.start == t)
  }

  /** The new entries carry the added words and the decode they come from. */
  ghost predicate Carries(entries: seq<Entry>, s: Segment, added: seq<nat>) {
    && |entries| == |added|
    && forall m :: 0 <= m < |added| ==>
         && added[m] < |s.words| && entries[m].word == s.words[added[m]]
         && forall o :: o in entries[m].owners <==> s.attempt == Some(o)
  }

  /** Everything one segment does to the state. */
  ghost predicate Observed(st: State, s: Segment, next: State, h: Hearing, newcomers: seq<Entry>) {
    && Matching(st.canonical, s.words, h.matches)
    && Staged(st.canonical, s, ExplicitAlternate(s, st.seen), h.matches, h.stages)
    && AddsRight(s, h) && ConflictsRight(s, h, st.conflicts, next.conflicts)
    && Carries(newcomers, s, h.added)
    && Sorted(next.canonical, NoLater)
    && (forall t :: AtStart(next.canonical, t) == AtStart(h.stages[|s.words|] + newcomers, t))
    && (forall o :: o in next.seen <==> o in st.seen || s.attempt == Some(o))
  }

  function Stages(canonical: seq<Entry>, conflicts: seq<Conflict>, s: Segment, alternate: bool): (r: seq<seq<Entry>>)
    ensures |r| == |s.words| + 1
  {
    seq(|s.words| + 1, j requires 0 <= j <= |s.words| => Reconciled(canonical, conflicts, s, alternate, j).canonical)
  }

  lemma {:induction false} MatchedOnce(canonical: seq<Entry>, incoming: seq<Word>, j: nat, k: nat)
    requires j < k < |incoming| && MatchOf(canonical, incoming, k).Some?
    ensures MatchOf(canonical, incoming, j) != MatchOf(canonical, incoming, k)
  {
    if MatchOf(canonical, incoming, j).Some? {
      MatchesIncrease(canonical, incoming, j, k);
    }
  }

  lemma {:induction false} ConfirmedBecomes(e: Entry, word: Word, s: Segment, alternate: bool)
    ensures BecomesBy(e, word, s, alternate, Confirmed(e, word, s, alternate))
  {
  }

  lemma {:induction false} EntriesAreThen(canonical: seq<Entry>, conflicts: seq<Conflict>, s: Segment, alternate: bool,
                                          j: nat, i: nat)
    requires j <= |s.words| && i < |canonical|
    ensures EntryThen(canonical, s, alternate, MatchList(canonical, s.words), i, j,
                      Reconciled(canonical, conflicts, s, alternate, j).canonical[i])
  {
    hide MatchOf, Overlapping, Confirmed, BecomesBy;
    if j > 0 {
      EntriesAreThen(canonical, conflicts, s, alternate, j - 1, i);
      var matches := MatchList(canonical, s.words);
      if matches[j - 1] == Some(i) {
        forall k | 0 <= k < j - 1 ensures matches[k] != Some(i) {
          MatchedOnce(canonical, s.words, k, j - 1);
        }
        ConfirmedBecomes(canonical[i], s.words[j - 1], s, alternate);
      }
    }
  }

  /** The nearest rival is the one `Overlapping` finds. */
  lemma {:induction false} OverlappingIsNearest(entries: seq<Entry>, word: Word, n: nat)
    requires n <= |entries| && Overlapping(entries, word, n).Some?
    ensures Nearest(entries[..n], word, Overlapping(entries, word, n).value)
  {
    hide SameInterval, Distance;
    var before := Overlapping(entries, word, n - 1);
    var first := entries[..n];
    if before.Some? {
      OverlappingIsNearest(entries, word, n - 1);
      assert forall i :: 0 <= i < n - 1 ==> entries[..n - 1][i] == first[i];
    }
    assert first[n - 1] == entries[n - 1];
  }

  lemma {:induction false} OverlappingRivals(entries: seq<Entry>, word: Word)
    ensures var r := Overlapping(entries, word, |entries|);
            && (r.Some? <==> Rivalled(entries, word))
            && (r.Some? ==> NamesRival(entries, word, ConflictOf(entries[r.value].word, word)))
  {
    hide SameInterval, Overlapping, Distance;
    var r := Overlapping(entries, word, |entries|);
    if r.Some? {
      OverlappingIsNearest(entries, word, |entries|);
      assert entries[..|entries|] == entries;
      ConflictSpans(entries[r.value].word, word);
      hide Nearest, SpansBoth;
    }
  }

  lemma {:induction false} ConflictSpans(prior: Word, word: Word)
    ensures SpansBoth(prior, word, ConflictOf(prior, word))
  {
  }

  /** The words among the first `j` that were added, and those that gave a new conflict. */
  function AddedOf(canonical: seq<Entry>, conflicts: seq<Conflict>, s: Segment, alternate: bool, j: nat): (ks: seq<nat>)
    requires j <= |s.words|
  {
    if j == 0 then []
    else
      var ks, before := AddedOf(canonical, conflicts, s, alternate, j - 1),
                        Reconciled(canonical, conflicts, s, alternate, j - 1).canonical;
      if MatchOf(canonical, s.words, j - 1).None? && Overlapping(before, s.words[j - 1], |before|).None?
      then ks + [j - 1] else ks
  }

  function ContraryOf(canonical: seq<Entry>, conflicts: seq<Conflict>, s: Segment, alternate: bool, j: nat)
      : (ks: seq<nat>)
    requires j <= |s.words|
  {
    if j == 0 then []
    else
      var ks := ContraryOf(canonical, conflicts, s, alternate, j - 1);
      if |Reconciled(canonical, conflicts, s, alternate, j).conflicts|
         > |Reconciled(canonical, conflicts, s, alternate, j - 1).conflicts|
      then ks + [j - 1] else ks
  }

  /** What the first `j` words have added. */
  lemma {:induction false} AdditionsAreRight(canonical: seq<Entry>, conflicts: seq<Conflict>, s: Segment,
                                             alternate: bool,
                                             j: nat)
    requires j <= |s.words|
    ensures var ks := AddedOf(canonical, conflicts, s, alternate, j);
            var additions := Reconciled(canonical, conflicts, s, alternate, j).additions;
            && Picks(s.words, ks, additions, j)
            && (forall k: nat :: k < j ==> (k in ks <==> Adds(canonical, conflicts, s, alternate, k)))
  {
    hide *;
    if j == 0 {
      NothingYet(canonical, conflicts, s, alternate);
      NothingPicked(s.words);
    } else {
      AdditionsAreRight(canonical, conflicts, s, alternate, j - 1);
      AddsOrNot(canonical, conflicts, s, alternate, j - 1);
      PickMore(s.words, AddedOf(canonical, conflicts, s, alternate, j - 1),
               Reconciled(canonical, conflicts, s, alternate, j - 1).additions, j - 1);
    }
  }

  lemma {:induction false} NothingYet(canonical: seq<Entry>, conflicts: seq<Conflict>, s: Segment, alternate: bool)
    ensures Reconciled(canonical, conflicts, s, alternate, 0) == Work(canonical, [], conflicts)
    ensures AddedOf(canonical, conflicts, s, alternate, 0) == []
        && ContraryOf(canonical, conflicts, s, alternate, 0) == []
  {
  }

  predicate Picks(words: seq<Word>, ks: seq<nat>, additions: seq<Word>, j: nat)
    requires j <= |words|
  {
    Increasing(ks, j) && |additions| == |ks| && forall m :: 0 <= m < |ks| ==> additions[m] == words[ks[m]]
  }

  lemma {:induction false} NothingPicked(words: seq<Word>)
    ensures Picks(words, [], [], 0)
  {
  }

  lemma {:induction false} PickMore(words: seq<Word>, ks: seq<nat>, additions: seq<Word>, j: nat)
    requires j < |words| && Picks(words, ks, additions, j)
    ensures Picks(words, ks, additions, j + 1) && Picks(words, ks + [j], additions + [words[j]], j + 1)
    ensures j !in ks
  {
  }

  ghost predicate Adds(canonical: seq<Entry>, conflicts: seq<Conflict>, s: Segment, alternate: bool, k: nat)
    requires k < |s.words|
  {
    && MatchOf(canonical, s.words, k).None?
    && !Rivalled(Reconciled(canonical, conflicts, s, alternate, k).canonical, s.words[k])
  }

  lemma {:induction false} AddsOrNot(canonical: seq<Entry>, conflicts: seq<Conflict>, s: Segment, alternate: bool,
                                     j: nat)
    requires j < |s.words|
    ensures var before, after := Reconciled(canonical, conflicts, s, alternate, j),
                                 Reconciled(canonical, conflicts, s, alternate, j + 1);
            var ks := AddedOf(canonical, conflicts, s, alternate, j);
            if Adds(canonical, conflicts, s, alternate, j)
            then after.additions == before.additions + [s.words[j]]
                 && AddedOf(canonical, conflicts, s, alternate, j + 1) == ks + [j]
            else after.additions == before.additions && AddedOf(canonical, conflicts, s, alternate, j + 1) == ks
  {
    hide MatchOf, Overlapping, Rivalled, Confirmed, ConflictOf;
    OverlappingRivals(Reconciled(canonical, conflicts, s, alternate, j).canonical, s.words[j]);
    hide NamesRival;
  }

  /** The conflicts the first `j` words have put on record. */
  ghost predicate OnRecord(canonical: seq<Entry>, s: Segment, h: Hearing, before: seq<Conflict>, after: seq<Conflict>,
                           j: nat)
    requires |h.matches| == |s.words| && |h.stages| == |s.words| + 1 && j <= |s.words|
  {
    && Increasing(h.contrary, j) && before <= after && |after| == |before| + |h.contrary|
    && (forall m :: 0 <= m < |h.contrary| ==>
          var k, c := h.contrary[m], after[|before| + m];
          && h.matches[k].None? && Rivalled(h.stages[k], s.words[k]) && NamesRival(h.stages[k], s.words[k], c)
          && c !in after[..|before| + m])
    && forall k: nat :: k < j && h.matches[k].None? && Rivalled(h.stages[k], s.words[k]) ==>
         exists c :: c in after && NamesRival(h.stages[k], s.words[k], c)
  }

  lemma {:induction false} RecordSame(canonical: seq<Entry>, s: Segment, h: Hearing, before: seq<Conflict>,
                                      after: seq<Conflict>, j: nat)
    requires |h.matches| == |s.words| && |h.stages| == |s.words| + 1 && j < |s.words|
    requires OnRecord(canonical, s, h, before, after, j)
    requires h.matches[j].None? && Rivalled(h.stages[j], s.words[j]) ==>
               exists c :: c in after && NamesRival(h.stages[j], s.words[j], c)
    ensures OnRecord(canonical, s, h, before, after, j + 1)
  {
    hide NamesRival, Rivalled;
  }

  lemma {:induction false} RecordMore(canonical: seq<Entry>, s: Segment, h: Hearing, before: seq<Conflict>,
                                      after: seq<Conflict>, j: nat, c: Conflict)
    requires |h.matches| == |s.words| && |h.stages| == |s.words| + 1 && j < |s.words|
    requires OnRecord(canonical, s, h, before, after, j)
    requires h.matches[j].None? && Rivalled(h.stages[j], s.words[j]) && NamesRival(h.stages[j], s.words[j], c)
    requires c !in after
    ensures OnRecord(canonical, s, h.(contrary := h.contrary + [j]), before, after + [c], j + 1)
  {
    hide NamesRival, Rivalled;
    var all, ks := after + [c], h.contrary + [j];
    forall m | 0 <= m < |ks|
      ensures NamesRival(h.stages[ks[m]], s.words[ks[m]], all[|before| + m])
          && all[|before| + m] !in all[..|before| + m]
    {
      if m < |h.contrary| {
        assert all[..|before| + m] == after[..|before| + m];
      } else {
        assert all[..|after|] == after;
      }
    }
    forall k: nat | k < j + 1 && h.matches[k].None? && Rivalled(h.stages[k], s.words[k])
      ensures exists d :: d in all && NamesRival(h.stages[k], s.words[k], d)
    {
      if k < j {
        var d :| d in after && NamesRival(h.stages[k], s.words[k], d);
        assert d in all;
      } else {
        assert c in all;
      }
    }
  }

  lemma {:induction false} ConflictsAreRight(canonical: seq<Entry>, conflicts: seq<Conflict>, s: Segment,
                                             alternate: bool,
                                             added: seq<nat>, j: nat)
    requires j <= |s.words|
    ensures OnRecord(canonical, s,
                     Hearing(MatchList(canonical, s.words), Stages(canonical, conflicts, s, alternate), added,
                             ContraryOf(canonical, conflicts, s, alternate, j)),
                     conflicts, Reconciled(canonical, conflicts, s, alternate, j).conflicts, j)
  {
    hide *;
    var matches, stages := MatchList(canonical, s.words), Stages(canonical, conflicts, s, alternate);
    if j == 0 {
      NothingYet(canonical, conflicts, s, alternate);
      NothingOnRecord(canonical, s, Hearing(matches, stages, added, []), conflicts);
    } else {
      ConflictsAreRight(canonical, conflicts, s, alternate, added, j - 1);
      var before := Reconciled(canonical, conflicts, s, alternate, j - 1);
      var h := Hearing(matches, stages, added, ContraryOf(canonical, conflicts, s, alternate, j - 1));
      var c := RecordsOrNot(canonical, conflicts, s, alternate, j - 1);
      if c.Some? {
        RecordMore(canonical, s, h, conflicts, before.conflicts, j - 1, c.value);
      } else {
        RecordSame(canonical, s, h, conflicts, before.conflicts, j - 1);
      }
    }
  }

  /** The conflict that word `j` puts on record, if it is new. */
  lemma {:induction false} RecordsOrNot(canonical: seq<Entry>, conflicts: seq<Conflict>, s: Segment, alternate: bool,
                                        j: nat)
      returns (c: Option<Conflict>)
    requires j < |s.words|
    ensures var before, after := Reconciled(canonical, conflicts, s, alternate, j),
                                 Reconciled(canonical, conflicts, s, alternate, j + 1);
            var ks, more := ContraryOf(canonical, conflicts, s, alternate, j),
                            ContraryOf(canonical, conflicts, s, alternate, j + 1);
            var matched, stage := MatchList(canonical, s.words)[j], Stages(canonical, conflicts, s, alternate)[j];
            if c.Some? then
              && after.conflicts == before.conflicts + [c.value] && more == ks + [j] && c.value !in before.conflicts
              && matched.None? && Rivalled(stage, s.words[j]) && NamesRival(stage, s.words[j], c.value)
            else
              && after.conflicts == before.conflicts && more == ks
              && (matched.None? && Rivalled(stage, s.words[j]) ==>
                    exists d :: d in after.conflicts && NamesRival(stage, s.words[j], d))
  {
    hide MatchOf, Overlapping, Rivalled, NamesRival, Confirmed, ConflictOf;
    var before := Reconciled(canonical, conflicts, s, alternate, j);
    OverlappingRivals(before.canonical, s.words[j]);
    var r := Overlapping(before.canonical, s.words[j], |before.canonical|);
    c := None;
    if MatchOf(canonical, s.words, j).None? && r.Some? {
      var d := ConflictOf(before.canonical[r.value].word, s.words[j]);
      if d !in before.conflicts {
        c := Some(d);
      }
    }
  }

  lemma {:induction false} NothingOnRecord(canonical: seq<Entry>, s: Segment, h: Hearing, conflicts: seq<Conflict>)
    requires |h.matches| == |s.words| && |h.stages| == |s.words| + 1 && h.contrary == []
    ensures OnRecord(canonical, s, h, conflicts, conflicts, 0)
  {
  }

  ghost function HearingOf(st: State, s: Segment): (h: Hearing)
    ensures |h.matches| == |s.words| && |h.stages| == |s.words| + 1
  {
    var alternate := ExplicitAlternate(s, st.seen);
    Hearing(MatchList(st.canonical, s.words), Stages(st.canonical, st.conflicts, s, alternate),
            AddedOf(st.canonical, st.conflicts, s, alternate, |s.words|),
            ContraryOf(st.canonical, st.conflicts, s, alternate, |s.words|))
  }

  ghost function FreshOf(st: State, s: Segment): seq<Entry> {
    NewEntries(Reconciled(st.canonical, st.conflicts, s, ExplicitAlternate(s, st.seen), |s.words|).additions, s.attempt)
  }

  /** Folding a segment does what its words call for, and nothing else. */
  lemma {:induction false} FoldIsObserved(st: State, s: Segment)
    requires s.words != []
    ensures Observed(st, s, Fold(st, s), HearingOf(st, s), FreshOf(st, s))
  {
    var alternate := ExplicitAlternate(s, st.seen);
    hide ExplicitAlternate, MatchOf, MatchList, Reconciled, BestMatch, Rivalled, NamesRival, AddedOf, ContraryOf,
        EntryThen;
    MatchesAreBest(st.canonical, s.words);
    AllThen(st.canonical, st.conflicts, s, alternate);
    AdditionsAreRight(st.canonical, st.conflicts, s, alternate, |s.words|);
    ConflictsAreRight(st.canonical, st.conflicts, s, alternate, HearingOf(st, s).added, |s.words|);
    hide Matching, Staged, Stages;
    FoldSorts(st, s);
    MatchListAt(st.canonical, s.words);
    StagesAt(st.canonical, st.conflicts, s, alternate);
  }

  lemma {:induction false} MatchListAt(canonical: seq<Entry>, incoming: seq<Word>)
    ensures forall j :: 0 <= j < |incoming| ==> MatchList(canonical, incoming)[j] == MatchOf(canonical, incoming, j)
  {
  }

  lemma {:induction false} StagesAt(canonical: seq<Entry>, conflicts: seq<Conflict>, s: Segment, alternate: bool)
    ensures forall j :: 0 <= j <= |s.words| ==>
              Stages(canonical, conflicts, s, alternate)[j]
                  == Reconciled(canonical, conflicts, s, alternate, j).canonical
  {
  }

  lemma {:induction false} AllThen(canonical: seq<Entry>, conflicts: seq<Conflict>, s: Segment, alternate: bool)
    ensures Staged(canonical, s, alternate, MatchList(canonical, s.words), Stages(canonical, conflicts, s, alternate))
  {
    hide MatchList, Reconciled, EntryThen;
    StagesAt(canonical, conflicts, s, alternate);
    var stages := Stages(canonical, conflicts, s, alternate);
    forall j, i | 0 <= j < |stages| && 0 <= i < |canonical|
      ensures EntryThen(canonical, s, alternate, MatchList(canonical, s.words), i, j, stages[j][i])
    {
      EntriesAreThen(canonical, conflicts, s, alternate, j, i);
    }
  }

  lemma {:induction false} FoldSorts(st: State, s: Segment)
    requires s.words != []
    ensures var next, all := Fold(st, s), HearingOf(st, s).stages[|s.words|] + FreshOf(st, s);
            && Sorted(next.canonical, NoLater)
            && (forall t :: AtStart(next.canonical, t) == AtStart(all, t))
  {
    hide Reconciled, Sort, Sorted, AtStart;
    var all := HearingOf(st, s).stages[|s.words|] + FreshOf(st, s);
    NoLaterIsTotal();
    SortSorted(all, NoLater);
    forall t ensures AtStart(Sort(all, NoLater), t) == AtStart(all, t) {
      SortKeepsStart(all, t);
    }
  }

  lemma {:induction false} SortKeepsStart(entries: seq<Entry>, t: real)
    ensures AtStart(Sort(entries, NoLater), t) == AtStart(entries, t)
  {
    SortIsStable(entries, NoLater, (e: Entry) => e.word.start == t);
  }

  // ---- nothing heard is lost or rewritten ----

  /** The token lists of the entries, with multiplicity. */
  function Tally(entries: seq<Entry>): multiset<seq<string>> {
    if entries == [] then multiset{} else multiset{entries[0].word.tokens} + Tally(entries[1..])
  }

  lemma {:induction false} TallyConcat(x: seq<Entry>, y: seq<Entry>)
    ensures Tally(x + y) == Tally(x) + Tally(y)
  {
    if x == [] {
      assert x + y == y;
    } else {
      assert (x + y)[1..] == x[1..] + y;
      TallyConcat(x[1..], y);
    }
  }

  lemma {:induction false} TallyInsert(x: Entry, s: seq<Entry>)
    ensures Tally(Insert(x, s, NoLater)) == multiset{x.word.tokens} + Tally(s)
  {
    if s != [] && !NoLater(x, s[0]) {
      TallyInsert(x, s[1..]);
      assert ([s[0]] + Insert(x, s[1..], NoLater))[1..] == Insert(x, s[1..], NoLater);
    } else {
      assert ([x] + s)[1..] == s;
    }
  }

  lemma {:induction false} TallySort(s: seq<Entry>)
    ensures Tally(Sort(s, NoLater)) == Tally(s)
  {
    if s != [] {
      TallySort(s[1..]);
      TallyInsert(s[0], Sort(s[1..], NoLater));
    }
  }

  lemma {:induction false} TallyByTokens(x: seq<Entry>, y: seq<Entry>)
    requires |x| == |y| && forall i :: 0 <= i < |x| ==> x[i].word.tokens == y[i].word.tokens
    ensures Tally(x) == Tally(y)
  {
    if x != [] {
      TallyByTokens(x[1..], y[1..]);
    }
  }

  /** Confidence may fall or become unknown, never rise. */
  predicate NotRaised(before: Option<real>, after: Option<real>) {
    after.None? || (before.Some? && after.value <= before.value)
  }

  /** What one segment does to an earlier word. */
  ghost predicate Kept(before: Entry, after: Entry, alternate: bool) {
    && after.word.tokens == before.word.tokens
    && before.owners <= after.owners
    && (!alternate ==>
          && after.word == before.word.(probability := after.word.probability)
          && NotRaised(before.word.probability, after.word.probability))
  }

  lemma {:induction false} ConfirmedKeeps(e: Entry, word: Word, s: Segment, alternate: bool)
    requires word.tokens == e.word.tokens
    ensures Kept(e, Confirmed(e, word, s, alternate), alternate)
  {
  }

  lemma {:induction false} KeptAgain(x: Entry, y: Entry, z: Entry, alternate: bool)
    requires Kept(x, y, alternate) && Kept(y, z, alternate)
    ensures Kept(x, z, alternate)
  {
  }

  lemma {:induction false} MatchHasSameTokens(canonical: seq<Entry>, incoming: seq<Word>, j: nat)
    requires j < |incoming| && MatchOf(canonical, incoming, j).Some?
    ensures canonical[MatchOf(canonical, incoming, j).value].word.tokens == incoming[j].tokens
  {
  }

  lemma {:induction false} ReconciledKeeps(canonical: seq<Entry>, conflicts: seq<Conflict>, s: Segment,
                                           alternate: bool, j: nat, i: nat)
    requires j <= |s.words| && i < |canonical|
    ensures Kept(canonical[i], Reconciled(canonical, conflicts, s, alternate, j).canonical[i], alternate)
  {
    hide MatchOf;
    hide Overlapping;
    hide Confirmed;
    if j > 0 {
      ReconciledKeeps(canonical, conflicts, s, alternate, j - 1, i);
      var found := MatchOf(canonical, s.words, j - 1);
      if found == Some(i) {
        var e := Reconciled(canonical, conflicts, s, alternate, j - 1).canonical[i];
        MatchHasSameTokens(canonical, s.words, j - 1);
        ConfirmedKeeps(e, s.words[j - 1], s, alternate);
        KeptAgain(canonical[i], e, Confirmed(e, s.words[j - 1], s, alternate), alternate);
      }
    }
  }

  /** Each incoming word is matched, added, or on record as a conflict. */
  lemma {:induction false} EveryWordAccounted(canonical: seq<Entry>, conflicts: seq<Conflict>, s: Segment,
                                              alternate: bool, j: nat, k: nat)
    requires k < j <= |s.words|
    ensures var w := Reconciled(canonical, conflicts, s, alternate, j);
            || MatchOf(canonical, s.words, k).Some?
            || s.words[k] in w.additions
            || exists c :: c in w.conflicts && c.alternate == s.words[k].text && c.start <= s.words[k].start
                 && s.words[k].end <= c.end
    decreases j
  {
    hide MatchOf;
    hide Overlapping;
    hide SameInterval;
    if k == j - 1 {
      var before := Reconciled(canonical, conflicts, s, alternate, j - 1);
      var prior := Overlapping(before.canonical, s.words[k], |before.canonical|);
      if MatchOf(canonical, s.words, k).None? && prior.Some? {
        var c := ConflictOf(before.canonical[prior.value].word, s.words[k]);
        assert c in Reconciled(canonical, conflicts, s, alternate, j).conflicts;
      }
    } else {
      EveryWordAccounted(canonical, conflicts, s, alternate, j - 1, k);
    }
  }

  lemma {:induction false} NoLaterIsTotal()
    ensures TotalPreorder(NoLater)
  {
  }

  /** Folding a segment: sorted by start, earlier tokens all there, the only new tokens those of the
      additions, and earlier words unchanged but for confidence unless the segment is an explicit alternate. */
  lemma {:induction false} FoldKeeps(st: State, s: Segment)
    requires s.words != []
    ensures var next := Fold(st, s);
            var alternate := ExplicitAlternate(s, st.seen);
            var w := Reconciled(st.canonical, st.conflicts, s, alternate, |s.words|);
            && Sorted(next.canonical, NoLater)
            && Tally(next.canonical) == Tally(st.canonical) + Tally(NewEntries(w.additions, s.attempt))
            && forall i :: 0 <= i < |st.canonical| ==>
                 exists k :: 0 <= k < |next.canonical| && Kept(st.canonical[i], next.canonical[k], alternate)
  {
    hide Reconciled;
    hide Kept;
    hide StableSort.Sort;
    var alternate := ExplicitAlternate(s, st.seen);
    var w := Reconciled(st.canonical, st.conflicts, s, alternate, |s.words|);
    var all := w.canonical + NewEntries(w.additions, s.attempt);
    NoLaterIsTotal();
    SortSorted(all, NoLater);
    TallySort(all);
    TallyConcat(w.canonical, NewEntries(w.additions, s.attempt));
    var next := Fold(st, s).canonical;
    forall i | 0 <= i < |st.canonical|
      ensures w.canonical[i].word.tokens == st.canonical[i].word.tokens
      ensures exists k :: 0 <= k < |next| && Kept(st.canonical[i], next[k], alternate)
    {
      ReconciledKeeps(st.canonical, st.conflicts, s, alternate, |s.words|, i);
      KeptTokens(st.canonical[i], w.canonical[i], alternate);
      assert all[i] in multiset(all);
      assert all[i] in next;
    }
    TallyByTokens(st.canonical, w.canonical);
  }

  lemma {:induction false} KeptTokens(before: Entry, after: Entry, alternate: bool)
    requires Kept(before, after, alternate)
    ensures after.word.tokens == before.word.tokens
  {
  }

  function WordTally(words: seq<Word>): multiset<seq<string>> {
    if words == [] then multiset{} else multiset{words[0].tokens} + WordTally(words[1..])
  }

  lemma {:induction false} WordTallyOf(entries: seq<Entry>)
    ensures WordTally(WordsOf(entries)) == Tally(entries)
  {
    if entries != [] {
      assert WordsOf(entries)[1..] == WordsOf(entries[1..]);
      WordTallyOf(entries[1..]);
    }
  }

  lemma {:induction false} WordTallyConcat(x: seq<Word>, y: seq<Word>)
    ensures WordTally(x + y) == WordTally(x) + WordTally(y)
  {
    if x == [] {
      assert x + y == y;
    } else {
      assert (x + y)[1..] == x[1..] + y;
      WordTallyConcat(x[1..], y);
    }
  }

  /** Over a whole composition, from any state: everything already heard is in the result. */
  lemma {:induction false} CompositionKeepsTokens(st: State, segments: seq<Segment>)
    ensures Tally(st.canonical) <= WordTally(Composed(st, segments).0)
    decreases |segments|
  {
    hide Fold;
    WordTallyOf(st.canonical);
    if segments != [] {
      var s := segments[0];
      if Oversized(st, s) {
        WordTallyConcat(WordsOf(st.canonical), s.words);
      } else {
        CompositionKeepsTokens(Fold(st, s), segments[1..]);
        if s.words != [] {
          FoldKeeps(st, s);
        } else {
          EmptyFold(st, s);
        }
      }
    }
  }

  lemma {:induction false} EmptyFold(st: State, s: Segment)
    requires s.words == []
    ensures Fold(st, s) == st
  {
  }

  /** No segment that is merged is an explicit alternate of an attempt seen by then. */
  ghost predicate NoAlternates(st: State, segments: seq<Segment>)
    decreases |segments|
  {
    segments == [] || Oversized(st, segments[0])
    || (!ExplicitAlternate(segments[0], st.seen) && NoAlternates(Fold(st, segments[0]), segments[1..]))
  }

  /** The same word, at the same time, no more certain than before. */
  ghost predicate WordKept(before: Word, after: Word) {
    after == before.(probability := after.probability) && NotRaised(before.probability, after.probability)
  }

  /** Over a whole composition without explicit alternates, every word already heard stays in the result with its text
      and its times, and its confidence never rises. */
  lemma {:induction false} CompositionKeepsWords(st: State, segments: seq<Segment>, i: nat)
    requires i < |st.canonical| && NoAlternates(st, segments)
    ensures exists k :: 0 <= k < |Composed(st, segments).0|
              && WordKept(st.canonical[i].word, Composed(st, segments).0[k])
    decreases |segments|
  {
    hide Fold, WordKept, ExplicitAlternate;
    var e, words := st.canonical[i], Composed(st, segments).0;
    KeptIsKept(e);
    if segments == [] || Oversized(st, segments[0]) {
      assert words[i] == e.word;
    } else if segments[0].words == [] {
      EmptyFold(st, segments[0]);
      CompositionKeepsWords(st, segments[1..], i);
    } else {
      FoldKeeps(st, segments[0]);
      var next := Fold(st, segments[0]);
      var j :| 0 <= j < |next.canonical| && Kept(e, next.canonical[j], false);
      CompositionKeepsWords(next, segments[1..], j);
      var k :| 0 <= k < |words| && WordKept(next.canonical[j].word, words[k]);
      WordKeptAgain(e, next.canonical[j], words[k]);
    }
  }

  lemma {:induction false} KeptIsKept(e: Entry)
    ensures WordKept(e.word, e.word)
  {
  }

  lemma {:induction false} WordKeptAgain(x: Entry, y: Entry, z: Word)
    requires Kept(x, y, false) && WordKept(y.word, z)
    ensures WordKept(x.word, z)
  {
  }

  ghost predicate Fits(st: State, segments: seq<Segment>)
    decreases |segments|
  {
    segments == [] || (!Oversized(st, segments[0]) && Fits(Fold(st, segments[0]), segments[1..]))
  }

  /** The composed list is sorted by start whenever no segment is oversized. */
  lemma {:induction false} CompositionIsSorted(st: State, segments: seq<Segment>)
    requires Sorted(st.canonical, NoLater) && Fits(st, segments)
    ensures forall j, k :: 0 <= j < k < |Composed(st, segments).0| ==>
                             Composed(st, segments).0[j].start <= Composed(st, segments).0[k].start
    decreases |segments|
  {
    hide Fold;
    if segments == [] {
      forall j, k | 0 <= j < k < |st.canonical| ensures st.canonical[j].word.start <= st.canonical[k].word.start {
        assert NoLater(st.canonical[j], st.canonical[k]);
      }
    } else {
      var s := segments[0];
      if s.words != [] {
        FoldKeeps(st, s);
      } else {
        EmptyFold(st, s);
      }
      CompositionIsSorted(Fold(st, s), segments[1..]);
    }
  }

  // ---- hearing the same decode twice ----

  /** From nothing, every word of the first segment is added. */
  lemma {:induction false} FirstSegmentAdds(s: Segment, j: nat)
    requires j <= |s.words|
    ensures Reconciled([], [], s, false, j) == Work([], s.words[..j], [])
  {
    if j > 0 {
      FirstSegmentAdds(s, j - 1);
      assert s.words[..j] == s.words[..j - 1] + [s.words[j - 1]];
    }
  }

  lemma {:induction false} EntriesAreSorted(words: seq<Word>, attempt: Option<string>)
    requires Parsed(words)
    ensures Sort([] + NewEntries(words, attempt), NoLater) == NewEntries(words, attempt)
    ensures Sort(NewEntries(words, attempt) + NewEntries([], attempt), NoLater) == NewEntries(words, attempt)
  {
    var entries := NewEntries(words, attempt);
    assert [] + entries == entries && entries + NewEntries([], attempt) == entries;
    forall i, j | 0 <= i < j < |entries| ensures NoLater(entries[i], entries[j]) {
      assert words[i].start <= words[j].start;
    }
    SortedIsUnchanged(entries, NoLater);
  }

  lemma {:induction false} FirstFold(s: Segment)
    requires Parsed(s.words) && s.words != []
    ensures Fold(EMPTY, s)
            == State(NewEntries(s.words, s.attempt), if s.attempt.Some? then {s.attempt.value} else {}, [])
  {
    hide Reconciled;
    hide StableSort.Sort;
    hide Parsed;
    FirstSegmentAdds(s, |s.words|);
    assert s.words[..|s.words|] == s.words;
    EntriesAreSorted(s.words, s.attempt);
  }

  lemma {:induction false} NothingFitsBetter(w: Word)
    requires w.start < w.end
    ensures SameReading(w, w) && Misfit(w, w) == 0.0
    ensures forall x :: Misfit(x, w) >= 0.0
  {
  }

  /** Against itself each word matches its own entry: distance zero, first in line. */
  lemma {:induction false} MatchesItself(s: Segment, j: nat)
    requires Parsed(s.words) && j <= |s.words|
    ensures LastMatch(NewEntries(s.words, s.attempt), s.words, j) == j - 1
    ensures j < |s.words| ==> MatchOf(NewEntries(s.words, s.attempt), s.words, j) == Some(j)
  {
    hide Misfit;
    hide SameReading;
    hide Closest;
    var entries := NewEntries(s.words, s.attempt);
    if j > 0 {
      MatchesItself(s, j - 1);
    }
    if j < |s.words| {
      var w := s.words[j];
      assert entries[j].word == w;
      NothingFitsBetter(w);
      var r := Closest(entries, w, j - 1, |entries|);
      assert r.Some?;
    }
  }

  lemma {:induction false} ConfirmedByItself(e: Entry, s: Segment)
    requires s.attempt.Some? ==> s.attempt.value in e.owners
    ensures Confirmed(e, e.word, s, false) == e
  {
    if s.attempt.Some? {
      assert e.owners + {s.attempt.value} == e.owners;
    }
  }

  lemma {:induction false} SecondFoldChangesNothing(s: Segment, j: nat)
    requires Parsed(s.words) && j <= |s.words|
    ensures Reconciled(NewEntries(s.words, s.attempt), [], s, false, j) == Work(NewEntries(s.words, s.attempt), [], [])
  {
    hide MatchOf;
    hide Confirmed;
    hide Overlapping;
    hide Parsed;
    hide Reconcile;
    if j > 0 {
      SecondFoldChangesNothing(s, j - 1);
      MatchesItself(s, j - 1);
      ReconcileWithItself(NewEntries(s.words, s.attempt), j - 1, s);
    }
  }

  lemma {:induction false} ReconcileWithItself(entries: seq<Entry>, i: nat, s: Segment)
    requires i < |entries| && (s.attempt.Some? ==> s.attempt.value in entries[i].owners)
    ensures Reconcile(Work(entries, [], []), entries[i].word, Some(i), s, false) == Work(entries, [], [])
  {
    hide Confirmed;
    ConfirmedByItself(entries[i], s);
    assert entries[i := entries[i]] == entries;
  }

  lemma {:induction false} SecondFold(s: Segment)
    requires Parsed(s.words) && s.words != []
    ensures Fold(Fold(EMPTY, s), s) == Fold(EMPTY, s)
  {
    hide Reconciled;
    hide StableSort.Sort;
    hide Parsed;
    FirstFold(s);
    SecondFoldChangesNothing(s, |s.words|);
    EntriesAreSorted(s.words, s.attempt);
  }

  /** A first decode heard twice gives the words of hearing it once, and no conflict - exactly unless
      it holds between half the word limit and the limit, where the second copy is oversized. */
  lemma {:induction false} FirstSegmentTwice(s: Segment)
    requires Parsed(s.words)
    ensures Composed(EMPTY, [s, s]) == Composed(EMPTY, [s]) <==> !(MAX_WORDS / 2 < |s.words| <= MAX_WORDS)
    ensures Composed(EMPTY, [s, s]).1 == []
  {
    hide Fold;
    assert [s, s][1..] == [s] && [s][1..] == [];
    if s.words == [] {
      EmptyFold(EMPTY, s);
    } else if |s.words| <= MAX_WORDS {
      FirstFold(s);
      SecondFold(s);
      var st := Fold(EMPTY, s);
      assert Composed(EMPTY, [s, s]) == Composed(st, [s]);
      assert Composed(EMPTY, [s]) == Composed(st, []);
      assert |WordsOf(st.canonical)| == |s.words|;
      if 2 * |s.words| > MAX_WORDS {
        assert |Composed(st, [s]).0| == 2 * |s.words|;
      } else {
        assert Composed(st, [s]) == Composed(Fold(st, s), []);
      }
    }
  }
}
