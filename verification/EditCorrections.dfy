/** Proposed word edits turned into corrections of a transcript's tokens. */
module EditCorrections {
  import opened Options
  import opened StableSort
  import opened LineCutting

  const MAX_EDIT_WORDS := 3

  /** The line number as answered by the model, when it is a number at all, and the two texts cut in words. */
  datatype Edit = Edit(line: Option<int>, source: seq<string>, replacement: seq<string>)

  datatype Correction = Correction(start: nat, length: nat, original: seq<string>, replacement: seq<string>)

  function Keys(words: seq<string>, normal: string -> string): (ks: seq<string>)
    ensures forall k :: 0 <= k < |ks| ==> ks[k] != ""
  {
    if words == [] then [] else
    (if normal(words[0]) == "" then [] else [normal(words[0])]) + Keys(words[1..], normal)
  }

  predicate Unsafe(words: seq<string>) {
    exists w :: w in words && ('[' in w || ']' in w || '<' in w || '>' in w)
  }

  /** What an edit must be before its line is looked at. */
  predicate Usable(e: Edit, sent: nat, normal: string -> string) {
    && e.line.Some? && 1 <= e.line.value <= sent
    && e.source != [] && e.replacement != [] && !Unsafe(e.replacement)
    && 1 <= |Keys(e.source, normal)| <= MAX_EDIT_WORDS && |e.replacement| <= MAX_EDIT_WORDS
    && Keys(e.source, normal) != Keys(e.replacement, normal)
  }

  /** The tokens from `s` on spell `keys`, all of them on `line`. */
  predicate Run(tokens: seq<Token>, line: nat, keys: seq<string>, s: nat) {
    && s + |keys| <= |tokens|
    && forall k :: 0 <= k < |keys| ==> tokens[s + k].line == line && tokens[s + k].key == keys[k]
  }

  predicate Apart(c: Correction, s: nat, n: nat) {
    c.start + c.length <= s || s + n <= c.start
  }

  /** No correction chosen so far touches the tokens `s .. s + n`. */
  predicate Clear(chosen: seq<Correction>, s: nat, n: nat) {
    forall k :: 0 <= k < |chosen| ==> Apart(chosen[k], s, n)
  }

  predicate Fits(tokens: seq<Token>, chosen: seq<Correction>, line: nat, keys: seq<string>, s: nat) {
    Run(tokens, line, keys, s) && Clear(chosen, s, |keys|)
  }

  /** The first place at or after `s` where the words still stand uncorrected. */
  function FirstFit(tokens: seq<Token>, chosen: seq<Correction>, line: nat, keys: seq<string>, s: nat): (r: Option<nat>)
    ensures r.Some? ==> s <= r.value && Fits(tokens, chosen, line, keys, r.value)
    ensures forall q :: s <= q < (if r.Some? then r.value else |tokens| + 1) ==> !Fits(tokens, chosen, line, keys, q)
    decreases |tokens| + 1 - s
  {
    if s > |tokens| then None
    else if Fits(tokens, chosen, line, keys, s) then Some(s)
    else FirstFit(tokens, chosen, line, keys, s + 1)
  }

  function MakeCorrection(tokens: seq<Token>, s: nat, n: nat, replacement: seq<string>): (c: Correction)
    requires s + n <= |tokens|
    ensures c.length == n
  {
    Correction(s, n, seq(n, k requires 0 <= k < n => tokens[s + k].surface), replacement)
  }

  /** The place the edit takes, if any. */
  function Target(tokens: seq<Token>, sent: seq<nat>, chosen: seq<Correction>, e: Edit,
                  normal: string -> string): (r: Option<nat>)
    ensures r.Some? ==> r.value + |Keys(e.source, normal)| <= |tokens|
  {
    if !Usable(e, |sent|, normal) then None
    else FirstFit(tokens, chosen, sent[e.line.value - 1], Keys(e.source, normal), 0)
  }

  function Made(tokens: seq<Token>, e: Edit, target: Option<nat>, normal: string -> string): Option<Correction>
    requires target.Some? ==> target.value + |Keys(e.source, normal)| <= |tokens|
  {
    if target.None? then None
    else Some(MakeCorrection(tokens, target.value, |Keys(e.source, normal)|, e.replacement))
  }

  /** The corrections after the first `n` edits, in the order of the edits. */
  function Plan(tokens: seq<Token>, sent: seq<nat>, edits: seq<Edit>, n: nat,
                normal: string -> string): (cs: seq<Correction>)
    requires n <= |edits|
  {
    if n == 0 then [] else
    var cs := Plan(tokens, sent, edits, n - 1, normal);
    var made := Made(tokens, edits[n - 1], Target(tokens, sent, cs, edits[n - 1], normal), normal);
    if made.None? then cs else cs + [made.value]
  }

  /** The edits that were applied, in order. */
  function Applied(tokens: seq<Token>, sent: seq<nat>, edits: seq<Edit>, n: nat,
                   normal: string -> string): (es: seq<Edit>)
    requires n <= |edits|
    ensures |es| == |Plan(tokens, sent, edits, n, normal)|
  {
    if n == 0 then [] else
    var es := Applied(tokens, sent, edits, n - 1, normal);
    var cs := Plan(tokens, sent, edits, n - 1, normal);
    if Target(tokens, sent, cs, edits[n - 1], normal).None? then es else es + [edits[n - 1]]
  }

  /** A correction that does what a usable edit asked for, on one line and on exactly the words it named. */
  predicate Answers(tokens: seq<Token>, sent: seq<nat>, c: Correction, e: Edit, normal: string -> string) {
    && Usable(e, |sent|, normal)
    && c.length == |Keys(e.source, normal)| && c.replacement == e.replacement
    && Run(tokens, sent[e.line.value - 1], Keys(e.source, normal), c.start)
    && |c.original| == c.length && (forall k :: 0 <= k < c.length ==> c.original[k] == tokens[c.start + k].surface)
  }

  predicate Disjoint(cs: seq<Correction>) {
    forall j, k :: 0 <= j < k < |cs| ==> Apart(cs[j], cs[k].start, cs[k].length)
  }

  lemma {:induction false} MadeAnswers(tokens: seq<Token>, sent: seq<nat>, chosen: seq<Correction>, e: Edit,
                                       normal: string -> string)
    requires Target(tokens, sent, chosen, e, normal).Some?
    ensures var c := Made(tokens, e, Target(tokens, sent, chosen, e, normal), normal).value;
      Answers(tokens, sent, c, e, normal) && Clear(chosen, c.start, c.length)
  {
  }

  /** Every correction answers the edit it stands for, and no two corrections share a token. */
  lemma {:induction false} PlanIsSound(tokens: seq<Token>, sent: seq<nat>, edits: seq<Edit>, n: nat,
                                       normal: string -> string)
    requires n <= |edits|
    ensures Disjoint(Plan(tokens, sent, edits, n, normal))
    ensures forall k :: 0 <= k < |Plan(tokens, sent, edits, n, normal)| ==>
      Answers(tokens, sent, Plan(tokens, sent, edits, n, normal)[k], Applied(tokens, sent, edits, n, normal)[k], normal)
  {
    if n > 0 {
      PlanIsSound(tokens, sent, edits, n - 1, normal);
      PlanStep(tokens, sent, edits, n - 1, normal);
      var cs := Plan(tokens, sent, edits, n - 1, normal);
      hide Plan, Applied, Target, Answers, MakeCorrection, Keys, Apart;
      if Target(tokens, sent, cs, edits[n - 1], normal).Some? {
        MadeAnswers(tokens, sent, cs, edits[n - 1], normal);
      }
    }
  }

  lemma {:induction false} PlanGrows(tokens: seq<Token>, sent: seq<nat>, edits: seq<Edit>, m: nat, n: nat,
                                     normal: string -> string)
    requires m <= n <= |edits|
    ensures Plan(tokens, sent, edits, m, normal) <= Plan(tokens, sent, edits, n, normal)
    decreases n - m
  {
    hide Target, MakeCorrection;
    if m < n {
      PlanGrows(tokens, sent, edits, m, n - 1, normal);
    }
  }

  /** Nothing applicable is left: a usable edit is passed over only when every occurrence of its words on its line
    * touches a correction that was made. */
  lemma {:induction false} PlanIsMaximal(tokens: seq<Token>, sent: seq<nat>, edits: seq<Edit>, i: nat, s: nat,
                                         normal: string -> string)
    requires i < |edits| && Usable(edits[i], |sent|, normal)
    requires Target(tokens, sent, Plan(tokens, sent, edits, i, normal), edits[i], normal).None?
    requires Run(tokens, sent[edits[i].line.value - 1], Keys(edits[i].source, normal), s)
    ensures !Clear(Plan(tokens, sent, edits, |edits|, normal), s, |Keys(edits[i].source, normal)|)
  {
    var before := Plan(tokens, sent, edits, i, normal);
    var after := Plan(tokens, sent, edits, |edits|, normal);
    PlanGrows(tokens, sent, edits, i, |edits|, normal);
    assert !Fits(tokens, before, sent[edits[i].line.value - 1], Keys(edits[i].source, normal), s);
    var k :| 0 <= k < |before| && !Apart(before[k], s, |Keys(edits[i].source, normal)|);
    assert after[k] == before[k];
  }

  // ---- what becomes of each edit ----

  /** The corrections that were made, in the order of their edits. */
  function Chosen(answers: seq<Option<Correction>>): (cs: seq<Correction>) {
    if answers == [] then []
    else Chosen(answers[..|answers| - 1]) + if answers[|answers| - 1].Some? then [answers[|answers| - 1].value] else []
  }

  /** The edits that were answered by a correction, in order. */
  function Answered(edits: seq<Edit>, answers: seq<Option<Correction>>): (es: seq<Edit>)
    requires |answers| <= |edits|
  {
    if answers == [] then []
    else
      var n := |answers| - 1;
      Answered(edits, answers[..n]) + if answers[n].Some? then [edits[n]] else []
  }

  /** The edit's words stand at `s` on its line. */
  predicate WordsStandAt(tokens: seq<Token>, sent: seq<nat>, e: Edit, normal: string -> string, s: nat)
    requires Usable(e, |sent|, normal)
  {
    Run(tokens, sent[e.line.value - 1], Keys(e.source, normal), s)
  }

  /** An edit is answered at the first place where its words stand and no earlier answer touches them, and left
    * unanswered only when there is no such place. */
  ghost predicate RightAnswer(tokens: seq<Token>, sent: seq<nat>, e: Edit, before: seq<Correction>,
                              answer: Option<Correction>, normal: string -> string) {
    match answer
    case None =>
      Usable(e, |sent|, normal) ==>
        forall s: nat :: WordsStandAt(tokens, sent, e, normal, s) ==> !Clear(before, s, |Keys(e.source, normal)|)
    case Some(c) =>
      && Answers(tokens, sent, c, e, normal) && Clear(before, c.start, c.length)
      && forall s: nat :: s < c.start && WordsStandAt(tokens, sent, e, normal, s) ==> !Clear(before, s, c.length)
  }

  ghost predicate RightAnswers(tokens: seq<Token>, sent: seq<nat>, edits: seq<Edit>, answers: seq<Option<Correction>>,
                               normal: string -> string) {
    && |answers| == |edits|
    && forall i :: 0 <= i < |edits| ==> RightAnswer(tokens, sent, edits[i], Chosen(answers[..i]), answers[i], normal)
  }

  /** There is one right answer to each edit. */
  lemma {:induction false} AnswersAreDetermined(tokens: seq<Token>, sent: seq<nat>, edits: seq<Edit>,
                                                x: seq<Option<Correction>>, y: seq<Option<Correction>>, n: nat,
                                                normal: string -> string)
    requires RightAnswers(tokens, sent, edits, x, normal) && RightAnswers(tokens, sent, edits, y, normal)
    requires n <= |edits|
    ensures x[..n] == y[..n]
  {
    hide RightAnswer, Chosen;
    if n > 0 {
      AnswersAreDetermined(tokens, sent, edits, x, y, n - 1, normal);
      OneRightAnswer(tokens, sent, edits[n - 1], Chosen(x[..n - 1]), x[n - 1], y[n - 1], normal);
      assert x[..n] == x[..n - 1] + [x[n - 1]] && y[..n] == y[..n - 1] + [y[n - 1]];
    }
  }

  lemma {:induction false} OneRightAnswer(tokens: seq<Token>, sent: seq<nat>, e: Edit, before: seq<Correction>,
                                          x: Option<Correction>, y: Option<Correction>, normal: string -> string)
    requires RightAnswer(tokens, sent, e, before, x, normal) && RightAnswer(tokens, sent, e, before, y, normal)
    ensures x == y
  {
    hide Run, Clear, Unsafe, Keys;
    if x.Some? {
      assert WordsStandAt(tokens, sent, e, normal, x.value.start);
    }
    if y.Some? {
      assert WordsStandAt(tokens, sent, e, normal, y.value.start);
    }
    if x.Some? && y.Some? {
      assert x.value.start == y.value.start;
      assert x.value.original == y.value.original;
    }
  }

  /** The plan gives the right answers. */
  ghost function PlanAnswers(tokens: seq<Token>, sent: seq<nat>, edits: seq<Edit>, n: nat, normal: string -> string)
      : (answers: seq<Option<Correction>>)
    requires n <= |edits|
    ensures |answers| == n
  {
    if n == 0 then []
    else
      var e := edits[n - 1];
      PlanAnswers(tokens, sent, edits, n - 1, normal)
      + [Made(tokens, e, Target(tokens, sent, Plan(tokens, sent, edits, n - 1, normal), e, normal), normal)]
  }

  lemma {:induction false} PlanIsChosen(tokens: seq<Token>, sent: seq<nat>, edits: seq<Edit>, n: nat,
                                        normal: string -> string)
    requires n <= |edits|
    ensures var answers := PlanAnswers(tokens, sent, edits, n, normal);
      && Chosen(answers) == Plan(tokens, sent, edits, n, normal)
      && Answered(edits, answers) == Applied(tokens, sent, edits, n, normal)
  {
    hide Target, Plan, Applied, MakeCorrection, Keys;
    if n == 0 {
      PlanStart(tokens, sent, edits, normal);
    } else {
      PlanIsChosen(tokens, sent, edits, n - 1, normal);
      PlanStep(tokens, sent, edits, n - 1, normal);
      var answers := PlanAnswers(tokens, sent, edits, n, normal);
      assert answers[..n - 1] == PlanAnswers(tokens, sent, edits, n - 1, normal);
    }
  }

  lemma {:induction false} MadeIsRight(tokens: seq<Token>, sent: seq<nat>, e: Edit, before: seq<Correction>,
                                       normal: string -> string)
    ensures RightAnswer(tokens, sent, e, before, Made(tokens, e, Target(tokens, sent, before, e, normal), normal),
                        normal)
  {
    hide Clear, Keys, Unsafe;
    var target := Target(tokens, sent, before, e, normal);
    if target.Some? {
      MadeAnswers(tokens, sent, before, e, normal);
    }
    if Usable(e, |sent|, normal) {
      var keys := Keys(e.source, normal);
      forall s: nat | WordsStandAt(tokens, sent, e, normal, s) && (target.None? || s < target.value)
        ensures !Clear(before, s, |keys|)
      {
        assert !Fits(tokens, before, sent[e.line.value - 1], keys, s);
      }
    }
  }

  lemma {:induction false} PlanIsRight(tokens: seq<Token>, sent: seq<nat>, edits: seq<Edit>, normal: string -> string)
    ensures RightAnswers(tokens, sent, edits, PlanAnswers(tokens, sent, edits, |edits|, normal), normal)
  {
    hide Plan, Target, Made, RightAnswer;
    var answers := PlanAnswers(tokens, sent, edits, |edits|, normal);
    forall i | 0 <= i < |edits| ensures RightAnswer(tokens, sent, edits[i], Chosen(answers[..i]), answers[i], normal) {
      AnswersPrefix(tokens, sent, edits, i, |edits|, normal);
      AnswersPrefix(tokens, sent, edits, i + 1, |edits|, normal);
      PlanIsChosen(tokens, sent, edits, i, normal);
      assert answers[i] == answers[..i + 1][i];
      MadeIsRight(tokens, sent, edits[i], Plan(tokens, sent, edits, i, normal), normal);
    }
  }

  lemma {:induction false} AnswersPrefix(tokens: seq<Token>, sent: seq<nat>, edits: seq<Edit>, m: nat, n: nat,
                                         normal: string -> string)
    requires m <= n <= |edits|
    ensures PlanAnswers(tokens, sent, edits, n, normal)[..m] == PlanAnswers(tokens, sent, edits, m, normal)
    decreases n - m
  {
    hide Plan, Target, Made;
    if m < n {
      AnswersPrefix(tokens, sent, edits, m, n - 1, normal);
    }
  }

  lemma {:induction false} ChosenMember(answers: seq<Option<Correction>>, i: nat)
    requires i < |answers| && answers[i].Some?
    ensures answers[i].value in Chosen(answers)
  {
    if i < |answers| - 1 {
      ChosenMember(answers[..|answers| - 1], i);
    }
  }

  lemma {:induction false} ChosenPrefix(answers: seq<Option<Correction>>, n: nat)
    requires n <= |answers|
    ensures Chosen(answers[..n]) <= Chosen(answers)
    decreases |answers| - n
  {
    if n == |answers| {
      assert answers[..n] == answers;
    } else {
      ChosenPrefix(answers, n + 1);
      assert answers[..n + 1][..n] == answers[..n];
    }
  }

  /** Nothing usable is left undone: an edit is answered by one of the corrections, or each place where its words stand
    * on its line touches one. */
  ghost predicate Served(tokens: seq<Token>, sent: seq<nat>, e: Edit, cs: seq<Correction>, normal: string -> string)
    requires Usable(e, |sent|, normal)
  {
    || (exists c :: c in cs && Answers(tokens, sent, c, e, normal))
    || forall s: nat :: WordsStandAt(tokens, sent, e, normal, s) ==> !Clear(cs, s, |Keys(e.source, normal)|)
  }

  lemma {:induction false} EditsAreServed(tokens: seq<Token>, sent: seq<nat>, edits: seq<Edit>,
                                          answers: seq<Option<Correction>>, cs: seq<Correction>, i: nat,
                                          normal: string -> string)
    requires RightAnswers(tokens, sent, edits, answers, normal) && multiset(cs) == multiset(Chosen(answers))
    requires i < |edits| && Usable(edits[i], |sent|, normal)
    ensures Served(tokens, sent, edits[i], cs, normal)
  {
    hide Answers, Usable, WordsStandAt, Apart;
    var chosen, e := Chosen(answers), edits[i];
    assert RightAnswer(tokens, sent, e, Chosen(answers[..i]), answers[i], normal);
    if answers[i].Some? {
      ChosenMember(answers, i);
      assert answers[i].value in multiset(chosen);
      assert answers[i].value in cs;
    } else {
      ChosenPrefix(answers, i);
      forall s: nat | WordsStandAt(tokens, sent, e, normal, s) ensures !Clear(cs, s, |Keys(e.source, normal)|) {
        var n := |Keys(e.source, normal)|;
        var k :| 0 <= k < |Chosen(answers[..i])| && !Apart(Chosen(answers[..i])[k], s, n);
        var c := chosen[k];
        assert c in multiset(chosen);
        assert c in cs;
      }
    }
  }

  /** No correction is made exactly when no usable edit has its words on its line. */
  lemma {:induction false} NoneAnswered(tokens: seq<Token>, sent: seq<nat>, edits: seq<Edit>,
                                        answers: seq<Option<Correction>>, normal: string -> string)
    requires RightAnswers(tokens, sent, edits, answers, normal)
    ensures Chosen(answers) == [] <==>
      forall i, s: nat :: 0 <= i < |edits| && Usable(edits[i], |sent|, normal) ==>
        !WordsStandAt(tokens, sent, edits[i], normal, s)
  {
    hide Usable, WordsStandAt, Apart;
    if Chosen(answers) == [] {
      forall i, s: nat | 0 <= i < |edits| && Usable(edits[i], |sent|, normal)
        ensures !WordsStandAt(tokens, sent, edits[i], normal, s)
      {
        assert RightAnswer(tokens, sent, edits[i], Chosen(answers[..i]), answers[i], normal);
        if answers[i].Some? {
          ChosenMember(answers, i);
        }
        ChosenPrefix(answers, i);
        assert Clear([], s, |Keys(edits[i].source, normal)|);
      }
    } else if forall i :: 0 <= i < |answers| ==> answers[i].None? {
      NoneChosen(answers);
    } else {
      var i :| 0 <= i < |answers| && answers[i].Some?;
      assert RightAnswer(tokens, sent, edits[i], Chosen(answers[..i]), answers[i], normal);
      AnswerStands(tokens, sent, answers[i].value, edits[i], normal);
    }
  }

  lemma {:induction false} NoneChosen(answers: seq<Option<Correction>>)
    requires forall i :: 0 <= i < |answers| ==> answers[i].None?
    ensures Chosen(answers) == []
  {
    if answers != [] {
      NoneChosen(answers[..|answers| - 1]);
    }
  }

  lemma {:induction false} AnswerStands(tokens: seq<Token>, sent: seq<nat>, c: Correction, e: Edit,
                                        normal: string -> string)
    requires Answers(tokens, sent, c, e, normal)
    ensures Usable(e, |sent|, normal) && WordsStandAt(tokens, sent, e, normal, c.start)
  {
  }

  function TotalLength(cs: seq<Correction>): nat {
    if cs == [] then 0 else cs[0].length + TotalLength(cs[1..])
  }

  predicate StartsFirst(a: Correction, b: Correction) {
    a.start <= b.start
  }

  /** The numbers of the tokens on a line, among the first `n`. */
  function LineIds(tokens: seq<Token>, n: nat, line: nat): (ids: seq<nat>)
    requires n <= |tokens|
    ensures forall k :: 0 <= k < |ids| ==> ids[k] < n && tokens[ids[k]].line == line
    ensures forall j, k :: 0 <= j < k < |ids| ==> ids[j] < ids[k]
    ensures forall i :: 0 <= i < n && tokens[i].line == line ==> i in ids
  {
    if n == 0 then [] else
    var ids := LineIds(tokens, n - 1, line);
    if tokens[n - 1].line == line then ids + [n - 1] else ids
  }

  lemma {:induction false} LineIdsStep(tokens: seq<Token>, i: nat, line: nat)
    requires i < |tokens|
    ensures LineIds(tokens, i + 1, line) == LineIds(tokens, i, line) + (if line == tokens[i].line then [i] else [])
  {
  }

  ghost predicate IsTable(tokens: seq<Token>, n: nat, byLine: map<nat, seq<nat>>)
    requires n <= |tokens|
  {
    forall line: nat :: LineIds(tokens, n, line) == if line in byLine then byLine[line] else []
  }

  function AppendTo(byLine: map<nat, seq<nat>>, line: nat, i: nat): map<nat, seq<nat>> {
    byLine[line := (if line in byLine then byLine[line] else []) + [i]]
  }

  lemma {:induction false} TableGrows(tokens: seq<Token>, i: nat, byLine: map<nat, seq<nat>>)
    requires i < |tokens| && IsTable(tokens, i, byLine)
    ensures IsTable(tokens, i + 1, AppendTo(byLine, tokens[i].line, i))
  {
    forall line: nat ensures LineIds(tokens, i + 1, line)
        == LineIds(tokens, i, line) + (if line == tokens[i].line then [i] else []) {
      LineIdsStep(tokens, i, line);
    }
    hide LineIds;
  }

  /** `setdefault(token.line, []).append(index)` over the tokens. */
  method GroupByLine(tokens: seq<Token>) returns (byLine: map<nat, seq<nat>>)
    ensures IsTable(tokens, |tokens|, byLine)
  {
    byLine := map[];
    assert IsTable(tokens, 0, byLine);
    hide *;
    for i := 0 to |tokens|
      invariant IsTable(tokens, i, byLine)
    {
      TableGrows(tokens, i, byLine);
      byLine := AppendTo(byLine, tokens[i].line, i);
    }
  }

  predicate Ascending(ids: seq<nat>) {
    forall j, k :: 0 <= j < k < |ids| ==> ids[j] < ids[k]
  }

  predicate Listed(tokens: seq<Token>, ids: seq<nat>, line: nat) {
    Ascending(ids) && forall k :: 0 <= k < |ids| ==> ids[k] < |tokens| && tokens[ids[k]].line == line
  }

  predicate Ordered(tokens: seq<Token>) {
    forall i, j :: 0 <= i < j < |tokens| ==> tokens[i].line <= tokens[j].line
  }

  /** The indices of all tokens of the line, which is what the table holds for it. */
  predicate IdsOf(tokens: seq<Token>, line: nat, ids: seq<nat>) {
    && Listed(tokens, ids, line)
    && forall i :: 0 <= i < |tokens| && tokens[i].line == line ==> i in ids
  }

  /** In a text read line by line the tokens of a line are numbered without a gap. */
  lemma {:induction false} IdsAreConsecutive(tokens: seq<Token>, line: nat, ids: seq<nat>, k: nat)
    requires Ordered(tokens) && IdsOf(tokens, line, ids) && k < |ids|
    ensures ids[k] == ids[0] + k
  {
    if k > 0 {
      IdsAreConsecutive(tokens, line, ids, k - 1);
      var next := ids[k - 1] + 1;
      assert ids[k - 1] < ids[k];
      assert tokens[ids[k - 1]].line <= tokens[next].line <= tokens[ids[k]].line;
      var j :| 0 <= j < |ids| && ids[j] == next;
      assert k <= j;
    }
  }

  /** The first position where `keys` occur among the line's tokens and no token is taken. */
  method FindRun(tokens: seq<Token>, ids: seq<nat>, keys: seq<string>, taken: set<nat>) returns (pos: Option<nat>)
    requires forall k :: 0 <= k < |ids| ==> ids[k] < |tokens|
    ensures pos.Some? ==> Occurs(tokens, ids, keys, taken, pos.value)
    ensures forall q :: 0 <= q < (if pos.Some? then pos.value else |ids| + 1) ==> !Occurs(tokens, ids, keys, taken, q)
  {
    var p := 0;
    while p + |keys| <= |ids|
      invariant p <= |ids| + 1
      invariant forall q :: 0 <= q < p ==> !Occurs(tokens, ids, keys, taken, q)
    {
      if Occurs(tokens, ids, keys, taken, p) {
        return Some(p);
      }
      p := p + 1;
    }
    return None;
  }

  predicate Occurs(tokens: seq<Token>, ids: seq<nat>, keys: seq<string>, taken: set<nat>, pos: nat)
    requires forall k :: 0 <= k < |ids| ==> ids[k] < |tokens|
  {
    && pos + |keys| <= |ids|
    && forall k :: 0 <= k < |keys| ==> tokens[ids[pos + k]].key == keys[k] && ids[pos + k] !in taken
  }

  /** `taken` holds exactly the tokens of the corrections chosen, none of which is empty. */
  ghost predicate Covers(chosen: seq<Correction>, taken: set<nat>) {
    && (forall k :: 0 <= k < |chosen| ==> chosen[k].length > 0)
    && forall i: nat :: i in taken
         <==> exists k :: 0 <= k < |chosen| && chosen[k].start <= i < chosen[k].start + chosen[k].length
  }

  /** Searching the line's own list of indices is searching the whole text for a run on that line. */
  lemma {:induction false} OccursFits(tokens: seq<Token>, line: nat, ids: seq<nat>, keys: seq<string>,
                                      chosen: seq<Correction>, taken: set<nat>, p: nat)
    requires Ordered(tokens) && IdsOf(tokens, line, ids) && Covers(chosen, taken) && keys != [] && p < |ids|
    requires Occurs(tokens, ids, keys, taken, p)
    ensures Fits(tokens, chosen, line, keys, ids[p])
  {
    var s := ids[p];
    var span := ids[p..p + |keys|];
    RunIsConsecutive(tokens, line, ids, p, span);
    hide Ordered;
    forall i | s <= i < s + |keys| ensures tokens[i].line == line && tokens[i].key == keys[i - s] && i !in taken {
      assert span[i - s] == ids[p + (i - s)] == i;
      assert tokens[ids[p + (i - s)]].key == keys[i - s];
    }
    forall k | 0 <= k < |chosen| ensures Apart(chosen[k], s, |keys|) {
      var i := if chosen[k].start <= s then s else chosen[k].start;
      if i < chosen[k].start + chosen[k].length {
        assert i in taken;
        assert i >= s + |keys|;
      }
    }
  }

  lemma {:induction false} FitsOccurs(tokens: seq<Token>, line: nat, ids: seq<nat>, keys: seq<string>,
                                      chosen: seq<Correction>, taken: set<nat>, p: nat)
    requires Ordered(tokens) && IdsOf(tokens, line, ids) && Covers(chosen, taken) && keys != [] && p < |ids|
    requires Fits(tokens, chosen, line, keys, ids[p])
    ensures Occurs(tokens, ids, keys, taken, p)
  {
    hide Ordered, Covers, Clear, Run;
    RunEndsInLine(tokens, line, ids, keys, p);
    var s := ids[p];
    forall q | p <= q < p + |keys| ensures tokens[ids[q]].key == keys[q - p] && ids[q] !in taken {
      IdsFollow(tokens, line, ids, p, q - p);
      RunKey(tokens, line, keys, s, q - p);
      ClearIsFree(chosen, taken, s, |keys|, s + (q - p));
    }
    hide IdsOf;
    forall k | 0 <= k < |keys| ensures tokens[ids[p + k]].key == keys[k] && ids[p + k] !in taken {
      assert tokens[ids[p + k]].key == keys[p + k - p];
    }
  }

  lemma {:induction false} RunKey(tokens: seq<Token>, line: nat, keys: seq<string>, s: nat, k: nat)
    requires Run(tokens, line, keys, s) && k < |keys|
    ensures s + k < |tokens| && tokens[s + k].key == keys[k]
  {
  }

  lemma {:induction false} RunEndsInLine(tokens: seq<Token>, line: nat, ids: seq<nat>, keys: seq<string>, p: nat)
    requires Ordered(tokens) && IdsOf(tokens, line, ids) && keys != [] && p < |ids| && Run(tokens, line, keys, ids[p])
    ensures p + |keys| <= |ids|
  {
    var last := ids[p] + (|keys| - 1);
    assert tokens[last].key == keys[|keys| - 1] && tokens[last].line == line;
    var j :| 0 <= j < |ids| && ids[j] == last;
    IdsAreConsecutive(tokens, line, ids, p);
    IdsAreConsecutive(tokens, line, ids, j);
  }

  lemma {:induction false} ClearIsFree(chosen: seq<Correction>, taken: set<nat>, s: nat, n: nat, i: nat)
    requires Covers(chosen, taken) && Clear(chosen, s, n) && s <= i < s + n
    ensures i !in taken
  {
  }

  /** The search of one line's indices finds what `FirstFit` describes. */
  lemma {:induction false} SearchIsFirstFit(tokens: seq<Token>, line: nat, ids: seq<nat>, keys: seq<string>,
                                            chosen: seq<Correction>, taken: set<nat>, pos: Option<nat>)
    requires Ordered(tokens) && IdsOf(tokens, line, ids) && Covers(chosen, taken) && keys != []
    requires pos.Some? ==> Occurs(tokens, ids, keys, taken, pos.value)
    requires forall q :: 0 <= q < (if pos.Some? then pos.value else |ids| + 1) ==> !Occurs(tokens, ids, keys, taken, q)
    ensures FirstFit(tokens, chosen, line, keys, 0) == if pos.Some? then Some(ids[pos.value]) else None
  {
    var fit := FirstFit(tokens, chosen, line, keys, 0);
    if pos.Some? {
      OccursFits(tokens, line, ids, keys, chosen, taken, pos.value);
    }
    if fit.Some? {
      assert tokens[fit.value + 0].key == keys[0];
      var j :| 0 <= j < |ids| && ids[j] == fit.value;
      FitsOccurs(tokens, line, ids, keys, chosen, taken, j);
      if pos.Some? {
        IdsAreConsecutive(tokens, line, ids, j);
        IdsAreConsecutive(tokens, line, ids, pos.value);
      }
    }
  }

  /** One edit against the line's tokens: the correction it makes, and the tokens taken afterwards. */
  method Place(tokens: seq<Token>, line: nat, ids: seq<nat>, keys: seq<string>, replacement: seq<string>,
               ghost chosen: seq<Correction>, taken: set<nat>)
      returns (made: Option<Correction>, after: set<nat>)
    requires Ordered(tokens) && IdsOf(tokens, line, ids) && Covers(chosen, taken) && keys != []
    ensures var fit := FirstFit(tokens, chosen, line, keys, 0);
      made == if fit.None? then None else Some(MakeCorrection(tokens, fit.value, |keys|, replacement))
    ensures Covers(if made.None? then chosen else chosen + [made.value], after)
  {
    var pos := FindRun(tokens, ids, keys, taken);
    SearchIsFirstFit(tokens, line, ids, keys, chosen, taken, pos);
    if pos.None? {
      return None, taken;
    }
    var span := ids[pos.value..pos.value + |keys|];
    RunIsConsecutive(tokens, line, ids, pos.value, span);
    var c := MakeCorrection(tokens, span[0], |keys|, replacement);
    CoversMore(chosen, taken, c, span);
    return Some(c), taken + set i | i in span;
  }

  lemma {:induction false} PlanStart(tokens: seq<Token>, sent: seq<nat>, edits: seq<Edit>, normal: string -> string)
    ensures Plan(tokens, sent, edits, 0, normal) == [] && Applied(tokens, sent, edits, 0, normal) == []
    ensures Covers([], {}) && TotalLength([]) == 0
  {
  }

  lemma {:induction false} PlanStep(tokens: seq<Token>, sent: seq<nat>, edits: seq<Edit>, n: nat,
                                    normal: string -> string)
    requires n < |edits|
    ensures var made := Made(tokens, edits[n],
                             Target(tokens, sent, Plan(tokens, sent, edits, n, normal), edits[n], normal), normal);
      if made.None? then
        && Plan(tokens, sent, edits, n + 1, normal) == Plan(tokens, sent, edits, n, normal)
        && Applied(tokens, sent, edits, n + 1, normal) == Applied(tokens, sent, edits, n, normal)
      else
        && Plan(tokens, sent, edits, n + 1, normal) == Plan(tokens, sent, edits, n, normal) + [made.value]
        && Applied(tokens, sent, edits, n + 1, normal) == Applied(tokens, sent, edits, n, normal) + [edits[n]]
  {
  }

  lemma {:induction false} LineIdsOf(tokens: seq<Token>, line: nat)
    ensures IdsOf(tokens, line, LineIds(tokens, |tokens|, line))
  {
  }

  lemma {:induction false} TableHolds(tokens: seq<Token>, byLine: map<nat, seq<nat>>, line: nat)
    requires IsTable(tokens, |tokens|, byLine)
    ensures IdsOf(tokens, line, if line in byLine then byLine[line] else [])
  {
    LineIdsOf(tokens, line);
  }

  /** The body of the loop over the edits: what the edit changes, if it is usable and its words are still free. */
  method TryEdit(tokens: seq<Token>, byLine: map<nat, seq<nat>>, sent: seq<nat>, e: Edit,
                 ghost chosen: seq<Correction>, taken: set<nat>, normal: string -> string)
      returns (made: Option<Correction>, after: set<nat>)
    requires Ordered(tokens) && IsTable(tokens, |tokens|, byLine) && Covers(chosen, taken)
    ensures made == Made(tokens, e, Target(tokens, sent, chosen, e, normal), normal)
    ensures Covers(if made.None? then chosen else chosen + [made.value], after)
  {
    hide Covers, Ordered, Keys, IsTable, IdsOf, FirstFit, MakeCorrection, Unsafe;
    if !Usable(e, |sent|, normal) {
      return None, taken;
    }
    var line := sent[e.line.value - 1];
    var ids := if line in byLine then byLine[line] else [];
    TableHolds(tokens, byLine, line);
    made, after := Place(tokens, line, ids, Keys(e.source, normal), e.replacement, chosen, taken);
  }

  lemma {:induction false} TotalLengthSnoc(cs: seq<Correction>, c: Correction)
    ensures TotalLength(cs + [c]) == TotalLength(cs) + c.length
  {
    if cs != [] {
      TotalLengthSnoc(cs[1..], c);
      assert (cs + [c])[1..] == cs[1..] + [c];
    }
  }

  lemma {:induction false} InsertAddsLength(c: Correction, cs: seq<Correction>)
    ensures TotalLength(Insert(c, cs, StartsFirst)) == c.length + TotalLength(cs)
  {
    if cs == [] || StartsFirst(c, cs[0]) {
      assert ([c] + cs)[1..] == cs;
    } else {
      InsertAddsLength(c, cs[1..]);
    }
  }

  lemma {:induction false} SortKeepsLength(cs: seq<Correction>)
    ensures TotalLength(Sort(cs, StartsFirst)) == TotalLength(cs)
  {
    if cs != [] {
      SortKeepsLength(cs[1..]);
      InsertAddsLength(cs[0], Sort(cs[1..], StartsFirst));
    }
  }

  /** The loop over the edits. */
  method PlanEdits(tokens: seq<Token>, sent: seq<nat>, edits: seq<Edit>, normal: string -> string)
      returns (corrections: seq<Correction>, applied: seq<Edit>, total: nat)
    requires Ordered(tokens)
    ensures corrections == Plan(tokens, sent, edits, |edits|, normal)
    ensures applied == Applied(tokens, sent, edits, |edits|, normal)
    ensures total == TotalLength(corrections)
  {
    hide *;
    var byLine := GroupByLine(tokens);
    var taken: set<nat> := {};
    corrections, applied, total := [], [], 0;
    PlanStart(tokens, sent, edits, normal);
    for n := 0 to |edits|
      invariant corrections == Plan(tokens, sent, edits, n, normal)
      invariant applied == Applied(tokens, sent, edits, n, normal)
      invariant Covers(corrections, taken) && total == TotalLength(corrections)
    {
      var made;
      made, taken := TryEdit(tokens, byLine, sent, edits[n], corrections, taken, normal);
      PlanStep(tokens, sent, edits, n, normal);
      if made.None? {
        continue;
      }
      TotalLengthSnoc(corrections, made.value);
      corrections, applied, total := corrections + [made.value], applied + [edits[n]], total + made.value.length;
    }
  }

  /** The corrections in text order, or none at all when they would touch more than half of the tokens. */
  method EditsToCorrections(tokens: seq<Token>, sent: seq<nat>, edits: seq<Edit>, normal: string -> string)
      returns (corrections: seq<Correction>, applied: seq<Edit>)
    requires Ordered(tokens)
    ensures var plan := Plan(tokens, sent, edits, |edits|, normal);
      if 2 * TotalLength(plan) > |tokens| then corrections == [] && applied == []
      else corrections == Sort(plan, StartsFirst) && applied == Applied(tokens, sent, edits, |edits|, normal)
    ensures Outcome(tokens, sent, edits, PlanAnswers(tokens, sent, edits, |edits|, normal), corrections, applied,
                    normal)
  {
    var total;
    corrections, applied, total := PlanEdits(tokens, sent, edits, normal);
    hide Ordered, Plan, Applied, Sort, Outcome;
    if tokens != [] && 2 * total > |tokens| {
      PlanIsOutcome(tokens, sent, edits, [], [], normal);
      return [], [];
    }
    if tokens == [] {
      NothingFitsNothing(sent, edits, |edits|, normal);
    }
    corrections := Sort(corrections, StartsFirst);
    PlanIsOutcome(tokens, sent, edits, corrections, applied, normal);
  }

  lemma {:induction false} IdsFollow(tokens: seq<Token>, line: nat, ids: seq<nat>, p: nat, k: nat)
    requires Ordered(tokens) && IdsOf(tokens, line, ids) && p + k < |ids|
    ensures ids[p + k] == ids[p] + k
  {
    IdsAreConsecutive(tokens, line, ids, p);
    IdsAreConsecutive(tokens, line, ids, p + k);
  }

  lemma {:induction false} RunIsConsecutive(tokens: seq<Token>, line: nat, ids: seq<nat>, p: nat, span: seq<nat>)
    requires Ordered(tokens) && IdsOf(tokens, line, ids)
    requires span != [] && p + |span| <= |ids| && span == ids[p..p + |span|]
    ensures forall k :: 0 <= k < |span| ==> span[k] == ids[p] + k
    ensures ids[p] + |span| <= |tokens|
  {
    forall k | 0 <= k < |span| ensures span[k] == ids[p] + k {
      IdsFollow(tokens, line, ids, p, k);
    }
    assert span[|span| - 1] == ids[p + (|span| - 1)];
  }

  lemma {:induction false} CoversMore(chosen: seq<Correction>, taken: set<nat>, c: Correction, span: seq<nat>)
    requires Covers(chosen, taken)
    requires |span| == c.length > 0 && forall k :: 0 <= k < |span| ==> span[k] == c.start + k
    ensures Covers(chosen + [c], taken + set i | i in span)
  {
    var more := chosen + [c];
    forall i: nat | i in taken || i in span
      ensures exists k :: 0 <= k < |more| && more[k].start <= i < more[k].start + more[k].length
    {
      if i in taken {
        var k :| 0 <= k < |chosen| && chosen[k].start <= i < chosen[k].start + chosen[k].length;
        assert more[k] == chosen[k];
      } else {
        assert more[|chosen|] == c;
      }
    }
    forall i: nat, k | 0 <= k < |more| && more[k].start <= i < more[k].start + more[k].length
        ensures i in taken || i in span {
      if k < |chosen| {
        assert chosen[k] == more[k];
      } else {
        assert span[i - c.start] == i;
      }
    }
  }

  lemma {:induction false} NothingFitsNothing(sent: seq<nat>, edits: seq<Edit>, n: nat, normal: string -> string)
    requires n <= |edits|
    ensures Plan([], sent, edits, n, normal) == []
  {
    if n > 0 {
      NothingFitsNothing(sent, edits, n - 1, normal);
    }
  }

  predicate InOrder(cs: seq<Correction>) {
    forall j, k :: 0 <= j < k < |cs| ==> cs[j].start + cs[j].length <= cs[k].start
  }

  ghost predicate AnswersSome(tokens: seq<Token>, sent: seq<nat>, edits: seq<Edit>, c: Correction,
                              normal: string -> string) {
    exists e :: e in edits && Answers(tokens, sent, c, e, normal)
  }

  lemma {:induction false} AppliedAreEdits(tokens: seq<Token>, sent: seq<nat>, edits: seq<Edit>, n: nat,
                                           normal: string -> string)
    requires n <= |edits|
    ensures forall e :: e in Applied(tokens, sent, edits, n, normal) ==> e in edits
  {
    if n > 0 {
      AppliedAreEdits(tokens, sent, edits, n - 1, normal);
      PlanStep(tokens, sent, edits, n - 1, normal);
      hide *;
    }
  }

  /** Sorting keeps pairwise disjointness, which then means that each correction ends before the next one starts. */
  lemma {:induction false} SortedApart(cs: seq<Correction>)
    requires Disjoint(cs) && forall k :: 0 <= k < |cs| ==> cs[k].length > 0
    ensures InOrder(Sort(cs, StartsFirst))
    ensures forall c :: c in Sort(cs, StartsFirst) ==> c in cs
  {
    if cs != [] {
      var c, rest := cs[0], Sort(cs[1..], StartsFirst);
      SortedApart(cs[1..]);
      forall k | 0 <= k < |rest| ensures Apart(c, rest[k].start, rest[k].length) && rest[k].length > 0 {
        assert rest[k] in cs[1..];
        var j :| 0 <= j < |cs[1..]| && cs[1..][j] == rest[k];
        assert Apart(cs[0], cs[j + 1].start, cs[j + 1].length);
      }
      InsertApart(c, rest);
    }
  }

  lemma {:induction false} InsertApart(c: Correction, cs: seq<Correction>)
    requires InOrder(cs) && c.length > 0 && (forall k :: 0 <= k < |cs| ==> cs[k].length > 0)
    requires forall k :: 0 <= k < |cs| ==> Apart(c, cs[k].start, cs[k].length)
    ensures InOrder(Insert(c, cs, StartsFirst))
    ensures forall x :: x in Insert(c, cs, StartsFirst) ==> x == c || x in cs
  {
    if cs != [] && !StartsFirst(c, cs[0]) {
      InsertApart(c, cs[1..]);
      var r := Insert(c, cs[1..], StartsFirst);
      assert Insert(c, cs, StartsFirst) == [cs[0]] + r;
      hide Insert, StartsFirst;
      forall x | x in r ensures cs[0].start + cs[0].length <= x.start {
        if x != c {
          BehindFirst(cs, x);
        } else {
          assert Apart(c, cs[0].start, cs[0].length);
        }
      }
      PrependInOrder(cs[0], r);
    }
  }

  lemma {:induction false} BehindFirst(cs: seq<Correction>, x: Correction)
    requires cs != [] && InOrder(cs) && x in cs[1..]
    ensures cs[0].start + cs[0].length <= x.start && x in cs
  {
    var k :| 0 <= k < |cs[1..]| && cs[1..][k] == x;
    assert cs[k + 1] == x;
  }

  lemma {:induction false} PrependInOrder(c: Correction, cs: seq<Correction>)
    requires InOrder(cs) && forall x :: x in cs ==> c.start + c.length <= x.start
    ensures InOrder([c] + cs)
  {
  }

  /** What the edits come to: each gets its right answer; if the answers exceed half of the tokens nothing is done, else
    * they are the corrections, in text order, and the answered edits the applied ones, in their own order. */
  ghost predicate Outcome(tokens: seq<Token>, sent: seq<nat>, edits: seq<Edit>, answers: seq<Option<Correction>>,
                          corrections: seq<Correction>, applied: seq<Edit>, normal: string -> string) {
    && RightAnswers(tokens, sent, edits, answers, normal)
    && if 2 * TotalLength(Chosen(answers)) > |tokens| then corrections == [] && applied == []
       else
         && multiset(corrections) == multiset(Chosen(answers)) && InOrder(corrections)
         && applied == Answered(edits, answers)
  }

  lemma {:induction false} PlanIsOutcome(tokens: seq<Token>, sent: seq<nat>, edits: seq<Edit>,
                                         corrections: seq<Correction>, applied: seq<Edit>, normal: string -> string)
    requires var plan := Plan(tokens, sent, edits, |edits|, normal);
      if 2 * TotalLength(plan) > |tokens| then corrections == [] && applied == []
      else corrections == Sort(plan, StartsFirst) && applied == Applied(tokens, sent, edits, |edits|, normal)
    ensures Outcome(tokens, sent, edits, PlanAnswers(tokens, sent, edits, |edits|, normal), corrections, applied,
                    normal)
  {
    PlanIsRight(tokens, sent, edits, normal);
    PlanIsChosen(tokens, sent, edits, |edits|, normal);
    PlannedAreOnTokens(tokens, sent, edits, normal);
    StartsFirstIsTotal();
    SortSorted(Plan(tokens, sent, edits, |edits|, normal), StartsFirst);
    hide Plan, Applied, PlanAnswers, RightAnswers, Sort, Chosen, Answered, InOrder;
  }

  lemma {:induction false} StartsFirstIsTotal()
    ensures TotalPreorder(StartsFirst)
  {
  }

  /** Unless the half cap strikes, every usable edit is served; and no correction is made only in that case or when no
    * usable edit finds its words. */
  lemma {:induction false} OutcomeServes(tokens: seq<Token>, sent: seq<nat>, edits: seq<Edit>,
                                         answers: seq<Option<Correction>>, corrections: seq<Correction>,
                                         applied: seq<Edit>, normal: string -> string)
    requires Outcome(tokens, sent, edits, answers, corrections, applied, normal)
    ensures var capped := 2 * TotalLength(Chosen(answers)) > |tokens|;
      && (!capped ==>
            forall i :: 0 <= i < |edits| && Usable(edits[i], |sent|, normal) ==>
              Served(tokens, sent, edits[i], corrections, normal))
      && (corrections == [] <==>
            || capped
            || forall i, s: nat :: 0 <= i < |edits| && Usable(edits[i], |sent|, normal) ==>
                 !WordsStandAt(tokens, sent, edits[i], normal, s))
  {
    hide Usable, Served, WordsStandAt, InOrder, RightAnswers;
    if 2 * TotalLength(Chosen(answers)) <= |tokens| {
      forall i | 0 <= i < |edits| && Usable(edits[i], |sent|, normal)
        ensures Served(tokens, sent, edits[i], corrections, normal)
      {
        EditsAreServed(tokens, sent, edits, answers, corrections, i, normal);
      }
      assert |multiset(corrections)| == |corrections| && |multiset(Chosen(answers))| == |Chosen(answers)|;
    }
    NoneAnswered(tokens, sent, edits, answers, normal);
  }

  /** What a correction list computed on the same text is: in order, each on a single line of it. */
  ghost predicate OnTokens(tokens: seq<Token>, cs: seq<Correction>) {
    InOrder(cs) && forall k :: 0 <= k < |cs| ==> OnOneLine(tokens, cs[k])
  }

  lemma {:induction false} PlannedAreOnTokens(tokens: seq<Token>, sent: seq<nat>, edits: seq<Edit>,
                                              normal: string -> string)
    ensures var cs := Sort(Plan(tokens, sent, edits, |edits|, normal), StartsFirst);
      OnTokens(tokens, cs) && forall k :: 0 <= k < |cs| ==> AnswersSome(tokens, sent, edits, cs[k], normal)
  {
    var plan := Plan(tokens, sent, edits, |edits|, normal);
    var es := Applied(tokens, sent, edits, |edits|, normal);
    PlanIsSound(tokens, sent, edits, |edits|, normal);
    AppliedAreEdits(tokens, sent, edits, |edits|, normal);
    SortedApart(plan);
    var cs := Sort(plan, StartsFirst);
    hide Plan, Applied, Sort, Keys, Unsafe, Usable, Run, Answers;
    forall k | 0 <= k < |cs| ensures AnswersSome(tokens, sent, edits, cs[k], normal) && OnOneLine(tokens, cs[k]) {
      assert cs[k] in plan;
      var j :| 0 <= j < |plan| && plan[j] == cs[k];
      assert es[j] in edits;
      AnswersOnOneLine(tokens, sent, cs[k], es[j], normal);
    }
  }

  predicate OnOneLine(tokens: seq<Token>, c: Correction) {
    && 1 <= c.length && c.start + c.length <= |tokens|
    && forall i :: c.start <= i < c.start + c.length ==> tokens[i].line == tokens[c.start].line
  }

  lemma {:induction false} AnswersOnOneLine(tokens: seq<Token>, sent: seq<nat>, c: Correction, e: Edit,
                                            normal: string -> string)
    requires Answers(tokens, sent, c, e, normal)
    ensures OnOneLine(tokens, c)
  {
    var keys := Keys(e.source, normal);
    var line := sent[e.line.value - 1];
    forall i | c.start <= i < c.start + c.length ensures tokens[i].line == line {
      assert tokens[c.start + (i - c.start)].key == keys[i - c.start];
    }
  }
}
