/** The review protocol as a state machine: any number of editors, one row lock, files replaced one
    at a time, failures at any replace, and a commit whose outcome may stay unknown
    (`save_review`, `_reconcile_unconfirmed_commit`). */
module ReviewProtocol {
  import opened Options
  import opened ReviewFiles

  /** What an editor is doing.  `done` counts replaced files, `touched` files still to be put back. */
  datatype Phase =
    | Waiting
    | Writing(done: nat)
    | Undoing(touched: nat)
    | Unconfirmed
    | Reconciling
    | Finished

  datatype Review = Review(expected: string, candidate: Files, original: Files, phase: Phase)

  /** A published set of files, and the revision its author had loaded. */
  datatype Version = Version(files: Files, loaded: string)

  /** Files and lock of one job, the reviews, every version ever published (oldest first), and the
      version the committed database rows describe. */
  datatype State = State(files: Files, lock: Option<nat>, reviews: map<nat, Review>, history: seq<Version>, rowsAt: nat)

  predicate Holding(phase: Phase) {
    phase.Writing? || phase.Undoing? || phase.Reconciling?
  }

  function At(s: State, r: nat, phase: Phase): map<nat, Review>
    requires r in s.reviews
  {
    s.reviews[r := s.reviews[r].(phase := phase)]
  }

  function Current(s: State): Files
    requires s.history != []
  {
    s.history[|s.history| - 1].files
  }

  // ---- steps ----

  datatype Step =
    | Open(expected: string, candidate: Files)
    | Begin
    | WriteFile
    | FailWrite(applied: bool)
    | PutBack
    | Release
    | Commit(applied: bool, confirmed: bool)
    | CancelledCommit(applied: bool)
    | StartReconcile(completed: bool)
    | CommitRows(applied: bool)

  /** Step `step` of editor `r` leads from `s` to `t`. */
  ghost predicate Takes(s: State, t: State, r: nat, step: Step) {
    if step.Open? then
      && r !in s.reviews
      && exists original :: t == s.(reviews := s.reviews[r := Review(step.expected, step.candidate, original, Waiting)])
    else
      && r in s.reviews
      && var review := s.reviews[r];
         match step
         // The lock is taken; a stale review gives it back at once.
         case Begin =>
           && review.phase.Waiting? && s.lock.None?
           && (if Revision(s.files) == review.expected then
                 t == s.(lock := Some(r), reviews := s.reviews[r := review.(original := s.files, phase := Writing(0))])
               else t == s.(reviews := At(s, r, Finished)))
         case WriteFile =>
           && review.phase.Writing? && review.phase.done < 4 && s.lock == Some(r)
           && t == s.(files := s.files[review.phase.done := review.candidate[review.phase.done]],
                      reviews := At(s, r, Writing(review.phase.done + 1)))
         // A replace fails, before or after its file is in place; with all files in place, the row update fails.
         case FailWrite(applied) =>
           && review.phase.Writing? && review.phase.done <= 4 && s.lock == Some(r)
           && var k := review.phase.done;
              t == s.(files := if applied && k < 4 then s.files[k := review.candidate[k]] else s.files,
                      reviews := At(s, r, Undoing(if k < 4 then k + 1 else 4)))
         case PutBack =>
           && review.phase.Undoing? && 0 < review.phase.touched <= 4 && s.lock == Some(r)
           && var k := review.phase.touched - 1;
              t == s.(files := s.files[k := review.original[k]], reviews := At(s, r, Undoing(k)))
         case Release =>
           && review.phase == Undoing(0) && s.lock == Some(r)
           && t == s.(lock := None, reviews := At(s, r, Finished))
         // The transaction ends either way; a failure may hide a success.
         case Commit(applied, confirmed) =>
           && review.phase == Writing(4) && s.lock == Some(r) && (confirmed ==> applied)
           && t == s.(lock := None,
                      reviews := At(s, r, if confirmed then Finished else Unconfirmed),
                      history := s.history + [Version(s.files, review.expected)],
                      rowsAt := if applied then |s.history| else s.rowsAt)
         case CancelledCommit(applied) =>
           && review.phase == Writing(4) && s.lock == Some(r)
           && t == s.(lock := None,
                      reviews := At(s, r, Finished),
                      history := s.history + [Version(s.files, review.expected)],
                      rowsAt := if applied then |s.history| else s.rowsAt)
         // A fresh lock; nothing is done unless the job is still completed and the files are still ours.
         case StartReconcile(completed) =>
           && review.phase.Unconfirmed? && s.lock.None?
           && (if completed && Revision(s.files) == Revision(review.candidate) then
                 t == s.(lock := Some(r), reviews := At(s, r, Reconciling))
               else t == s.(reviews := At(s, r, Finished)))
         case CommitRows(applied) =>
           && review.phase.Reconciling? && s.lock == Some(r) && s.history != []
           && t == s.(lock := None, reviews := At(s, r, Finished),
                      rowsAt := if applied then |s.history| - 1 else s.rowsAt)
  }

  ghost predicate Next(s: State, t: State) {
    exists r, step :: Takes(s, t, r, step)
  }

  ghost predicate Initial(s: State) {
    && s.lock.None? && s.reviews == map[]
    && s.history == [Version(s.files, Revision(s.files))] && s.rowsAt == 0
  }

  // ---- the invariant ----

  /** Files while `done` of them are replaced. */
  ghost predicate PartlyWritten(files: Files, review: Review, done: nat)
    requires done <= 4
  {
    && (forall i :: 0 <= i < done ==> files[i] == review.candidate[i])
    && (forall i :: done <= i < 4 ==> files[i] == review.original[i])
  }

  /** What the lock holder's phase says about the files. */
  ghost predicate HolderOk(s: State, review: Review)
    requires s.history != []
  {
    match review.phase
    case Writing(done) =>
      && done <= 4 && review.original == Current(s) && Revision(review.original) == review.expected
      && PartlyWritten(s.files, review, done)
    case Undoing(touched) =>
      && touched <= 4 && review.original == Current(s)
      && forall i :: touched <= i < 4 ==> s.files[i] == review.original[i]
    case Reconciling => s.files == Current(s) == review.candidate
    case Waiting => false
    case Unconfirmed => false
    case Finished => false
  }

  /** Every version was published over exactly the version its author had loaded. */
  ghost predicate NoLostUpdate(history: seq<Version>) {
    forall v :: 0 < v < |history| ==> history[v].loaded == Revision(history[v - 1].files)
  }

  ghost predicate Inv(s: State) {
    && s.history != [] && s.rowsAt < |s.history|
    && NoLostUpdate(s.history)
    && (s.lock.None? ==> s.files == Current(s))
    && (s.lock.Some? ==> s.lock.value in s.reviews && HolderOk(s, s.reviews[s.lock.value]))
    && (forall r :: r in s.reviews && Holding(s.reviews[r].phase) ==> s.lock == Some(r))
  }

  lemma {:induction false} InitialInv(s: State)
    requires Initial(s)
    ensures Inv(s)
  {
  }

  lemma {:induction false} OthersStay(s: State, r: nat, phase: Phase)
    requires Inv(s) && r in s.reviews && (s.lock.None? || s.lock == Some(r))
    ensures forall q :: q in At(s, r, phase) && q != r ==> !Holding(At(s, r, phase)[q].phase)
  {
  }

  lemma {:induction false} NextInv(s: State, t: State, r: nat, step: Step)
    requires Inv(s) && Takes(s, t, r, step)
    ensures Inv(t)
  {
    hide Revision;
    match step
    case Open(_, _) =>
      OpenInv(s, t, r, step);
    case Begin =>
      BeginInv(s, t, r);
    case WriteFile =>
      OthersStay(s, r, Writing(s.reviews[r].phase.done + 1));
      WriteInv(s, t, r);
    case FailWrite(applied) =>
      FailInv(s, t, r, applied);
    case PutBack =>
      PutBackInv(s, t, r);
    case Release =>
      ReleaseInv(s, t, r);
    case Commit(applied, confirmed) =>
      PublishInv(s, t, r, applied, if confirmed then Finished else Unconfirmed);
    case CancelledCommit(applied) =>
      PublishInv(s, t, r, applied, Finished);
    case StartReconcile(completed) =>
      StartReconcileInv(s, t, r, completed);
    case CommitRows(applied) =>
      OthersStay(s, r, Finished);
  }

  lemma {:induction false} OpenInv(s: State, t: State, r: nat, step: Step)
    requires Inv(s) && step.Open? && Takes(s, t, r, step)
    ensures Inv(t)
  {
    hide Revision;
  }

  lemma {:induction false} BeginInv(s: State, t: State, r: nat)
    requires Inv(s) && Takes(s, t, r, Begin)
    ensures Inv(t)
  {
    hide Revision;
    OthersStay(s, r, Finished);
  }

  lemma {:induction false} WriteInv(s: State, t: State, r: nat)
    requires Inv(s) && Takes(s, t, r, WriteFile)
    ensures Inv(t)
  {
    hide Revision;
    var k := s.reviews[r].phase.done;
    assert PartlyWritten(s.files, s.reviews[r], k);
    assert PartlyWritten(t.files, t.reviews[r], k + 1);
  }

  lemma {:induction false} FailInv(s: State, t: State, r: nat, applied: bool)
    requires Inv(s) && Takes(s, t, r, FailWrite(applied))
    ensures Inv(t)
  {
    hide Revision;
    assert PartlyWritten(s.files, s.reviews[r], s.reviews[r].phase.done);
  }

  lemma {:induction false} PutBackInv(s: State, t: State, r: nat)
    requires Inv(s) && Takes(s, t, r, PutBack)
    ensures Inv(t)
  {
    hide Revision;
  }

  lemma {:induction false} ReleaseInv(s: State, t: State, r: nat)
    requires Inv(s) && Takes(s, t, r, Release)
    ensures Inv(t)
  {
    hide Revision;
    OthersStay(s, r, Finished);
    assert s.files == Current(s);
  }

  /** Publishing after four replaces: the files are the whole candidate, over the version its author loaded. */
  lemma {:induction false} PublishInv(s: State, t: State, r: nat, applied: bool, phase: Phase)
    requires Inv(s) && r in s.reviews && s.reviews[r].phase == Writing(4) && s.lock == Some(r)
    requires phase == Finished || phase == Unconfirmed
    requires t == s.(lock := None, reviews := At(s, r, phase),
                     history := s.history + [Version(s.files, s.reviews[r].expected)],
                     rowsAt := if applied then |s.history| else s.rowsAt)
    ensures Inv(t)
    ensures s.files == s.reviews[r].candidate
  {
    hide Revision;
    OthersStay(s, r, phase);
    assert PartlyWritten(s.files, s.reviews[r], 4);
    forall v | 0 < v < |t.history| ensures t.history[v].loaded == Revision(t.history[v - 1].files) {
      if v < |s.history| {
        assert s.history[v].loaded == Revision(s.history[v - 1].files);
      }
    }
  }

  lemma {:induction false} StartReconcileInv(s: State, t: State, r: nat, completed: bool)
    requires Inv(s) && Takes(s, t, r, StartReconcile(completed))
    ensures Inv(t)
  {
    hide Revision, NoLostUpdate, PartlyWritten;
    RevisionInjective(s.files, s.reviews[r].candidate);
    OthersStay(s, r, Finished);
    OthersStay(s, r, Reconciling);
  }

  // ---- runs ----

  ghost predicate Run(run: seq<State>) {
    && run != [] && Initial(run[0])
    && forall i :: 0 <= i < |run| - 1 ==> Next(run[i], run[i + 1])
  }

  lemma {:induction false} RunInv(run: seq<State>, i: nat)
    requires Run(run) && i < |run|
    ensures Inv(run[i])
  {
    hide Takes;
    hide Inv;
    if i == 0 {
      InitialInv(run[0]);
    } else {
      RunInv(run, i - 1);
      assert Next(run[i - 1], run[i - 1 + 1]);
      var r, step :| Takes(run[i - 1], run[i], r, step);
      NextInv(run[i - 1], run[i], r, step);
    }
  }

  /** Whenever the row lock is free the four files are one complete published version, the newest. */
  lemma {:induction false} FreeLockMeansCompleteVersion(run: seq<State>, i: nat)
    requires Run(run) && i < |run| && run[i].lock.None?
    ensures run[i].history != [] && run[i].files == Current(run[i])
  {
    RunInv(run, i);
  }

  /** Across the whole run, every review went over exactly the version its author had loaded. */
  lemma {:induction false} NoReviewIsOverwritten(run: seq<State>, i: nat)
    requires Run(run) && i < |run|
    ensures NoLostUpdate(run[i].history)
  {
    RunInv(run, i);
  }

  lemma {:induction false} HistoryGrows(s: State, t: State, r: nat, step: Step)
    requires Inv(s) && Takes(s, t, r, step)
    ensures s.history <= t.history
    ensures s.rowsAt <= t.rowsAt
  {
    hide Revision;
  }

  /** Published versions are never withdrawn, and the committed rows never go back to an older one. */
  lemma {:induction false} HistoryOnlyGrows(run: seq<State>, i: nat, j: nat)
    requires Run(run) && i <= j < |run|
    ensures run[i].history <= run[j].history && run[i].rowsAt <= run[j].rowsAt
    decreases j
  {
    hide Takes;
    hide Inv;
    if i < j {
      HistoryOnlyGrows(run, i, j - 1);
      RunInv(run, j - 1);
      assert Next(run[j - 1], run[j - 1 + 1]);
      var r, step :| Takes(run[j - 1], run[j], r, step);
      HistoryGrows(run[j - 1], run[j], r, step);
    }
  }

  /** Reconciliation writes no files, and the rows it commits describe the files in place, which are its own. */
  lemma {:induction false} ReconcileIsHarmless(s: State, t: State, r: nat, step: Step)
    requires Inv(s) && Takes(s, t, r, step)
    requires step.StartReconcile? || step.CommitRows?
    ensures t.files == s.files && t.history == s.history
    ensures t.rowsAt != s.rowsAt ==>
              && s.reviews[r].candidate == s.files == s.history[t.rowsAt].files
              && t.rowsAt == |s.history| - 1
  {
    hide Revision;
  }

  /** Files change only under the changing editor's own lock, and a review that ends by undoing leaves
      the version it found. */
  lemma {:induction false} OnlyTheHolderWrites(s: State, t: State, r: nat, step: Step)
    requires Inv(s) && Takes(s, t, r, step) && t.files != s.files
    ensures s.lock == Some(r) && t.lock == Some(r) && (step.WriteFile? || step.FailWrite? || step.PutBack?)
  {
    hide Revision;
  }
}
