/**
 The content-block cursor of one progress row. Requests carry the block index the client saw and
 may be repeated or arrive out of order. Completing is two transactions: the first one checks the
 cursor, captures the payload and is rolled back; the second one completes the step. The general
 completion request looks at no cursor at all. The number of blocks is a parameter here;
 `CourseCursor` proves that it does not change under the requests of an open assignment.
 */
module LearningCursor {
  import opened Common
  import opened Statuses

  /** `cursor` is the payload's block index, if it has one; `captured` are completions between their transactions. */
  datatype Learner = Learner(assignment: Status, row: RowStatus, cursor: Option<nat>, captured: multiset<nat>)

  /** `DirectComplete` is the general completion request, with the payload's block index when a payload is sent. */
  datatype Request =
    | Start
    | Advance(expected: int)
    | BeginComplete(expected: int)
    | FinishComplete(index: nat, lastStep: bool)
    | LoseCompletion(index: nat)
    | CancelAssignment
    | OtherStepStarted
    | OtherStepsFinish
    | DirectComplete(payload: Option<Option<nat>>, lastStep: bool)

  type Requests = seq<Request>

  /** A missing or invalid index resumes at block 0. */
  function Current(l: Learner): nat {
    if l.cursor.None? then 0 else l.cursor.value
  }

  predicate IsFinalBlock(index: int, blocks: int) {
    blocks <= 0 || index >= blocks - 1
  }

  function LastBlock(blocks: nat): nat {
    if blocks == 0 then 0 else blocks - 1
  }

  // ---------- requests ----------

  /** `_load_mutable`; a cancelled assignment has no rows left. */
  function LoadError(l: Learner): Option<Error> {
    if l.assignment == Cancelled then Some(NotFound)
    else if l.row == Done then Some(Conflict)
    else if l.assignment == Completed then Some(Validation)
    else None
  }

  /** `complete_step` looks at the assignment before the row. */
  function CompletionError(l: Learner): Option<Error> {
    if l.assignment == Cancelled then Some(Validation)
    else if l.row == Done then Some(Conflict)
    else if l.assignment == Completed then Some(Validation)
    else None
  }

  function EnsureStarted(l: Learner): Learner {
    if l.row == NotStarted then l.(row := Started, cursor := Some(0), assignment := Active(l.assignment)) else l
  }

  function Advanced(l: Learner, expected: int, blocks: nat): Learner {
    var started := EnsureStarted(l);
    if l.row == NotStarted || expected != Current(started) || IsFinalBlock(Current(started), blocks) then started
    else started.(cursor := Some(Current(started) + 1))
  }

  /** The first transaction of a completion: captured and rolled back, or committed without one. */
  function Captured(l: Learner, expected: int, blocks: nat): Learner {
    var started := EnsureStarted(l);
    if expected == Current(started) && IsFinalBlock(Current(started), blocks)
    then l.(captured := l.captured + multiset{Current(started)})
    else started
  }

  function Finished(l: Learner, index: Option<nat>, lastStep: bool): Learner {
    l.(row := Done, cursor := index, assignment := if lastStep then Completed else InProgress)
  }

  function Outcome(l: Learner, r: Request, blocks: nat): Result<Learner> {
    match r
    case Start => if LoadError(l).Some? then Err(LoadError(l).value) else Ok(EnsureStarted(l))
    case Advance(expected) =>
      if expected < 0 then Err(Validation)
      else if LoadError(l).Some? then Err(LoadError(l).value)
      else Ok(Advanced(l, expected, blocks))
    case BeginComplete(expected) =>
      if expected < 0 then Err(Validation)
      else if LoadError(l).Some? then Err(LoadError(l).value)
      else Ok(Captured(l, expected, blocks))
    case FinishComplete(index, lastStep) =>
      if index !in l.captured then Err(NotFound)
      else
        var rest := l.(captured := l.captured - multiset{index});
        Ok(if CompletionError(l).Some? then rest else Finished(rest, Some(index), lastStep))
    case LoseCompletion(index) => Ok(l.(captured := l.captured - multiset{index}))
    case CancelAssignment =>
      if l.assignment == Pending || l.assignment == InProgress then Ok(l.(assignment := Cancelled)) else Err(Validation)
    case OtherStepStarted => Ok(l.(assignment := Active(l.assignment)))
    case OtherStepsFinish =>
      if l.assignment == Pending || l.assignment == InProgress then Ok(l.(assignment := Completed)) else Err(Validation)
    case DirectComplete(payload, lastStep) =>
      if LoadError(l).Some? then Err(LoadError(l).value)
      else Ok(Finished(l, if payload.Some? then payload.value else l.cursor, lastStep))
  }

  function Next(l: Learner, r: Request, blocks: nat): Learner {
    if Outcome(l, r, blocks).Ok? then Outcome(l, r, blocks).value else l
  }

  function Exec(l: Learner, run: Requests, blocks: nat): Learner
    decreases |run|
  {
    if run == [] then l else Exec(Next(l, run[0], blocks), run[1..], blocks)
  }

  const FRESH := Learner(Pending, NotStarted, None, multiset{})

  // ---------- the invariant ----------

  /** The cursor stays on the blocks; completions are captured, and steps done, at the last one. */
  ghost predicate Inv(l: Learner, blocks: nat) {
    && Current(l) <= LastBlock(blocks)
    && (l.row == NotStarted ==> Current(l) == 0)
    && (l.row == Done ==> Current(l) == LastBlock(blocks))
    && (forall index :: index in l.captured ==> index == LastBlock(blocks) == Current(l))
  }

  /** The block at which a general completion leaves the cursor: the one it names, or the current one without a payload. */
  function Resolved(l: Learner, payload: Option<Option<nat>>): nat {
    if payload.None? then Current(l) else if payload.value.None? then 0 else payload.value.value
  }

  /** A request a caller may make at any time: general completions only at the last block. */
  predicate AtLast(l: Learner, r: Request, blocks: nat) {
    r.DirectComplete? && LoadError(l).None? ==> Resolved(l, r.payload) == LastBlock(blocks)
  }

  predicate DirectAtLast(l: Learner, run: Requests, blocks: nat)
    decreases |run|
  {
    run == [] || (AtLast(l, run[0], blocks) && DirectAtLast(Next(l, run[0], blocks), run[1..], blocks))
  }

  lemma FreshIsSound(blocks: nat)
    ensures Inv(FRESH, blocks)
  {
  }

  lemma StartKeepsInv(l: Learner, blocks: nat)
    requires Inv(l, blocks)
    ensures Inv(EnsureStarted(l), blocks) && Current(EnsureStarted(l)) == Current(l)
  {
  }

  lemma AdvanceKeepsInv(l: Learner, expected: int, blocks: nat)
    requires Inv(l, blocks) && LoadError(l).None?
    ensures Inv(Advanced(l, expected, blocks), blocks)
    ensures Current(Advanced(l, expected, blocks)) == Current(l)
         || (expected == Current(l) && Current(Advanced(l, expected, blocks)) == Current(l) + 1)
  {
  }

  lemma CaptureKeepsInv(l: Learner, expected: int, blocks: nat)
    requires Inv(l, blocks)
    ensures Inv(Captured(l, expected, blocks), blocks) && Current(Captured(l, expected, blocks)) == Current(l)
  {
    hide EnsureStarted;
    StartKeepsInv(l, blocks);
  }

  lemma FinishKeepsInv(l: Learner, index: nat, lastStep: bool, blocks: nat)
    requires Inv(l, blocks)
    ensures var next := Next(l, FinishComplete(index, lastStep), blocks);
      Inv(next, blocks) && Current(next) == Current(l)
  {
    hide EnsureStarted, Advanced, Captured;
  }

  /** Start, advance and complete requests move the cursor only from the block they name to the next one. */
  lemma StepKeepsInv(l: Learner, r: Request, blocks: nat)
    requires Inv(l, blocks) && !r.DirectComplete?
    ensures Inv(Next(l, r, blocks), blocks)
    ensures Current(Next(l, r, blocks)) == Current(l)
         || (r.Advance? && r.expected == Current(l) && Current(Next(l, r, blocks)) == Current(l) + 1)
  {
    hide EnsureStarted, Advanced, Captured, Finished;
    match r
    case Start => StartKeepsInv(l, blocks);
    case Advance(expected) =>
      if LoadError(l).None? {
        AdvanceKeepsInv(l, expected, blocks);
      }
    case BeginComplete(expected) => CaptureKeepsInv(l, expected, blocks);
    case FinishComplete(index, lastStep) => FinishKeepsInv(l, index, lastStep, blocks);
    case _ =>
  }

  /** A general completion keeps the invariant exactly when it is refused or leaves the cursor at the last block. */
  lemma DirectKeepsInvIff(l: Learner, r: Request, blocks: nat)
    requires Inv(l, blocks) && r.DirectComplete?
    ensures Inv(Next(l, r, blocks), blocks) <==> AtLast(l, r, blocks)
    ensures LoadError(l).None? ==> Next(l, r, blocks).row == Done && Current(Next(l, r, blocks)) == Resolved(l, r.payload)
    ensures LoadError(l).Some? ==> Next(l, r, blocks) == l
  {
  }

  lemma RequestKeepsInv(l: Learner, r: Request, blocks: nat)
    requires Inv(l, blocks) && AtLast(l, r, blocks)
    ensures Inv(Next(l, r, blocks), blocks) && Current(l) <= Current(Next(l, r, blocks))
  {
    hide Next;
    if r.DirectComplete? {
      DirectKeepsInvIff(l, r, blocks);
    } else {
      StepKeepsInv(l, r, blocks);
    }
  }

  /** A step done away from the last block stays so: nothing changes a row that is done. */
  lemma DoneElsewhereStays(l: Learner, run: Requests, blocks: nat)
    requires l.row == Done && Current(l) != LastBlock(blocks)
    ensures !Inv(Exec(l, run, blocks), blocks)
  {
    hide Exec;
    ClosedForEver(l, run, blocks);
  }

  /**
   Over every run of all requests: the cursor stays on the blocks and a step is done only at the
   last one exactly when every general completion that is not refused leaves the cursor at the last block.
   */
  lemma {:induction false} SoundIffDirectAtLast(l: Learner, run: Requests, blocks: nat)
    requires Inv(l, blocks)
    ensures Inv(Exec(l, run, blocks), blocks) <==> DirectAtLast(l, run, blocks)
    decreases |run|
  {
    hide Next, Inv;
    if run != [] {
      var next := Next(l, run[0], blocks);
      if AtLast(l, run[0], blocks) {
        RequestKeepsInv(l, run[0], blocks);
        SoundIffDirectAtLast(next, run[1..], blocks);
      } else {
        DirectKeepsInvIff(l, run[0], blocks);
        DoneElsewhereStays(next, run[1..], blocks);
      }
    }
  }

  /**
   Under any repetition and reordering of requests the cursor never decreases and never leaves
   the blocks, and a step is done only at the last block.
   */
  lemma {:induction false} CursorOnlyMovesForward(l: Learner, run: Requests, blocks: nat)
    requires Inv(l, blocks) && DirectAtLast(l, run, blocks)
    ensures Inv(Exec(l, run, blocks), blocks)
    ensures Current(l) <= Current(Exec(l, run, blocks)) <= LastBlock(blocks)
    ensures Exec(l, run, blocks).row == Done ==> Current(Exec(l, run, blocks)) == LastBlock(blocks)
    decreases |run|
  {
    hide Next;
    if run != [] {
      RequestKeepsInv(l, run[0], blocks);
      CursorOnlyMovesForward(Next(l, run[0], blocks), run[1..], blocks);
    }
  }

  /** The requests of the run that moved the cursor past block `i`. */
  function MovesPast(l: Learner, run: Requests, blocks: nat, i: nat): nat
    decreases |run|
  {
    if run == [] then 0
    else
      var next := Next(l, run[0], blocks);
      (if Current(l) <= i < Current(next) then 1 else 0) + MovesPast(next, run[1..], blocks, i)
  }

  /**
   Each block is passed by exactly one request if the run goes past it, and by none otherwise,
   however often `Advance(i)` is repeated.
   */
  lemma {:induction false} EachBlockIsPassedOnce(l: Learner, run: Requests, blocks: nat, i: nat)
    requires Inv(l, blocks) && DirectAtLast(l, run, blocks)
    ensures MovesPast(l, run, blocks, i) == if Current(l) <= i < Current(Exec(l, run, blocks)) then 1 else 0
    decreases |run|
  {
    hide Next;
    if run != [] {
      var next := Next(l, run[0], blocks);
      RequestKeepsInv(l, run[0], blocks);
      EachBlockIsPassedOnce(next, run[1..], blocks, i);
      CursorOnlyMovesForward(next, run[1..], blocks);
    }
  }

  /** The `Advance(i)` requests of the run that moved the cursor from block `i` to the next. */
  function AdvancesPast(l: Learner, run: Requests, blocks: nat, i: nat): nat
    decreases |run|
  {
    if run == [] then 0
    else
      var next := Next(l, run[0], blocks);
      (if run[0] == Advance(i) && Current(l) == i && Current(next) == i + 1 then 1 else 0)
      + AdvancesPast(next, run[1..], blocks, i)
  }

  predicate DirectlyCompleted(l: Learner, run: Requests, blocks: nat)
    decreases |run|
  {
    run != []
    && ((run[0].DirectComplete? && LoadError(l).None?) || DirectlyCompleted(Next(l, run[0], blocks), run[1..], blocks))
  }

  /** Only a general completion jumps: otherwise every block that is passed is passed by one `Advance` of its own. */
  lemma {:induction false} PassedByAdvances(l: Learner, run: Requests, blocks: nat, i: nat)
    requires Inv(l, blocks) && !DirectlyCompleted(l, run, blocks)
    ensures AdvancesPast(l, run, blocks, i) == MovesPast(l, run, blocks, i)
    decreases |run|
  {
    hide Next, Inv;
    if run != [] {
      var next := Next(l, run[0], blocks);
      if run[0].DirectComplete? {
        DirectKeepsInvIff(l, run[0], blocks);
      } else {
        StepKeepsInv(l, run[0], blocks);
      }
      PassedByAdvances(next, run[1..], blocks, i);
    }
  }

  lemma {:induction false} NoneDirectIsAtLast(l: Learner, run: Requests, blocks: nat)
    requires !DirectlyCompleted(l, run, blocks)
    ensures DirectAtLast(l, run, blocks)
    decreases |run|
  {
    hide Next;
    if run != [] {
      NoneDirectIsAtLast(Next(l, run[0], blocks), run[1..], blocks);
    }
  }

  /** A step that was done block by block has been through every block but the last, by one `Advance` each. */
  lemma DoneMeansEveryBlockWasPassed(run: Requests, blocks: nat, i: nat)
    requires Exec(FRESH, run, blocks).row == Done && !DirectlyCompleted(FRESH, run, blocks) && i < LastBlock(blocks)
    ensures AdvancesPast(FRESH, run, blocks, i) == 1
  {
    FreshIsSound(blocks);
    NoneDirectIsAtLast(FRESH, run, blocks);
    CursorOnlyMovesForward(FRESH, run, blocks);
    EachBlockIsPassedOnce(FRESH, run, blocks, i);
    PassedByAdvances(FRESH, run, blocks, i);
  }

  /** Repeating an advance changes nothing, except that the first one on a fresh row may only have started it. */
  lemma AdvanceIsIdempotentIff(l: Learner, expected: int, blocks: nat)
    ensures var once := Next(l, Advance(expected), blocks);
      && (Next(once, Advance(expected), blocks) == once
          <==> !(LoadError(l).None? && l.row == NotStarted && expected == 0 && blocks > 1))
      && (Inv(l, blocks) && Current(once) != Current(l) ==> expected == Current(l) && !IsFinalBlock(expected, blocks))
  {
  }

  /** On a fresh row of three blocks the same request starts first and moves second. */
  lemma FirstAdvanceOnlyStarts()
    ensures var once := Next(FRESH, Advance(0), 3);
      once.row == Started && Current(once) == 0 && Current(Next(once, Advance(0), 3)) == 1
  {
  }

  predicate Closed(l: Learner) {
    l.row == Done || l.assignment == Completed || l.assignment == Cancelled
  }

  /** Once the step is done or the assignment over, nothing changes the row any more. */
  lemma {:induction false} ClosedForEver(l: Learner, run: Requests, blocks: nat)
    requires Closed(l)
    ensures Closed(Exec(l, run, blocks))
    ensures Exec(l, run, blocks).row == l.row && Exec(l, run, blocks).cursor == l.cursor
    decreases |run|
  {
    if run != [] {
      ClosedForEver(Next(l, run[0], blocks), run[1..], blocks);
    }
  }

  /** Of several completions captured for one row, at most one completes it. */
  lemma SecondCompletionChangesNothing(l: Learner, index: nat, lastStep: bool, again: nat, lastAgain: bool, blocks: nat)
    requires index in l.captured
    ensures var once := Next(l, FinishComplete(index, lastStep), blocks);
      var twice := Next(once, FinishComplete(again, lastAgain), blocks);
      twice.row == once.row && twice.cursor == once.cursor && twice.assignment == once.assignment
  {
  }

  lemma ExecOne(l: Learner, r: Request, blocks: nat)
    ensures Exec(l, [r], blocks) == Next(l, r, blocks)
  {
    assert Exec(Next(l, r, blocks), [], blocks) == Next(l, r, blocks);
  }

  /** A general completion can finish a step at its first block, and it can move the cursor off the blocks. */
  lemma DirectCompletionSkipsBlocks()
    ensures var done := Exec(FRESH, [DirectComplete(None, false)], 3);
      done.row == Done && Current(done) < LastBlock(3)
    ensures Current(Exec(FRESH, [DirectComplete(Some(Some(99)), false)], 3)) > LastBlock(3)
  {
    ExecOne(FRESH, DirectComplete(None, false), 3);
    ExecOne(FRESH, DirectComplete(Some(Some(99)), false), 3);
  }

  /** It can also move the cursor back, here from the last block to the first. */
  lemma DirectCompletionGoesBack()
    ensures var there := Exec(FRESH, [Start, Advance(0), Advance(1)], 3);
      Current(there) == 2 && Current(Next(there, DirectComplete(Some(None), false), 3)) == 0
  {
    var started := Next(FRESH, Start, 3);
    var second := Next(started, Advance(0), 3);
    assert [Start, Advance(0), Advance(1)][1..] == [Advance(0), Advance(1)];
    assert [Advance(0), Advance(1)][1..] == [Advance(1)];
    ExecOne(second, Advance(1), 3);
  }

  // ---------- what each request does ----------

  /** The step can be worked on: its assignment is open and its row is not done. */
  predicate Workable(l: Learner) {
    (l.assignment == Pending || l.assignment == InProgress) && l.row != Done
  }

  predicate Negative(r: Request) {
    (r.Advance? || r.BeginComplete?) && r.expected < 0
  }

  /** Requests of the employee succeed exactly on a step that can be worked on; each refusal has its own error. */
  lemma RequestOutcome(l: Learner, r: Request, blocks: nat)
    requires r.Start? || r.Advance? || r.BeginComplete? || r.DirectComplete?
    ensures var outcome := Outcome(l, r, blocks);
      && (outcome.Ok? <==> Workable(l) && !Negative(r))
      && (outcome == Err(NotFound) <==> l.assignment == Cancelled && !Negative(r))
      && (outcome == Err(Conflict) <==> l.assignment != Cancelled && l.row == Done && !Negative(r))
      && (outcome == Err(Validation) <==> Negative(r) || (l.assignment == Completed && l.row != Done))
      && (outcome.Err? ==> Next(l, r, blocks) == l)
  {
    hide EnsureStarted, Advanced, Captured, Finished;
  }

  /** A row that was not started is started at block 0, and its assignment with it. */
  lemma StartEffect(l: Learner, blocks: nat)
    requires Workable(l)
    ensures Next(l, Start, blocks)
         == if l.row == NotStarted then Learner(InProgress, Started, Some(0), l.captured) else l
  {
  }

  /** An advance moves the cursor on exactly from the block it names, on a started row, before the last block. */
  lemma AdvanceEffect(l: Learner, expected: nat, blocks: nat)
    requires Workable(l)
    ensures Next(l, Advance(expected), blocks)
         == if l.row == NotStarted then Learner(InProgress, Started, Some(0), l.captured)
            else if expected == Current(l) && Current(l) + 1 < blocks then l.(cursor := Some(Current(l) + 1))
            else l
  {
  }

  /** A completion is captured exactly for the current block when it is the last one; otherwise it only starts the row. */
  lemma BeginCompletionEffect(l: Learner, expected: nat, blocks: nat)
    requires Workable(l)
    ensures var at := if l.row == NotStarted then 0 else Current(l);
      Next(l, BeginComplete(expected), blocks)
      == if expected == at && at + 1 >= blocks then l.(captured := l.captured + multiset{expected})
         else if l.row == NotStarted then Learner(InProgress, Started, Some(0), l.captured)
         else l
  {
  }

  /** A captured completion is used up; it completes a step that can still be worked on, at the captured block. */
  lemma FinishEffect(l: Learner, index: nat, lastStep: bool, blocks: nat)
    requires index in l.captured
    ensures var rest := l.captured - multiset{index};
      Next(l, FinishComplete(index, lastStep), blocks)
      == if Workable(l) then Learner(if lastStep then Completed else InProgress, Done, Some(index), rest)
         else l.(captured := rest)
  {
  }

  /** A general completion completes a step that can be worked on, with the index it brings, if it brings a payload. */
  lemma DirectEffect(l: Learner, payload: Option<Option<nat>>, lastStep: bool, blocks: nat)
    requires Workable(l)
    ensures Next(l, DirectComplete(payload, lastStep), blocks)
         == Learner(if lastStep then Completed else InProgress, Done,
                    match payload case Some(index) => index case None => l.cursor, l.captured)
  {
  }

  /** What happens elsewhere: it touches the assignment of an open one only, and never the row or its cursor. */
  lemma EffectOfOthers(l: Learner, index: nat, blocks: nat)
    ensures Next(l, CancelAssignment, blocks)
         == if l.assignment == Pending || l.assignment == InProgress then l.(assignment := Cancelled) else l
    ensures Next(l, OtherStepStarted, blocks) == if l.assignment == Pending then l.(assignment := InProgress) else l
    ensures Next(l, OtherStepsFinish, blocks)
         == if l.assignment == Pending || l.assignment == InProgress then l.(assignment := Completed) else l
    ensures Next(l, LoseCompletion(index), blocks) == l.(captured := l.captured - multiset{index})
  {
  }

  /** One advance for each block before `n`. */
  function AdvanceTo(n: nat): Requests {
    if n == 0 then [] else AdvanceTo(n - 1) + [Advance(n - 1)]
  }

  lemma {:induction false} ExecAppend(l: Learner, first: Requests, second: Requests, blocks: nat)
    ensures Exec(l, first + second, blocks) == Exec(Exec(l, first, blocks), second, blocks)
    decreases |first|
  {
    hide Next;
    if first == [] {
      assert first + second == second;
    } else {
      ExecAppend(Next(l, first[0], blocks), first[1..], second, blocks);
      assert (first + second)[1..] == first[1..] + second;
    }
  }

  lemma {:induction false} AdvancingReaches(l: Learner, n: nat, blocks: nat)
    requires Workable(l) && l.row == Started && l.cursor == Some(0) && n <= LastBlock(blocks)
    ensures Exec(l, AdvanceTo(n), blocks) == l.(cursor := Some(n))
    decreases n
  {
    hide Next, Exec;
    if n > 0 {
      AdvancingReaches(l, n - 1, blocks);
      ExecAppend(l, AdvanceTo(n - 1), [Advance(n - 1)], blocks);
      ExecOne(l.(cursor := Some(n - 1)), Advance(n - 1), blocks);
      AdvanceEffect(l.(cursor := Some(n - 1)), n - 1, blocks);
    } else {
      NothingDone(l, blocks);
    }
  }

  lemma NothingDone(l: Learner, blocks: nat)
    ensures Exec(l, [], blocks) == l
  {
  }

  /** Reading a step from the first block to the last and completing there completes it. */
  lemma ReadingThroughCompletes(blocks: nat, lastStep: bool)
    ensures var last := LastBlock(blocks);
      Exec(FRESH, [Start] + AdvanceTo(last) + [BeginComplete(last)] + [FinishComplete(last, lastStep)], blocks)
      == Learner(if lastStep then Completed else InProgress, Done, Some(last), multiset{})
  {
    hide Next, Exec;
    var last := LastBlock(blocks);
    var started := Learner(InProgress, Started, Some(0), multiset{});
    var there := started.(cursor := Some(last));
    ExecOne(FRESH, Start, blocks);
    StartEffect(FRESH, blocks);
    AdvancingReaches(started, last, blocks);
    ExecAppend(FRESH, [Start], AdvanceTo(last), blocks);
    ExecAppend(FRESH, [Start] + AdvanceTo(last), [BeginComplete(last)], blocks);
    ExecOne(there, BeginComplete(last), blocks);
    BeginCompletionEffect(there, last, blocks);
    var held := there.(captured := multiset{last});
    ExecAppend(FRESH, [Start] + AdvanceTo(last) + [BeginComplete(last)], [FinishComplete(last, lastStep)], blocks);
    ExecOne(held, FinishComplete(last, lastStep), blocks);
    FinishEffect(held, last, lastStep, blocks);
    assert multiset{last} - multiset{last} == multiset{};
    assert there.captured == multiset{} && held == there.(captured := there.captured + multiset{last});
    assert Exec(started, AdvanceTo(last), blocks) == there;
    assert Exec(there, [BeginComplete(last)], blocks) == held;
  }

  // ---------- the service ----------

  class LearningProgressService {
    var assignment: Status
    var row: RowStatus
    var cursor: Option<nat>
    var captured: multiset<nat>
    const blocks: nat

    function State(): Learner
      reads this
    {
      Learner(assignment, row, cursor, captured)
    }

    ghost predicate Valid()
      reads this
    {
      Inv(State(), blocks)
    }

    constructor (blocks: nat)
      ensures this.blocks == blocks && Valid() && State() == FRESH
    {
      this.blocks := blocks;
      assignment, row, cursor, captured := Pending, NotStarted, None, multiset{};
    }

    method LoadMutable() returns (error: Option<Error>)
      ensures error == LoadError(State())
    {
      if assignment == Cancelled {
        return Some(NotFound);
      }
      if row == Done {
        return Some(Conflict);
      }
      if assignment == Completed {
        return Some(Validation);
      }
      error := None;
    }

    method MarkStarted() returns (justStarted: bool)
      modifies this
      ensures State() == EnsureStarted(old(State())) && justStarted == (old(row) == NotStarted)
    {
      justStarted := row == NotStarted;
      if justStarted {
        row, cursor := Started, Some(0);
        if assignment == Pending {
          assignment := InProgress;
        }
      }
    }

    method StartOrResume() returns (r: Result<nat>)
      requires Valid()
      modifies this
      ensures Valid() && State() == Next(old(State()), Start, blocks)
      ensures r.Ok? <==> Outcome(old(State()), Start, blocks).Ok?
      ensures r.Err? ==> r.error == Outcome(old(State()), Start, blocks).error
      ensures r.Ok? ==> r.value == Current(State())
    {
      var error := LoadMutable();
      if error.Some? {
        return Err(error.value);
      }
      var _ := MarkStarted();
      r := Ok(Current(State()));
    }

    method AdvanceBlock(expected: int) returns (r: Result<nat>)
      requires Valid()
      modifies this
      ensures Valid() && State() == Next(old(State()), Advance(expected), blocks)
      ensures r.Ok? <==> Outcome(old(State()), Advance(expected), blocks).Ok?
      ensures r.Err? ==> r.error == Outcome(old(State()), Advance(expected), blocks).error
      ensures r.Ok? ==> r.value == Current(State())
    {
      if expected < 0 {
        return Err(Validation);
      }
      var error := LoadMutable();
      if error.Some? {
        return Err(error.value);
      }
      var justStarted := MarkStarted();
      var current := Current(State());
      if justStarted || expected != current || IsFinalBlock(current, blocks) {
        return Ok(current);
      }
      cursor := Some(current + 1);
      r := Ok(current + 1);
    }

    /** The first transaction: on the way to completion nothing is committed but the captured index. */
    method BeginCompletion(expected: int) returns (r: Result<Option<nat>>)
      requires Valid()
      modifies this
      ensures Valid() && State() == Next(old(State()), BeginComplete(expected), blocks)
      ensures r.Ok? <==> Outcome(old(State()), BeginComplete(expected), blocks).Ok?
      ensures r.Err? ==> r.error == Outcome(old(State()), BeginComplete(expected), blocks).error
      ensures r.Ok? && r.value.Some? ==> r.value.value in captured && r.value.value == expected == LastBlock(blocks)
      ensures r.Ok? ==> var at := if old(row) == NotStarted then 0 else Current(old(State()));
        r.value.Some? <==> expected == at && at + 1 >= blocks
    {
      if expected < 0 {
        return Err(Validation);
      }
      var error := LoadMutable();
      if error.Some? {
        return Err(error.value);
      }
      ghost var before := State();
      var savepoint := (assignment, row, cursor);
      var justStarted := MarkStarted();
      var current := Current(State());
      if justStarted && expected == 0 && IsFinalBlock(0, blocks) {
      } else if expected != current || !IsFinalBlock(current, blocks) {
        return Ok(None);
      }
      assignment, row, cursor := savepoint.0, savepoint.1, savepoint.2;
      captured := captured + multiset{current};
      assert State() == Captured(before, expected, blocks);
      r := Ok(Some(current));
    }

    /** The second transaction, `complete_step` with the captured payload. */
    method FinishCompletion(index: nat, lastStep: bool) returns (r: Result<Status>)
      requires Valid() && index in captured
      modifies this
      ensures Valid() && State() == Next(old(State()), FinishComplete(index, lastStep), blocks)
      ensures r.Ok? <==> CompletionError(old(State())).None?
      ensures r.Err? ==> Some(r.error) == CompletionError(old(State()))
      ensures r.Ok? ==> row == Done && Current(State()) == LastBlock(blocks)
    {
      captured := captured - multiset{index};
      if assignment == Cancelled {
        return Err(Validation);
      }
      if row == Done {
        return Err(Conflict);
      }
      if assignment == Completed {
        return Err(Validation);
      }
      row, cursor := Done, Some(index);
      assignment := if lastStep then Completed else InProgress;
      r := Ok(assignment);
    }

    /** `complete_by_progress_id`: the general completion, with the block index of the payload sent, if one is. */
    method CompleteByProgressId(payload: Option<Option<nat>>, lastStep: bool) returns (r: Result<Status>)
      requires Valid()
      modifies this
      ensures State() == Next(old(State()), DirectComplete(payload, lastStep), blocks)
      ensures r.Ok? <==> LoadError(old(State())).None?
      ensures r.Ok? ==> row == Done && cursor == (match payload case Some(index) => index case None => old(cursor))
      ensures Valid() <==> r.Err? || Resolved(old(State()), payload) == LastBlock(blocks)
    {
      DirectKeepsInvIff(State(), DirectComplete(payload, lastStep), blocks);
      var error := LoadMutable();
      if error.Some? {
        return Err(error.value);
      }
      row := Done;
      if payload.Some? {
        cursor := payload.value;
      }
      assignment := if lastStep then Completed else InProgress;
      r := Ok(assignment);
    }
  }

  // ---------- which step to resume ----------


  /** The first started row, else the first that is not done. */
  method ResolveResumeItem(items: seq<RowStatus>) returns (at: Option<nat>)
    ensures at.None? <==> forall k :: 0 <= k < |items| ==> IsDone(items[k])
    ensures at.Some? ==> at.value < |items| && !IsDone(items[at.value])
    ensures at.Some? && items[at.value] == Started ==> forall k :: 0 <= k < at.value ==> items[k] != Started
    ensures at.Some? && items[at.value] != Started ==>
      (forall k :: 0 <= k < |items| ==> items[k] != Started) && forall k :: 0 <= k < at.value ==> IsDone(items[k])
  {
    var inProgress: Option<nat> := None;
    var firstOpen: Option<nat> := None;
    for i := 0 to |items|
      invariant inProgress.None? <==> forall k :: 0 <= k < i ==> items[k] != Started
      invariant inProgress.Some? ==> inProgress.value < i && items[inProgress.value] == Started
      invariant inProgress.Some? ==> forall k :: 0 <= k < inProgress.value ==> items[k] != Started
      invariant firstOpen.None? <==> forall k :: 0 <= k < i ==> IsDone(items[k])
      invariant firstOpen.Some? ==> firstOpen.value < i && !IsDone(items[firstOpen.value])
      invariant firstOpen.Some? ==> forall k :: 0 <= k < firstOpen.value ==> IsDone(items[k])
    {
      if items[i] == Started && inProgress.None? {
        inProgress := Some(i);
      }
      if !IsDone(items[i]) && firstOpen.None? {
        firstOpen := Some(i);
      }
    }
    at := if inProgress.Some? then inProgress else firstOpen;
  }
}
