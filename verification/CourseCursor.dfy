/**
 The block cursor on a real course: every request reads the content of its step again, through the
 assignment, while the course goes on being edited and assigned. As long as the assignment is
 open, or its snapshot covers the step, the requests might as well have used one fixed number of
 blocks, so the cursor theorems hold for what the employee reads. Learner and course then share one
 database: each request has its effect on the course, and each operation is seen by the learner.
 */
module CourseCursor {
  import opened Common
  import opened Json
  import opened Statuses
  import Course = CourseGenerations
  import Cursor = LearningCursor
  import StepContent

  /** Stored content is JSON text; `decode` and `render` are the JSON decoder and Python's `str`. */
  datatype Reader = Reader(decode: string -> Json, render: Render)

  datatype Event = CourseEvent(e: Course.Event) | LearnerRequest(r: Cursor.Request)

  type Run = seq<Event>

  /** The block count of the fields an assignment resolves; without a step there is nothing to read. */
  function BlocksOf(reader: Reader, fields: Option<Course.Fields>): nat {
    if fields.None? then 0 else StepContent.BlockCount(reader.render, reader.decode(fields.value.shape.content))
  }

  function BlocksRead(reader: Reader, db: Course.Db, id: Uuid, step: Uuid): nat {
    if id in db.assignments && db.assignments[id].programId in db.programs
    then BlocksOf(reader, Course.Reads(db, id, step)) else 0
  }

  ghost function CourseAfter(db: Course.Db, run: Run): Course.Db
    decreases |run|
  {
    if run == [] then db
    else CourseAfter(if run[0].CourseEvent? then Course.Next(db, run[0].e) else db, run[1..])
  }

  /** The learner after the run, each request with the blocks read from the course at that moment. */
  ghost function LearnerAfter(reader: Reader, db: Course.Db, l: Cursor.Learner, id: Uuid, step: Uuid, run: Run): Cursor.Learner
    decreases |run|
  {
    if run == [] then l
    else if run[0].CourseEvent? then LearnerAfter(reader, Course.Next(db, run[0].e), l, id, step, run[1..])
    else LearnerAfter(reader, db, Cursor.Next(l, run[0].r, BlocksRead(reader, db, id, step)), id, step, run[1..])
  }

  function CourseEvents(run: Run): Course.Run
    decreases |run|
  {
    if run == [] then []
    else (if run[0].CourseEvent? then [run[0].e] else []) + CourseEvents(run[1..])
  }

  function LearnerRequests(run: Run): Cursor.Requests
    decreases |run|
  {
    if run == [] then []
    else (if run[0].LearnerRequest? then [run[0].r] else []) + LearnerRequests(run[1..])
  }

  lemma {:induction false} CourseAfterIsExec(db: Course.Db, run: Run)
    ensures CourseAfter(db, run) == Course.Exec(db, CourseEvents(run))
    decreases |run|
  {
    hide Course.Next;
    if run != [] {
      CourseAfterIsExec(if run[0].CourseEvent? then Course.Next(db, run[0].e) else db, run[1..]);
      if run[0].CourseEvent? {
        assert CourseEvents(run)[0] == run[0].e && CourseEvents(run)[1..] == CourseEvents(run[1..]);
      } else {
        assert CourseEvents(run) == CourseEvents(run[1..]);
      }
    }
  }

  // ---------- the number of blocks is fixed ----------

  /** The assignment is still open after the run, or its snapshot covers the step. */
  predicate Frozen(db: Course.Db, after: Course.Db, id: Uuid, step: Uuid)
    requires id in db.assignments && id in after.assignments
  {
    Course.Open(after.assignments[id]) || step in Course.SnapshotMap(db.assignments[id].snapshot)
  }

  lemma BlockCountIsFixed(reader: Reader, db: Course.Db, run: Course.Run, id: Uuid, step: Uuid)
    requires Course.Inv(db) && id in db.assignments && id in Course.Exec(db, run).assignments
    requires Frozen(db, Course.Exec(db, run), id, step)
    ensures BlocksRead(reader, Course.Exec(db, run), id, step) == BlocksRead(reader, db, id, step)
  {
    hide Course.Inv, Course.Exec, Course.Reads, Course.SnapshotMap, StepContent.BlockCount;
    if step in Course.SnapshotMap(db.assignments[id].snapshot) {
      Course.SnapshotIsHistory(db, run, id, step);
    } else {
      Course.OpenAssignmentReadsTheSame(db, run, id, step);
    }
  }

  lemma FrozenFromTheStart(db: Course.Db, e: Course.Event, run: Course.Run, id: Uuid, step: Uuid)
    requires Course.Inv(db) && id in db.assignments && id in Course.Exec(Course.Next(db, e), run).assignments
    requires Frozen(db, Course.Exec(Course.Next(db, e), run), id, step)
    ensures id in Course.Next(db, e).assignments && Course.Inv(Course.Next(db, e))
    ensures Frozen(db, Course.Next(db, e), id, step)
    ensures Frozen(Course.Next(db, e), Course.Exec(Course.Next(db, e), run), id, step)
  {
    hide Course.Inv, Course.Exec, Course.Next, Course.SnapshotMap;
    Course.StepKeepsInv(db, e);
    Course.StepKeepsRecord(db, e, id);
    Course.RecordIsForever(Course.Next(db, e), run, id);
  }

  lemma OneEventKeepsBlocks(reader: Reader, db: Course.Db, e: Course.Event, id: Uuid, step: Uuid)
    requires Course.Inv(db) && id in db.assignments && id in Course.Next(db, e).assignments
    requires Frozen(db, Course.Next(db, e), id, step)
    ensures BlocksRead(reader, Course.Next(db, e), id, step) == BlocksRead(reader, db, id, step)
  {
    hide Course.Inv, Course.Next, Course.SnapshotMap, BlocksRead, Frozen;
    assert Course.Exec(db, [e]) == Course.Next(db, e) by {
      assert [e][1..] == [];
    }
    BlockCountIsFixed(reader, db, [e], id, step);
  }

  /** Reading the content again at every request makes no difference. */
  lemma {:induction false} RereadingMakesNoDifference(
      reader: Reader, db: Course.Db, l: Cursor.Learner, id: Uuid, step: Uuid, run: Run)
    requires Course.Inv(db) && id in db.assignments && id in CourseAfter(db, run).assignments
    requires Frozen(db, CourseAfter(db, run), id, step)
    ensures LearnerAfter(reader, db, l, id, step, run)
         == Cursor.Exec(l, LearnerRequests(run), BlocksRead(reader, db, id, step))
    ensures BlocksRead(reader, CourseAfter(db, run), id, step) == BlocksRead(reader, db, id, step)
    decreases |run|
  {
    hide Course.Inv, Course.Next, Cursor.Next, BlocksRead, Frozen;
    if run != [] {
      if run[0].CourseEvent? {
        var next := Course.Next(db, run[0].e);
        CourseAfterIsExec(next, run[1..]);
        FrozenFromTheStart(db, run[0].e, CourseEvents(run[1..]), id, step);
        OneEventKeepsBlocks(reader, db, run[0].e, id, step);
        RereadingMakesNoDifference(reader, next, l, id, step, run[1..]);
        assert LearnerRequests(run) == LearnerRequests(run[1..]);
      } else {
        var moved := Cursor.Next(l, run[0].r, BlocksRead(reader, db, id, step));
        RereadingMakesNoDifference(reader, db, moved, id, step, run[1..]);
        assert LearnerRequests(run)[0] == run[0].r && LearnerRequests(run)[1..] == LearnerRequests(run[1..]);
      }
    }
  }

  /**
   Whatever happens to the course meanwhile: the cursor never decreases, stays on the blocks the
   employee reads at the end, none of which is beyond the hundredth, and a step is done only at the
   last of them, exactly when general completions leave the cursor at the last block.
   */
  lemma CursorStaysOnTheBlocksRead(reader: Reader, db: Course.Db, l: Cursor.Learner, id: Uuid, step: Uuid, run: Run)
    requires Course.Inv(db) && id in db.assignments && id in CourseAfter(db, run).assignments
    requires Frozen(db, CourseAfter(db, run), id, step)
    requires Cursor.Inv(l, BlocksRead(reader, db, id, step))
    ensures var after, blocks := LearnerAfter(reader, db, l, id, step, run), BlocksRead(reader, CourseAfter(db, run), id, step);
      && (Cursor.Inv(after, blocks) <==> Cursor.DirectAtLast(l, LearnerRequests(run), blocks))
      && (Cursor.DirectAtLast(l, LearnerRequests(run), blocks) ==>
            Cursor.Current(l) <= Cursor.Current(after) <= Cursor.LastBlock(blocks) <= StepContent.MAX_CONTENT_BLOCKS - 1)
      && (Cursor.DirectAtLast(l, LearnerRequests(run), blocks) && after.row.Done? ==>
            Cursor.Current(after) == Cursor.LastBlock(blocks))
  {
    hide Course.Inv, Cursor.Inv, Cursor.Exec, BlocksRead, Frozen, CourseAfter, LearnerAfter, Cursor.DirectAtLast;
    var blocks := BlocksRead(reader, db, id, step);
    RereadingMakesNoDifference(reader, db, l, id, step, run);
    Cursor.SoundIffDirectAtLast(l, LearnerRequests(run), blocks);
    if Cursor.DirectAtLast(l, LearnerRequests(run), blocks) {
      Cursor.CursorOnlyMovesForward(l, LearnerRequests(run), blocks);
      AtMostAHundredBlocks(reader, db, id, step);
    }
  }

  lemma AtMostAHundredBlocks(reader: Reader, db: Course.Db, id: Uuid, step: Uuid)
    ensures BlocksRead(reader, db, id, step) <= StepContent.MAX_CONTENT_BLOCKS
  {
    hide Course.Reads, StepContent.BlockCount;
    if id in db.assignments && db.assignments[id].programId in db.programs && Course.Reads(db, id, step).Some? {
      StepContent.BlockCountIsBounded(reader.render, reader.decode(Course.Reads(db, id, step).value.shape.content));
    }
  }

  // ---------- learner and course on one database ----------

  /** The learner is the database's: its assignment and its row; a cancelled assignment has no rows left. */
  predicate Agrees(db: Course.Db, l: Cursor.Learner, id: Uuid, step: Uuid) {
    && id in db.assignments && db.assignments[id].status == l.assignment
    && (l.assignment != Cancelled ==> Course.Row(id, step) in db.progress && db.progress[Course.Row(id, step)] == l.row)
  }

  /** An operation on the course and its other rows, or a request on this row. */
  predicate Proper(e: Event, id: Uuid, step: Uuid) {
    match e
    case CourseEvent(ce) => !Course.Touches(ce, Course.Row(id, step))
    case LearnerRequest(r) => !r.CancelAssignment? && !r.OtherStepStarted? && !r.OtherStepsFinish?
  }

  /** How the learner sees that an operation changed the status of its assignment. */
  function Echo(before: Status, after: Status): Run {
    if before == after then []
    else match after
      case Pending => []
      case InProgress => [LearnerRequest(Cursor.OtherStepStarted)]
      case Completed => [LearnerRequest(Cursor.OtherStepsFinish)]
      case Cancelled => [LearnerRequest(Cursor.CancelAssignment)]
  }

  /** The course operation behind a request that started or completed the row. */
  function Effect(db: Course.Db, id: Uuid, step: Uuid, before: RowStatus, after: RowStatus): Run
    requires id in db.assignments
  {
    var companyId := db.assignments[id].companyId;
    if before == after then []
    else if after == Done then [CourseEvent(Course.CompleteStep(companyId, id, step, true))]
    else [CourseEvent(Course.StartStep(companyId, id, step))]
  }

  /** Completing the step completes the assignment. */
  ghost predicate IsLastStep(db: Course.Db, id: Uuid, step: Uuid)
    requires id in db.assignments
  {
    var after := Course.Next(db, Course.CompleteStep(db.assignments[id].companyId, id, step, true));
    id in after.assignments && after.assignments[id].status == Completed
  }

  /** Whether it was the last step is for the database to say. */
  function WithLastStep(r: Cursor.Request, last: bool): Cursor.Request {
    if r.FinishComplete? || r.DirectComplete? then r.(lastStep := last) else r
  }

  /** One operation or request with its effect on the other side. */
  ghost function Both(reader: Reader, db: Course.Db, l: Cursor.Learner, id: Uuid, step: Uuid, e: Event): Run
    requires id in db.assignments
  {
    match e
    case CourseEvent(ce) =>
      var next := Course.Next(db, ce);
      [e] + if id in next.assignments then Echo(db.assignments[id].status, next.assignments[id].status) else []
    case LearnerRequest(r) =>
      var made := WithLastStep(r, IsLastStep(db, id, step));
      var next := Cursor.Next(l, made, BlocksRead(reader, db, id, step));
      [LearnerRequest(made)] + Effect(db, id, step, l.row, next.row)
  }

  lemma AfterOne(reader: Reader, db: Course.Db, l: Cursor.Learner, id: Uuid, step: Uuid, e: Event)
    ensures CourseAfter(db, [e]) == if e.CourseEvent? then Course.Next(db, e.e) else db
    ensures LearnerAfter(reader, db, l, id, step, [e])
         == if e.CourseEvent? then l else Cursor.Next(l, e.r, BlocksRead(reader, db, id, step))
  {
    hide Course.Next, Cursor.Next, BlocksRead;
    assert [e][1..] == [];
  }

  lemma {:induction false} AfterAppend(
      reader: Reader, db: Course.Db, l: Cursor.Learner, id: Uuid, step: Uuid, first: Run, second: Run)
    ensures CourseAfter(db, first + second) == CourseAfter(CourseAfter(db, first), second)
    ensures LearnerAfter(reader, db, l, id, step, first + second)
         == LearnerAfter(reader, CourseAfter(db, first), LearnerAfter(reader, db, l, id, step, first), id, step, second)
    decreases |first|
  {
    hide Course.Next, Cursor.Next, BlocksRead;
    if first == [] {
      assert first + second == second;
    } else {
      assert (first + second)[1..] == first[1..] + second;
      if first[0].CourseEvent? {
        AfterAppend(reader, Course.Next(db, first[0].e), l, id, step, first[1..], second);
      } else {
        AfterAppend(reader, db, Cursor.Next(l, first[0].r, BlocksRead(reader, db, id, step)), id, step, first[1..], second);
      }
    }
  }

  /** An operation on the course, seen by the learner. */
  lemma OperationKeepsAgreement(reader: Reader, db: Course.Db, l: Cursor.Learner, id: Uuid, step: Uuid, ce: Course.Event)
    requires Course.Inv(db) && Agrees(db, l, id, step) && !Course.Touches(ce, Course.Row(id, step))
    ensures var both := Both(reader, db, l, id, step, CourseEvent(ce));
      Course.Inv(CourseAfter(db, both)) && Agrees(CourseAfter(db, both), LearnerAfter(reader, db, l, id, step, both), id, step)
  {
    hide Course.Inv, Course.Next, BlocksRead, CourseAfter, LearnerAfter;
    var e, next := CourseEvent(ce), Course.Next(db, ce);
    Course.StepKeepsInv(db, ce);
    Course.StepKeepsRecord(db, ce, id);
    Course.NeverBackToPending(db, ce, id);
    if l.assignment != Cancelled {
      Course.StepKeepsRow(db, ce, Course.Row(id, step));
    }
    AfterOne(reader, db, l, id, step, e);
    var echo := Echo(db.assignments[id].status, next.assignments[id].status);
    AfterAppend(reader, db, l, id, step, [e], echo);
    if echo != [] {
      AfterOne(reader, next, l, id, step, echo[0]);
      assert echo == [echo[0]];
    } else {
      NothingAfter(reader, next, l, id, step);
    }
  }

  lemma NothingAfter(reader: Reader, db: Course.Db, l: Cursor.Learner, id: Uuid, step: Uuid)
    ensures CourseAfter(db, []) == db && LearnerAfter(reader, db, l, id, step, []) == l
  {
  }

  /** A request on the row, done on the database. */
  lemma RequestKeepsAgreement(reader: Reader, db: Course.Db, l: Cursor.Learner, id: Uuid, step: Uuid, r: Cursor.Request)
    requires Course.Inv(db) && Agrees(db, l, id, step) && Proper(LearnerRequest(r), id, step)
    ensures var both := Both(reader, db, l, id, step, LearnerRequest(r));
      Course.Inv(CourseAfter(db, both)) && Agrees(CourseAfter(db, both), LearnerAfter(reader, db, l, id, step, both), id, step)
  {
    hide Course.Inv, Course.Next, Cursor.Next, BlocksRead, CourseAfter, LearnerAfter, IsLastStep;
    var made := WithLastStep(r, IsLastStep(db, id, step));
    var next := Cursor.Next(l, made, BlocksRead(reader, db, id, step));
    var effect := Effect(db, id, step, l.row, next.row);
    AfterOne(reader, db, l, id, step, LearnerRequest(made));
    AfterAppend(reader, db, l, id, step, [LearnerRequest(made)], effect);
    RequestMoves(l, r, IsLastStep(db, id, step), BlocksRead(reader, db, id, step));
    if effect == [] {
      NothingAfter(reader, db, next, id, step);
    } else {
      AfterOne(reader, db, next, id, step, effect[0]);
      assert effect == [effect[0]];
      Course.StepKeepsInv(db, effect[0].e);
      EffectMoves(db, l, id, step);
    }
  }

  /** A request leaves assignment and row alone, starts the row, or completes it. */
  lemma RequestMoves(l: Cursor.Learner, r: Cursor.Request, last: bool, blocks: nat)
    requires !r.CancelAssignment? && !r.OtherStepStarted? && !r.OtherStepsFinish?
    ensures var next := Cursor.Next(l, WithLastStep(r, last), blocks);
      || (next.assignment == l.assignment && next.row == l.row)
      || (Cursor.Workable(l) && l.row == NotStarted && next.row == Started && next.assignment == Active(l.assignment))
      || (Cursor.Workable(l) && next.row == Done && next.assignment == if last then Completed else InProgress)
  {
  }

  lemma EffectMoves(db: Course.Db, l: Cursor.Learner, id: Uuid, step: Uuid)
    requires Course.Inv(db) && Agrees(db, l, id, step) && Cursor.Workable(l)
    ensures var row, companyId := Course.Row(id, step), db.assignments[id].companyId;
      var started := Course.Next(db, Course.StartStep(companyId, id, step));
      var completed := Course.Next(db, Course.CompleteStep(companyId, id, step, true));
      && (l.row == NotStarted ==> Agrees(started, l.(row := Started, assignment := Active(l.assignment)), id, step))
      && Agrees(completed, l.(row := Done, assignment := if IsLastStep(db, id, step) then Completed else InProgress), id, step)
  {
    Course.HomesOf(db);
    assert Course.Row(id, step) in db.progress;
    hide Course.Inv, Course.Next, IsLastStep, Agrees;
    if l.row == NotStarted {
      StartAgrees(db, l, id, step);
    }
    CompletionAgrees(db, l, id, step);
  }

  lemma StartAgrees(db: Course.Db, l: Cursor.Learner, id: Uuid, step: Uuid)
    requires Agrees(db, l, id, step) && Cursor.Workable(l) && l.row == NotStarted
    ensures Agrees(Course.Next(db, Course.StartStep(db.assignments[id].companyId, id, step)),
                   l.(row := Started, assignment := Active(l.assignment)), id, step)
  {
  }

  lemma CompletionAgrees(db: Course.Db, l: Cursor.Learner, id: Uuid, step: Uuid)
    requires Agrees(db, l, id, step) && Cursor.Workable(l)
    requires db.assignments[id].programId in db.programs && step in db.programs[db.assignments[id].programId].steps
    ensures var completed := Course.Next(db, Course.CompleteStep(db.assignments[id].companyId, id, step, true));
      Agrees(completed, l.(row := Done, assignment := if IsLastStep(db, id, step) then Completed else InProgress), id, step)
  {
    hide Course.AllRequiredDone;
    assert Course.StepExists(db, step);
  }

  /** The run on one database: every operation and request with its effect on the other side. */
  ghost function OnOne(reader: Reader, db: Course.Db, l: Cursor.Learner, id: Uuid, step: Uuid, run: Run): Run
    decreases |run|
  {
    if run == [] || id !in db.assignments then []
    else
      var both := Both(reader, db, l, id, step, run[0]);
      both + OnOne(reader, CourseAfter(db, both), LearnerAfter(reader, db, l, id, step, both), id, step, run[1..])
  }

  /** Learner and database agree after every run of operations and requests. */
  lemma {:induction false} AgreementHolds(reader: Reader, db: Course.Db, l: Cursor.Learner, id: Uuid, step: Uuid, run: Run)
    requires Course.Inv(db) && Agrees(db, l, id, step)
    requires forall i :: 0 <= i < |run| ==> Proper(run[i], id, step)
    ensures var whole := OnOne(reader, db, l, id, step, run);
      Course.Inv(CourseAfter(db, whole)) && Agrees(CourseAfter(db, whole), LearnerAfter(reader, db, l, id, step, whole), id, step)
    decreases |run|
  {
    hide Course.Inv, CourseAfter, LearnerAfter, Both;
    if run == [] {
      NothingAfter(reader, db, l, id, step);
    } else {
      var both := Both(reader, db, l, id, step, run[0]);
      var db', l' := CourseAfter(db, both), LearnerAfter(reader, db, l, id, step, both);
      assert Proper(run[0], id, step);
      if run[0].CourseEvent? {
        OperationKeepsAgreement(reader, db, l, id, step, run[0].e);
      } else {
        RequestKeepsAgreement(reader, db, l, id, step, run[0].r);
      }
      AgreementHolds(reader, db', l', id, step, run[1..]);
      AfterAppend(reader, db, l, id, step, both, OnOne(reader, db', l', id, step, run[1..]));
    }
  }

  /**
   One database under any interleaving of course operations and requests on one row: the cursor
   stays sound exactly when general completions leave it at the last block, and then a row that the
   database has as completed stands at the last block of what the employee reads.
   */
  lemma CompletedRowsAreReadToTheEnd(reader: Reader, db: Course.Db, l: Cursor.Learner, id: Uuid, step: Uuid, run: Run)
    requires Course.Inv(db) && Agrees(db, l, id, step)
    requires forall i :: 0 <= i < |run| ==> Proper(run[i], id, step)
    requires Cursor.Inv(l, BlocksRead(reader, db, id, step))
    ensures var whole := OnOne(reader, db, l, id, step, run);
      var after, l' := CourseAfter(db, whole), LearnerAfter(reader, db, l, id, step, whole);
      var blocks := BlocksRead(reader, after, id, step);
      && Agrees(after, l', id, step)
      && (Frozen(db, after, id, step) ==>
            (Cursor.Inv(l', blocks) <==> Cursor.DirectAtLast(l, LearnerRequests(whole), blocks)))
      && (Frozen(db, after, id, step) && Cursor.DirectAtLast(l, LearnerRequests(whole), blocks) && RowCompleted(after, id, step) ==>
            Cursor.Current(l') == Cursor.LastBlock(blocks))
  {
    hide Course.Inv, Cursor.Inv, CourseAfter, LearnerAfter, OnOne, Frozen, BlocksRead, Cursor.DirectAtLast;
    var whole := OnOne(reader, db, l, id, step, run);
    AgreementHolds(reader, db, l, id, step, run);
    var after, l' := CourseAfter(db, whole), LearnerAfter(reader, db, l, id, step, whole);
    if l'.assignment == Cancelled {
      Course.CancelledHasNoRows(after, Course.Row(id, step));
    }
    if Frozen(db, after, id, step) {
      CursorStaysOnTheBlocksRead(reader, db, l, id, step, whole);
    }
  }

  predicate RowCompleted(db: Course.Db, id: Uuid, step: Uuid) {
    Course.Row(id, step) in db.progress && db.progress[Course.Row(id, step)] == Done
  }
}
