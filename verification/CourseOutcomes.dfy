/**
 What each course operation does, in terms of the stored rows alone: when it succeeds, which error it
 gives otherwise, what it writes, and what that adds up to over a run. A row is done exactly when a passing
 completion of it succeeded, an assignment is cancelled exactly when a cancellation of it did, and a course
 that is never activated is never assigned.
 */
module CourseOutcomes {
  import opened Common
  import opened Lists
  import opened CourseStructure
  import opened CourseGenerations
  import opened Statuses

  // ---------- working on a row ----------

  /** The company's open assignment has the row, and the row is not done. */
  predicate Workable(db: Db, companyId: Uuid, r: Row) {
    && r in db.progress && db.progress[r] != Done
    && r.assignment in db.assignments && db.assignments[r.assignment].companyId == companyId
    && (db.assignments[r.assignment].status == Pending || db.assignments[r.assignment].status == InProgress)
  }

  /** Some course has the step, but not the course of the assignment. */
  predicate OfOtherCourse(db: Db, id: Uuid, step: Uuid)
    requires id in db.assignments
  {
    && (exists p :: p in db.programs && step in db.programs[p].steps)
    && !(db.assignments[id].programId in db.programs && step in db.programs[db.assignments[id].programId].steps)
  }

  /** A completion succeeds exactly on a row that can be worked on, and every refusal has its own error. */
  lemma CompletionOutcome(db: Db, companyId: Uuid, id: Uuid, step: Uuid, passed: bool)
    requires Inv(db)
    ensures var outcome, row := Outcome(db, CompleteStep(companyId, id, step, passed)), Row(id, step);
      var mine := id in db.assignments && db.assignments[id].companyId == companyId;
      && (outcome.Ok? <==> Workable(db, companyId, row))
      && (outcome == Err(Conflict) <==> mine && row in db.progress && db.progress[row] == Done)
      && (outcome == Err(Validation) <==>
            mine && (|| db.assignments[id].status == Cancelled || OfOtherCourse(db, id, step)
                     || (row in db.progress && db.progress[row] != Done && db.assignments[id].status == Completed)))
      && (outcome == Err(NotFound) <==>
            !mine || (row !in db.progress && db.assignments[id].status != Cancelled && !OfOtherCourse(db, id, step)))
  {
    hide AllRequiredDone;
    HomesOf(db);
    if id in db.assignments && db.assignments[id].status == Cancelled {
      CancelledHasNoRows(db, Row(id, step));
    }
    hide Inv;
  }

  /** All the required steps are done; all the steps, when none is required. */
  predicate FinishedRun(rows: Rows, id: Uuid, snapshot: seq<SnapStep>) {
    var nothingRequired := forall k :: 0 <= k < |snapshot| ==> !snapshot[k].shape.required;
    forall k :: 0 <= k < |snapshot| && (snapshot[k].shape.required || nothingRequired) ==>
      && Row(id, snapshot[k].id) in rows
      && (rows[Row(id, snapshot[k].id)] == Done || rows[Row(id, snapshot[k].id)] == Skipped)
  }

  /**
   Without a snapshot the live steps decide: every required one that has a row is done, or, when none is
   required, every row of the assignment.
   */
  predicate FinishedLegacyRun(rows: Rows, id: Uuid, listed: seq<Uuid>, steps: Steps)
    requires forall k :: 0 <= k < |listed| ==> listed[k] in steps
  {
    && (forall k :: 0 <= k < |listed| && steps[listed[k]].required && Row(id, listed[k]) in rows ==>
          rows[Row(id, listed[k])] == Done || rows[Row(id, listed[k])] == Skipped)
    && ((exists k :: 0 <= k < |listed| && steps[listed[k]].required)
        || forall r :: r in rows && r.assignment == id ==> rows[r] == Done || rows[r] == Skipped)
  }

  lemma AllRequiredDoneIsFinished(rows: Rows, id: Uuid, listed: seq<Uuid>, steps: Steps)
    requires forall k :: 0 <= k < |listed| ==> listed[k] in steps
    ensures AllRequiredDone(rows, id, listed, steps) <==> FinishedLegacyRun(rows, id, listed, steps)
  {
    forall r | r in rows && r.assignment == id ensures RowDone(rows, id, r.step) <==> rows[r] == Done || rows[r] == Skipped {
      assert Row(id, r.step) == r;
    }
  }

  /**
   A completion that succeeds writes one row and one status: done when it passed and started when it did
   not, and the assignment completed exactly when that finishes the run of its snapshot.
   */
  lemma CompletionWrites(db: Db, companyId: Uuid, id: Uuid, step: Uuid, passed: bool)
    requires Inv(db) && Workable(db, companyId, Row(id, step))
    ensures var after := Next(db, CompleteStep(companyId, id, step, passed));
      && after.programs == db.programs
      && after.progress == db.progress[Row(id, step) := if passed then Done else Started]
      && id in after.assignments && after.assignments[id].status in {InProgress, Completed}
      && after.assignments == db.assignments[id := db.assignments[id].(status := after.assignments[id].status)]
      && (db.assignments[id].snapshot.Some? ==>
            (after.assignments[id].status == Completed <==> FinishedRun(after.progress, id, db.assignments[id].snapshot.value)))
      && db.assignments[id].programId in db.programs
      && (var steps := db.programs[db.assignments[id].programId].steps;
          db.assignments[id].snapshot.None? ==>
            (after.assignments[id].status == Completed <==> FinishedLegacyRun(after.progress, id, Listed(steps), steps)))
  {
    hide Inv, Next, Outcome, Completion, AllRequiredDone, Listed, RunDone, FinishedRun, FinishedLegacyRun;
    CompletionOutcome(db, companyId, id, step, passed);
    CompletionValue(db, companyId, id, step, passed);
    var steps := db.programs[db.assignments[id].programId].steps;
    AllRequiredDoneIsFinished(db.progress[Row(id, step) := if passed then Done else Started], id, Listed(steps), steps);
    var rows := db.progress[Row(id, step) := if passed then Done else Started];
    if db.assignments[id].snapshot.Some? {
      CompletionSeesTheSnapshot(db, id, rows);
      RunDoneIsFinished(rows, id, db.assignments[id].snapshot.value);
    }
  }

  lemma CompletionValue(db: Db, companyId: Uuid, id: Uuid, step: Uuid, passed: bool)
    requires Outcome(db, CompleteStep(companyId, id, step, passed)).Ok?
    ensures id in db.assignments && db.assignments[id].programId in db.programs
    ensures var rows, steps := db.progress[Row(id, step) := if passed then Done else Started],
                               db.programs[db.assignments[id].programId].steps;
      Next(db, CompleteStep(companyId, id, step, passed))
      == WithRun(db, id, if AllRequiredDone(rows, id, Listed(steps), steps) then Completed else InProgress, rows)
  {
    hide AllRequiredDone, Listed;
  }

  lemma RunDoneIsFinished(rows: Rows, id: Uuid, snapshot: seq<SnapStep>)
    ensures RunDone(rows, id, snapshot) <==> FinishedRun(rows, id, snapshot)
  {
  }

  lemma StartOutcome(db: Db, companyId: Uuid, id: Uuid, step: Uuid)
    requires Inv(db)
    ensures var outcome, row := Outcome(db, StartStep(companyId, id, step)), Row(id, step);
      var mine := row in db.progress && id in db.assignments && db.assignments[id].companyId == companyId;
      && (outcome.Ok? <==> Workable(db, companyId, row))
      && (outcome == Err(NotFound) <==> !mine)
      && (outcome == Err(Conflict) <==> mine && db.progress[row] == Done)
      && (outcome == Err(Validation) <==> mine && db.progress[row] != Done && db.assignments[id].status == Completed)
  {
    hide Inv;
    if id in db.assignments && db.assignments[id].status == Cancelled {
      CancelledHasNoRows(db, Row(id, step));
    }
  }

  /** A start that succeeds starts a row that was not started, and its assignment with it; any other row stays. */
  lemma StartWrites(db: Db, companyId: Uuid, id: Uuid, step: Uuid)
    requires Workable(db, companyId, Row(id, step))
    ensures var row := Row(id, step);
      Next(db, StartStep(companyId, id, step))
      == if db.progress[row] != NotStarted then db
         else Db(db.programs, db.assignments[id := db.assignments[id].(status := InProgress)], db.progress[row := Started])
  {
  }

  /** A cancellation succeeds exactly on an open assignment of the company; it drops its rows and nothing else. */
  lemma CancellationOutcome(db: Db, companyId: Uuid, id: Uuid)
    ensures var outcome := Outcome(db, Cancel(companyId, id));
      var mine := id in db.assignments && db.assignments[id].companyId == companyId;
      && (outcome == Err(NotFound) <==> !mine)
      && (outcome == Err(Validation) <==> mine && db.assignments[id].status in {Completed, Cancelled})
      && (outcome.Ok? <==> mine && db.assignments[id].status in {Pending, InProgress})
      && (outcome.Ok? ==>
            && outcome.value.programs == db.programs
            && outcome.value.assignments == db.assignments[id := db.assignments[id].(status := Cancelled)]
            && (forall r :: r in outcome.value.progress <==> r in db.progress && r.assignment != id)
            && (forall r :: r in outcome.value.progress ==> outcome.value.progress[r] == db.progress[r]))
  {
  }

  // ---------- one row over a run ----------

  predicate Cancels(db: Db, e: Event, id: Uuid) {
    && e.Cancel? && e.id == id && id in db.assignments && db.assignments[id].companyId == e.companyId
    && (db.assignments[id].status == Pending || db.assignments[id].status == InProgress)
  }

  /** A passing completion of the row that succeeds. */
  predicate Passes(db: Db, e: Event, r: Row) {
    e.CompleteStep? && e.passed && Row(e.id, e.step) == r && Workable(db, e.companyId, r)
  }

  /** A failed attempt at the row, or a start of it, that succeeds. */
  predicate Attempts(db: Db, e: Event, r: Row) {
    && Touches(e, r) && Workable(db, e.companyId, r)
    && (if e.CompleteStep? then !e.passed else db.progress[r] == NotStarted)
  }

  lemma OthersKeepTheStatus(db: Db, e: Event, id: Uuid)
    requires id in db.assignments && id in Next(db, e).assignments
    requires !(e.Cancel? && e.id == id) && !((e.StartStep? || e.CompleteStep?) && e.id == id)
    ensures Next(db, e).assignments[id] == db.assignments[id]
  {
    hide EnrolledUpTo, AllRequiredDone, HasOpen, Listed, RowsDropped, Clash, Placed, IsListing, NextPosition, Available, Locked,
      HasProgress, Distinct;
    if e.AssignMany? && Outcome(db, e).Ok? {
      EnrolledKeepsRecords(db, e.programId, e.recipients, e.ids, |e.recipients|, id);
    }
  }

  lemma FailedChangesNothing(db: Db, e: Event)
    ensures Next(db, e) == if Outcome(db, e).Err? then db else Outcome(db, e).value
  {
    hide Outcome;
  }

  /** Every event, seen from one assignment: only its own events write its status. */
  lemma StepMovesStatus(db: Db, e: Event, id: Uuid)
    requires Inv(db) && id in db.assignments
    ensures id in Next(db, e).assignments
    ensures var before, after := db.assignments[id], Next(db, e).assignments[id];
      && after == before.(status := after.status)
      && (after.status == Cancelled <==> before.status == Cancelled || Cancels(db, e, id))
      && (after.status != before.status ==>
            || Cancels(db, e, id)
            || (after.status == InProgress && e.StartStep? && e.id == id && Attempts(db, e, Row(id, e.step)))
            || (after.status in {InProgress, Completed} && e.CompleteStep? && e.id == id && Workable(db, e.companyId, Row(id, e.step))))
  {
    hide Inv, Next, Outcome, FinishedRun, FinishedLegacyRun, Listed;
    StepKeepsRecord(db, e, id);
    FailedChangesNothing(db, e);
    if e.Cancel? && e.id == id {
      CancellationOutcome(db, e.companyId, id);
    } else if e.StartStep? && e.id == id {
      StartOutcome(db, e.companyId, id, e.step);
      if Workable(db, e.companyId, Row(id, e.step)) {
        StartWrites(db, e.companyId, id, e.step);
      }
    } else if e.CompleteStep? && e.id == id {
      CompletionOutcome(db, e.companyId, id, e.step, e.passed);
      if Workable(db, e.companyId, Row(id, e.step)) {
        CompletionWrites(db, e.companyId, id, e.step, e.passed);
      }
    } else {
      OthersKeepTheStatus(db, e, id);
    }
  }

  /** Every event, seen from one row: it goes with the cancellation, and only its own events write it. */
  lemma StepMovesRow(db: Db, e: Event, r: Row)
    requires Inv(db) && r in db.progress
    ensures r.assignment in db.assignments
    ensures r in Next(db, e).progress <==> !Cancels(db, e, r.assignment)
    ensures r in Next(db, e).progress ==>
      Next(db, e).progress[r] == if Passes(db, e, r) then Done else if Attempts(db, e, r) then Started else db.progress[r]
  {
    HomesOf(db);
    hide Inv, Next, Outcome, FinishedRun, FinishedLegacyRun, Listed;
    StepKeepsInv(db, e);
    StepMovesStatus(db, e, r.assignment);
    FailedChangesNothing(db, e);
    if db.assignments[r.assignment].status == Cancelled {
      CancelledHasNoRows(db, r);
    }
    if Next(db, e).assignments[r.assignment].status == Cancelled {
      CancelledHasNoRows(Next(db, e), r);
    } else if Touches(e, r) && e.StartStep? {
      StartOutcome(db, e.companyId, e.id, e.step);
      if Workable(db, e.companyId, r) {
        StartWrites(db, e.companyId, e.id, e.step);
      }
    } else if Touches(e, r) {
      CompletionOutcome(db, e.companyId, e.id, e.step, e.passed);
      if Workable(db, e.companyId, r) {
        CompletionWrites(db, e.companyId, e.id, e.step, e.passed);
      }
    } else {
      StepKeepsRow(db, e, r);
    }
  }

  ghost function PassesOf(db: Db, run: Run, r: Row): nat
    decreases |run|
  {
    if run == [] then 0 else (if Passes(db, run[0], r) then 1 else 0) + PassesOf(Next(db, run[0]), run[1..], r)
  }

  ghost function CancelsOf(db: Db, run: Run, id: Uuid): nat
    decreases |run|
  {
    if run == [] then 0 else (if Cancels(db, run[0], id) then 1 else 0) + CancelsOf(Next(db, run[0]), run[1..], id)
  }

  /** A cancelled assignment stays cancelled, without rows, and nothing about it succeeds any more. */
  lemma {:induction false} CancelledForEver(db: Db, run: Run, r: Row)
    requires Inv(db) && r.assignment in db.assignments && db.assignments[r.assignment].status == Cancelled
    ensures r.assignment in Exec(db, run).assignments && Exec(db, run).assignments[r.assignment].status == Cancelled
    ensures r !in Exec(db, run).progress && PassesOf(db, run, r) == 0 && CancelsOf(db, run, r.assignment) == 0
    decreases |run|
  {
    CancelledHasNoRows(db, r);
    hide Inv, Next;
    if run != [] {
      StepKeepsInv(db, run[0]);
      StepMovesStatus(db, run[0], r.assignment);
      CancelledForEver(Next(db, run[0]), run[1..], r);
    }
  }

  /**
   Over every run a row is done at the end exactly when it was before or a passing completion of it succeeded,
   which happens at most once; it is there at the end exactly when no cancellation of its assignment succeeded.
   However often attempts at it fail, they do not complete it.
   */
  lemma {:induction false} RowDoneIffPassed(db: Db, run: Run, r: Row)
    requires Inv(db) && r in db.progress
    ensures r.assignment in db.assignments
    ensures r in Exec(db, run).progress <==> CancelsOf(db, run, r.assignment) == 0
    ensures PassesOf(db, run, r) <= (if db.progress[r] == Done then 0 else 1)
    ensures r in Exec(db, run).progress ==>
      (Exec(db, run).progress[r] == Done <==> db.progress[r] == Done || PassesOf(db, run, r) == 1)
    decreases |run|
  {
    HomesOf(db);
    hide Inv, Next, Homes;
    if run != [] {
      var next := Next(db, run[0]);
      StepKeepsInv(db, run[0]);
      StepMovesRow(db, run[0], r);
      StepMovesStatus(db, run[0], r.assignment);
      if Cancels(db, run[0], r.assignment) {
        CancelledForEver(next, run[1..], r);
      } else {
        RowDoneIffPassed(next, run[1..], r);
      }
    }
  }

  /** Over every run an assignment is cancelled exactly when it was before or one cancellation of it succeeded. */
  lemma {:induction false} CancelledIffCancelSucceeded(db: Db, run: Run, id: Uuid)
    requires Inv(db) && id in db.assignments
    ensures id in Exec(db, run).assignments
    ensures Exec(db, run).assignments[id].status == Cancelled
       <==> db.assignments[id].status == Cancelled || CancelsOf(db, run, id) > 0
    decreases |run|
  {
    hide Inv, Next;
    if run != [] {
      StepKeepsInv(db, run[0]);
      StepMovesStatus(db, run[0], id);
      CancelledIffCancelSucceeded(Next(db, run[0]), run[1..], id);
    }
  }

  // ---------- what snapshots and revisions record ----------

  /** The snapshot lists the steps by position, each as it is: id, title, position, kind, required flag and content. */
  lemma SnapshotRecordsTheSteps(steps: Steps)
    requires UniquePositions(steps)
    ensures var snapshot := Snapshot(steps);
      && |snapshot| == Min(|steps|, 1000)
      && (forall i :: 0 <= i < |snapshot| ==>
            var s := snapshot[i];
            && s.id in steps && s.title == steps[s.id].title
            && s.shape.position == steps[s.id].position && s.shape.kind == steps[s.id].kind
            && s.shape.required == steps[s.id].required && s.shape.content == steps[s.id].content)
      && (forall i, j :: 0 <= i < j < |snapshot| ==> snapshot[i].shape.position < snapshot[j].shape.position)
      && (forall i, id :: 0 <= i < |snapshot| && id in steps && steps[id].position < snapshot[i].shape.position ==>
            exists k :: 0 <= k < i && snapshot[k].id == id)
  {
    OrderCounts(steps);
    var order, listed, snapshot := Order(steps), Listed(steps), Snapshot(steps);
    assert IsOrder(steps, order);
    hide UniquePositions;
    forall i, j | 0 <= i < j < |snapshot| ensures snapshot[i].shape.position < snapshot[j].shape.position {
      assert listed[i] == order[i] && listed[j] == order[j];
    }
    forall i, id | 0 <= i < |snapshot| && id in steps && steps[id].position < snapshot[i].shape.position
      ensures exists k :: 0 <= k < i && snapshot[k].id == id
    {
      forall k | i <= k < |order| ensures steps[order[k]].position >= steps[order[i]].position {
      }
      assert listed[i] == order[i];
      var k :| 0 <= k < |order| && order[k] == id;
      assert snapshot[k].id == listed[k] == id;
    }
  }

  lemma {:induction false} LastRecordWins(ids: seq<Uuid>, entries: seq<SnapStep>, n: nat, i: nat)
    requires i < n <= |ids| == |entries| && forall j :: i < j < n ==> ids[j] != ids[i]
    ensures ids[i] in RecordUpTo(ids, entries, n) && RecordUpTo(ids, entries, n)[ids[i]] == entries[i]
    decreases n
  {
    if i < n - 1 {
      LastRecordWins(ids, entries, n - 1, i);
    }
  }

  /** An assignment reads a step from the last entry of its snapshot that has it, and only without one from the course. */
  lemma StepIsReadFromTheSnapshot(snapshot: Option<seq<SnapStep>>, steps: Steps, step: Uuid, i: nat)
    requires snapshot.Some? ==> i <= |snapshot.value|
    requires snapshot.Some? && i < |snapshot.value| ==>
      snapshot.value[i].id == step && forall j :: i < j < |snapshot.value| ==> snapshot.value[j].id != step
    requires snapshot.Some? && i == |snapshot.value| ==> forall j :: 0 <= j < |snapshot.value| ==> snapshot.value[j].id != step
    ensures Resolved(snapshot, steps, step)
         == if snapshot.Some? && i < |snapshot.value| then Some(Fields(snapshot.value[i].title, snapshot.value[i].shape))
            else if step in steps then Some(Fields(steps[step].title,
              Shape(steps[step].position, steps[step].kind, steps[step].required, steps[step].content)))
            else None
  {
    if snapshot.Some? {
      var ids, n := SnapIds(snapshot.value), |snapshot.value|;
      if i < n {
        LastRecordWins(ids, snapshot.value, n, i);
      } else {
        RecordKeys(ids, snapshot.value, n);
        SeenMeans(ids, n, step);
      }
    }
  }

  /** As long as the revision of a course stays, so do the ids of its steps and everything about them but their titles. */
  lemma SameRevisionSameSteps(db: Db, run: Run, programId: Uuid)
    requires Inv(db) && programId in db.programs
    ensures programId in Exec(db, run).programs
    ensures var before, after := db.programs[programId], Exec(db, run).programs[programId];
      before.revision == after.revision ==>
        && before.steps.Keys == after.steps.Keys
        && forall s :: s in before.steps ==>
             && after.steps[s].position == before.steps[s].position && after.steps[s].kind == before.steps[s].kind
             && after.steps[s].required == before.steps[s].required && after.steps[s].content == before.steps[s].content
  {
    hide Inv, Exec, Shapes;
    RevisionNamesOneStructure(db, run, programId);
    var before, after := db.programs[programId], Exec(db, run).programs[programId];
    if before.revision == after.revision {
      SameShapesSameSteps(before.steps, after.steps);
    }
  }

  // ---------- bulk assignment ----------

  /** The employee is still at work on the course. */
  predicate OpenRun(a: Assignment, programId: Uuid, employee: Uuid) {
    a.programId == programId && a.employeeId == employee && (a.status == Pending || a.status == InProgress)
  }

  predicate SomeoneIsBusy(db: Db, programId: Uuid, recipients: seq<Uuid>) {
    exists k, id :: 0 <= k < |recipients| && id in db.assignments && OpenRun(db.assignments[id], programId, recipients[k])
  }

  lemma NothingListedIffEmpty(steps: Steps)
    requires UniquePositions(steps)
    ensures Listed(steps) == [] <==> steps == map[]
  {
    OrderCounts(steps);
    assert |steps| == 0 <==> steps == map[];
  }

  lemma BusyIsHasOpen(db: Db, programId: Uuid, recipients: seq<Uuid>)
    ensures (exists k :: 0 <= k < |recipients| && HasOpen(db, programId, recipients[k]))
       <==> SomeoneIsBusy(db, programId, recipients)
  {
    if k :| 0 <= k < |recipients| && HasOpen(db, programId, recipients[k]) {
      var id :| id in db.assignments && db.assignments[id].programId == programId
        && db.assignments[id].employeeId == recipients[k] && Open(db.assignments[id]);
      assert OpenRun(db.assignments[id], programId, recipients[k]);
    }
    if SomeoneIsBusy(db, programId, recipients) {
      var k, id :| 0 <= k < |recipients| && id in db.assignments && OpenRun(db.assignments[id], programId, recipients[k]);
      assert HasOpen(db, programId, recipients[k]);
    }
  }

  /**
   A bulk assignment succeeds exactly on a published course of the company that has a step and on which no
   recipient is still at work; every refusal has its own error.
   */
  lemma BulkOutcome(db: Db, companyId: Uuid, programId: Uuid, recipients: seq<Uuid>, ids: seq<Uuid>)
    requires Inv(db)
    ensures var outcome := Outcome(db, AssignMany(companyId, programId, recipients, ids));
      var mine := programId in db.programs && db.programs[programId].companyId == companyId;
      var ready := mine && db.programs[programId].active && db.programs[programId].steps != map[];
      var fresh_ := |ids| == |recipients| && Distinct(ids) && Distinct(recipients)
                    && forall k :: 0 <= k < |ids| ==> ids[k] !in db.assignments;
      && (outcome.Ok? <==> ready && !SomeoneIsBusy(db, programId, recipients) && fresh_)
      && (outcome == Err(NotFound) <==> !mine)
      && (outcome == Err(Validation) <==> mine && !ready)
      && (outcome == Err(Conflict) <==> ready && SomeoneIsBusy(db, programId, recipients))
      && (outcome == Err(Integrity) <==> ready && !SomeoneIsBusy(db, programId, recipients) && !fresh_)
  {
    HomesOf(db);
    BusyIsHasOpen(db, programId, recipients);
    if programId in db.programs {
      NothingListedIffEmpty(db.programs[programId].steps);
    }
    forall r | r in db.progress ensures r.assignment in db.assignments {
    }
    hide Inv, Homes, HasOpen, SomeoneIsBusy, Listed, EnrolledUpTo, Distinct;
  }

  /** Every new assignment comes from a bulk assignment of its course, while the course is published. */
  lemma StepAssigns(db: Db, e: Event, id: Uuid)
    requires Inv(db) && id !in db.assignments && id in Next(db, e).assignments
    ensures e.AssignMany? && |e.ids| == |e.recipients| && Next(db, e).assignments[id].programId == e.programId
    ensures e.programId in db.programs && db.programs[e.programId].active && db.programs[e.programId].companyId == e.companyId
    ensures exists k :: 0 <= k < |e.ids| && e.ids[k] == id && Next(db, e).assignments[id].employeeId == e.recipients[k]
  {
    FailedChangesNothing(db, e);
    if e.AssignMany? {
      BulkOutcome(db, e.companyId, e.programId, e.recipients, e.ids);
      BulkIsAllOrNothing(db, e.companyId, e.programId, e.recipients, e.ids);
      hide Inv, Next, Outcome, Listed, Snapshot;
      var n := |e.recipients|;
      assert BulkAssigned(db, Next(db, e), e.programId, e.recipients, e.ids, n);
      assert id in e.ids[..n];
      var k :| 0 <= k < n && e.ids[k] == id;
      assert FreshRun(Next(db, e), e.programId, e.recipients[k], e.ids[k]);
    } else {
      NoOtherEventAssigns(db, e);
    }
  }

  lemma NoOtherEventAssigns(db: Db, e: Event)
    requires !e.AssignMany?
    ensures Next(db, e).assignments.Keys == db.assignments.Keys
  {
    hide AllRequiredDone, HasOpen, Listed, RowsDropped, Clash, Placed, IsListing, NextPosition, Available, Locked,
      HasProgress, Distinct;
  }

  // ---------- courses ----------

  /** Activation succeeds exactly on the company's own course, which needs a step to be published. */
  lemma ActivationOutcome(db: Db, companyId: Uuid, programId: Uuid, active: bool)
    ensures var outcome := Outcome(db, SetActive(companyId, programId, active));
      var mine := programId in db.programs && db.programs[programId].companyId == companyId;
      && (outcome == Err(NotFound) <==> !mine)
      && (outcome == Err(Validation) <==> mine && active && db.programs[programId].steps == map[])
      && (outcome.Ok? <==> mine && (active ==> db.programs[programId].steps != map[]))
      && (outcome.Ok? ==>
            outcome.value == db.(programs := db.programs[programId := db.programs[programId].(active := active)]))
  {
    assert programId in db.programs ==> (|db.programs[programId].steps| == 0 <==> db.programs[programId].steps == map[]);
  }

  /** A new course is empty and not published. */
  lemma NewCourseOutcome(db: Db, companyId: Uuid, programId: Uuid)
    ensures var outcome := Outcome(db, CreateProgram(companyId, programId));
      if programId in db.programs then outcome == Err(Integrity)
      else outcome == Ok(db.(programs := db.programs[programId := Program(companyId, false, 1, map[])]))
  {
  }

  predicate Activates(e: Event, programId: Uuid) {
    e.SetActive? && e.active && e.programId == programId
  }

  lemma StepActivates(db: Db, e: Event, programId: Uuid)
    requires programId in Next(db, e).programs && Next(db, e).programs[programId].active && !Activates(e, programId)
    ensures programId in db.programs && db.programs[programId].active
  {
    hide EnrolledUpTo, AllRequiredDone, FreshIds, HasOpen, Listed, RowsDropped, Clash, Placed, IsListing, NextPosition, Available,
      Locked, HasProgress, Distinct;
  }

  /** A course that is not published gets no assignment until it is. */
  lemma {:induction false} UnpublishedCourseIsNeverAssigned(db: Db, run: Run, programId: Uuid)
    requires Inv(db) && (programId in db.programs ==> !db.programs[programId].active)
    requires forall i :: 0 <= i < |run| ==> !Activates(run[i], programId)
    ensures programId in Exec(db, run).programs ==> !Exec(db, run).programs[programId].active
    ensures forall id :: id in Exec(db, run).assignments && Exec(db, run).assignments[id].programId == programId
              ==> id in db.assignments
    decreases |run|
  {
    hide Inv, Next;
    if run != [] {
      var e, next := run[0], Next(db, run[0]);
      StepKeepsInv(db, e);
      if programId in next.programs && next.programs[programId].active {
        StepActivates(db, e, programId);
      }
      UnpublishedCourseIsNeverAssigned(next, run[1..], programId);
      forall id | id in Exec(db, run).assignments && Exec(db, run).assignments[id].programId == programId
        ensures id in db.assignments
      {
        assert id in next.assignments;
        if id !in db.assignments {
          StepAssigns(db, e, id);
          RecordIsForever(next, run[1..], id);
        }
      }
    }
  }

  // ---------- steps ----------

  predicate OpenOnCourse(db: Db, programId: Uuid) {
    exists id :: id in db.assignments && db.assignments[id].programId == programId
      && (db.assignments[id].status == Pending || db.assignments[id].status == InProgress)
  }

  lemma LockedIsOpenOnCourse(db: Db, programId: Uuid)
    ensures Locked(db, programId) <==> OpenOnCourse(db, programId)
  {
    if OpenOnCourse(db, programId) {
      var id :| id in db.assignments && db.assignments[id].programId == programId
        && (db.assignments[id].status == Pending || db.assignments[id].status == InProgress);
      assert Open(db.assignments[id]);
    }
  }

  /** The database with other steps for one course, and its revision raised when they differ in structure. */
  function WithSteps(db: Db, programId: Uuid, steps: Steps, raised: bool): Db
    requires programId in db.programs
  {
    var program := db.programs[programId];
    db.(programs := db.programs[programId := Program(
      program.companyId, program.active, if raised then program.revision + 1 else program.revision, steps)])
  }

  /** The position asked for, or one above all others; 0 in an empty course. */
  predicate AppendsAt(steps: Steps, at: int) {
    && at >= 0 && (forall s :: s in steps ==> steps[s].position < at)
    && (at == 0 || exists s :: s in steps && steps[s].position == at - 1)
  }

  lemma NextPositionAppends(steps: Steps)
    requires UniquePositions(steps)
    ensures AppendsAt(steps, NextPosition(steps))
  {
    var order := Order(steps);
    if order != [] {
      assert order[|order| - 1] in steps;
    }
  }

  lemma OneAppendPosition(steps: Steps, a: int, b: int)
    requires AppendsAt(steps, a) && AppendsAt(steps, b)
    ensures a == b
  {
  }

  /**
   Adding a step succeeds exactly on the company's own course without open assignments, for a new step at a
   free position; the new step is the draft at that position, and the revision goes up by one.
   */
  lemma StepAdditionOutcome(
      db: Db, companyId: Uuid, programId: Uuid, step: Uuid, position: Option<int>, draft: Draft, at: int)
    requires Inv(db)
    requires programId in db.programs ==> if position.Some? then at == position.value else AppendsAt(db.programs[programId].steps, at)
    ensures var outcome := Outcome(db, AddStep(companyId, programId, step, position, draft));
      var mine := programId in db.programs && db.programs[programId].companyId == companyId;
      var negative := position.Some? && position.value < 0;
      var free := mine && !OpenOnCourse(db, programId) && step !in db.programs[programId].steps
                  && forall s :: s in db.programs[programId].steps ==> db.programs[programId].steps[s].position != at;
      && (outcome == Err(NotFound) <==> !mine)
      && (outcome == Err(Validation) <==> mine && negative)
      && (outcome == Err(Conflict) <==> mine && !negative && !free)
      && (outcome.Ok? <==> mine && !negative && free)
      && (outcome.Ok? ==>
            && at >= 0
            && outcome.value == WithSteps(db, programId, db.programs[programId].steps[
                 step := Step(at, draft.kind, draft.required, draft.content, draft.title)], true))
  {
    hide Inv, UniquePositions, NextPosition, Locked, OpenOnCourse, AppendsAt;
    LockedIsOpenOnCourse(db, programId);
    if programId in db.programs && position.None? {
      NewStepGoesLast(db, programId, at);
    }
  }

  lemma NewStepGoesLast(db: Db, programId: Uuid, at: int)
    requires Inv(db) && programId in db.programs && AppendsAt(db.programs[programId].steps, at)
    ensures at == NextPosition(db.programs[programId].steps)
  {
    HomesOf(db);
    var steps := db.programs[programId].steps;
    assert UniquePositions(steps);
    hide Inv, Homes, NextPosition;
    NextPositionAppends(steps);
    OneAppendPosition(steps, at, NextPosition(steps));
  }

  /** The step with the fields that the patch names, and the others as they were. */
  predicate IsPatched(before: Step, after: Step, patch: Patch) {
    && after.position == before.position
    && (match patch.kind case Some(kind) => after.kind == kind case None => after.kind == before.kind)
    && (match patch.required case Some(required) => after.required == required case None => after.required == before.required)
    && (match patch.content case Some(content) => after.content == content case None => after.content == before.content)
    && (match patch.title case Some(title) => after.title == title case None => after.title == before.title)
  }

  /**
   Updating a step succeeds on any step of the company's own course; kind, required flag and content only without
   open assignments, and they raise the revision. The title may always change and never raises it.
   */
  lemma StepPatchOutcome(db: Db, companyId: Uuid, programId: Uuid, step: Uuid, patch: Patch, after: Step)
    requires programId in db.programs && step in db.programs[programId].steps ==>
      IsPatched(db.programs[programId].steps[step], after, patch)
    ensures var outcome := Outcome(db, EditStep(companyId, programId, step, patch));
      var mine := programId in db.programs && db.programs[programId].companyId == companyId && step in db.programs[programId].steps;
      var structural := patch.kind.Some? || patch.required.Some? || patch.content.Some?;
      && (outcome == Err(NotFound) <==> !mine)
      && (outcome == Err(Conflict) <==> mine && structural && OpenOnCourse(db, programId))
      && (outcome.Ok? <==> mine && !(structural && OpenOnCourse(db, programId)))
      && (outcome.Ok? ==> outcome.value == WithSteps(db, programId, db.programs[programId].steps[step := after], structural))
  {
    LockedIsOpenOnCourse(db, programId);
    hide Locked, OpenOnCourse;
  }

  /** The first listed steps at positions 0, 1, ... in the given order; the others where they were. */
  predicate IsRenumbered(before: Steps, after: Steps, order: seq<Uuid>) {
    && after.Keys == before.Keys
    && (forall i :: 0 <= i < |order| ==> order[i] in before && after[order[i]] == before[order[i]].(position := i))
    && (forall s :: s in before && s !in order ==> after[s] == before[s])
  }

  /** A step beyond the listed ones stands where they are parked: on the next as many positions above the highest of them. */
  predicate InTheWay(steps: Steps, listed: seq<Uuid>, top: int, s: Uuid) {
    s in steps && s !in listed && top + 1 + |listed| <= steps[s].position < top + 1 + 2 * |listed|
  }

  predicate IsTop(steps: Steps, listed: seq<Uuid>, top: int) {
    && (forall i :: 0 <= i < |listed| ==> listed[i] in steps && steps[listed[i]].position <= top)
    && (if listed == [] then top == -1 else exists i :: 0 <= i < |listed| && listed[i] in steps && steps[listed[i]].position == top)
  }

  lemma ClashIsInTheWay(steps: Steps, listed: seq<Uuid>, top: int)
    requires IsTop(steps, listed, top)
    ensures Clash(steps, listed) <==> exists s :: InTheWay(steps, listed, top, s)
  {
    hide MaxPosition;
    HighestIs(steps, listed, |listed|, top);
    var n := |listed|;
    assert MaxPosition(steps, listed, n) == top;
    if Clash(steps, listed) {
      var position :| TempBase(steps, listed) <= position < TempBase(steps, listed) + n && Taken(steps, listed, position);
      var s :| s in steps && s !in listed && steps[s].position == position;
      assert InTheWay(steps, listed, top, s);
    }
    if s :| InTheWay(steps, listed, top, s) {
      assert Taken(steps, listed, steps[s].position);
    }
  }

  /**
   Reordering succeeds exactly for a rearrangement of the listed steps of the company's own course: at once when
   it changes nothing, and otherwise without open assignments and with no step in the way; then the
   listed steps take the positions of the order and the revision goes up.
   */
  lemma ReorderOutcome(db: Db, companyId: Uuid, programId: Uuid, order: seq<Uuid>, top: int)
    requires Inv(db)
    requires programId in db.programs && IsListing(db.programs[programId].steps, order) ==>
      IsTop(db.programs[programId].steps, order, top)
    ensures var outcome := Outcome(db, Reorder(companyId, programId, order));
      var asked := order != [] && Distinct(order);
      var mine := programId in db.programs && db.programs[programId].companyId == companyId;
      var valid := asked && mine && Elements(order) == Elements(Listed(db.programs[programId].steps));
      var same := valid && order == Listed(db.programs[programId].steps);
      var blocked := valid && exists s :: InTheWay(db.programs[programId].steps, order, top, s);
      && (outcome == Err(Validation) <==> !asked || (mine && !valid))
      && (outcome == Err(NotFound) <==> asked && !mine)
      && (outcome == Err(Conflict) <==> valid && !same && OpenOnCourse(db, programId))
      && (outcome == Err(Integrity) <==> valid && !same && !OpenOnCourse(db, programId) && blocked)
      && (outcome.Ok? <==> same || (valid && !OpenOnCourse(db, programId) && !blocked))
      && (outcome.Ok? && same ==> outcome.value == db)
      && (outcome.Ok? && !same ==>
            && programId in outcome.value.programs
            && IsRenumbered(db.programs[programId].steps, outcome.value.programs[programId].steps, order)
            && outcome.value == WithSteps(db, programId, outcome.value.programs[programId].steps, true))
  {
    LockedIsOpenOnCourse(db, programId);
    hide Inv, Locked, OpenOnCourse, Listed, Placed, Clash, Distinct, Elements, InTheWay, IsTop;
    if programId in db.programs && IsListing(db.programs[programId].steps, order) {
      var steps := db.programs[programId].steps;
      ListingIsListed(steps, order);
      ClashIsInTheWay(steps, order, top);
      PlacedMeans(steps, order, 0);
    }
  }

  /**
   Deleting a step succeeds exactly on the company's own course without open assignments, when no progress row
   is kept for it and no step is in the way; the other listed steps close the gap and the revision goes up.
   */
  lemma RemovalOutcome(db: Db, companyId: Uuid, programId: Uuid, step: Uuid, top: int)
    requires Inv(db)
    requires programId in db.programs ==>
      IsTop(db.programs[programId].steps - {step}, Listed(db.programs[programId].steps - {step}), top)
    ensures var outcome := Outcome(db, RemoveStep(companyId, programId, step));
      var mine := programId in db.programs && db.programs[programId].companyId == companyId && step in db.programs[programId].steps;
      var kept := exists r :: r in db.progress && r.step == step;
      && (outcome == Err(NotFound) <==> !mine)
      && (outcome == Err(Conflict) <==> mine && (OpenOnCourse(db, programId) || kept))
      && (mine ==>
            var rest := db.programs[programId].steps - {step};
            var blocked := exists s :: InTheWay(rest, Listed(rest), top, s);
            && (outcome == Err(Integrity) <==> !OpenOnCourse(db, programId) && !kept && blocked)
            && (outcome.Ok? <==> !OpenOnCourse(db, programId) && !kept && !blocked)
            && (outcome.Ok? ==>
                  && programId in outcome.value.programs
                  && IsRenumbered(rest, outcome.value.programs[programId].steps, Listed(rest))
                  && outcome.value == WithSteps(db, programId, outcome.value.programs[programId].steps, true)))
  {
    LockedIsOpenOnCourse(db, programId);
    hide Inv, Locked, OpenOnCourse, Listed, Placed, Clash, Distinct, InTheWay, IsTop;
    if programId in db.programs {
      var rest := db.programs[programId].steps - {step};
      ClashIsInTheWay(rest, Listed(rest), top);
      PlacedMeans(rest, Listed(rest), 0);
    }
  }
}
