/**
 Courses, assignments and progress rows as one database. Every operation is one Unit of Work
 transaction: it either succeeds with a new database or fails and leaves the old one. Open
 assignments lock the structure of their course; every structure edit bumps the revision; an
 assignment keeps a snapshot of the structure it was made from.
 */
module CourseGenerations {
  import opened Common
  import opened Lists
  import opened CourseStructure
  import opened Statuses

  datatype Program = Program(companyId: Uuid, active: bool, revision: nat, steps: Steps)

  /** `snapshot` is absent on assignments from before snapshots existed. */
  datatype Assignment = Assignment(
    companyId: Uuid, employeeId: Uuid, programId: Uuid, status: Status,
    revision: nat, snapshot: Option<seq<SnapStep>>)

  datatype Row = Row(assignment: Uuid, step: Uuid)

  type Rows = map<Row, RowStatus>

  datatype Db = Db(programs: map<Uuid, Program>, assignments: map<Uuid, Assignment>, progress: Rows)

  datatype Draft = Draft(kind: Kind, required: bool, content: string, title: string)

  datatype Patch = Patch(kind: Option<Kind>, required: Option<bool>, content: Option<string>, title: Option<string>)

  datatype Event =
    | CreateProgram(companyId: Uuid, programId: Uuid)
    | SetActive(companyId: Uuid, programId: Uuid, active: bool)
    | AddStep(companyId: Uuid, programId: Uuid, step: Uuid, position: Option<int>, draft: Draft)
    | EditStep(companyId: Uuid, programId: Uuid, step: Uuid, patch: Patch)
    | Reorder(companyId: Uuid, programId: Uuid, order: seq<Uuid>)
    | RemoveStep(companyId: Uuid, programId: Uuid, step: Uuid)
    | AssignMany(companyId: Uuid, programId: Uuid, recipients: seq<Uuid>, ids: seq<Uuid>)
    | Cancel(companyId: Uuid, id: Uuid)
    | StartStep(companyId: Uuid, id: Uuid, step: Uuid)
    | CompleteStep(companyId: Uuid, id: Uuid, step: Uuid, passed: bool)

  type Run = seq<Event>

  // ---------- reading ----------

  predicate Open(a: Assignment) {
    a.status == Pending || a.status == InProgress
  }

  /** The lock predicate: some open assignment of the course. */
  predicate Locked(db: Db, programId: Uuid) {
    exists id :: id in db.assignments && db.assignments[id].programId == programId && Open(db.assignments[id])
  }

  predicate Owned(db: Db, companyId: Uuid, programId: Uuid) {
    programId in db.programs && db.programs[programId].companyId == companyId
  }

  predicate Mine(db: Db, companyId: Uuid, id: Uuid) {
    id in db.assignments && db.assignments[id].companyId == companyId
  }

  predicate TouchesStructure(p: Patch) {
    p.kind.Some? || p.required.Some? || p.content.Some?
  }

  function Patched(step: Step, p: Patch): Step {
    Step(step.position,
         if p.kind.Some? then p.kind.value else step.kind,
         if p.required.Some? then p.required.value else step.required,
         if p.content.Some? then p.content.value else step.content,
         if p.title.Some? then p.title.value else step.title)
  }

  predicate RowDone(rows: Rows, id: Uuid, step: Uuid) {
    Row(id, step) in rows && IsDone(rows[Row(id, step)])
  }

  /** `_all_required_done`: it looks at the live steps, and skips steps without a row. */
  predicate AllRequiredDone(rows: Rows, id: Uuid, listed: seq<Uuid>, steps: Steps)
    requires forall k :: 0 <= k < |listed| ==> listed[k] in steps
  {
    && (forall k :: 0 <= k < |listed| && steps[listed[k]].required && Row(id, listed[k]) in rows
          ==> RowDone(rows, id, listed[k]))
    && ((forall k :: 0 <= k < |listed| ==> !steps[listed[k]].required)
          ==> forall r :: r in rows && r.assignment == id ==> RowDone(rows, id, r.step))
  }

  // ---------- operations ----------

  function WithProgram(db: Db, programId: Uuid, program: Program): Db {
    db.(programs := db.programs[programId := program])
  }

  /** New steps and the next revision, in one transaction. */
  function Bumped(program: Program, steps: Steps): Program {
    program.(steps := steps, revision := program.revision + 1)
  }

  function NewProgram(db: Db, companyId: Uuid, programId: Uuid): Result<Db> {
    if programId in db.programs then Err(Integrity)
    else Ok(WithProgram(db, programId, Program(companyId, false, 1, map[])))
  }

  function Activation(db: Db, companyId: Uuid, programId: Uuid, active: bool): Result<Db> {
    if !Owned(db, companyId, programId) then Err(NotFound)
    else if active && |db.programs[programId].steps| == 0 then Err(Validation)
    else Ok(WithProgram(db, programId, db.programs[programId].(active := active)))
  }

  ghost function StepAdded(
      db: Db, companyId: Uuid, programId: Uuid, step: Uuid, position: Option<int>, draft: Draft): Result<Db> {
    if !Owned(db, companyId, programId) then Err(NotFound)
    else if position.Some? && position.value < 0 then Err(Validation)
    else if Locked(db, programId) then Err(Conflict)
    else
      var program := db.programs[programId];
      var at := if position.None? then NextPosition(program.steps) else position.value;
      if step in program.steps || !Available(program.steps, step, at) then Err(Conflict)
      else
        var added := Step(at, draft.kind, draft.required, draft.content, draft.title);
        Ok(WithProgram(db, programId, Bumped(program, program.steps[step := added])))
  }

  function StepEdited(db: Db, companyId: Uuid, programId: Uuid, step: Uuid, patch: Patch): Result<Db> {
    if !Owned(db, companyId, programId) || step !in db.programs[programId].steps then Err(NotFound)
    else if TouchesStructure(patch) && Locked(db, programId) then Err(Conflict)
    else
      var program := db.programs[programId];
      var steps := program.steps[step := Patched(program.steps[step], patch)];
      Ok(WithProgram(db, programId, if TouchesStructure(patch) then Bumped(program, steps) else program.(steps := steps)))
  }

  ghost function Reordering(db: Db, companyId: Uuid, programId: Uuid, order: seq<Uuid>): Result<Db> {
    if order == [] || !Distinct(order) then Err(Validation)
    else if !Owned(db, companyId, programId) then Err(NotFound)
    else
      var program := db.programs[programId];
      if !IsListing(program.steps, order) then Err(Validation)
      else if order == Listed(program.steps) then Ok(db)
      else if Locked(db, programId) then Err(Conflict)
      else
        ListingIsListed(program.steps, order);
        if Clash(program.steps, order) then Err(Integrity)
        else Ok(WithProgram(db, programId, Bumped(program, Placed(program.steps, order, 0))))
  }

  lemma ListingIsListed(steps: Steps, ids: seq<Uuid>)
    requires IsListing(steps, ids)
    ensures forall i :: 0 <= i < |ids| ==> ids[i] in steps
  {
    hide Listed;
    forall i | 0 <= i < |ids| ensures ids[i] in steps {
      assert ids[i] in Elements(Listed(steps));
    }
  }

  /** A progress row keeps its step: the foreign key restricts deleting it. */
  predicate HasProgress(db: Db, step: Uuid) {
    exists r :: r in db.progress && r.step == step
  }

  ghost function StepRemoved(db: Db, companyId: Uuid, programId: Uuid, step: Uuid): Result<Db> {
    if !Owned(db, companyId, programId) || step !in db.programs[programId].steps then Err(NotFound)
    else if Locked(db, programId) || HasProgress(db, step) then Err(Conflict)
    else
      var program := db.programs[programId];
      var rest := program.steps - {step};
      if Clash(rest, Listed(rest)) then Err(Integrity)
      else Ok(WithProgram(db, programId, Bumped(program, Placed(rest, Listed(rest), 0))))
  }

  predicate HasOpen(db: Db, programId: Uuid, employee: Uuid) {
    exists id :: id in db.assignments && db.assignments[id].programId == programId
      && db.assignments[id].employeeId == employee && Open(db.assignments[id])
  }

  function RowsAdded(rows: Rows, id: Uuid, listed: seq<Uuid>, n: nat): Rows
    requires n <= |listed|
  {
    if n == 0 then rows else RowsAdded(rows, id, listed, n - 1)[Row(id, listed[n - 1]) := NotStarted]
  }

  /** One recipient: a pending assignment with its snapshot, and one row per listed step. */
  ghost function Enrolled(db: Db, programId: Uuid, employee: Uuid, id: Uuid): Db
    requires programId in db.programs
  {
    var program := db.programs[programId];
    var listed := Listed(program.steps);
    Db(db.programs,
       db.assignments[id := Assignment(program.companyId, employee, programId, Pending, program.revision,
                                       Some(Snapshot(program.steps)))],
       RowsAdded(db.progress, id, listed, |listed|))
  }

  ghost function EnrolledUpTo(db: Db, programId: Uuid, recipients: seq<Uuid>, ids: seq<Uuid>, n: nat): (after: Db)
    requires programId in db.programs && n <= |recipients| == |ids|
    ensures after.programs == db.programs
  {
    if n == 0 then db
    else Enrolled(EnrolledUpTo(db, programId, recipients, ids, n - 1), programId, recipients[n - 1], ids[n - 1])
  }

  /** One fresh assignment id for each of the distinct recipients. */
  predicate FreshIds(db: Db, recipients: seq<Uuid>, ids: seq<Uuid>) {
    && |ids| == |recipients| && Distinct(ids) && Distinct(recipients)
    && (forall k :: 0 <= k < |ids| ==> ids[k] !in db.assignments)
    && (forall r :: r in db.progress ==> r.assignment !in ids)
  }

  /** What a bulk assignment is refused for; the whole of it, whichever recipient is at fault. */
  ghost function BulkError(db: Db, companyId: Uuid, programId: Uuid, recipients: seq<Uuid>): Option<Error> {
    if !Owned(db, companyId, programId) then Some(NotFound)
    else if !db.programs[programId].active then Some(Validation)
    else if Listed(db.programs[programId].steps) == [] then Some(Validation)
    else if exists k :: 0 <= k < |recipients| && HasOpen(db, programId, recipients[k]) then Some(Conflict)
    else None
  }

  ghost function Assigned(db: Db, companyId: Uuid, programId: Uuid, recipients: seq<Uuid>, ids: seq<Uuid>): Result<Db> {
    if BulkError(db, companyId, programId, recipients).Some? then Err(BulkError(db, companyId, programId, recipients).value)
    else if !FreshIds(db, recipients, ids) then Err(Integrity)
    else Ok(EnrolledUpTo(db, programId, recipients, ids, |recipients|))
  }

  /** Status and rows of one assignment changed. */
  function WithRun(db: Db, id: Uuid, status: Status, rows: Rows): Db
    requires id in db.assignments
  {
    Db(db.programs, db.assignments[id := db.assignments[id].(status := status)], rows)
  }

  function RowsDropped(rows: Rows, id: Uuid): Rows {
    map r | r in rows && r.assignment != id :: rows[r]
  }

  function Cancellation(db: Db, companyId: Uuid, id: Uuid): Result<Db> {
    if !Mine(db, companyId, id) then Err(NotFound)
    else if !Open(db.assignments[id]) then Err(Validation)
    else Ok(WithRun(db, id, Cancelled, RowsDropped(db.progress, id)))
  }

  function Starting(db: Db, companyId: Uuid, id: Uuid, step: Uuid): Result<Db> {
    var row := Row(id, step);
    if row !in db.progress || !Mine(db, companyId, id) then Err(NotFound)
    else if db.progress[row] == Done then Err(Conflict)
    else if !Open(db.assignments[id]) then Err(Validation)
    else if db.progress[row] != NotStarted then Ok(db)
    else Ok(WithRun(db, id, Active(db.assignments[id].status), db.progress[row := Started]))
  }

  predicate StepExists(db: Db, step: Uuid) {
    exists p :: p in db.programs && step in db.programs[p].steps
  }

  /** A failed quiz leaves its row started; anything else completes it, and perhaps the assignment. */
  ghost function Completion(db: Db, companyId: Uuid, id: Uuid, step: Uuid, passed: bool): Result<Db> {
    var row := Row(id, step);
    if !Mine(db, companyId, id) then Err(NotFound)
    else if db.assignments[id].status == Cancelled then Err(Validation)
    else if !StepExists(db, step) then Err(NotFound)
    else if db.assignments[id].programId !in db.programs || step !in db.programs[db.assignments[id].programId].steps
    then Err(Validation)
    else if row !in db.progress then Err(NotFound)
    else if db.progress[row] == Done then Err(Conflict)
    else if db.assignments[id].status == Completed then Err(Validation)
    else
      var steps := db.programs[db.assignments[id].programId].steps;
      var rows := db.progress[row := if passed then Done else Started];
      Ok(WithRun(db, id, if AllRequiredDone(rows, id, Listed(steps), steps) then Completed else InProgress, rows))
  }

  ghost function Outcome(db: Db, e: Event): Result<Db> {
    match e
    case CreateProgram(companyId, programId) => NewProgram(db, companyId, programId)
    case SetActive(companyId, programId, active) => Activation(db, companyId, programId, active)
    case AddStep(companyId, programId, step, position, draft) => StepAdded(db, companyId, programId, step, position, draft)
    case EditStep(companyId, programId, step, patch) => StepEdited(db, companyId, programId, step, patch)
    case Reorder(companyId, programId, order) => Reordering(db, companyId, programId, order)
    case RemoveStep(companyId, programId, step) => StepRemoved(db, companyId, programId, step)
    case AssignMany(companyId, programId, recipients, ids) => Assigned(db, companyId, programId, recipients, ids)
    case Cancel(companyId, id) => Cancellation(db, companyId, id)
    case StartStep(companyId, id, step) => Starting(db, companyId, id, step)
    case CompleteStep(companyId, id, step, passed) => Completion(db, companyId, id, step, passed)
  }

  /** A failed operation is rolled back. */
  ghost function Next(db: Db, e: Event): Db {
    if Outcome(db, e).Ok? then Outcome(db, e).value else db
  }

  ghost function Exec(db: Db, run: Run): Db
    decreases |run|
  {
    if run == [] then db else Exec(Next(db, run[0]), run[1..])
  }

  // ---------- the invariant ----------

  /** Foreign keys, and unique positions within a course. */
  ghost predicate Homes(db: Db) {
    && (forall p :: p in db.programs ==> UniquePositions(db.programs[p].steps))
    && (forall id :: id in db.assignments ==> db.assignments[id].programId in db.programs)
    && (forall r :: r in db.progress ==> r.assignment in db.assignments)
    && (forall r :: r in db.progress ==> r.step in db.programs[db.assignments[r.assignment].programId].steps)
  }

  /** A snapshot of the current revision shows the live structure; an open assignment has the current revision. */
  ghost predicate UpToDate(a: Assignment, program: Program) {
    && a.revision <= program.revision
    && (Open(a) ==> a.revision == program.revision)
    && (a.snapshot.Some? && a.revision == program.revision ==> SameStructure(a.snapshot.value, Snapshot(program.steps)))
  }

  ghost predicate Generations(db: Db) {
    forall id :: id in db.assignments && db.assignments[id].programId in db.programs && db.assignments[id].snapshot.Some?
      ==> UpToDate(db.assignments[id], db.programs[db.assignments[id].programId])
  }

  /** Two snapshots of one course with one revision show the same structure. */
  predicate Agree(a: Assignment, b: Assignment) {
    var comparable := a.programId == b.programId && a.revision == b.revision && a.snapshot.Some? && b.snapshot.Some?;
    comparable ==> SameStructure(a.snapshot.value, b.snapshot.value)
  }

  ghost predicate Agreement(db: Db) {
    forall a, b :: a in db.assignments && b in db.assignments ==> Agree(db.assignments[a], db.assignments[b])
  }

  /** No employee has two open assignments of one course. */
  ghost predicate OneOpen(db: Db) {
    forall a, b :: a in db.assignments && b in db.assignments
      && Open(db.assignments[a]) && Open(db.assignments[b])
      && db.assignments[a].employeeId == db.assignments[b].employeeId
      && db.assignments[a].programId == db.assignments[b].programId
      ==> a == b
  }

  predicate SnapHas(snapshot: seq<SnapStep>, step: Uuid) {
    exists k :: 0 <= k < |snapshot| && snapshot[k].id == step
  }

  /** Progress rows and snapshot steps match one to one; a cancelled assignment has no rows. */
  ghost predicate RowsMatch(rows: Rows, id: Uuid, a: Assignment) {
    if a.status == Cancelled then forall step :: Row(id, step) !in rows
    else a.snapshot.Some? ==> forall step :: Row(id, step) in rows <==> SnapHas(a.snapshot.value, step)
  }

  ghost predicate AllRowsMatch(db: Db) {
    forall id :: id in db.assignments ==> RowsMatch(db.progress, id, db.assignments[id])
  }

  /** Every required step of the snapshot is done; all of them, when none is required. */
  predicate RunDone(rows: Rows, id: Uuid, snapshot: seq<SnapStep>) {
    && (forall k :: 0 <= k < |snapshot| && snapshot[k].shape.required ==> RowDone(rows, id, snapshot[k].id))
    && ((forall k :: 0 <= k < |snapshot| ==> !snapshot[k].shape.required)
          ==> forall k :: 0 <= k < |snapshot| ==> RowDone(rows, id, snapshot[k].id))
  }

  /** An assignment that was not cancelled is completed exactly when its run is done. */
  predicate HonestStatus(rows: Rows, id: Uuid, a: Assignment) {
    a.status != Cancelled && a.snapshot.Some? ==> (a.status == Completed <==> RunDone(rows, id, a.snapshot.value))
  }

  ghost predicate HonestStatuses(db: Db) {
    forall id :: id in db.assignments ==> HonestStatus(db.progress, id, db.assignments[id])
  }

  ghost predicate Inv(db: Db) {
    && Homes(db)
    && Generations(db)
    && Agreement(db)
    && OneOpen(db)
    && AllRowsMatch(db)
    && HonestStatuses(db)
  }

  // ---------- structure edits keep the invariant ----------

  /**
   What any course operation may do to a course: leave revision and structure alone, or, with
   no open assignment, take the next revision. Steps with progress rows stay.
   */
  ghost predicate IsEdit(db: Db, programId: Uuid, after: Program) {
    && programId in db.programs && after.companyId == db.programs[programId].companyId
    && UniquePositions(after.steps)
    && (|| (after.revision == db.programs[programId].revision && Shapes(after.steps) == Shapes(db.programs[programId].steps))
        || (after.revision == db.programs[programId].revision + 1 && !Locked(db, programId)))
    && (forall step :: step in db.programs[programId].steps && step !in after.steps ==> !HasProgress(db, step))
  }

  lemma EditKeepsUpToDate(db: Db, programId: Uuid, after: Program, id: Uuid)
    requires IsEdit(db, programId, after) && id in db.assignments && db.assignments[id].programId == programId
    requires UniquePositions(db.programs[programId].steps) && UpToDate(db.assignments[id], db.programs[programId])
    ensures UpToDate(db.assignments[id], after)
  {
    hide UniquePositions, Snapshot, Shapes, HasProgress, SameStructure;
    if after.revision == db.programs[programId].revision {
      ShapesGiveTheSnapshot(db.programs[programId].steps, after.steps);
      if db.assignments[id].snapshot.Some? {
        SameStructureIsTransitive(db.assignments[id].snapshot.value, Snapshot(db.programs[programId].steps),
                                  Snapshot(after.steps));
      }
    }
  }

  lemma SameStructureIsTransitive(a: seq<SnapStep>, b: seq<SnapStep>, c: seq<SnapStep>)
    ensures SameStructure(a, b) && SameStructure(b, c) ==> SameStructure(a, c)
    ensures SameStructure(a, b) ==> SameStructure(b, a)
  {
  }

  lemma EditKeepsInv(db: Db, programId: Uuid, after: Program)
    requires Inv(db) && IsEdit(db, programId, after)
    ensures Inv(WithProgram(db, programId, after))
  {
    hide UpToDate, UniquePositions, Agree, RowsMatch, HonestStatus, IsEdit, Locked, OneOpen;
    var next := WithProgram(db, programId, after);
    forall id | id in db.assignments && db.assignments[id].programId == programId && db.assignments[id].snapshot.Some?
      ensures UpToDate(db.assignments[id], after)
    {
      EditKeepsUpToDate(db, programId, after, id);
    }
    assert Homes(next) by {
      EditKeepsHomes(db, programId, after);
    }
    assert OneOpen(next) by {
      SameAssignmentsOneOpen(db, next);
    }
  }

  lemma SameAssignmentsOneOpen(db: Db, next: Db)
    requires OneOpen(db) && next.assignments == db.assignments
    ensures OneOpen(next)
  {
  }

  lemma EditKeepsHomes(db: Db, programId: Uuid, after: Program)
    requires Homes(db) && IsEdit(db, programId, after)
    ensures Homes(WithProgram(db, programId, after))
  {
    hide UniquePositions, Shapes, Locked;
    forall r | r in db.progress && db.assignments[r.assignment].programId == programId ensures r.step in after.steps {
      assert HasProgress(db, r.step);
      if after.revision == db.programs[programId].revision {
        SameShapesSameSteps(db.programs[programId].steps, after.steps);
      }
    }
  }

  lemma SameShapesSameSteps(a: Steps, b: Steps)
    requires Shapes(a) == Shapes(b)
    ensures a.Keys == b.Keys && forall id :: id in a ==> ShapeOf(a[id]) == ShapeOf(b[id])
  {
    assert a.Keys == Shapes(a).Keys && b.Keys == Shapes(b).Keys;
    forall id | id in a ensures ShapeOf(a[id]) == ShapeOf(b[id]) {
      assert Shapes(a)[id] == Shapes(b)[id];
    }
  }

  /** The course operations are all edits in this sense. */
  lemma AddIsEdit(db: Db, companyId: Uuid, programId: Uuid, step: Uuid, position: Option<int>, draft: Draft)
    requires Homes(db) && StepAdded(db, companyId, programId, step, position, draft).Ok?
    ensures programId in db.programs
    ensures var after := StepAdded(db, companyId, programId, step, position, draft).value;
      programId in after.programs && after == WithProgram(db, programId, after.programs[programId])
      && IsEdit(db, programId, after.programs[programId])
  {
    hide NextPosition, Locked, HasProgress, Shapes;
  }

  lemma PatchKeepsPosition(steps: Steps, step: Uuid, patch: Patch)
    requires UniquePositions(steps) && step in steps
    ensures UniquePositions(steps[step := Patched(steps[step], patch)])
    ensures !TouchesStructure(patch) ==> Shapes(steps[step := Patched(steps[step], patch)]) == Shapes(steps)
  {
  }

  lemma EditStepIsEdit(db: Db, companyId: Uuid, programId: Uuid, step: Uuid, patch: Patch)
    requires Homes(db) && StepEdited(db, companyId, programId, step, patch).Ok?
    ensures programId in db.programs
    ensures var after := StepEdited(db, companyId, programId, step, patch).value;
      programId in after.programs && after == WithProgram(db, programId, after.programs[programId])
      && IsEdit(db, programId, after.programs[programId])
  {
    hide UniquePositions, Locked, HasProgress, Shapes;
    PatchKeepsPosition(db.programs[programId].steps, step, patch);
  }

  lemma PlacedIsEdit(db: Db, programId: Uuid, order: seq<Uuid>)
    requires Homes(db) && programId in db.programs && !Locked(db, programId)
    requires IsListing(db.programs[programId].steps, order)
    ensures forall i :: 0 <= i < |order| ==> order[i] in db.programs[programId].steps
    ensures var after := Placed(db.programs[programId].steps, order, 0);
      IsEdit(db, programId, Bumped(db.programs[programId], after)) && Listed(after) == order
  {
    hide UniquePositions, Locked, HasProgress, Shapes, Listed, IsListing, Placed, Clash, Order, Distinct, Reordered;
    RenumberedReadsBack(db.programs[programId].steps, order);
  }

  lemma NoEdit(db: Db, programId: Uuid)
    requires Homes(db) && programId in db.programs
    ensures WithProgram(db, programId, db.programs[programId]) == db && IsEdit(db, programId, db.programs[programId])
  {
    hide UniquePositions, Locked, HasProgress, Shapes;
  }

  lemma ReorderIsEdit(db: Db, companyId: Uuid, programId: Uuid, order: seq<Uuid>)
    requires Homes(db) && Reordering(db, companyId, programId, order).Ok?
    ensures programId in db.programs
    ensures var after := Reordering(db, companyId, programId, order).value;
      programId in after.programs && after == WithProgram(db, programId, after.programs[programId])
      && IsEdit(db, programId, after.programs[programId])
      && Listed(after.programs[programId].steps) == order
  {
    hide UniquePositions, Locked, HasProgress, Shapes, Listed, IsListing, Placed, Clash, Distinct, IsEdit, Homes;
    NoEdit(db, programId);
    if order != Listed(db.programs[programId].steps) {
      PlacedIsEdit(db, programId, order);
    }
  }

  lemma RemoveIsEdit(db: Db, companyId: Uuid, programId: Uuid, step: Uuid)
    requires Homes(db) && StepRemoved(db, companyId, programId, step).Ok?
    ensures programId in db.programs
    ensures var after := StepRemoved(db, companyId, programId, step).value;
      programId in after.programs && after == WithProgram(db, programId, after.programs[programId])
      && IsEdit(db, programId, after.programs[programId])
      && after.programs[programId].steps.Keys == db.programs[programId].steps.Keys - {step}
  {
    hide Locked, HasProgress, Shapes, Placed, Clash, Order;
    var rest := db.programs[programId].steps - {step};
    assert UniquePositions(rest);
    RenumberedReadsBack(rest, Listed(rest));
  }

  /** A new course has no assignments and no rows to keep. */
  lemma NewProgramKeepsInv(db: Db, companyId: Uuid, programId: Uuid)
    requires Inv(db) && programId !in db.programs
    ensures Inv(WithProgram(db, programId, Program(companyId, false, 1, map[])))
  {
    hide UpToDate, Agree, RowsMatch, HonestStatus, OneOpen;
    SameAssignmentsOneOpen(db, WithProgram(db, programId, Program(companyId, false, 1, map[])));
  }

  // ---------- assigning keeps the invariant ----------

  lemma {:induction false} RowsAddedMeans(rows: Rows, id: Uuid, listed: seq<Uuid>, n: nat, r: Row)
    requires n <= |listed|
    ensures r.assignment != id ==> (r in RowsAdded(rows, id, listed, n) <==> r in rows)
    ensures r.assignment != id && r in rows ==> RowsAdded(rows, id, listed, n)[r] == rows[r]
    ensures r.assignment == id && r !in rows ==>
      (r in RowsAdded(rows, id, listed, n) <==> exists k :: 0 <= k < n && listed[k] == r.step)
    ensures r !in rows && r in RowsAdded(rows, id, listed, n) ==> RowsAdded(rows, id, listed, n)[r] == NotStarted
  {
    if n > 0 {
      RowsAddedMeans(rows, id, listed, n - 1, r);
    }
  }

  lemma EnrolledRow(db: Db, programId: Uuid, employee: Uuid, id: Uuid, r: Row)
    requires programId in db.programs && forall r :: r in db.progress ==> r.assignment != id
    ensures var after, listed := Enrolled(db, programId, employee, id), Listed(db.programs[programId].steps);
      && (r in after.progress <==> if r.assignment == id then r.step in listed else r in db.progress)
      && (r in after.progress ==> after.progress[r] == if r.assignment == id then NotStarted else db.progress[r])
  {
    hide RowsAdded, Listed;
    var listed := Listed(db.programs[programId].steps);
    RowsAddedMeans(db.progress, id, listed, |listed|, r);
  }

  lemma SnapshotHasListed(steps: Steps, step: Uuid)
    ensures SnapHas(Snapshot(steps), step) <==> step in Listed(steps)
    ensures step in Listed(steps) ==> step in steps
  {
    hide Listed;
    var snapshot, listed := Snapshot(steps), Listed(steps);
    if step in listed {
      var k :| 0 <= k < |listed| && listed[k] == step;
      assert snapshot[k].id == step;
    }
  }

  /** The assignment itself: rows and snapshot match, and a nonempty run is not done yet. */
  lemma EnrolledMatches(db: Db, programId: Uuid, employee: Uuid, id: Uuid)
    requires programId in db.programs && Listed(db.programs[programId].steps) != []
    requires forall r :: r in db.progress ==> r.assignment != id
    ensures var after := Enrolled(db, programId, employee, id);
      RowsMatch(after.progress, id, after.assignments[id]) && HonestStatus(after.progress, id, after.assignments[id])
  {
    hide RowsAdded, Listed, Snapshot, SnapHas;
    var after := Enrolled(db, programId, employee, id);
    var snapshot := Snapshot(db.programs[programId].steps);
    forall step
      ensures Row(id, step) in after.progress <==> SnapHas(snapshot, step)
      ensures !RowDone(after.progress, id, step)
    {
      EnrolledRow(db, programId, employee, id, Row(id, step));
      SnapshotHasListed(db.programs[programId].steps, step);
    }
    assert !RowDone(after.progress, id, snapshot[0].id);
  }

  lemma EnrolledElsewhere(db: Db, programId: Uuid, employee: Uuid, id: Uuid, other: Uuid)
    requires programId in db.programs && other != id && other in db.assignments
    requires forall r :: r in db.progress ==> r.assignment != id
    requires RowsMatch(db.progress, other, db.assignments[other]) && HonestStatus(db.progress, other, db.assignments[other])
    ensures var after := Enrolled(db, programId, employee, id);
      RowsMatch(after.progress, other, after.assignments[other])
      && HonestStatus(after.progress, other, after.assignments[other])
  {
    hide RowsAdded, Listed, Snapshot, SnapHas;
    var after := Enrolled(db, programId, employee, id);
    forall step
      ensures Row(other, step) in after.progress <==> Row(other, step) in db.progress
      ensures RowDone(after.progress, other, step) <==> RowDone(db.progress, other, step)
    {
      EnrolledRow(db, programId, employee, id, Row(other, step));
    }
  }

  lemma EnrolledHomes(db: Db, programId: Uuid, employee: Uuid, id: Uuid)
    requires Homes(db) && programId in db.programs && id !in db.assignments
    ensures Homes(Enrolled(db, programId, employee, id))
  {
    hide RowsAdded, Listed, Snapshot, UniquePositions;
    var after := Enrolled(db, programId, employee, id);
    forall r | r in after.progress
      ensures r.assignment in after.assignments
      ensures r.step in db.programs[after.assignments[r.assignment].programId].steps
    {
      EnrolledRow(db, programId, employee, id, r);
      SnapshotHasListed(db.programs[programId].steps, r.step);
    }
  }

  lemma EnrolledAgrees(db: Db, programId: Uuid, employee: Uuid, id: Uuid, other: Uuid)
    requires Homes(db) && Generations(db) && programId in db.programs && id !in db.assignments && other in db.assignments
    ensures var after := Enrolled(db, programId, employee, id);
      Agree(after.assignments[id], after.assignments[other]) && Agree(after.assignments[other], after.assignments[id])
  {
    hide RowsAdded, Listed, Snapshot, UniquePositions, SameStructure;
    var a := db.assignments[other];
    if a.snapshot.Some? && a.programId == programId {
      assert UpToDate(a, db.programs[programId]);
      SameStructureIsTransitive(a.snapshot.value, Snapshot(db.programs[programId].steps), a.snapshot.value);
    }
  }

  lemma EnrolledIsUpToDate(program: Program, a: Assignment)
    requires a.revision == program.revision && a.snapshot == Some(Snapshot(program.steps))
    ensures UpToDate(a, program) && Agree(a, a)
  {
    hide Snapshot;
  }

  lemma EnrolKeepsInv(db: Db, programId: Uuid, employee: Uuid, id: Uuid)
    requires Inv(db) && programId in db.programs && id !in db.assignments
    requires Listed(db.programs[programId].steps) != [] && !HasOpen(db, programId, employee)
    ensures Inv(Enrolled(db, programId, employee, id))
  {
    hide RowsAdded, Listed, Snapshot, UpToDate, Agree, RowsMatch, HonestStatus, Homes;
    var after := Enrolled(db, programId, employee, id);
    assert forall r :: r in db.progress ==> r.assignment != id by {
      RowsHaveAssignments(db, id);
    }
    EnrolledHomes(db, programId, employee, id);
    EnrolledIsUpToDate(db.programs[programId], after.assignments[id]);
    EnrolledMatches(db, programId, employee, id);
    forall other | other in db.assignments
      ensures RowsMatch(after.progress, other, after.assignments[other])
      ensures HonestStatus(after.progress, other, after.assignments[other])
      ensures Agree(after.assignments[id], after.assignments[other]) && Agree(after.assignments[other], after.assignments[id])
    {
      EnrolledElsewhere(db, programId, employee, id, other);
      EnrolledAgrees(db, programId, employee, id, other);
    }
  }

  lemma RowsHaveAssignments(db: Db, id: Uuid)
    requires Homes(db) && id !in db.assignments
    ensures forall r :: r in db.progress ==> r.assignment != id
  {
  }

  lemma {:induction false} EnrolledSoFar(db: Db, programId: Uuid, recipients: seq<Uuid>, ids: seq<Uuid>, n: nat)
    requires Inv(db) && programId in db.programs && n <= |recipients| && FreshIds(db, recipients, ids)
    requires Listed(db.programs[programId].steps) != []
    requires forall k :: 0 <= k < |recipients| ==> !HasOpen(db, programId, recipients[k])
    ensures var after := EnrolledUpTo(db, programId, recipients, ids, n);
      && Inv(after)
      && (forall k :: n <= k < |ids| ==> ids[k] !in after.assignments && !HasOpen(after, programId, recipients[k]))
  {
    hide Inv, Listed, Enrolled, HasOpen;
    if n > 0 {
      EnrolledSoFar(db, programId, recipients, ids, n - 1);
      var before := EnrolledUpTo(db, programId, recipients, ids, n - 1);
      EnrolKeepsInv(before, programId, recipients[n - 1], ids[n - 1]);
      forall k | n <= k < |ids|
        ensures var after := Enrolled(before, programId, recipients[n - 1], ids[n - 1]);
          ids[k] !in after.assignments && !HasOpen(after, programId, recipients[k])
      {
        EnrolledOthers(before, programId, recipients[n - 1], ids[n - 1], recipients[k]);
      }
    }
  }

  lemma EnrolledOthers(db: Db, programId: Uuid, employee: Uuid, id: Uuid, other: Uuid)
    requires programId in db.programs && id !in db.assignments && other != employee
    ensures Enrolled(db, programId, employee, id).assignments.Keys == db.assignments.Keys + {id}
    ensures HasOpen(Enrolled(db, programId, employee, id), programId, other) ==> HasOpen(db, programId, other)
  {
    hide RowsAdded, Listed, Snapshot;
  }

  lemma AssignKeepsInv(db: Db, companyId: Uuid, programId: Uuid, recipients: seq<Uuid>, ids: seq<Uuid>)
    requires Inv(db) && Assigned(db, companyId, programId, recipients, ids).Ok?
    ensures Inv(Assigned(db, companyId, programId, recipients, ids).value)
  {
    hide Inv, Listed, HasOpen, EnrolledUpTo, Distinct;
    EnrolledSoFar(db, programId, recipients, ids, |recipients|);
  }

  // ---------- running and cancelling keep the invariant ----------

  /** Only the rows of `id` differ, and only in their status unless the assignment is cancelled. */
  ghost predicate IsRunStep(db: Db, id: Uuid, status: Status, rows: Rows) {
    && id in db.assignments && Open(db.assignments[id])
    && (forall r :: r in rows ==> r in db.progress)
    && (forall r :: r in db.progress && r.assignment != id ==> r in rows && rows[r] == db.progress[r])
    && (if status == Cancelled then forall step :: Row(id, step) !in rows
        else forall step :: Row(id, step) in db.progress ==> Row(id, step) in rows)
    && HonestStatus(rows, id, db.assignments[id].(status := status))
  }

  lemma RunStepElsewhere(db: Db, id: Uuid, status: Status, rows: Rows, other: Uuid)
    requires IsRunStep(db, id, status, rows) && other != id && other in db.assignments
    requires RowsMatch(db.progress, other, db.assignments[other]) && HonestStatus(db.progress, other, db.assignments[other])
    ensures RowsMatch(rows, other, db.assignments[other]) && HonestStatus(rows, other, db.assignments[other])
  {
    hide SnapHas;
    forall step
      ensures Row(other, step) in rows <==> Row(other, step) in db.progress
      ensures RowDone(rows, other, step) <==> RowDone(db.progress, other, step)
    {
    }
  }

  lemma RunStepRows(db: Db, id: Uuid, status: Status, rows: Rows)
    requires AllRowsMatch(db) && HonestStatuses(db) && IsRunStep(db, id, status, rows)
    ensures AllRowsMatch(WithRun(db, id, status, rows)) && HonestStatuses(WithRun(db, id, status, rows))
  {
    hide HonestStatus, SnapHas;
    var next := WithRun(db, id, status, rows);
    forall other | other in db.assignments
      ensures RowsMatch(rows, other, next.assignments[other]) && HonestStatus(rows, other, next.assignments[other])
    {
      if other != id {
        RunStepElsewhere(db, id, status, rows, other);
      } else {
        assert RowsMatch(db.progress, id, db.assignments[id]);
      }
    }
  }

  lemma RunStepHomes(db: Db, id: Uuid, status: Status, rows: Rows)
    requires Homes(db) && OneOpen(db) && IsRunStep(db, id, status, rows)
    ensures Homes(WithRun(db, id, status, rows)) && OneOpen(WithRun(db, id, status, rows))
  {
    hide HonestStatus, UniquePositions;
  }

  lemma RunStepKeepsInv(db: Db, id: Uuid, status: Status, rows: Rows)
    requires Inv(db) && IsRunStep(db, id, status, rows)
    ensures Inv(WithRun(db, id, status, rows))
  {
    assert id in db.assignments && Open(db.assignments[id]);
    hide IsRunStep, Homes, Generations, Agreement, OneOpen, AllRowsMatch, HonestStatuses, WithRun;
    RunStepRows(db, id, status, rows);
    RunStepHomes(db, id, status, rows);
    RunStepAgreement(db, id, status, rows);
    RunStepGenerations(db, id, status, rows);
  }

  lemma RunStepAgreement(db: Db, id: Uuid, status: Status, rows: Rows)
    requires Agreement(db) && id in db.assignments
    ensures Agreement(WithRun(db, id, status, rows))
  {
    hide SameStructure;
    var next := WithRun(db, id, status, rows);
    forall a, b | a in next.assignments && b in next.assignments ensures Agree(next.assignments[a], next.assignments[b]) {
      assert Agree(db.assignments[a], db.assignments[b]);
    }
  }

  lemma RunStepGenerations(db: Db, id: Uuid, status: Status, rows: Rows)
    requires Generations(db) && id in db.assignments && Open(db.assignments[id])
    ensures Generations(WithRun(db, id, status, rows))
  {
    hide SameStructure, Snapshot;
  }

  /** For an open assignment, the check on the live steps is the check on the snapshot. */
  lemma CompletionSeesTheSnapshot(db: Db, id: Uuid, rows: Rows)
    requires Inv(db) && id in db.assignments && Open(db.assignments[id]) && db.assignments[id].snapshot.Some?
    requires forall step :: Row(id, step) in rows <==> Row(id, step) in db.progress
    ensures db.assignments[id].programId in db.programs
    ensures var steps := db.programs[db.assignments[id].programId].steps;
      && (forall k :: 0 <= k < |Listed(steps)| ==> Listed(steps)[k] in steps)
      && (AllRequiredDone(rows, id, Listed(steps), steps) <==> RunDone(rows, id, db.assignments[id].snapshot.value))
  {
    hide Listed, UniquePositions, OneOpen, Agreement, HonestStatuses, Order, IsDone;
    var a := db.assignments[id];
    var steps, snapshot := db.programs[a.programId].steps, a.snapshot.value;
    var listed := Listed(steps);
    assert UpToDate(a, db.programs[a.programId]) && RowsMatch(db.progress, id, a);
    forall k | 0 <= k < |snapshot|
      ensures snapshot[k].id == listed[k] && snapshot[k].shape.required == steps[listed[k]].required
      ensures Row(id, listed[k]) in rows
    {
      assert SnapHas(snapshot, snapshot[k].id);
    }
    forall r | r in rows && r.assignment == id ensures exists k :: 0 <= k < |snapshot| && snapshot[k].id == r.step {
      assert Row(id, r.step) == r;
      assert SnapHas(snapshot, r.step);
    }
  }

  lemma CancelIsRunStep(db: Db, companyId: Uuid, id: Uuid)
    requires Inv(db) && Cancellation(db, companyId, id).Ok?
    ensures IsRunStep(db, id, Cancelled, RowsDropped(db.progress, id))
  {
    hide Inv;
  }

  /** Starting a step finishes nothing: a run that was not done still is not. */
  lemma StartIsRunStep(db: Db, companyId: Uuid, id: Uuid, step: Uuid)
    requires Inv(db) && Starting(db, companyId, id, step).Ok?
    ensures Starting(db, companyId, id, step).value == db
         || IsRunStep(db, id, Active(db.assignments[id].status), db.progress[Row(id, step) := Started])
  {
    hide Homes, Generations, Agreement, OneOpen, AllRowsMatch;
    var rows := db.progress[Row(id, step) := Started];
    assert HonestStatus(db.progress, id, db.assignments[id]);
    if db.progress[Row(id, step)] == NotStarted {
      forall s ensures RowDone(rows, id, s) <==> RowDone(db.progress, id, s) {
      }
    }
  }

  lemma CompleteIsRunStep(db: Db, companyId: Uuid, id: Uuid, step: Uuid, passed: bool)
    requires Inv(db) && Completion(db, companyId, id, step, passed).Ok?
    ensures id in db.assignments
    ensures var after := Completion(db, companyId, id, step, passed).value;
      id in after.assignments
      && after == WithRun(db, id, after.assignments[id].status, after.progress)
      && IsRunStep(db, id, after.assignments[id].status, after.progress)
  {
    hide Inv, AllRequiredDone, RunDone, Listed;
    var rows := db.progress[Row(id, step) := if passed then Done else Started];
    if db.assignments[id].snapshot.Some? {
      CompletionSeesTheSnapshot(db, id, rows);
    }
  }

  // ---------- the invariant over every run ----------

  predicate EditsCourse(e: Event) {
    e.SetActive? || e.AddStep? || e.EditStep? || e.Reorder? || e.RemoveStep?
  }

  /** Every course operation that succeeds is an edit of its course and of nothing else. */
  lemma CourseEventIsEdit(db: Db, e: Event)
    requires Homes(db) && Outcome(db, e).Ok? && EditsCourse(e)
    ensures e.programId in db.programs && e.programId in Next(db, e).programs
    ensures Next(db, e) == WithProgram(db, e.programId, Next(db, e).programs[e.programId])
    ensures IsEdit(db, e.programId, Next(db, e).programs[e.programId])
  {
    hide Activation, StepAdded, StepEdited, Reordering, StepRemoved, IsEdit, Homes, Listed, WithProgram;
    match e
    case SetActive(companyId, programId, active) => ActivationIsEdit(db, companyId, programId, active);
    case AddStep(companyId, programId, step, position, draft) => AddIsEdit(db, companyId, programId, step, position, draft);
    case EditStep(companyId, programId, step, patch) => EditStepIsEdit(db, companyId, programId, step, patch);
    case Reorder(companyId, programId, order) => ReorderIsEdit(db, companyId, programId, order);
    case RemoveStep(companyId, programId, step) => RemoveIsEdit(db, companyId, programId, step);
  }

  lemma ActivationIsEdit(db: Db, companyId: Uuid, programId: Uuid, active: bool)
    requires Homes(db) && Activation(db, companyId, programId, active).Ok?
    ensures programId in db.programs
    ensures var after := Activation(db, companyId, programId, active).value;
      programId in after.programs && after == WithProgram(db, programId, after.programs[programId])
      && IsEdit(db, programId, after.programs[programId])
  {
    hide UniquePositions, Locked, HasProgress, Shapes;
  }

  lemma StepKeepsInv(db: Db, e: Event)
    requires Inv(db)
    ensures Inv(Next(db, e))
  {
    hide Inv, Homes, Assigned, Cancellation, Starting, Completion, IsRunStep, WithRun, IsEdit, WithProgram,
      Activation, StepAdded, StepEdited, Reordering, StepRemoved;
    if Outcome(db, e).Ok? {
      match e
      case AssignMany(companyId, programId, recipients, ids) => AssignKeepsInv(db, companyId, programId, recipients, ids);
      case Cancel(companyId, id) => CancelKeepsInv(db, companyId, id);
      case StartStep(companyId, id, step) => StartKeepsInv(db, companyId, id, step);
      case CompleteStep(companyId, id, step, passed) =>
        CompleteIsRunStep(db, companyId, id, step, passed);
        RunStepKeepsInv(db, id, Next(db, e).assignments[id].status, Next(db, e).progress);
      case CreateProgram(companyId, programId) => NewProgramKeepsInv(db, companyId, programId);
      case _ =>
        HomesOf(db);
        CourseEventIsEdit(db, e);
        EditKeepsInv(db, e.programId, Next(db, e).programs[e.programId]);
    }
  }

  lemma HomesOf(db: Db)
    requires Inv(db)
    ensures Homes(db)
  {
  }

  lemma CancelKeepsInv(db: Db, companyId: Uuid, id: Uuid)
    requires Inv(db) && Cancellation(db, companyId, id).Ok?
    ensures Inv(Cancellation(db, companyId, id).value)
  {
    hide Inv, IsRunStep;
    CancelIsRunStep(db, companyId, id);
    RunStepKeepsInv(db, id, Cancelled, RowsDropped(db.progress, id));
  }

  lemma StartKeepsInv(db: Db, companyId: Uuid, id: Uuid, step: Uuid)
    requires Inv(db) && Starting(db, companyId, id, step).Ok?
    ensures Inv(Starting(db, companyId, id, step).value)
  {
    hide Inv, IsRunStep;
    StartIsRunStep(db, companyId, id, step);
    if Starting(db, companyId, id, step).value != db {
      RunStepKeepsInv(db, id, Active(db.assignments[id].status), db.progress[Row(id, step) := Started]);
    }
  }

  /**
   In every reachable database: an open assignment's snapshot shows the live structure and the
   live revision; no employee has two open assignments of a course; rows and snapshot steps match
   one to one and a cancelled assignment has no rows; an assignment is completed exactly when
   the required steps of its snapshot are done.
   */
  lemma {:induction false} InvHolds(db: Db, run: Run)
    requires Inv(db)
    ensures Inv(Exec(db, run))
    decreases |run|
  {
    hide Inv, Next;
    if run != [] {
      StepKeepsInv(db, run[0]);
      InvHolds(Next(db, run[0]), run[1..]);
    }
  }

  // ---------- what a revision number means, for ever ----------

  /**
   One operation moves a revision by at most one, moves it whenever the structure changes, and
   does so only while no assignment of the course is open.
   */
  lemma StepRevision(db: Db, e: Event, programId: Uuid)
    requires Inv(db) && programId in db.programs
    ensures programId in Next(db, e).programs
    ensures var before, after := db.programs[programId], Next(db, e).programs[programId];
      && (after.revision == before.revision || (after.revision == before.revision + 1 && !Locked(db, programId)))
      && (Shapes(after.steps) != Shapes(before.steps) ==> after.revision == before.revision + 1)
  {
    HomesOf(db);
    hide Inv, Homes, Next, Outcome, Locked, Shapes, UniquePositions, HasProgress;
    if Next(db, e) != db {
      SuccessChanges(db, e);
      if EditsCourse(e) {
        CourseEventIsEdit(db, e);
      } else {
        OthersLeaveProgramsAlone(db, e, programId);
      }
    }
  }

  lemma SuccessChanges(db: Db, e: Event)
    ensures Next(db, e) != db ==> Outcome(db, e).Ok?
  {
    hide Outcome;
  }

  lemma OthersLeaveProgramsAlone(db: Db, e: Event, programId: Uuid)
    requires !EditsCourse(e) && programId in db.programs
    ensures programId in Next(db, e).programs && Next(db, e).programs[programId] == db.programs[programId]
  {
    hide EnrolledUpTo, AllRequiredDone, FreshIds, HasOpen, Listed, RowsDropped, StepAdded, StepEdited, Reordering, StepRemoved;
  }

  /** Over every run a revision only grows, and while it is the same so is the structure. */
  lemma {:induction false} RevisionNamesOneStructure(db: Db, run: Run, programId: Uuid)
    requires Inv(db) && programId in db.programs
    ensures programId in Exec(db, run).programs
    ensures var before, after := db.programs[programId], Exec(db, run).programs[programId];
      && before.revision <= after.revision
      && (before.revision == after.revision ==> Shapes(before.steps) == Shapes(after.steps))
    decreases |run|
  {
    hide Inv, Next, Shapes, Locked;
    if run != [] {
      StepRevision(db, run[0], programId);
      StepKeepsInv(db, run[0]);
      RevisionNamesOneStructure(Next(db, run[0]), run[1..], programId);
    }
  }

  /** What never changes about an assignment; closed assignments do not change at all. */
  predicate SameRecord(a: Assignment, b: Assignment) {
    b == a.(status := b.status) && (!Open(a) ==> b == a)
  }

  lemma {:induction false} EnrolledKeepsRecords(
      db: Db, programId: Uuid, recipients: seq<Uuid>, ids: seq<Uuid>, n: nat, id: Uuid)
    requires programId in db.programs && n <= |recipients| == |ids| && id in db.assignments && id !in ids
    ensures id in EnrolledUpTo(db, programId, recipients, ids, n).assignments
    ensures EnrolledUpTo(db, programId, recipients, ids, n).assignments[id] == db.assignments[id]
  {
    hide Listed, Snapshot, RowsAdded;
    if n > 0 {
      EnrolledKeepsRecords(db, programId, recipients, ids, n - 1, id);
    }
  }

  lemma StepKeepsRecord(db: Db, e: Event, id: Uuid)
    requires id in db.assignments
    ensures id in Next(db, e).assignments && SameRecord(db.assignments[id], Next(db, e).assignments[id])
  {
    hide EnrolledUpTo, AllRequiredDone, HasOpen, Listed, RowsDropped, Clash, Placed, IsListing, NextPosition, Available, Locked,
      HasProgress, Distinct;
    if e.AssignMany? && Outcome(db, e).Ok? {
      EnrolledKeepsRecords(db, e.programId, e.recipients, e.ids, |e.recipients|, id);
    }
  }

  lemma {:induction false} EnrolledKeepsRows(db: Db, programId: Uuid, recipients: seq<Uuid>, ids: seq<Uuid>, n: nat, r: Row)
    requires programId in db.programs && n <= |recipients| == |ids| && r in db.progress && r.assignment !in ids
    ensures r in EnrolledUpTo(db, programId, recipients, ids, n).progress
    ensures EnrolledUpTo(db, programId, recipients, ids, n).progress[r] == db.progress[r]
  {
    hide Listed, Snapshot, RowsAdded;
    if n > 0 {
      EnrolledKeepsRows(db, programId, recipients, ids, n - 1, r);
      var before, listed := EnrolledUpTo(db, programId, recipients, ids, n - 1), Listed(db.programs[programId].steps);
      RowsAddedMeans(before.progress, ids[n - 1], listed, |listed|, r);
    }
  }

  lemma NeverBackToPending(db: Db, e: Event, id: Uuid)
    requires id in db.assignments && id in Next(db, e).assignments
    ensures Next(db, e).assignments[id].status == Pending ==> db.assignments[id].status == Pending
  {
    hide EnrolledUpTo, AllRequiredDone, HasOpen, Listed, RowsDropped, Clash, Placed, IsListing, NextPosition, Available, Locked,
      HasProgress, Distinct;
    if e.AssignMany? && Outcome(db, e).Ok? {
      EnrolledKeepsRecords(db, e.programId, e.recipients, e.ids, |e.recipients|, id);
    }
  }

  lemma CancelledHasNoRows(db: Db, r: Row)
    requires Inv(db) && r.assignment in db.assignments && db.assignments[r.assignment].status == Cancelled
    ensures r !in db.progress
  {
    hide Homes, Generations, Agreement, OneOpen, HonestStatuses;
    assert RowsMatch(db.progress, r.assignment, db.assignments[r.assignment]);
  }

  /** The operation starts or completes this very row. */
  predicate Touches(e: Event, r: Row) {
    (e.StartStep? || e.CompleteStep?) && Row(e.id, e.step) == r
  }

  /** Every other operation leaves a row as it is, unless it cancels the assignment. */
  lemma StepKeepsRow(db: Db, e: Event, r: Row)
    requires r in db.progress && r.assignment in db.assignments && !Touches(e, r)
    ensures r.assignment in Next(db, e).assignments
    ensures Next(db, e).assignments[r.assignment].status != Cancelled ==> r in Next(db, e).progress && Next(db, e).progress[r] == db.progress[r]
  {
    hide EnrolledUpTo, AllRequiredDone, HasOpen, Listed, Clash, Placed, IsListing, NextPosition, Available, Locked,
      HasProgress, Distinct;
    StepKeepsRecord(db, e, r.assignment);
    if e.AssignMany? && Outcome(db, e).Ok? {
      EnrolledKeepsRows(db, e.programId, e.recipients, e.ids, |e.recipients|, r);
    }
  }

  lemma {:induction false} RecordIsForever(db: Db, run: Run, id: Uuid)
    requires id in db.assignments
    ensures id in Exec(db, run).assignments && SameRecord(db.assignments[id], Exec(db, run).assignments[id])
    decreases |run|
  {
    hide Next;
    if run != [] {
      StepKeepsRecord(db, run[0], id);
      RecordIsForever(Next(db, run[0]), run[1..], id);
    }
  }

  /**
   Two snapshots of one course with one revision show the same structure, whenever in a run
   they were taken.
   */
  lemma SnapshotsOfOneRevisionAgree(db: Db, first: Run, later: Run, a: Uuid, b: Uuid)
    requires Inv(db) && a in Exec(db, first).assignments && b in Exec(Exec(db, first), later).assignments
    ensures Agree(Exec(db, first).assignments[a], Exec(Exec(db, first), later).assignments[b])
  {
    hide Exec, SameStructure, Homes, Generations, OneOpen, AllRowsMatch, HonestStatuses;
    InvHolds(db, first);
    InvHolds(Exec(db, first), later);
    RecordIsForever(Exec(db, first), later, a);
  }

  /** An open assignment has the live revision and shows the live structure. */
  lemma OpenShowsTheLiveCourse(db: Db, run: Run, id: Uuid)
    requires Inv(db) && id in Exec(db, run).assignments
    requires Open(Exec(db, run).assignments[id]) && Exec(db, run).assignments[id].snapshot.Some?
    ensures var after := Exec(db, run);
      var a := after.assignments[id];
      && a.programId in after.programs && a.revision == after.programs[a.programId].revision
      && SameStructure(a.snapshot.value, Snapshot(after.programs[a.programId].steps))
  {
    hide Exec, SameStructure, Snapshot, Agreement, OneOpen, AllRowsMatch, HonestStatuses, UniquePositions;
    InvHolds(db, run);
    assert UpToDate(Exec(db, run).assignments[id], Exec(db, run).programs[Exec(db, run).assignments[id].programId]);
  }

  // ---------- what an employee reads ----------

  function SnapIds(snapshot: seq<SnapStep>): (ids: seq<Uuid>)
    ensures |ids| == |snapshot| && forall k :: 0 <= k < |ids| ==> ids[k] == snapshot[k].id
  {
    seq(|snapshot|, k requires 0 <= k < |snapshot| => snapshot[k].id)
  }

  /** `snapshot_step_map`: later entries win. */
  function SnapshotMap(snapshot: Option<seq<SnapStep>>): map<Uuid, SnapStep> {
    if snapshot.None? then map[] else RecordUpTo(SnapIds(snapshot.value), snapshot.value, |snapshot.value|)
  }

  method SnapshotStepMap(snapshot: Option<seq<SnapStep>>) returns (mapped: map<Uuid, SnapStep>)
    ensures mapped == SnapshotMap(snapshot)
  {
    mapped := map[];
    if snapshot.None? {
      return;
    }
    for i := 0 to |snapshot.value|
      invariant mapped == RecordUpTo(SnapIds(snapshot.value), snapshot.value, i)
    {
      mapped := mapped[snapshot.value[i].id := snapshot.value[i]];
    }
  }

  datatype Fields = Fields(title: string, shape: Shape)

  /** `resolve_progress_step_fields`: the snapshot first, then the live step. */
  function Resolved(snapshot: Option<seq<SnapStep>>, steps: Steps, step: Uuid): Option<Fields> {
    var mapped := SnapshotMap(snapshot);
    if step in mapped then Some(Fields(mapped[step].title, mapped[step].shape))
    else if step in steps then Some(Fields(steps[step].title, ShapeOf(steps[step])))
    else None
  }

  /** The fields of a step as the assignment `id` resolves them. */
  function Reads(db: Db, id: Uuid, step: Uuid): Option<Fields>
    requires id in db.assignments && db.assignments[id].programId in db.programs
  {
    Resolved(db.assignments[id].snapshot, db.programs[db.assignments[id].programId].steps, step)
  }

  predicate SameShape(a: Option<Fields>, b: Option<Fields>) {
    (a.None? <==> b.None?) && (a.Some? ==> a.value.shape == b.value.shape)
  }

  lemma LockedCourseKeepsItsShapes(db: Db, e: Event, id: Uuid)
    requires Inv(db) && id in db.assignments && Open(db.assignments[id])
    ensures db.assignments[id].programId in db.programs && db.assignments[id].programId in Next(db, e).programs
    ensures Shapes(Next(db, e).programs[db.assignments[id].programId].steps)
         == Shapes(db.programs[db.assignments[id].programId].steps)
  {
    assert Homes(db);
    assert Locked(db, db.assignments[id].programId);
    hide Inv, Next, Shapes, Locked;
    StepRevision(db, e, db.assignments[id].programId);
  }

  lemma {:induction false} OpenRunKeepsShapes(db: Db, run: Run, id: Uuid)
    requires Inv(db) && id in db.assignments && id in Exec(db, run).assignments && Open(Exec(db, run).assignments[id])
    ensures db.assignments[id].programId in db.programs && db.assignments[id].programId in Exec(db, run).programs
    ensures Shapes(Exec(db, run).programs[db.assignments[id].programId].steps)
         == Shapes(db.programs[db.assignments[id].programId].steps)
    decreases |run|
  {
    assert Homes(db);
    hide Inv, Next, Shapes;
    RecordIsForever(db, run, id);
    if run != [] {
      LockedCourseKeepsItsShapes(db, run[0], id);
      StepKeepsInv(db, run[0]);
      StepKeepsRecord(db, run[0], id);
      OpenRunKeepsShapes(Next(db, run[0]), run[1..], id);
    }
  }

  /**
   Nothing an open assignment reads about a step changes while it is open: type, content,
   position and required flag, with or without a snapshot.
   */
  lemma OpenAssignmentReadsTheSame(db: Db, run: Run, id: Uuid, step: Uuid)
    requires Inv(db) && id in db.assignments && id in Exec(db, run).assignments && Open(Exec(db, run).assignments[id])
    ensures db.assignments[id].programId in db.programs
    ensures Exec(db, run).assignments[id].programId in Exec(db, run).programs
    ensures SameShape(Reads(db, id, step), Reads(Exec(db, run), id, step))
  {
    hide Inv, Exec, Shapes, SnapshotMap;
    RecordIsForever(db, run, id);
    OpenRunKeepsShapes(db, run, id);
    SameShapesSameSteps(db.programs[db.assignments[id].programId].steps,
                        Exec(db, run).programs[db.assignments[id].programId].steps);
  }

  /** What the snapshot covers stays as it was for ever, open or not, titles included. */
  lemma SnapshotIsHistory(db: Db, run: Run, id: Uuid, step: Uuid)
    requires Inv(db) && id in db.assignments && step in SnapshotMap(db.assignments[id].snapshot)
    ensures db.assignments[id].programId in db.programs && id in Exec(db, run).assignments
    ensures Exec(db, run).assignments[id].programId in Exec(db, run).programs
    ensures Reads(Exec(db, run), id, step) == Reads(db, id, step)
  {
    assert Homes(db);
    hide Inv, Exec, SnapshotMap;
    RecordIsForever(db, run, id);
    RevisionNamesOneStructure(db, run, db.assignments[id].programId);
  }

  // ---------- bulk assignment is all or nothing ----------

  /** The progress rows of a new assignment: one, not started, for each listed step. */
  ghost predicate FreshRun(db: Db, programId: Uuid, employee: Uuid, id: Uuid)
    requires programId in db.programs
  {
    && id in db.assignments
    && db.assignments[id] == Assignment(db.programs[programId].companyId, employee, programId, Pending,
                                        db.programs[programId].revision, Some(Snapshot(db.programs[programId].steps)))
    && (forall step :: Row(id, step) in db.progress <==> step in Listed(db.programs[programId].steps))
    && (forall step :: Row(id, step) in db.progress ==> db.progress[Row(id, step)] == NotStarted)
  }

  lemma FreshRunAfterOthers(db: Db, programId: Uuid, employee: Uuid, id: Uuid, other: Uuid, otherEmployee: Uuid)
    requires programId in db.programs && other != id && forall r :: r in db.progress ==> r.assignment != id
    requires FreshRun(db, programId, otherEmployee, other)
    ensures FreshRun(Enrolled(db, programId, employee, id), programId, otherEmployee, other)
  {
    hide Listed, Snapshot, RowsAdded;
    forall step
      ensures Row(other, step) in Enrolled(db, programId, employee, id).progress <==> Row(other, step) in db.progress
      ensures Row(other, step) in db.progress
        ==> Enrolled(db, programId, employee, id).progress[Row(other, step)] == db.progress[Row(other, step)]
    {
      EnrolledRow(db, programId, employee, id, Row(other, step));
    }
  }

  lemma FreshRunNow(db: Db, programId: Uuid, employee: Uuid, id: Uuid)
    requires programId in db.programs && forall r :: r in db.progress ==> r.assignment != id
    ensures FreshRun(Enrolled(db, programId, employee, id), programId, employee, id)
  {
    hide Listed, Snapshot, RowsAdded;
    var after := Enrolled(db, programId, employee, id);
    forall step
      ensures Row(id, step) in after.progress <==> step in Listed(db.programs[programId].steps)
      ensures Row(id, step) in after.progress ==> after.progress[Row(id, step)] == NotStarted
    {
      EnrolledRow(db, programId, employee, id, Row(id, step));
    }
  }

  predicate SameRow(rows: Rows, after: Rows, r: Row) {
    (r in after <==> r in rows) && (r in rows ==> after[r] == rows[r])
  }

  /** The first `n` recipients got their assignments, and nothing else happened. */
  ghost predicate BulkAssigned(db: Db, after: Db, programId: Uuid, recipients: seq<Uuid>, ids: seq<Uuid>, n: nat)
    requires programId in db.programs && n <= |recipients| == |ids|
  {
    && after.programs == db.programs
    && (forall id :: id in after.assignments <==> id in db.assignments || id in ids[..n])
    && (forall id :: id in db.assignments ==> id in after.assignments && after.assignments[id] == db.assignments[id])
    && (forall k :: 0 <= k < n ==> FreshRun(after, programId, recipients[k], ids[k]))
    && (forall r: Row :: r.assignment !in ids[..n] ==> SameRow(db.progress, after.progress, r))
  }

  lemma BulkStep(db: Db, before: Db, programId: Uuid, recipients: seq<Uuid>, ids: seq<Uuid>, n: nat)
    requires programId in db.programs && 0 < n <= |recipients| && FreshIds(db, recipients, ids)
    requires BulkAssigned(db, before, programId, recipients, ids, n - 1)
    ensures BulkAssigned(db, Enrolled(before, programId, recipients[n - 1], ids[n - 1]), programId, recipients, ids, n)
  {
    hide Listed, Snapshot, RowsAdded, FreshRun;
    var id, employee := ids[n - 1], recipients[n - 1];
    var after := Enrolled(before, programId, employee, id);
    assert ids[..n] == ids[..n - 1] + [id];
    assert id !in ids[..n - 1];
    forall r | r in before.progress ensures r.assignment != id {
      assert r.assignment !in ids[..n - 1] ==> SameRow(db.progress, before.progress, r);
    }
    FreshRunNow(before, programId, employee, id);
    forall k | 0 <= k < n - 1 ensures FreshRun(after, programId, recipients[k], ids[k]) {
      FreshRunAfterOthers(before, programId, employee, id, ids[k], recipients[k]);
    }
    forall r: Row | r.assignment !in ids[..n] ensures SameRow(db.progress, after.progress, r) {
      EnrolledRow(before, programId, employee, id, r);
    }
  }

  lemma {:induction false} EnrolledMeans(db: Db, programId: Uuid, recipients: seq<Uuid>, ids: seq<Uuid>, n: nat)
    requires programId in db.programs && n <= |recipients| == |ids| && FreshIds(db, recipients, ids)
    ensures BulkAssigned(db, EnrolledUpTo(db, programId, recipients, ids, n), programId, recipients, ids, n)
  {
    hide BulkAssigned, Enrolled, FreshIds;
    if n > 0 {
      EnrolledMeans(db, programId, recipients, ids, n - 1);
      BulkStep(db, EnrolledUpTo(db, programId, recipients, ids, n - 1), programId, recipients, ids, n);
    } else {
      NothingAssigned(db, programId, recipients, ids);
    }
  }

  lemma NothingAssigned(db: Db, programId: Uuid, recipients: seq<Uuid>, ids: seq<Uuid>)
    requires programId in db.programs && |recipients| == |ids|
    ensures BulkAssigned(db, db, programId, recipients, ids, 0)
  {
  }

  /**
   A bulk assignment either fails and changes nothing, or gives every recipient exactly one new
   assignment, pending, with the current revision, the snapshot and a not-started row for each
   step of the snapshot, and changes nothing else.
   */
  lemma BulkIsAllOrNothing(db: Db, companyId: Uuid, programId: Uuid, recipients: seq<Uuid>, ids: seq<Uuid>)
    ensures var e := AssignMany(companyId, programId, recipients, ids);
      if Outcome(db, e).Err? then Next(db, e) == db
      else
        && programId in db.programs && |ids| == |recipients|
        && BulkAssigned(db, Next(db, e), programId, recipients, ids, |recipients|)
        && |Elements(ids)| == |recipients| && Elements(ids) !! db.assignments.Keys
  {
    hide BulkAssigned, EnrolledUpTo, Listed, HasOpen;
    if Outcome(db, AssignMany(companyId, programId, recipients, ids)).Ok? {
      EnrolledMeans(db, programId, recipients, ids, |recipients|);
      DistinctCount(ids);
    }
  }
}
