/**
 The course, assignment and progress services: methods that update the stored rows one by one.
 Each is proved to end in exactly the database `CourseGenerations.Next` gives, or, on an error, in
 the one it started from.
 */
module CourseService {
  import opened Common
  import opened Lists
  import opened CourseStructure
  import opened CourseGenerations
  import opened CourseOutcomes
  import opened Statuses
  import Recipients

  /** A result reports an outcome: success or the same error. */
  ghost predicate Reports<T>(r: Result<T>, outcome: Result<Db>) {
    (r.Ok? <==> outcome.Ok?) && (r.Err? ==> r.error == outcome.error)
  }

  /** The step a transaction takes, with what the service tells its caller. */
  ghost predicate Took<T>(before: Db, after: Db, e: Event, r: Result<T>) {
    after == Next(before, e) && Reports(r, Outcome(before, e))
  }

  class CourseStore {
    var programs: map<Uuid, Program>
    var assignments: map<Uuid, Assignment>
    var progress: Rows

    function State(): Db
      reads this
    {
      Db(programs, assignments, progress)
    }

    ghost predicate Valid()
      reads this
    {
      Inv(State())
    }

    constructor ()
      ensures Valid() && State() == Db(map[], map[], map[])
    {
      programs, assignments, progress := map[], map[], map[];
    }

    method BumpProgramRevision(programId: Uuid) returns (revision: nat)
      requires programId in programs
      modifies this`programs
      ensures revision == old(programs[programId].revision) + 1
      ensures programs == old(programs)[programId := old(programs[programId]).(revision := revision)]
    {
      revision := programs[programId].revision + 1;
      programs := programs[programId := programs[programId].(revision := revision)];
    }

    /** Write the steps of a course, then take the next revision. */
    method SaveStructure(programId: Uuid, steps: Steps)
      requires programId in programs
      modifies this`programs
      ensures State() == WithProgram(old(State()), programId, Bumped(old(programs[programId]), steps))
    {
      programs := programs[programId := programs[programId].(steps := steps)];
      var _ := BumpProgramRevision(programId);
    }

    method CreateStep(companyId: Uuid, programId: Uuid, step: Uuid, position: Option<int>, draft: Draft)
      returns (r: Result<nat>)
      requires Valid()
      modifies this
      ensures Valid()
      ensures Took(old(State()), State(), AddStep(companyId, programId, step, position, draft), r)
      ensures r.Ok? ==> programId in programs && step in programs[programId].steps
      ensures r.Ok? ==> programs[programId].steps[step].position == r.value && (position.Some? ==> r.value == position.value)
    {
      hide Inv, Available, NextPosition, Locked, UniquePositions;
      ghost var before := State();
      HomesOf(before);
      StepKeepsInv(before, AddStep(companyId, programId, step, position, draft));
      if !Owned(State(), companyId, programId) {
        return Err(NotFound);
      }
      var steps := programs[programId].steps;
      var at := MaxPositionPlusOne(steps);
      if position.Some? {
        if position.value < 0 {
          return Err(Validation);
        }
        at := position.value;
      }
      if Locked(State(), programId) {
        return Err(Conflict);
      }
      if step in steps || !Available(steps, step, at) {
        return Err(Conflict);
      }
      SaveStructure(programId, steps[step := Step(at, draft.kind, draft.required, draft.content, draft.title)]);
      r := Ok(at);
    }

    method UpdateStep(companyId: Uuid, programId: Uuid, step: Uuid, patch: Patch) returns (r: Result<Step>)
      requires Valid()
      modifies this
      ensures Valid()
      ensures Took(old(State()), State(), EditStep(companyId, programId, step, patch), r)
      ensures r.Ok? ==> programId in programs && step in programs[programId].steps
      ensures r.Ok? ==> programs[programId].steps[step] == r.value
    {
      hide Inv, Locked;
      ghost var before := State();
      StepKeepsInv(before, EditStep(companyId, programId, step, patch));
      if !Owned(State(), companyId, programId) || step !in programs[programId].steps {
        return Err(NotFound);
      }
      if TouchesStructure(patch) && Locked(State(), programId) {
        return Err(Conflict);
      }
      var updated := Patched(programs[programId].steps[step], patch);
      programs := programs[programId := programs[programId].(steps := programs[programId].steps[step := updated])];
      if TouchesStructure(patch) {
        var _ := BumpProgramRevision(programId);
      }
      assert State() == Next(before, EditStep(companyId, programId, step, patch));
      r := Ok(updated);
    }

    method ReorderSteps(companyId: Uuid, programId: Uuid, order: seq<Uuid>) returns (r: Result<seq<Uuid>>)
      requires Valid()
      modifies this
      ensures Valid()
      ensures Took(old(State()), State(), Reorder(companyId, programId, order), r)
      ensures r.Ok? ==> programId in programs && r.value == order && Listed(programs[programId].steps) == order
    {
      hide Inv, Locked, Distinct, UniquePositions, Listed, Placed, Clash;
      ghost var before := State();
      HomesOf(before);
      StepKeepsInv(before, Reorder(companyId, programId, order));
      if order == [] || !Distinct(order) {
        return Err(Validation);
      }
      if !Owned(State(), companyId, programId) {
        return Err(NotFound);
      }
      var steps := programs[programId].steps;
      var existing := ListByProgram(steps);
      if Elements(order) != Elements(existing) {
        return Err(Validation);
      }
      if order == existing {
        return Ok(existing);
      }
      if Locked(State(), programId) {
        return Err(Conflict);
      }
      RenumberedReadsBack(steps, order);
      var renumbered := Renumber(steps, order);
      if renumbered.Err? {
        return Err(renumbered.error);
      }
      SaveStructure(programId, renumbered.value);
      r := Ok(order);
    }

    method DeleteStep(companyId: Uuid, programId: Uuid, step: Uuid) returns (r: Result<nat>)
      requires Valid()
      modifies this
      ensures Valid()
      ensures Took(old(State()), State(), RemoveStep(companyId, programId, step), r)
      ensures r.Ok? ==> programId in programs && step !in programs[programId].steps
      ensures r.Ok? ==> r.value == |Listed(programs[programId].steps)|
    {
      hide Inv, Locked, HasProgress, Listed, Placed, Clash;
      ghost var before := State();
      HomesOf(before);
      StepKeepsInv(before, RemoveStep(companyId, programId, step));
      if !Owned(State(), companyId, programId) || step !in programs[programId].steps {
        return Err(NotFound);
      }
      if Locked(State(), programId) {
        return Err(Conflict);
      }
      if HasProgress(State(), step) {
        return Err(Conflict);
      }
      var rest := programs[programId].steps - {step};
      assert UniquePositions(rest);
      var remaining := ListByProgram(rest);
      RenumberedReadsBack(rest, remaining);
      var renumbered := Renumber(rest, remaining);
      if renumbered.Err? {
        return Err(renumbered.error);
      }
      SaveStructure(programId, renumbered.value);
      r := Ok(|remaining|);
    }

    /** `uuid4`: an id that no assignment has. */
    method FreshId() returns (id: Uuid)
      ensures id !in assignments
    {
      id := 0;
      var rest := assignments.Keys;
      while rest != {}
        invariant forall used :: used in assignments ==> used in rest || used < id
        decreases rest
      {
        var used :| used in rest;
        rest := rest - {used};
        id := Max(id, used + 1);
      }
    }

    /** One assignment with its progress rows. */
    method Enrol(programId: Uuid, employee: Uuid, listed: seq<Uuid>, snapshot: seq<SnapStep>) returns (id: Uuid)
      requires programId in programs
      requires listed == Listed(programs[programId].steps) && snapshot == Snapshot(programs[programId].steps)
      modifies this`assignments, this`progress
      ensures id !in old(assignments)
      ensures State() == Enrolled(old(State()), programId, employee, id)
    {
      hide Listed, Snapshot;
      id := FreshId();
      var program := programs[programId];
      assignments := assignments[
        id := Assignment(program.companyId, employee, programId, Pending, program.revision, Some(snapshot))];
      for i := 0 to |listed|
        invariant progress == RowsAdded(old(progress), id, listed, i)
        invariant assignments == old(assignments)[
          id := Assignment(program.companyId, employee, programId, Pending, program.revision, Some(snapshot))]
      {
        progress := progress[Row(id, listed[i]) := NotStarted];
      }
    }

    method BuildStructureSnapshot(steps: Steps, listed: seq<Uuid>) returns (snapshot: seq<SnapStep>)
      requires listed == Listed(steps)
      ensures snapshot == Snapshot(steps)
    {
      hide Listed;
      snapshot := seq(|listed|, i requires 0 <= i < |listed| => SnapOf(listed[i], steps[listed[i]]));
    }

    /** The row-creating loop: one assignment for each recipient. */
    method EnrolAll(programId: Uuid, recipients: seq<Uuid>) returns (ids: seq<Uuid>)
      requires Valid() && programId in programs && Distinct(recipients)
      modifies this`assignments, this`progress
      ensures FreshIds(old(State()), recipients, ids)
      ensures State() == EnrolledUpTo(old(State()), programId, recipients, ids, |recipients|)
    {
      hide Inv, Listed, Snapshot, Enrolled, Distinct;
      ghost var before := State();
      HomesOf(before);
      var steps := programs[programId].steps;
      var listed := ListByProgram(steps);
      var snapshot := BuildStructureSnapshot(steps, listed);
      ids := [];
      NoIdsYet(before);
      for i := 0 to |recipients|
        invariant programs == before.programs && |ids| == i
        invariant IdsTaken(before, State(), ids)
        invariant State() == EnrolledSoFarBy(before, programId, recipients, ids)
      {
        ghost var sofar := State();
        var id := Enrol(programId, recipients[i], listed, snapshot);
        OneMoreEnrolled(before, sofar, programId, recipients, ids, id);
        ids := ids + [id];
      }
      IdsAreFresh(before, State(), recipients, ids);
    }

    method CreateMany(
        dir: Recipients.Directory, companyId: Uuid, employees: seq<Uuid>, departments: seq<Uuid>, programId: Uuid)
      returns (r: Result<seq<Uuid>>, ghost recipients: seq<Uuid>)
      requires Valid()
      modifies this
      ensures Valid()
      ensures var refused := Recipients.ResolutionError(dir, companyId, employees, departments);
        if refused.Some? then r == Err(refused.value) && State() == old(State())
        else
          && Distinct(recipients) && Elements(recipients) == Recipients.Everyone(dir, employees, departments)
          && Took(old(State()), State(), AssignMany(companyId, programId, recipients, if r.Ok? then r.value else []), r)
      ensures var mine := programId in old(programs) && old(programs)[programId].companyId == companyId;
        var ready := mine && old(programs)[programId].active && old(programs)[programId].steps != map[];
        Recipients.ResolutionError(dir, companyId, employees, departments).None? ==>
          && (r.Ok? <==> ready && !SomeoneIsBusy(old(State()), programId, recipients))
          && (r == Err(NotFound) <==> !mine)
          && (r == Err(Validation) <==> mine && !ready)
          && (r == Err(Conflict) <==> ready && SomeoneIsBusy(old(State()), programId, recipients))
    {
      hide Inv, Listed, HasOpen, Distinct, EnrolledUpTo, FreshIds;
      hide Recipients.ResolutionError;
      ghost var before := State();
      HomesOf(before);
      recipients := [];
      var resolved := Recipients.ResolveAssignmentRecipients(dir, companyId, employees, departments);
      if resolved.Err? {
        return Err(resolved.error), [];
      }
      var people := resolved.value;
      recipients := people;
      BusyIsHasOpen(before, programId, people);
      hide SomeoneIsBusy;
      if !Owned(State(), companyId, programId) {
        return Err(NotFound), recipients;
      }
      if !programs[programId].active {
        return Err(Validation), recipients;
      }
      var listed := ListByProgram(programs[programId].steps);
      NothingListedIffEmpty(programs[programId].steps);
      if listed == [] {
        return Err(Validation), recipients;
      }
      if exists k :: 0 <= k < |people| && HasOpen(State(), programId, people[k]) {
        return Err(Conflict), recipients;
      }
      var ids := EnrolAll(programId, people);
      StepKeepsInv(before, AssignMany(companyId, programId, recipients, ids));
      r := Ok(ids);
    }

    method CancelAssignment(companyId: Uuid, id: Uuid) returns (r: Result<nat>)
      requires Valid()
      modifies this
      ensures Valid()
      ensures Took(old(State()), State(), Cancel(companyId, id), r)
      ensures r.Ok? ==> forall step :: Row(id, step) !in progress
      ensures r.Ok? ==> r.value == |set row | row in old(progress) && row.assignment == id|
    {
      hide Inv;
      ghost var before := State();
      StepKeepsInv(before, Cancel(companyId, id));
      if !Mine(State(), companyId, id) {
        return Err(NotFound);
      }
      if assignments[id].status == Cancelled || assignments[id].status == Completed {
        return Err(Validation);
      }
      var count := |progress|;
      progress := map row | row in progress && row.assignment != id :: progress[row];
      var discarded := count - |progress|;
      DroppedAndKept(before.progress, id);
      assignments := assignments[id := assignments[id].(status := Cancelled)];
      assert State() == Next(before, Cancel(companyId, id));
      r := Ok(discarded);
    }

    /** `_ensure_started` on the row and on its assignment. */
    method EnsureStarted(companyId: Uuid, id: Uuid, step: Uuid) returns (r: Result<RowStatus>)
      requires Valid()
      modifies this
      ensures Valid()
      ensures Took(old(State()), State(), StartStep(companyId, id, step), r)
      ensures r.Ok? ==> Row(id, step) in progress && progress[Row(id, step)] == r.value != NotStarted
    {
      hide Inv;
      ghost var before := State();
      StepKeepsInv(before, StartStep(companyId, id, step));
      var row := Row(id, step);
      if row !in progress || !Mine(State(), companyId, id) {
        return Err(NotFound);
      }
      if progress[row] == Done {
        return Err(Conflict);
      }
      if assignments[id].status == Cancelled || assignments[id].status == Completed {
        return Err(Validation);
      }
      if progress[row] == NotStarted {
        progress := progress[row := Started];
        if assignments[id].status == Pending {
          assignments := assignments[id := assignments[id].(status := InProgress)];
        }
        assert State() == Next(before, StartStep(companyId, id, step));
      }
      r := Ok(progress[row]);
    }

    method CompleteStep(companyId: Uuid, id: Uuid, step: Uuid, passed: bool) returns (r: Result<Status>)
      requires Valid()
      modifies this
      ensures Valid()
      ensures Took(old(State()), State(), Event.CompleteStep(companyId, id, step, passed), r)
      ensures r.Ok? ==> id in assignments && assignments[id].status == r.value
      ensures r.Ok? <==> Workable(old(State()), companyId, Row(id, step))
      ensures r.Ok? ==> progress == old(progress)[Row(id, step) := if passed then Done else Started]
    {
      hide Inv, AllRequiredDone, StepExists, Listed, Workable;
      ghost var before := State();
      HomesOf(before);
      CompletionOutcome(before, companyId, id, step, passed);
      StepKeepsInv(before, Event.CompleteStep(companyId, id, step, passed));
      if !Mine(State(), companyId, id) {
        return Err(NotFound);
      }
      if assignments[id].status == Cancelled {
        return Err(Validation);
      }
      if !StepExists(State(), step) {
        return Err(NotFound);
      }
      var programId := assignments[id].programId;
      if step !in programs[programId].steps {
        return Err(Validation);
      }
      var row := Row(id, step);
      if row !in progress {
        return Err(NotFound);
      }
      if progress[row] == Done {
        return Err(Conflict);
      }
      if assignments[id].status == Completed {
        return Err(Validation);
      }
      progress := progress[row := if passed then Done else Started];
      if assignments[id].status == Pending {
        assignments := assignments[id := assignments[id].(status := InProgress)];
      }
      var listed := ListByProgram(programs[programId].steps);
      if AllRequiredDone(progress, id, listed, programs[programId].steps) {
        assignments := assignments[id := assignments[id].(status := Completed)];
      }
      assert State() == Next(before, Event.CompleteStep(companyId, id, step, passed));
      r := Ok(assignments[id].status);
    }
  }

  // ---------- the bulk loop ----------

  /** The database after the first `|ids|` recipients. */
  ghost function EnrolledSoFarBy(db: Db, programId: Uuid, recipients: seq<Uuid>, ids: seq<Uuid>): Db
    requires programId in db.programs && |ids| <= |recipients|
  {
    EnrolledUpTo(db, programId, recipients[..|ids|], ids, |ids|)
  }

  /** The ids given out so far are exactly the new ones. */
  ghost predicate IdsTaken(before: Db, now: Db, ids: seq<Uuid>) {
    && Distinct(ids)
    && (forall id :: id in now.assignments <==> id in before.assignments || id in ids)
    && (forall k :: 0 <= k < |ids| ==> ids[k] !in before.assignments)
  }

  lemma NoIdsYet(db: Db)
    ensures IdsTaken(db, db, [])
  {
  }

  lemma {:induction false} EnrolledPrefix(db: Db, programId: Uuid, recipients: seq<Uuid>, ids: seq<Uuid>, n: nat, more: seq<Uuid>, last: Uuid)
    requires programId in db.programs && n <= |recipients| == |ids|
    ensures |recipients + more| == |ids + [last]| ==>
      EnrolledUpTo(db, programId, recipients + more, ids + [last], n) == EnrolledUpTo(db, programId, recipients, ids, n)
  {
    hide Enrolled;
    if n > 0 {
      EnrolledPrefix(db, programId, recipients, ids, n - 1, more, last);
    }
  }

  lemma OneMoreEnrolled(before: Db, sofar: Db, programId: Uuid, recipients: seq<Uuid>, ids: seq<Uuid>, id: Uuid)
    requires programId in before.programs && |ids| < |recipients| && IdsTaken(before, sofar, ids) && id !in sofar.assignments
    requires sofar.programs == before.programs && sofar == EnrolledSoFarBy(before, programId, recipients, ids)
    ensures var now := Enrolled(sofar, programId, recipients[|ids|], id);
      IdsTaken(before, now, ids + [id]) && now == EnrolledSoFarBy(before, programId, recipients, ids + [id])
  {
    hide Listed, Snapshot, RowsAdded;
    var n := |ids|;
    EnrolledPrefix(before, programId, recipients[..n], ids, n, [recipients[n]], id);
    assert recipients[..n + 1] == recipients[..n] + [recipients[n]];
    assert |ids + [id]| == n + 1;
  }

  lemma IdsAreFresh(before: Db, now: Db, recipients: seq<Uuid>, ids: seq<Uuid>)
    requires Homes(before) && IdsTaken(before, now, ids) && |ids| == |recipients| && Distinct(recipients)
    ensures FreshIds(before, recipients, ids) && recipients[..|ids|] == recipients
  {
  }

  lemma DroppedAndKept(rows: Rows, id: Uuid)
    ensures |rows| == |RowsDropped(rows, id)| + |set row | row in rows && row.assignment == id|
  {
    var kept := RowsDropped(rows, id).Keys;
    var dropped := set row | row in rows && row.assignment == id;
    assert kept !! dropped && rows.Keys == kept + dropped;
  }
}
