/**
 The order in which an employee sees progress rows: by the positions of the assignment's own
 snapshot. Rows come back from the database in any order, and the live course may have been
 reordered since; the result is still the order of the day of assignment.
 */
module ProgressOrder {
  import opened Common
  import opened Lists
  import opened CourseStructure
  import opened CourseGenerations
  import opened Statuses

  /** The sort key: snapshot steps first, by position, then the others; ids break ties. */
  datatype SortKey = SortKey(group: int, position: int, id: Uuid)

  function KeyOf(mapped: map<Uuid, SnapStep>, step: Uuid): SortKey {
    if step in mapped then SortKey(0, mapped[step].shape.position, step) else SortKey(1, 0, step)
  }

  /** Tuples compare lexicographically. */
  predicate AtMost(a: SortKey, b: SortKey) {
    || a.group < b.group
    || (a.group == b.group && (a.position < b.position || (a.position == b.position && a.id <= b.id)))
  }

  predicate IsSorted(mapped: map<Uuid, SnapStep>, steps: seq<Uuid>) {
    forall i, j :: 0 <= i < j < |steps| ==> AtMost(KeyOf(mapped, steps[i]), KeyOf(mapped, steps[j]))
  }

  function Inserted(mapped: map<Uuid, SnapStep>, sorted: seq<Uuid>, step: Uuid): seq<Uuid> {
    if sorted == [] then [step]
    else if AtMost(KeyOf(mapped, step), KeyOf(mapped, sorted[0])) then [step] + sorted
    else [sorted[0]] + Inserted(mapped, sorted[1..], step)
  }

  function Sorted(mapped: map<Uuid, SnapStep>, steps: seq<Uuid>): seq<Uuid> {
    if steps == [] then [] else Inserted(mapped, Sorted(mapped, steps[1..]), steps[0])
  }

  /** `order_records_by_snapshot`; rows are named by their steps. */
  function OrderRecordsBySnapshot(records: seq<Uuid>, snapshot: Option<seq<SnapStep>>): seq<Uuid> {
    var mapped := SnapshotMap(snapshot);
    if |mapped| == 0 then records else Sorted(mapped, records)
  }

  // ---------- it sorts ----------

  lemma {:induction false} InsertedKeepsAll(mapped: map<Uuid, SnapStep>, sorted: seq<Uuid>, step: Uuid)
    ensures multiset(Inserted(mapped, sorted, step)) == multiset(sorted) + multiset{step}
    decreases |sorted|
  {
    if sorted != [] {
      assert sorted == [sorted[0]] + sorted[1..];
      InsertedKeepsAll(mapped, sorted[1..], step);
    }
  }

  lemma {:induction false} InsertedIsSorted(mapped: map<Uuid, SnapStep>, sorted: seq<Uuid>, step: Uuid)
    requires IsSorted(mapped, sorted)
    ensures IsSorted(mapped, Inserted(mapped, sorted, step))
    ensures Inserted(mapped, sorted, step) != []
    ensures Inserted(mapped, sorted, step)[0] in [step] + sorted[..if sorted == [] then 0 else 1]
    decreases |sorted|
  {
    if sorted != [] && !AtMost(KeyOf(mapped, step), KeyOf(mapped, sorted[0])) {
      var rest := sorted[1..];
      InsertedIsSorted(mapped, rest, step);
      var tail := Inserted(mapped, rest, step);
      HeadBelowTail(mapped, sorted[0], tail);
    }
  }

  /** A head no greater than the first of a sorted list is no greater than all of it. */
  lemma HeadBelowTail(mapped: map<Uuid, SnapStep>, head: Uuid, tail: seq<Uuid>)
    requires IsSorted(mapped, tail) && tail != [] && AtMost(KeyOf(mapped, head), KeyOf(mapped, tail[0]))
    ensures IsSorted(mapped, [head] + tail)
  {
  }

  lemma {:induction false} SortedIsSorted(mapped: map<Uuid, SnapStep>, steps: seq<Uuid>)
    ensures IsSorted(mapped, Sorted(mapped, steps)) && multiset(Sorted(mapped, steps)) == multiset(steps)
    decreases |steps|
  {
    if steps != [] {
      SortedIsSorted(mapped, steps[1..]);
      InsertedIsSorted(mapped, Sorted(mapped, steps[1..]), steps[0]);
      InsertedKeepsAll(mapped, Sorted(mapped, steps[1..]), steps[0]);
      assert steps == [steps[0]] + steps[1..];
    }
  }

  /** After sorting, steps of the snapshot come first, by position, and all others after them, by id. */
  lemma SnapshotStepsComeFirst(mapped: map<Uuid, SnapStep>, steps: seq<Uuid>, i: nat, j: nat)
    requires i < j < |Sorted(mapped, steps)|
    ensures var a, b := Sorted(mapped, steps)[i], Sorted(mapped, steps)[j];
      && (b in mapped ==> a in mapped && mapped[a].shape.position <= mapped[b].shape.position)
      && (a !in mapped ==> b !in mapped && a <= b)
  {
    hide Sorted;
    SortedIsSorted(mapped, steps);
    var a, b := Sorted(mapped, steps)[i], Sorted(mapped, steps)[j];
    assert AtMost(KeyOf(mapped, a), KeyOf(mapped, b));
  }

  /** Keys of different steps differ, so there is only one sorted arrangement. */
  lemma {:induction false} OneSortedArrangement(mapped: map<Uuid, SnapStep>, a: seq<Uuid>, b: seq<Uuid>)
    requires IsSorted(mapped, a) && IsSorted(mapped, b) && multiset(a) == multiset(b)
    ensures a == b
    decreases |a|
  {
    assert |a| == |multiset(a)| && |b| == |multiset(b)|;
    if a != [] {
      hide IsSorted;
      SameFirst(mapped, a, b);
      SortedTail(mapped, a);
      SortedTail(mapped, b);
      assert a == [a[0]] + a[1..] && b == [b[0]] + b[1..];
      assert multiset(a[1..]) == multiset(a) - multiset{a[0]};
      assert multiset(b[1..]) == multiset(b) - multiset{b[0]};
      OneSortedArrangement(mapped, a[1..], b[1..]);
    }
  }

  lemma SortedTail(mapped: map<Uuid, SnapStep>, a: seq<Uuid>)
    requires IsSorted(mapped, a) && a != []
    ensures IsSorted(mapped, a[1..])
  {
    hide AtMost, KeyOf;
    assert forall i :: 0 <= i < |a| - 1 ==> a[1..][i] == a[i + 1];
  }

  lemma SameFirst(mapped: map<Uuid, SnapStep>, a: seq<Uuid>, b: seq<Uuid>)
    requires IsSorted(mapped, a) && IsSorted(mapped, b) && multiset(a) == multiset(b)
    requires a != [] && b != []
    ensures a[0] == b[0]
  {
    assert a[0] in multiset(b) && b[0] in multiset(a);
    var i :| 0 <= i < |b| && b[i] == a[0];
    var j :| 0 <= j < |a| && a[j] == b[0];
    assert i > 0 ==> AtMost(KeyOf(mapped, b[0]), KeyOf(mapped, b[i]));
    assert j > 0 ==> AtMost(KeyOf(mapped, a[0]), KeyOf(mapped, a[j]));
  }

  // ---------- snapshots are in order ----------

  ghost predicate Increasing(snapshot: seq<SnapStep>) {
    forall i, j :: 0 <= i < j < |snapshot| ==> snapshot[i].shape.position < snapshot[j].shape.position && snapshot[i].id != snapshot[j].id
  }

  ghost predicate SnapshotsOrdered(db: Db) {
    forall id :: id in db.assignments && db.assignments[id].snapshot.Some? ==> Increasing(db.assignments[id].snapshot.value)
  }

  lemma SnapshotIsIncreasing(steps: Steps)
    requires UniquePositions(steps)
    ensures Increasing(Snapshot(steps))
  {
    hide UniquePositions, Order;
    var order, listed := Order(steps), Listed(steps);
    forall i, j | 0 <= i < j < |listed| ensures steps[listed[i]].position < steps[listed[j]].position {
      assert listed[i] == order[i] && listed[j] == order[j];
    }
  }

  lemma OnlyAssigningAdds(db: Db, e: Event, id: Uuid)
    requires id in Next(db, e).assignments && id !in db.assignments
    ensures e.AssignMany? && Outcome(db, e).Ok?
  {
    hide EnrolledUpTo, AllRequiredDone, HasOpen, Listed, RowsDropped, Clash, Placed, IsListing, NextPosition, Available, Locked,
      HasProgress, Distinct;
  }

  lemma StepKeepsSnapshotsOrdered(db: Db, e: Event)
    requires Inv(db) && SnapshotsOrdered(db)
    ensures SnapshotsOrdered(Next(db, e))
  {
    HomesOf(db);
    hide Inv, Next, Outcome, Increasing, Snapshot, UniquePositions;
    forall id | id in Next(db, e).assignments && Next(db, e).assignments[id].snapshot.Some?
      ensures Increasing(Next(db, e).assignments[id].snapshot.value)
    {
      if id in db.assignments {
        StepKeepsRecord(db, e, id);
      } else {
        OnlyAssigningAdds(db, e, id);
        BulkIsAllOrNothing(db, e.companyId, e.programId, e.recipients, e.ids);
        NewRunIsFresh(db, Next(db, e), e.programId, e.recipients, e.ids, id);
        SnapshotIsIncreasing(db.programs[e.programId].steps);
      }
    }
  }

  lemma NewRunIsFresh(db: Db, after: Db, programId: Uuid, recipients: seq<Uuid>, ids: seq<Uuid>, id: Uuid)
    requires programId in db.programs && |recipients| == |ids|
    requires BulkAssigned(db, after, programId, recipients, ids, |recipients|)
    requires id in after.assignments && id !in db.assignments
    ensures after.assignments[id].snapshot == Some(Snapshot(db.programs[programId].steps))
  {
    hide Snapshot, Listed;
    assert ids[..|recipients|] == ids;
    var k :| 0 <= k < |ids| && ids[k] == id;
    assert FreshRun(after, programId, recipients[k], ids[k]);
  }

  lemma {:induction false} SnapshotsStayOrdered(db: Db, run: Run)
    requires Inv(db) && SnapshotsOrdered(db)
    ensures Inv(Exec(db, run)) && SnapshotsOrdered(Exec(db, run))
    decreases |run|
  {
    hide Inv, Next, SnapshotsOrdered;
    if run != [] {
      StepKeepsInv(db, run[0]);
      StepKeepsSnapshotsOrdered(db, run[0]);
      SnapshotsStayOrdered(Next(db, run[0]), run[1..]);
    }
  }

  // ---------- what the employee sees ----------

  /** `records` lists the steps of the assignment's progress rows, in some order. */
  ghost predicate ListsRows(rows: Rows, id: Uuid, records: seq<Uuid>) {
    Distinct(records) && forall step :: step in records <==> Row(id, step) in rows
  }

  lemma SnapshotIdsAreSorted(snapshot: seq<SnapStep>)
    requires Increasing(snapshot)
    ensures Distinct(SnapIds(snapshot))
    ensures IsSorted(SnapshotMap(Some(snapshot)), SnapIds(snapshot))
    ensures SnapshotMap(Some(snapshot)).Keys == Elements(SnapIds(snapshot))
  {
    var ids, mapped := SnapIds(snapshot), SnapshotMap(Some(snapshot));
    hide SnapshotMap;
    SnapshotMapLooksUp(snapshot);
    forall i, j | 0 <= i < j < |ids| ensures AtMost(KeyOf(mapped, ids[i]), KeyOf(mapped, ids[j])) {
      assert mapped[ids[i]] == snapshot[i] && mapped[ids[j]] == snapshot[j];
    }
  }

  lemma SnapshotMapLooksUp(snapshot: seq<SnapStep>)
    requires Increasing(snapshot)
    ensures var ids, mapped := SnapIds(snapshot), SnapshotMap(Some(snapshot));
      && mapped.Keys == Elements(ids)
      && forall k :: 0 <= k < |ids| ==> ids[k] in mapped && mapped[ids[k]] == snapshot[k]
  {
    var ids := SnapIds(snapshot);
    RecordKeys(ids, snapshot, |ids|);
    assert Distinct(ids);
    forall k | 0 <= k < |ids| ensures ids[k] in SnapshotMap(Some(snapshot)) && SnapshotMap(Some(snapshot))[ids[k]] == snapshot[k] {
      RecordLooksUp(ids, snapshot, |ids|, k);
    }
    forall x ensures x in Seen(ids, |ids|) <==> x in Elements(ids) {
      SeenMeans(ids, |ids|, x);
    }
  }

  lemma {:induction false} DistinctMultiset(a: seq<Uuid>, b: seq<Uuid>)
    requires Distinct(a) && Distinct(b) && forall x :: x in a <==> x in b
    ensures multiset(a) == multiset(b)
  {
    forall x ensures multiset(a)[x] == multiset(b)[x] {
      OccursOnce(a, x);
      OccursOnce(b, x);
    }
  }

  lemma {:induction false} OccursOnce(xs: seq<Uuid>, x: Uuid)
    requires Distinct(xs)
    ensures multiset(xs)[x] == if x in xs then 1 else 0
    decreases |xs|
  {
    if xs != [] {
      var front, last := xs[..|xs| - 1], xs[|xs| - 1];
      assert xs == front + [last];
      OccursOnce(front, x);
    }
  }

  /** Any listing of the snapshot's steps is put into the snapshot's own order. */
  lemma OrderingRestoresTheSnapshot(records: seq<Uuid>, snapshot: seq<SnapStep>)
    requires Increasing(snapshot) && Distinct(records)
    requires forall step :: step in records <==> step in SnapIds(snapshot)
    ensures OrderRecordsBySnapshot(records, Some(snapshot)) == SnapIds(snapshot)
  {
    hide Sorted, SnapshotMap, IsSorted, Increasing;
    var mapped := SnapshotMap(Some(snapshot));
    SnapshotIdsAreSorted(snapshot);
    DistinctMultiset(records, SnapIds(snapshot));
    SortedIsSorted(mapped, records);
    OneSortedArrangement(mapped, Sorted(mapped, records), SnapIds(snapshot));
    if |mapped| == 0 {
      NonemptyHasElement(records);
      NonemptyHasElement(SnapIds(snapshot));
      assert forall step :: step in SnapIds(snapshot) ==> step in Elements(SnapIds(snapshot));
    }
  }

  lemma NonemptyHasElement(xs: seq<Uuid>)
    ensures xs != [] ==> exists x :: x in xs
  {
    if xs != [] {
      assert xs[0] in xs;
    }
  }

  lemma RowsAreSnapshotSteps(rows: Rows, id: Uuid, a: Assignment, records: seq<Uuid>)
    requires RowsMatch(rows, id, a) && a.status != Cancelled && a.snapshot.Some? && ListsRows(rows, id, records)
    ensures Distinct(records) && forall step :: step in records <==> step in SnapIds(a.snapshot.value)
  {
    hide Distinct;
    var snapshot := a.snapshot.value;
    forall step ensures step in records <==> step in SnapIds(snapshot) {
      assert Row(id, step) in rows <==> SnapHas(snapshot, step);
      assert SnapHas(snapshot, step) <==> step in SnapIds(snapshot);
    }
  }

  /**
   After every run, whatever order the rows come back in and whatever happened to the course, the
   rows of an assignment that was not cancelled read exactly as its snapshot lists the steps.
   */
  lemma RowsReadInSnapshotOrder(db: Db, run: Run, id: Uuid, records: seq<Uuid>)
    requires Inv(db) && SnapshotsOrdered(db) && id in Exec(db, run).assignments
    requires Exec(db, run).assignments[id].status != Cancelled && Exec(db, run).assignments[id].snapshot.Some?
    requires ListsRows(Exec(db, run).progress, id, records)
    ensures OrderRecordsBySnapshot(records, Exec(db, run).assignments[id].snapshot)
         == SnapIds(Exec(db, run).assignments[id].snapshot.value)
  {
    SnapshotsStayOrdered(db, run);
    var after := Exec(db, run);
    var a := after.assignments[id];
    assert RowsMatch(after.progress, id, a);
    hide Exec, Inv, OrderRecordsBySnapshot, RowsMatch, ListsRows, Increasing;
    RowsAreSnapshotSteps(after.progress, id, a, records);
    OrderingRestoresTheSnapshot(records, a.snapshot.value);
  }
}
