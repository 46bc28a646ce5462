/**
 Document acknowledgement assignments: an employee acknowledges frozen document versions one
 by one, and the assignment completes itself when the last required one is acknowledged.
 */
module Acknowledgement {
  import opened Common
  import opened Statuses
  import opened Rounding

  /** The create request accepts no more documents than this. */
  const MAX_DOCUMENTS := 50


  /** Items are identified by their place in the assignment; `versionId` pins the document version. */
  datatype Item = Item(versionId: Uuid, isRequired: bool, acknowledgedAt: Option<int>)

  datatype Assignment = Assignment(
    companyId: Uuid,
    employeeId: Uuid,
    status: Status,
    startedAt: Option<int>,
    completedAt: Option<int>,
    items: seq<Item>)

  type Table = map<Uuid, Assignment>

  datatype Document = Document(versionId: Uuid, isRequired: bool)

  datatype Event =
    | Create(id: Uuid, companyId: Uuid, employeeId: Uuid, documents: seq<Document>, now: int)
    | Open(id: Uuid, companyId: Uuid, actor: Uuid, now: int)
    | Acknowledge(id: Uuid, companyId: Uuid, employeeId: Uuid, index: nat, now: int)
    | Cancel(id: Uuid, companyId: Uuid)

  type Run = seq<Event>

  // ---------- summary ----------

  function RequiredCount(items: seq<Item>): nat {
    if items == [] then 0
    else (if items[0].isRequired then 1 else 0) + RequiredCount(items[1..])
  }

  function AcknowledgedCount(items: seq<Item>): nat {
    if items == [] then 0
    else (if items[0].isRequired && items[0].acknowledgedAt.Some? then 1 else 0) + AcknowledgedCount(items[1..])
  }

  /** `percentage` counts hundredths of a percent, rounded as `round(..., 2)` does. */
  datatype Summary = Summary(
    totalDocuments: nat, requiredDocuments: nat, acknowledgedRequired: nat, completed: bool, percentage: nat)

  function Percentage(done: nat, total: nat): nat {
    if total == 0 || done == total then 10000 else RoundHalfEven(10000 * done, total)
  }

  function SummaryOf(items: seq<Item>): Summary {
    var total, done := RequiredCount(items), AcknowledgedCount(items);
    Summary(|items|, total, done, total == 0 || done == total, Percentage(done, total))
  }

  predicate RequiredDone(items: seq<Item>) {
    forall i :: 0 <= i < |items| && items[i].isRequired ==> items[i].acknowledgedAt.Some?
  }

  lemma {:induction false} CountsMatch(items: seq<Item>)
    ensures AcknowledgedCount(items) <= RequiredCount(items) <= |items|
    ensures RequiredDone(items) <==> AcknowledgedCount(items) == RequiredCount(items)
    decreases |items|
  {
    if items != [] {
      CountsMatch(items[1..]);
      assert RequiredDone(items) <==> (items[0].isRequired ==> items[0].acknowledgedAt.Some?) && RequiredDone(items[1..]) by {
        assert forall i :: 0 < i < |items| ==> items[i] == items[1..][i - 1];
        if (items[0].isRequired ==> items[0].acknowledgedAt.Some?) && RequiredDone(items[1..]) {
          forall i | 0 <= i < |items| && items[i].isRequired ensures items[i].acknowledgedAt.Some? {
            assert i > 0 ==> items[i] == items[1..][i - 1];
          }
        }
      }
    }
  }

  /** The places of the required items, and of those of them that are acknowledged. */
  function RequiredAt(items: seq<Item>): set<nat> {
    set i: nat | 0 <= i < |items| && items[i].isRequired
  }

  function AcknowledgedRequiredAt(items: seq<Item>): set<nat> {
    set i: nat | 0 <= i < |items| && items[i].isRequired && items[i].acknowledgedAt.Some?
  }

  function From(places: set<nat>, k: nat): set<nat> {
    set i | i in places && k <= i
  }

  lemma OneMorePlace(places: set<nat>, k: nat)
    ensures |From(places, k)| == |From(places, k + 1)| + (if k in places then 1 else 0)
  {
    assert From(places, k) == From(places, k + 1) + (if k in places then {k} else {});
  }

  /** The counts of the summary are numbers of items; here of those from `k` on. */
  lemma {:induction false} CountsAreNumbers(items: seq<Item>, k: nat)
    requires k <= |items|
    ensures RequiredCount(items[k..]) == |From(RequiredAt(items), k)|
    ensures AcknowledgedCount(items[k..]) == |From(AcknowledgedRequiredAt(items), k)|
    decreases |items| - k
  {
    if k == |items| {
      assert From(RequiredAt(items), k) == {} && From(AcknowledgedRequiredAt(items), k) == {};
    } else {
      assert items[k..][1..] == items[k + 1..] && items[k..][0] == items[k];
      CountsAreNumbers(items, k + 1);
      OneMorePlace(RequiredAt(items), k);
      OneMorePlace(AcknowledgedRequiredAt(items), k);
    }
  }

  /**
   The summary in numbers: all documents, the required ones, the acknowledged ones among them, and their
   share in hundredths of a percent, rounded to the nearest with ties to even; all is done when nothing is required.
   */
  lemma SummaryCountsDocuments(items: seq<Item>)
    ensures var s, total, done := SummaryOf(items), |RequiredAt(items)|, |AcknowledgedRequiredAt(items)|;
      && s.totalDocuments == |items| && s.requiredDocuments == total && s.acknowledgedRequired == done
      && (if total == 0 then s.percentage == 10000 else IsRounded(10000 * done, total, s.percentage))
  {
    CountsAreNumbers(items, 0);
    assert items[0..] == items;
    assert From(RequiredAt(items), 0) == RequiredAt(items);
    assert From(AcknowledgedRequiredAt(items), 0) == AcknowledgedRequiredAt(items);
    var total, done := RequiredCount(items), AcknowledgedCount(items);
    if total > 0 {
      RoundsToNearestEven(10000 * done, total);
      if done == total {
        ScaledOrder(19999, 20000, total);
        ScaledOrder(20000, 20001, total);
      }
    }
  }

  lemma SummaryCompletedMeansDone(items: seq<Item>)
    ensures SummaryOf(items).completed <==> RequiredDone(items)
  {
    CountsMatch(items);
  }

  /** Rounding shows 100% too early exactly when at most one required document in 20000 is missing. */
  lemma EarlyHundred(done: nat, total: nat)
    requires done <= total
    ensures Percentage(done, total) == 10000 <==> done == total || 20000 * (total - done) <= total
  {
    if done < total {
      RoundedAtLeast(10000 * done, total, 10000);
      var rounded: int := RoundHalfEven(10000 * done, total);
      RoundsToNearestEven(10000 * done, total);
      ScaledOrder(20001, 2 * rounded - 1, total);
    }
  }

  /** With the document cap, 100% always means done. */
  lemma HundredMeansDone(items: seq<Item>)
    requires |items| <= MAX_DOCUMENTS
    ensures SummaryOf(items).percentage == 10000 <==> RequiredDone(items)
  {
    CountsMatch(items);
    EarlyHundred(AcknowledgedCount(items), RequiredCount(items));
  }

  /** The early-return search for the next document to read. */
  method NextIncompleteRequired(items: seq<Item>) returns (next: Option<nat>)
    ensures next.None? <==> RequiredDone(items)
    ensures next.Some? ==> next.value < |items| && items[next.value].isRequired && items[next.value].acknowledgedAt.None?
    ensures next.Some? ==> RequiredDone(items[..next.value])
  {
    for i := 0 to |items|
      invariant RequiredDone(items[..i])
    {
      if items[i].isRequired && items[i].acknowledgedAt.None? {
        return Some(i);
      }
      assert items[..i + 1] == items[..i] + [items[i]];
    }
    assert items[..|items|] == items;
    next := None;
  }

  // ---------- one transaction ----------

  function NewItems(documents: seq<Document>): (items: seq<Item>)
    ensures |items| == |documents|
    ensures forall i :: 0 <= i < |items| ==> items[i] == Item(documents[i].versionId, documents[i].isRequired, None)
  {
    seq(|documents|, i requires 0 <= i < |documents| => Item(documents[i].versionId, documents[i].isRequired, None))
  }

  predicate AnyRequired(documents: seq<Document>) {
    exists i :: 0 <= i < |documents| && documents[i].isRequired
  }

  function Created(companyId: Uuid, employeeId: Uuid, documents: seq<Document>, now: int): Assignment {
    var required := AnyRequired(documents);
    Assignment(companyId, employeeId, if required then Pending else Completed, None,
               if required then None else Some(now), NewItems(documents))
  }

  function MarkedInProgress(a: Assignment, now: int): Assignment {
    if a.status != Pending then a
    else a.(status := InProgress, startedAt := if a.startedAt.Some? then a.startedAt else Some(now))
  }

  function AcknowledgedAt(items: seq<Item>, index: nat, now: int): seq<Item>
    requires index < |items|
  {
    if items[index].acknowledgedAt.Some? then items
    else items[index := items[index].(acknowledgedAt := Some(now))]
  }

  function Acknowledged(a: Assignment, index: nat, now: int): Assignment
    requires index < |a.items|
  {
    var b := MarkedInProgress(a, now).(items := AcknowledgedAt(a.items, index, now));
    if RequiredDone(b.items) then b.(status := Completed, completedAt := Some(now)) else b
  }

  predicate Addressed(rows: Table, id: Uuid, companyId: Uuid) {
    id in rows && rows[id].companyId == companyId
  }

  function AcknowledgeError(rows: Table, id: Uuid, companyId: Uuid, employeeId: Uuid, index: nat): Option<Error> {
    if !Addressed(rows, id, companyId) || rows[id].employeeId != employeeId || index >= |rows[id].items| then Some(NotFound)
    else if rows[id].status == Cancelled then Some(Validation)
    else if rows[id].status == Completed && rows[id].items[index].acknowledgedAt.None? then Some(Validation)
    else None
  }

  function Next(rows: Table, e: Event): Table {
    match e
    case Create(id, companyId, employeeId, documents, now) =>
      if id in rows || documents == [] || |documents| > MAX_DOCUMENTS then rows
      else rows[id := Created(companyId, employeeId, documents, now)]
    case Open(id, companyId, actor, now) =>
      if Addressed(rows, id, companyId) && actor == rows[id].employeeId
      then rows[id := MarkedInProgress(rows[id], now)] else rows
    case Acknowledge(id, companyId, employeeId, index, now) =>
      if AcknowledgeError(rows, id, companyId, employeeId, index).Some? || rows[id].status == Completed then rows
      else rows[id := Acknowledged(rows[id], index, now)]
    case Cancel(id, companyId) =>
      if Addressed(rows, id, companyId) && rows[id].status in {Pending, InProgress}
      then rows[id := rows[id].(status := Cancelled)] else rows
  }

  function Exec(rows: Table, run: Run): Table
    decreases |run|
  {
    if run == [] then rows else Exec(Next(rows, run[0]), run[1..])
  }

  // ---------- the invariant and the theorem ----------

  predicate NothingAcknowledged(items: seq<Item>) {
    forall i :: 0 <= i < |items| ==> items[i].acknowledgedAt.None?
  }

  /** The document whose acknowledgement completed the assignment. */
  predicate CompletedBy(a: Assignment, i: nat) {
    i < |a.items| && a.items[i].isRequired && a.items[i].acknowledgedAt == a.completedAt
  }

  ghost predicate AssignmentInv(a: Assignment) {
    && 0 < |a.items| <= MAX_DOCUMENTS
    && (a.status != Cancelled ==> (a.status == Completed <==> RequiredDone(a.items)))
    && (a.status == Completed <==> a.completedAt.Some?)
    && (a.status == Pending ==> NothingAcknowledged(a.items) && a.startedAt.None?)
    && (a.status == InProgress ==> a.startedAt.Some?)
    && (a.status == Completed && RequiredCount(a.items) > 0 ==> exists i :: CompletedBy(a, i))
  }

  ghost predicate Inv(rows: Table) {
    forall id :: id in rows ==> AssignmentInv(rows[id])
  }

  lemma {:induction false} NoneRequired(items: seq<Item>)
    ensures RequiredCount(items) == 0 <==> forall i :: 0 <= i < |items| ==> !items[i].isRequired
    decreases |items|
  {
    if items != [] {
      NoneRequired(items[1..]);
      assert forall i :: 0 < i < |items| ==> items[i] == items[1..][i - 1];
      assert forall j :: 0 <= j < |items| - 1 ==> items[1..][j] == items[j + 1];
    }
  }

  lemma CreatedIsSound(companyId: Uuid, employeeId: Uuid, documents: seq<Document>, now: int)
    requires 0 < |documents| <= MAX_DOCUMENTS
    ensures AssignmentInv(Created(companyId, employeeId, documents, now))
  {
    var a := Created(companyId, employeeId, documents, now);
    NoneRequired(a.items);
    if i :| 0 <= i < |documents| && documents[i].isRequired {
      assert a.items[i].isRequired && a.items[i].acknowledgedAt.None?;
    }
  }

  lemma AcknowledgedIsSound(a: Assignment, index: nat, now: int)
    requires AssignmentInv(a) && a.status in {Pending, InProgress} && index < |a.items|
    ensures AssignmentInv(Acknowledged(a, index, now))
  {
    var b := Acknowledged(a, index, now);
    assert !RequiredDone(a.items);
    if RequiredDone(b.items) {
      var missing :| 0 <= missing < |a.items| && a.items[missing].isRequired && a.items[missing].acknowledgedAt.None?;
      assert b.items[missing].acknowledgedAt.Some?;
      assert CompletedBy(b, missing);
    }
  }

  lemma StepKeepsInv(rows: Table, e: Event)
    requires Inv(rows)
    ensures Inv(Next(rows, e))
  {
    match e
    case Create(_, companyId, employeeId, documents, now) =>
      if 0 < |documents| <= MAX_DOCUMENTS {
        CreatedIsSound(companyId, employeeId, documents, now);
      }
    case Acknowledge(id, companyId, employeeId, index, now) =>
      if AcknowledgeError(rows, id, companyId, employeeId, index).None? && rows[id].status != Completed {
        AcknowledgedIsSound(rows[id], index, now);
      }
    case _ =>
  }

  /**
   In every reachable state, for an assignment that was not cancelled: completed status, all
   required documents acknowledged, the summary's flag and a displayed 100% are one and the same.
   */
  lemma {:induction false} CompletionIsConsistent(rows: Table, run: Run, id: Uuid)
    requires Inv(rows)
    ensures Inv(Exec(rows, run))
    ensures id in Exec(rows, run) && Exec(rows, run)[id].status != Cancelled ==>
      var a := Exec(rows, run)[id];
      && (a.status == Completed <==> RequiredDone(a.items))
      && (a.status == Completed <==> SummaryOf(a.items).completed)
      && (a.status == Completed <==> SummaryOf(a.items).percentage == 10000)
    decreases |run|
  {
    if run == [] {
      if id in rows {
        SummaryCompletedMeansDone(rows[id].items);
        HundredMeansDone(rows[id].items);
      }
    } else {
      StepKeepsInv(rows, run[0]);
      CompletionIsConsistent(Next(rows, run[0]), run[1..], id);
    }
  }

  /** An acknowledgement, once given, keeps its time for ever, and items keep their document version. */
  lemma {:induction false} AcknowledgementsArePermanent(rows: Table, run: Run, id: Uuid)
    requires id in rows
    ensures id in Exec(rows, run) && |Exec(rows, run)[id].items| == |rows[id].items|
    ensures forall i :: 0 <= i < |rows[id].items| ==>
      var was, is_ := rows[id].items[i], Exec(rows, run)[id].items[i];
      && is_.versionId == was.versionId && is_.isRequired == was.isRequired
      && (was.acknowledgedAt.Some? ==> is_.acknowledgedAt == was.acknowledgedAt)
    decreases |run|
  {
    if run != [] {
      AcknowledgementsArePermanent(Next(rows, run[0]), run[1..], id);
    }
  }

  /** Completed and cancelled assignments never change again. */
  lemma {:induction false} ClosedForEver(rows: Table, run: Run, id: Uuid)
    requires id in rows && rows[id].status in {Completed, Cancelled}
    ensures id in Exec(rows, run) && Exec(rows, run)[id] == rows[id]
    decreases |run|
  {
    if run != [] {
      assert Next(rows, run[0])[id] == rows[id];
      ClosedForEver(Next(rows, run[0]), run[1..], id);
    }
  }

  // ---------- what each operation does ----------

  /** The employee's own assignment of the company. */
  predicate Own(rows: Table, id: Uuid, companyId: Uuid, employeeId: Uuid) {
    id in rows && rows[id].companyId == companyId && rows[id].employeeId == employeeId
  }

  /** An acknowledgement the employee gives for an item that has none, while the assignment is open. */
  predicate Gives(rows: Table, e: Event, id: Uuid, i: nat) {
    && e.Acknowledge? && e.id == id && e.index == i && Own(rows, id, e.companyId, e.employeeId)
    && i < |rows[id].items| && rows[id].items[i].acknowledgedAt.None?
    && (rows[id].status == Pending || rows[id].status == InProgress)
  }

  predicate Cancels(rows: Table, e: Event, id: Uuid) {
    && e.Cancel? && e.id == id && id in rows && rows[id].companyId == e.companyId
    && (rows[id].status == Pending || rows[id].status == InProgress)
  }

  /** The employee opens the assignment, or works on it, for the first time. */
  predicate Starts(rows: Table, e: Event, id: Uuid) {
    && id in rows && rows[id].status == Pending
    && (|| (e.Open? && e.id == id && Own(rows, id, e.companyId, e.actor))
        || (e.Acknowledge? && e.id == id && Own(rows, id, e.companyId, e.employeeId) && e.index < |rows[id].items|))
  }

  /** One event, seen from one assignment: all that it writes. */
  lemma StepWrites(rows: Table, e: Event, id: Uuid)
    requires Inv(rows) && id in rows
    ensures id in Next(rows, e)
    ensures var a, b := rows[id], Next(rows, e)[id];
      && b.companyId == a.companyId && b.employeeId == a.employeeId && |b.items| == |a.items|
      && (forall i :: 0 <= i < |a.items| ==>
            b.items[i] == if Gives(rows, e, id, i) then a.items[i].(acknowledgedAt := Some(e.now)) else a.items[i])
      && b.startedAt == (if Starts(rows, e, id) then Some(e.now) else a.startedAt)
      && (b.status == Cancelled <==> a.status == Cancelled || Cancels(rows, e, id))
      && (b.status == Completed && a.status != Completed ==> e.Acknowledge? && b.completedAt == Some(e.now))
  {
    hide RequiredDone;
    assert AssignmentInv(rows[id]);
    match e
    case Acknowledge(other, companyId, employeeId, index, now) =>
      if other == id && AcknowledgeError(rows, id, companyId, employeeId, index).None? && rows[id].status != Completed {
        assert Next(rows, e)[id].items == AcknowledgedAt(rows[id].items, index, now);
      }
    case _ =>
  }

  /** A new assignment has the documents as they are, not acknowledged, and is done at once when none is required. */
  lemma CreationWrites(rows: Table, e: Event)
    requires e.Create? && e.id !in rows && 0 < |e.documents| <= 50
    ensures var a := Next(rows, e)[e.id];
      && a.companyId == e.companyId && a.employeeId == e.employeeId && |a.items| == |e.documents|
      && (forall i :: 0 <= i < |a.items| ==> a.items[i] == Item(e.documents[i].versionId, e.documents[i].isRequired, None))
      && (if exists i :: 0 <= i < |e.documents| && e.documents[i].isRequired
          then a.status == Pending && a.completedAt.None? else a.status == Completed && a.completedAt == Some(e.now))
  {
  }

  function Givings(rows: Table, run: Run, id: Uuid, i: nat): nat
    decreases |run|
  {
    if run == [] then 0
    else (if Gives(rows, run[0], id, i) then 1 else 0) + Givings(Next(rows, run[0]), run[1..], id, i)
  }

  function Cancellations(rows: Table, run: Run, id: Uuid): nat
    decreases |run|
  {
    if run == [] then 0
    else (if Cancels(rows, run[0], id) then 1 else 0) + Cancellations(Next(rows, run[0]), run[1..], id)
  }

  /**
   Over every run an item is acknowledged exactly when it was before or its own employee acknowledged it once,
   while the assignment was open; and the assignment is cancelled exactly when its company cancelled it.
   */
  lemma {:induction false} AcknowledgedIffGiven(rows: Table, run: Run, id: Uuid, i: nat)
    requires Inv(rows) && id in rows && i < |rows[id].items|
    ensures id in Exec(rows, run) && |Exec(rows, run)[id].items| == |rows[id].items|
    ensures Givings(rows, run, id, i) == (if Exec(rows, run)[id].items[i].acknowledgedAt.Some?
                                             && rows[id].items[i].acknowledgedAt.None? then 1 else 0)
    ensures Exec(rows, run)[id].status == Cancelled <==> rows[id].status == Cancelled || Cancellations(rows, run, id) > 0
    decreases |run|
  {
    if run != [] {
      hide Next, Inv, Gives, Cancels;
      StepKeepsInv(rows, run[0]);
      StepWrites(rows, run[0], id);
      GivesTheMissing(rows, run[0], id, i);
      AcknowledgedIffGiven(Next(rows, run[0]), run[1..], id, i);
      AcknowledgementsArePermanent(Next(rows, run[0]), run[1..], id);
    }
  }

  lemma GivesTheMissing(rows: Table, e: Event, id: Uuid, i: nat)
    ensures Gives(rows, e, id, i) ==> id in rows && i < |rows[id].items| && rows[id].items[i].acknowledgedAt.None?
  {
  }

  /** What an acknowledgement is refused for: an item that is not the employee's, or an assignment that is over. */
  lemma AcknowledgementOutcome(rows: Table, id: Uuid, companyId: Uuid, employeeId: Uuid, index: nat)
    ensures var error := AcknowledgeError(rows, id, companyId, employeeId, index);
      var mine := Own(rows, id, companyId, employeeId) && index < |rows[id].items|;
      && (error == Some(NotFound) <==> !mine)
      && (error == Some(Validation) <==>
            mine && (rows[id].status == Cancelled || (rows[id].status == Completed && rows[id].items[index].acknowledgedAt.None?)))
      && (error.None? <==>
            mine && (rows[id].status in {Pending, InProgress} || (rows[id].status == Completed && rows[id].items[index].acknowledgedAt.Some?)))
  {
  }

  // ---------- the service ----------

  class AcknowledgementService {
    var rows: Table

    method Create(id: Uuid, companyId: Uuid, employeeId: Uuid, documents: seq<Document>, now: int) returns (error: Option<Error>)
      requires id !in rows && |documents| <= MAX_DOCUMENTS
      modifies this
      ensures rows == Next(old(rows), Event.Create(id, companyId, employeeId, documents, now))
      ensures error.Some? <==> documents == []
    {
      if documents == [] {
        return Some(Validation);
      }
      var items: seq<Item> := [];
      var required := false;
      for i := 0 to |documents|
        invariant items == NewItems(documents[..i])
        invariant required <==> AnyRequired(documents[..i])
      {
        assert documents[..i + 1] == documents[..i] + [documents[i]];
        items := items + [Item(documents[i].versionId, documents[i].isRequired, None)];
        assert documents[i].isRequired ==> documents[..i + 1][i].isRequired;
        assert AnyRequired(documents[..i]) ==> AnyRequired(documents[..i + 1]) by {
          if j :| 0 <= j < i && documents[..i][j].isRequired {
            assert documents[..i + 1][j].isRequired;
          }
        }
        required := required || documents[i].isRequired;
      }
      assert documents[..|documents|] == documents;
      var assignment := Assignment(companyId, employeeId, Pending, None, None, items);
      if !required {
        assignment := assignment.(status := Completed, completedAt := Some(now));
      }
      rows := rows[id := assignment];
      error := None;
    }

    method MarkInProgress(id: Uuid, now: int)
      requires id in rows
      modifies this
      ensures rows == old(rows)[id := MarkedInProgress(old(rows)[id], now)]
    {
      var a := rows[id];
      if a.status == Pending {
        rows := rows[id := a.(status := InProgress, startedAt := if a.startedAt.Some? then a.startedAt else Some(now))];
      }
    }

    method AcknowledgeItem(id: Uuid, companyId: Uuid, employeeId: Uuid, index: nat, now: int) returns (error: Option<Error>)
      requires Inv(rows)
      modifies this
      ensures Inv(rows)
      ensures error == AcknowledgeError(old(rows), id, companyId, employeeId, index)
      ensures rows == Next(old(rows), Event.Acknowledge(id, companyId, employeeId, index, now))
      ensures error.None? ==> rows[id].items[index].acknowledgedAt.Some?
      ensures error == Some(NotFound) <==> !(Own(old(rows), id, companyId, employeeId) && index < |old(rows)[id].items|)
    {
      ghost var before := rows;
      StepKeepsInv(rows, Event.Acknowledge(id, companyId, employeeId, index, now));
      if id !in rows || rows[id].companyId != companyId || rows[id].employeeId != employeeId || index >= |rows[id].items| {
        return Some(NotFound);
      }
      if rows[id].status == Cancelled {
        return Some(Validation);
      }
      if rows[id].status == Completed {
        return if rows[id].items[index].acknowledgedAt.Some? then None else Some(Validation);
      }
      MarkInProgress(id, now);
      var a := rows[id];
      if a.items[index].acknowledgedAt.None? {
        a := a.(items := a.items[index := a.items[index].(acknowledgedAt := Some(now))]);
      }
      if RequiredDone(a.items) {
        a := a.(status := Completed, completedAt := Some(now));
      }
      rows := rows[id := a];
      assert rows == Next(before, Event.Acknowledge(id, companyId, employeeId, index, now));
      error := None;
    }
  }
}
