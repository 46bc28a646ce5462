/**
 The Telegram outbox: durable messages that workers claim under a lease, send, and mark.

 Every repository call is one SQL statement in one transaction, so it is one atomic step.
 An UPDATE touches each stored row on its own, which is why the steps are described row by
 row (`Acts`, `RowStep`) and lifted to the table by `Next`.
 */
module TelegramOutbox {
  import opened Common

  const OUTBOUND_MAX_ATTEMPTS := 8

  datatype Status = Pending | Sending | Sent | Failed

  datatype Source = Source(kind: string, key: string)

  datatype Content = Content(companyId: Uuid, employeeId: Uuid, chatId: int, body: string, html: bool)

  datatype Message = Message(
    source: Source,
    content: Content,
    createdAt: int,
    status: Status,
    attemptCount: nat,
    nextAttemptAt: int,
    ownerToken: Option<Uuid>,
    leaseExpiresAt: Option<int>,
    lastAttemptAt: Option<int>,
    sentAt: Option<int>,
    telegramMessageId: Option<int>,
    lastErrorCategory: Option<string>)

  type Table = map<Uuid, Message>

  datatype Event =
    | Enqueue(id: Uuid, source: Source, content: Content, dueAt: int, now: int)
    | ClaimSource(source: Source, token: Uuid, now: int, lease: int)
    | ClaimBatch(chosen: set<Uuid>, token: Uuid, now: int, lease: int)
    | ExpireStale(now: int)
    | MarkSent(id: Uuid, token: Uuid, telegramId: int, at: int)
    | MarkFailed(id: Uuid, token: Uuid, retryable: bool, dueAt: int, category: string)
  {
    predicate IsClaim() { ClaimSource? || ClaimBatch? }
    predicate IsMark() { MarkSent? || MarkFailed? }
  }

  type Run = seq<Event>

  // ---------- one row, one statement ----------

  /** An SQL comparison with NULL is not true. */
  predicate LeaseBefore(m: Message, now: int) {
    m.leaseExpiresAt.Some? && m.leaseExpiresAt.value < now
  }

  predicate Claimable(m: Message, now: int, maxAttempts: nat) {
    && m.attemptCount < maxAttempts
    && (|| (m.status == Pending && m.nextAttemptAt <= now)
        || (m.status == Sending && LeaseBefore(m, now)))
  }

  predicate Expirable(m: Message, now: int, maxAttempts: nat) {
    m.status == Sending && LeaseBefore(m, now) && m.attemptCount >= maxAttempts
  }

  predicate OwnedBy(m: Message, token: Uuid) {
    m.status == Sending && m.ownerToken == Some(token)
  }

  /** The WHERE clause of the statement behind `e`, evaluated on row `id`. */
  predicate Acts(id: Uuid, m: Message, e: Event, maxAttempts: nat) {
    match e
    case Enqueue(_, _, _, _, _) => false
    case ClaimSource(source, _, now, _) => m.source == source && Claimable(m, now, maxAttempts)
    case ClaimBatch(chosen, _, now, _) => id in chosen && Claimable(m, now, maxAttempts)
    case ExpireStale(now) => Expirable(m, now, maxAttempts)
    case MarkSent(mid, token, _, _) => id == mid && OwnedBy(m, token)
    case MarkFailed(mid, token, _, _, _) => id == mid && OwnedBy(m, token)
  }

  function Claimed(m: Message, token: Uuid, now: int, lease: int): Message {
    m.(status := Sending, ownerToken := Some(token), leaseExpiresAt := Some(lease),
       lastAttemptAt := Some(now), attemptCount := m.attemptCount + 1, lastErrorCategory := None)
  }

  function Released(m: Message): Message {
    m.(ownerToken := None, leaseExpiresAt := None)
  }

  function RowStep(id: Uuid, m: Message, e: Event, maxAttempts: nat): Message {
    if !Acts(id, m, e, maxAttempts) then m
    else match e
      case Enqueue(_, _, _, _, _) => m
      case ClaimSource(_, token, now, lease) => Claimed(m, token, now, lease)
      case ClaimBatch(_, token, now, lease) => Claimed(m, token, now, lease)
      case ExpireStale(_) =>
        Released(m).(status := Failed, lastErrorCategory := Some("attempts_exhausted"))
      case MarkSent(_, _, telegramId, at) =>
        Released(m).(status := Sent, sentAt := Some(at), telegramMessageId := Some(telegramId),
                     lastErrorCategory := None)
      case MarkFailed(_, _, retryable, dueAt, category) =>
        Released(m).(status := if retryable then Pending else Failed, nextAttemptAt := dueAt,
                     lastErrorCategory := Some(category))
  }

  // ---------- the table and its runs ----------

  function NewMessage(source: Source, content: Content, dueAt: int, now: int): Message {
    Message(source, content, now, Pending, 0, dueAt, None, None, None, None, None, None)
  }

  predicate HasSource(rows: Table, source: Source) {
    exists id :: id in rows && rows[id].source == source
  }

  function Next(rows: Table, e: Event, maxAttempts: nat): Table {
    if e.Enqueue? then
      if HasSource(rows, e.source) || e.id in rows then rows
      else rows[e.id := NewMessage(e.source, e.content, e.dueAt, e.now)]
    else
      map id | id in rows :: RowStep(id, rows[id], e, maxAttempts)
  }

  function Exec(rows: Table, run: Run, maxAttempts: nat): Table
    decreases |run|
  {
    if run == [] then rows else Exec(Next(rows, run[0], maxAttempts), run[1..], maxAttempts)
  }

  /** How many statements of the run changed row `id`. */
  function Transitions(rows: Table, run: Run, maxAttempts: nat, id: Uuid): nat
    decreases |run|
  {
    if run == [] then 0
    else
      (if id in rows && Acts(id, rows[id], run[0], maxAttempts) then 1 else 0)
      + Transitions(Next(rows, run[0], maxAttempts), run[1..], maxAttempts, id)
  }

  /** How many claims of the run were granted on row `id`. */
  function Claims(rows: Table, run: Run, maxAttempts: nat, id: Uuid): nat
    decreases |run|
  {
    if run == [] then 0
    else
      (if id in rows && run[0].IsClaim() && Acts(id, rows[id], run[0], maxAttempts) then 1 else 0)
      + Claims(Next(rows, run[0], maxAttempts), run[1..], maxAttempts, id)
  }

  /** How many marks presented with `token` took effect on row `id`. */
  function MarksBy(rows: Table, run: Run, maxAttempts: nat, id: Uuid, token: Uuid): nat
    decreases |run|
  {
    if run == [] then 0
    else
      (if id in rows && run[0].IsMark() && run[0].token == token && Acts(id, rows[id], run[0], maxAttempts)
       then 1 else 0)
      + MarksBy(Next(rows, run[0], maxAttempts), run[1..], maxAttempts, id, token)
  }

  // ---------- invariants ----------

  /** A row is being sent exactly when it has an owner, and exactly when it has a lease. */
  predicate RowInv(m: Message) {
    (m.status == Sending <==> m.ownerToken.Some?) && (m.status == Sending <==> m.leaseExpiresAt.Some?)
  }

  ghost predicate Inv(rows: Table) {
    && (forall id :: id in rows ==> RowInv(rows[id]))
    && (forall i, j :: i in rows && j in rows && rows[i].source == rows[j].source ==> i == j)
  }

  lemma RowStepKeepsRow(id: Uuid, m: Message, e: Event, maxAttempts: nat)
    ensures RowInv(m) ==> RowInv(RowStep(id, m, e, maxAttempts))
    ensures RowStep(id, m, e, maxAttempts).source == m.source
    ensures RowStep(id, m, e, maxAttempts).content == m.content
  {
  }

  lemma StepKeepsInv(rows: Table, e: Event, maxAttempts: nat)
    requires Inv(rows)
    ensures Inv(Next(rows, e, maxAttempts))
    ensures rows.Keys <= Next(rows, e, maxAttempts).Keys
    ensures forall id :: id in rows ==> Next(rows, e, maxAttempts)[id] == RowStep(id, rows[id], e, maxAttempts)
  {
    var next := Next(rows, e, maxAttempts);
    forall id | id in rows
      ensures RowInv(next[id]) && next[id].source == rows[id].source
    {
      RowStepKeepsRow(id, rows[id], e, maxAttempts);
    }
  }

  lemma {:induction false} InvHolds(rows: Table, run: Run, maxAttempts: nat)
    requires Inv(rows)
    ensures Inv(Exec(rows, run, maxAttempts))
    decreases |run|
  {
    if run != [] {
      StepKeepsInv(rows, run[0], maxAttempts);
      InvHolds(Next(rows, run[0], maxAttempts), run[1..], maxAttempts);
    }
  }

  /** A source names one row for ever, and its first content is never overwritten. */
  lemma {:induction false} SourceKeepsItsContent(rows: Table, run: Run, maxAttempts: nat, id: Uuid)
    requires Inv(rows) && id in rows
    ensures var after := Exec(rows, run, maxAttempts);
      && id in after && after[id].source == rows[id].source && after[id].content == rows[id].content
      && forall j :: j in after && after[j].source == rows[id].source ==> j == id
    decreases |run|
  {
    if run != [] {
      StepKeepsInv(rows, run[0], maxAttempts);
      RowStepKeepsRow(id, rows[id], run[0], maxAttempts);
      SourceKeepsItsContent(Next(rows, run[0], maxAttempts), run[1..], maxAttempts, id);
    }
  }

  // ---------- termination ----------

  /** Transitions a row can still make. */
  function Budget(m: Message, maxAttempts: nat): nat {
    if m.status == Sent || m.status == Failed then 0
    else 2 * Max(0, maxAttempts - m.attemptCount) + (if m.status == Sending then 1 else 0)
  }

  lemma TransitionSpendsBudget(id: Uuid, m: Message, e: Event, maxAttempts: nat)
    requires Acts(id, m, e, maxAttempts)
    ensures Budget(RowStep(id, m, e, maxAttempts), maxAttempts) < Budget(m, maxAttempts)
  {
  }

  lemma {:induction false} BoundedFrom(rows: Table, run: Run, maxAttempts: nat, id: Uuid)
    requires id in rows
    ensures id in Exec(rows, run, maxAttempts)
    ensures Exec(rows, run, maxAttempts)[id].attemptCount
         == rows[id].attemptCount + Claims(rows, run, maxAttempts, id)
    ensures Claims(rows, run, maxAttempts, id) <= Max(0, maxAttempts - rows[id].attemptCount)
    ensures Transitions(rows, run, maxAttempts, id) + Budget(Exec(rows, run, maxAttempts)[id], maxAttempts)
         <= Budget(rows[id], maxAttempts)
    decreases |run|
  {
    if run != [] {
      var next := Next(rows, run[0], maxAttempts);
      assert next[id] == RowStep(id, rows[id], run[0], maxAttempts);
      if Acts(id, rows[id], run[0], maxAttempts) {
        TransitionSpendsBudget(id, rows[id], run[0], maxAttempts);
      }
      BoundedFrom(next, run[1..], maxAttempts, id);
    }
  }

  /**
   Whatever the workers do, a message is claimed at most `maxAttempts` times and changes
   state at most `2 * maxAttempts` times; its attempt counter is exactly the number of
   claims that were granted.
   */
  lemma {:induction false} MessageWorkIsBounded(rows: Table, run: Run, maxAttempts: nat, id: Uuid)
    requires id !in rows
    ensures Claims(rows, run, maxAttempts, id) <= maxAttempts
    ensures Transitions(rows, run, maxAttempts, id) <= 2 * maxAttempts
    ensures id in Exec(rows, run, maxAttempts)
        ==> Exec(rows, run, maxAttempts)[id].attemptCount == Claims(rows, run, maxAttempts, id)
    decreases |run|
  {
    if run != [] {
      var next := Next(rows, run[0], maxAttempts);
      if id in next {
        BoundedFrom(next, run[1..], maxAttempts, id);
      } else {
        MessageWorkIsBounded(next, run[1..], maxAttempts, id);
      }
    }
  }

  // ---------- progress ----------

  /** A pending row whose attempts are used up: no statement can move it any more. */
  predicate Parked(m: Message, maxAttempts: nat) {
    m.status == Pending && m.attemptCount >= maxAttempts
  }

  predicate Terminal(m: Message, maxAttempts: nat) {
    m.status == Sent || m.status == Failed || Parked(m, maxAttempts)
  }

  /** From this instant on the row can be claimed or expired. */
  function WakeTime(m: Message): int
    requires RowInv(m)
  {
    if m.status == Sending then m.leaseExpiresAt.value + 1 else m.nextAttemptAt
  }

  lemma WakesUnlessTerminal(m: Message, maxAttempts: nat)
    requires RowInv(m)
    ensures Terminal(m, maxAttempts)
        ==> forall now :: !Claimable(m, now, maxAttempts) && !Expirable(m, now, maxAttempts)
    ensures !Terminal(m, maxAttempts) && m.attemptCount < maxAttempts
        ==> forall now :: !Expirable(m, now, maxAttempts) && (Claimable(m, now, maxAttempts) <==> now >= WakeTime(m))
    ensures !Terminal(m, maxAttempts) && m.attemptCount >= maxAttempts
        ==> forall now :: !Claimable(m, now, maxAttempts) && (Expirable(m, now, maxAttempts) <==> now >= WakeTime(m))
  {
  }

  /** The instant a statement compares with due times and leases. */
  predicate Clocked(e: Event) {
    e.IsClaim() || e.ExpireStale?
  }

  predicate MarkFor(e: Event, id: Uuid, token: Uuid) {
    e.IsMark() && e.id == id && e.token == token
  }

  /** Before a row wakes only its owner's mark can change it. */
  lemma {:induction false} SleepsUntilItWakes(rows: Table, run: Run, maxAttempts: nat, id: Uuid)
    requires Inv(rows) && id in rows
    requires forall i :: 0 <= i < |run| && Clocked(run[i]) ==> run[i].now < WakeTime(rows[id])
    requires forall i :: 0 <= i < |run| && rows[id].ownerToken.Some? ==> !MarkFor(run[i], id, rows[id].ownerToken.value)
    ensures id in Exec(rows, run, maxAttempts) && Exec(rows, run, maxAttempts)[id] == rows[id]
    ensures Claims(rows, run, maxAttempts, id) == 0
    decreases |run|
  {
    if run != [] {
      var e := run[0];
      StepKeepsInv(rows, e, maxAttempts);
      assert !Acts(id, rows[id], e, maxAttempts);
      SleepsUntilItWakes(Next(rows, e, maxAttempts), run[1..], maxAttempts, id);
    }
  }

  /** A granted claim counts one attempt and lasts exactly until the lease it asked for has passed. */
  lemma ClaimLastsForItsLease(id: Uuid, m: Message, claim: Event, maxAttempts: nat)
    requires claim.IsClaim() && Acts(id, m, claim, maxAttempts)
    ensures var row := RowStep(id, m, claim, maxAttempts);
      && row.status == Sending && row.ownerToken == Some(claim.token) && row.lastAttemptAt == Some(claim.now)
      && row.attemptCount == m.attemptCount + 1 && row.lastErrorCategory == None
      && (forall now :: Claimable(row, now, maxAttempts) <==> now > claim.lease && row.attemptCount < maxAttempts)
      && (forall now :: Expirable(row, now, maxAttempts) <==> now > claim.lease && row.attemptCount >= maxAttempts)
  {
  }

  /**
   While no clock has passed the lease a claim asked for, its token owns the message exactly until
   it presents a mark; nobody else is granted a claim, and nothing about the row changes.
   */
  lemma ClaimStandsUntilMarked(rows: Table, claim: Event, run: Run, maxAttempts: nat, issued: set<Uuid>, id: Uuid)
    requires Inv(rows) && id in rows && claim.IsClaim() && Acts(id, rows[id], claim, maxAttempts)
    requires FreshTokens([claim] + run, issued)
    requires forall i :: 0 <= i < |run| && Clocked(run[i]) ==> run[i].now <= claim.lease
    ensures var granted := Next(rows, claim, maxAttempts);
      && (Owns(Exec(granted, run, maxAttempts), id, claim.token)
          <==> forall i :: 0 <= i < |run| ==> !MarkFor(run[i], id, claim.token))
      && ((forall i :: 0 <= i < |run| ==> !MarkFor(run[i], id, claim.token)) ==>
            Claims(granted, run, maxAttempts, id) == 0
            && Exec(granted, run, maxAttempts)[id] == RowStep(id, rows[id], claim, maxAttempts))
  {
    var granted := Next(rows, claim, maxAttempts);
    StepKeepsInv(rows, claim, maxAttempts);
    ClaimLastsForItsLease(id, rows[id], claim, maxAttempts);
    WakesUnlessTerminal(granted[id], maxAttempts);
    assert WakeTime(granted[id]) == claim.lease + 1;
    assert ([claim] + run)[1..] == run;
    if forall i :: 0 <= i < |run| ==> !MarkFor(run[i], id, claim.token) {
      SleepsUntilItWakes(granted, run, maxAttempts, id);
    } else {
      MarkEndsTheClaim(granted, run, maxAttempts, issued + {claim.token}, id, claim.token, claim.lease);
    }
  }

  lemma {:induction false} MarkEndsTheClaim(
      rows: Table, run: Run, maxAttempts: nat, issued: set<Uuid>, id: Uuid, token: Uuid, lease: int)
    requires Inv(rows) && id in rows && OwnedBy(rows[id], token) && rows[id].leaseExpiresAt == Some(lease)
    requires FreshTokens(run, issued) && token in issued
    requires forall i :: 0 <= i < |run| && Clocked(run[i]) ==> run[i].now <= lease
    requires exists i :: 0 <= i < |run| && MarkFor(run[i], id, token)
    ensures !Owns(Exec(rows, run, maxAttempts), id, token)
    decreases |run|
  {
    var e := run[0];
    var next, issued' := Next(rows, e, maxAttempts), if e.IsClaim() then issued + {e.token} else issued;
    StepKeepsInv(rows, e, maxAttempts);
    if MarkFor(e, id, token) {
      assert !Owns(next, id, token);
      LostOwnerIsFencedForEver(next, run[1..], maxAttempts, issued', id, token);
    } else {
      assert next[id] == rows[id];
      MarkEndsTheClaim(next, run[1..], maxAttempts, issued', id, token, lease);
    }
  }

  /** After a retryable failure the message waits: it is claimable from its new due time on, and nothing touches it before. */
  lemma RetryWaitsUntilDue(rows: Table, mark: Event, run: Run, maxAttempts: nat)
    requires Inv(rows) && mark.MarkFailed? && mark.retryable && mark.id in rows && OwnedBy(rows[mark.id], mark.token)
    requires forall i :: 0 <= i < |run| && Clocked(run[i]) ==> run[i].now < mark.dueAt
    ensures var after := Exec(Next(rows, mark, maxAttempts), run, maxAttempts);
      && mark.id in after && after[mark.id].status == Pending
      && after[mark.id].attemptCount == rows[mark.id].attemptCount
      && after[mark.id].lastErrorCategory == Some(mark.category)
      && (forall now :: Claimable(after[mark.id], now, maxAttempts)
                   <==> now >= mark.dueAt && rows[mark.id].attemptCount < maxAttempts)
  {
    StepKeepsInv(rows, mark, maxAttempts);
    SleepsUntilItWakes(Next(rows, mark, maxAttempts), run, maxAttempts, mark.id);
  }

  /** A new message waits for its due time with all its attempts. */
  lemma NewMessageWaitsUntilDue(rows: Table, enqueue: Event, run: Run, maxAttempts: nat)
    requires Inv(rows) && enqueue.Enqueue? && !HasSource(rows, enqueue.source) && enqueue.id !in rows
    requires forall i :: 0 <= i < |run| && Clocked(run[i]) ==> run[i].now < enqueue.dueAt
    ensures var after := Exec(Next(rows, enqueue, maxAttempts), run, maxAttempts);
      && enqueue.id in after && after[enqueue.id].status == Pending && after[enqueue.id].attemptCount == 0
      && after[enqueue.id].source == enqueue.source && after[enqueue.id].content == enqueue.content
      && after[enqueue.id].createdAt == enqueue.now
      && (forall now :: Claimable(after[enqueue.id], now, maxAttempts) <==> now >= enqueue.dueAt && maxAttempts > 0)
  {
    var next := Next(rows, enqueue, maxAttempts);
    assert Inv(next) by {
      forall i, j | i in next && j in next && next[i].source == next[j].source ensures i == j {
      }
    }
    SleepsUntilItWakes(next, run, maxAttempts, enqueue.id);
  }

  /** A source that some row has already keeps the table as it is; a new one adds one row. */
  lemma EnqueueOutcome(rows: Table, enqueue: Event, maxAttempts: nat)
    requires enqueue.Enqueue? && enqueue.id !in rows
    ensures if exists id :: id in rows && rows[id].source == enqueue.source then Next(rows, enqueue, maxAttempts) == rows
            else Next(rows, enqueue, maxAttempts).Keys == rows.Keys + {enqueue.id}
                 && forall id :: id in rows ==> Next(rows, enqueue, maxAttempts)[id] == rows[id]
  {
  }

  // ---------- how a message ended ----------

  /** The owner reports the message sent. */
  predicate Delivers(rows: Table, e: Event, id: Uuid) {
    && e.MarkSent? && e.id == id && id in rows
    && rows[id].status == Sending && rows[id].ownerToken == Some(e.token)
  }

  /** The owner reports a failure for good, or the last attempt's lease has passed. */
  predicate GivesUp(rows: Table, e: Event, id: Uuid, maxAttempts: nat) {
    && id in rows && rows[id].status == Sending
    && (|| (e.MarkFailed? && !e.retryable && e.id == id && rows[id].ownerToken == Some(e.token))
        || (e.ExpireStale? && rows[id].attemptCount >= maxAttempts
            && rows[id].leaseExpiresAt.Some? && rows[id].leaseExpiresAt.value < e.now))
  }

  function Deliveries(rows: Table, run: Run, maxAttempts: nat, id: Uuid): nat
    decreases |run|
  {
    if run == [] then 0
    else (if Delivers(rows, run[0], id) then 1 else 0) + Deliveries(Next(rows, run[0], maxAttempts), run[1..], maxAttempts, id)
  }

  function GiveUps(rows: Table, run: Run, maxAttempts: nat, id: Uuid): nat
    decreases |run|
  {
    if run == [] then 0
    else (if GivesUp(rows, run[0], id, maxAttempts) then 1 else 0)
         + GiveUps(Next(rows, run[0], maxAttempts), run[1..], maxAttempts, id)
  }

  lemma StepEnds(rows: Table, e: Event, maxAttempts: nat, id: Uuid)
    requires Inv(rows) && id in rows
    ensures id in Next(rows, e, maxAttempts)
    ensures var before, after := rows[id].status, Next(rows, e, maxAttempts)[id].status;
      && (Delivers(rows, e, id) <==> before != Sent && after == Sent)
      && (GivesUp(rows, e, id, maxAttempts) <==> before != Failed && after == Failed)
      && (before == Sent || before == Failed ==> after == before)
  {
    StepKeepsInv(rows, e, maxAttempts);
    hide Next, Inv;
  }

  /**
   A message that had not ended is sent exactly when one owner reported it sent, once, and failed exactly
   when it was given up, once: by its owner for good, or after its last attempt.
   */
  lemma {:induction false} EndsAsReported(rows: Table, run: Run, maxAttempts: nat, id: Uuid)
    requires Inv(rows) && id in rows
    ensures var before, after := rows[id].status, Exec(rows, run, maxAttempts);
      && id in after
      && Deliveries(rows, run, maxAttempts, id) == (if after[id].status == Sent && before != Sent then 1 else 0)
      && GiveUps(rows, run, maxAttempts, id) == (if after[id].status == Failed && before != Failed then 1 else 0)
    decreases |run|
  {
    if run != [] {
      hide Next, Inv, Delivers, GivesUp;
      var next := Next(rows, run[0], maxAttempts);
      StepKeepsInv(rows, run[0], maxAttempts);
      StepEnds(rows, run[0], maxAttempts, id);
      EndsAsReported(next, run[1..], maxAttempts, id);
      if next[id].status == Sent || next[id].status == Failed {
        TerminalRowsNeverChange(next, run[1..], maxAttempts, id);
      }
    }
  }

  /** What was reported with the delivery stays on the row for ever. */
  lemma DeliveryIsRecorded(rows: Table, mark: Event, run: Run, maxAttempts: nat, id: Uuid)
    requires Inv(rows) && Delivers(rows, mark, id)
    ensures var after := Exec(Next(rows, mark, maxAttempts), run, maxAttempts);
      && id in after && after[id].status == Sent && after[id].attemptCount == rows[id].attemptCount
      && after[id].sentAt == Some(mark.at) && after[id].telegramMessageId == Some(mark.telegramId)
      && after[id].lastErrorCategory == None
  {
    StepKeepsInv(rows, mark, maxAttempts);
    TerminalRowsNeverChange(Next(rows, mark, maxAttempts), run, maxAttempts, id);
  }

  /** The reason of giving up stays on the row for ever. */
  lemma GivingUpIsRecorded(rows: Table, e: Event, run: Run, maxAttempts: nat, id: Uuid)
    requires Inv(rows) && GivesUp(rows, e, id, maxAttempts)
    ensures var after := Exec(Next(rows, e, maxAttempts), run, maxAttempts);
      && id in after && after[id].status == Failed && after[id].attemptCount == rows[id].attemptCount
      && after[id].lastErrorCategory == Some(if e.MarkFailed? then e.category else "attempts_exhausted")
  {
    StepKeepsInv(rows, e, maxAttempts);
    TerminalRowsNeverChange(Next(rows, e, maxAttempts), run, maxAttempts, id);
  }

  lemma {:induction false} TerminalRowsNeverChange(rows: Table, run: Run, maxAttempts: nat, id: Uuid)
    requires Inv(rows) && id in rows && Terminal(rows[id], maxAttempts)
    ensures id in Exec(rows, run, maxAttempts) && Exec(rows, run, maxAttempts)[id] == rows[id]
    decreases |run|
  {
    if run != [] {
      StepKeepsInv(rows, run[0], maxAttempts);
      TerminalRowsNeverChange(Next(rows, run[0], maxAttempts), run[1..], maxAttempts, id);
    }
  }

  /** The caller asks for a retry only while the row it owns has attempts left. */
  predicate RetriesWithinLimit(rows: Table, e: Event, maxAttempts: nat) {
    e.MarkFailed? && e.retryable && e.id in rows && OwnedBy(rows[e.id], e.token)
    ==> rows[e.id].attemptCount < maxAttempts
  }

  predicate CallersRespectLimit(rows: Table, run: Run, maxAttempts: nat)
    decreases |run|
  {
    run == []
    || (&& RetriesWithinLimit(rows, run[0], maxAttempts)
        && CallersRespectLimit(Next(rows, run[0], maxAttempts), run[1..], maxAttempts))
  }

  predicate NoneParked(rows: Table, maxAttempts: nat) {
    forall id :: id in rows ==> !Parked(rows[id], maxAttempts)
  }

  /**
   No row gets stuck exactly when callers respect the attempt limit: the repository itself
   would put an exhausted message back to pending, where nothing ever picks it up.
   */
  lemma {:induction false} NothingStuckIffCallersRespectLimit(rows: Table, run: Run, maxAttempts: nat)
    requires Inv(rows) && NoneParked(rows, maxAttempts) && maxAttempts > 0
    ensures NoneParked(Exec(rows, run, maxAttempts), maxAttempts)
       <==> CallersRespectLimit(rows, run, maxAttempts)
    decreases |run|
  {
    if run != [] {
      var e := run[0];
      var next := Next(rows, e, maxAttempts);
      StepKeepsInv(rows, e, maxAttempts);
      if RetriesWithinLimit(rows, e, maxAttempts) {
        NothingStuckIffCallersRespectLimit(next, run[1..], maxAttempts);
      } else {
        assert Parked(next[e.id], maxAttempts);
        TerminalRowsNeverChange(next, run[1..], maxAttempts, e.id);
      }
    }
  }

  // ---------- every message ends ----------

  /** Anything happens, and then a worker expires what is used up and claims, all at the instant `now`. */
  datatype Visit = Visit(meanwhile: Run, now: int, claim: Event)

  /** The claim is one for the row: of its source, or of a batch it was chosen for. */
  predicate ClaimFor(e: Event, id: Uuid, source: Source, now: int) {
    e.IsClaim() && e.now == now && (if e.ClaimSource? then e.source == source else id in e.chosen)
  }

  /** The row is due or its lease has run out; unless it is used up, the worker claims it. */
  predicate InTime(v: Visit, id: Uuid, m: Message, maxAttempts: nat)
    requires RowInv(m)
  {
    || Terminal(m, maxAttempts)
    || (v.now >= WakeTime(m) && (Expirable(m, v.now, maxAttempts) || ClaimFor(v.claim, id, m.source, v.now)))
  }

  function VisitRun(v: Visit): Run {
    v.meanwhile + [ExpireStale(v.now), v.claim]
  }

  function VisitsRun(visits: seq<Visit>): Run {
    if visits == [] then [] else VisitRun(visits[0]) + VisitsRun(visits[1..])
  }

  /** Each visit comes in time for the row as it is by then. */
  ghost predicate Attended(rows: Table, visits: seq<Visit>, maxAttempts: nat, id: Uuid)
    requires Inv(rows) && id in rows
    decreases |visits|
  {
    visits == []
    || (var v := visits[0];
        InvHolds(rows, v.meanwhile, maxAttempts);
        InvHolds(rows, VisitRun(v), maxAttempts);
        SourceKeepsItsContent(rows, v.meanwhile, maxAttempts, id);
        SourceKeepsItsContent(rows, VisitRun(v), maxAttempts, id);
        var m := Exec(rows, v.meanwhile, maxAttempts)[id];
        && InTime(v, id, m, maxAttempts)
        && Attended(Exec(rows, VisitRun(v), maxAttempts), visits[1..], maxAttempts, id))
  }

  lemma {:induction false} ExecAppend(rows: Table, first: Run, second: Run, maxAttempts: nat)
    ensures Exec(rows, first + second, maxAttempts) == Exec(Exec(rows, first, maxAttempts), second, maxAttempts)
    decreases |first|
  {
    hide Next;
    if first == [] {
      assert first + second == second;
    } else {
      ExecAppend(Next(rows, first[0], maxAttempts), first[1..], second, maxAttempts);
      assert (first + second)[1..] == first[1..] + second;
    }
  }

  lemma SpentIsTerminal(m: Message, maxAttempts: nat)
    ensures Budget(m, maxAttempts) == 0 <==> Terminal(m, maxAttempts)
  {
  }

  /** A visit in time spends some of the budget, as long as there is any. */
  lemma VisitSpendsBudget(rows: Table, v: Visit, maxAttempts: nat, id: Uuid)
    requires Inv(rows) && id in rows && Attended(rows, [v], maxAttempts, id)
    ensures id in Exec(rows, VisitRun(v), maxAttempts)
    ensures var left := Budget(Exec(rows, VisitRun(v), maxAttempts)[id], maxAttempts);
      left == 0 || left < Budget(rows[id], maxAttempts)
  {
    var pass := [ExpireStale(v.now), v.claim];
    var woken := Exec(rows, v.meanwhile, maxAttempts);
    InvHolds(rows, v.meanwhile, maxAttempts);
    BoundedFrom(rows, v.meanwhile, maxAttempts, id);
    BoundedFrom(woken, pass, maxAttempts, id);
    ExecAppend(rows, v.meanwhile, pass, maxAttempts);
    if !Terminal(woken[id], maxAttempts) {
      PassActs(woken, v, maxAttempts, id);
    } else {
      SpentIsTerminal(woken[id], maxAttempts);
    }
  }

  lemma PassActs(rows: Table, v: Visit, maxAttempts: nat, id: Uuid)
    requires Inv(rows) && id in rows && !Terminal(rows[id], maxAttempts)
    requires InTime(v, id, rows[id], maxAttempts)
    ensures Transitions(rows, [ExpireStale(v.now), v.claim], maxAttempts, id) >= 1
  {
    WakesUnlessTerminal(rows[id], maxAttempts);
    var pass := [ExpireStale(v.now), v.claim];
    assert pass[1..] == [v.claim] && [v.claim][1..] == [];
    var next := Next(rows, pass[0], maxAttempts);
    assert !Expirable(rows[id], v.now, maxAttempts) ==> next[id] == rows[id] && Acts(id, next[id], v.claim, maxAttempts);
  }

  lemma {:induction false} VisitsUseUpTheBudget(rows: Table, visits: seq<Visit>, maxAttempts: nat, id: Uuid)
    requires Inv(rows) && id in rows && Attended(rows, visits, maxAttempts, id)
    ensures id in Exec(rows, VisitsRun(visits), maxAttempts)
    ensures Budget(Exec(rows, VisitsRun(visits), maxAttempts)[id], maxAttempts) <= Max(0, Budget(rows[id], maxAttempts) - |visits|)
    decreases |visits|
  {
    hide Budget, Next, Inv;
    if visits != [] {
      var v, next := visits[0], Exec(rows, VisitRun(visits[0]), maxAttempts);
      InvHolds(rows, VisitRun(v), maxAttempts);
      BoundedFrom(rows, VisitRun(v), maxAttempts, id);
      assert Attended(next, [], maxAttempts, id) && [v][1..] == [];
      VisitSpendsBudget(rows, v, maxAttempts, id);
      VisitsUseUpTheBudget(next, visits[1..], maxAttempts, id);
      ExecAppend(rows, VisitRun(v), VisitsRun(visits[1..]), maxAttempts);
    }
  }

  /**
   As many visits in time as the row has budget left, at most two for each attempt: after them
   the row never changes again, and if callers keep the attempt limit it is sent or failed.
   */
  lemma AttendedMessageIsSettled(rows: Table, visits: seq<Visit>, maxAttempts: nat, id: Uuid)
    requires Inv(rows) && id in rows && Attended(rows, visits, maxAttempts, id)
    requires |visits| >= Budget(rows[id], maxAttempts)
    ensures var run := VisitsRun(visits);
      && Budget(rows[id], maxAttempts) <= 2 * maxAttempts + 1
      && (rows[id].attemptCount == 0 && rows[id].status == Pending ==> Budget(rows[id], maxAttempts) <= 2 * maxAttempts)
      && id in Exec(rows, run, maxAttempts) && Terminal(Exec(rows, run, maxAttempts)[id], maxAttempts)
      && (NoneParked(rows, maxAttempts) && CallersRespectLimit(rows, run, maxAttempts) && maxAttempts > 0 ==>
            Exec(rows, run, maxAttempts)[id].status in {Sent, Failed})
  {
    hide Exec, CallersRespectLimit, Inv;
    var run := VisitsRun(visits);
    VisitsUseUpTheBudget(rows, visits, maxAttempts, id);
    SpentIsTerminal(Exec(rows, run, maxAttempts)[id], maxAttempts);
    if NoneParked(rows, maxAttempts) && CallersRespectLimit(rows, run, maxAttempts) && maxAttempts > 0 {
      NothingStuckIffCallersRespectLimit(rows, run, maxAttempts);
    }
  }

  const SOURCE := Source("reminder", "1")
  const CONTENT := Content(1, 1, 1, "Hello", false)

  /** Attempts `k + 1` to `n`: a claim and then a retryable failure, due again at once. */
  function RetriesFrom(k: nat, n: nat): Run
    decreases n - k
  {
    if k >= n then []
    else [ClaimSource(SOURCE, k, 0, 60), MarkFailed(0, k, true, 0, "network")] + RetriesFrom(k + 1, n)
  }

  /** Enqueue a message, then claim and retry it up to the attempt limit. */
  function ParkingRun(maxAttempts: nat): Run {
    [Event.Enqueue(0, SOURCE, CONTENT, 0, 0)] + RetriesFrom(0, maxAttempts)
  }

  /** The one message after `k` failed attempts. */
  predicate TriedTimes(rows: Table, k: nat) {
    rows.Keys == {0} && rows[0].source == SOURCE && rows[0].status == Pending
    && rows[0].attemptCount == k && rows[0].nextAttemptAt == 0
  }

  lemma OneRetry(rows: Table, k: nat, maxAttempts: nat)
    requires TriedTimes(rows, k) && k < maxAttempts
    ensures var claimed := Next(rows, ClaimSource(SOURCE, k, 0, 60), maxAttempts);
      TriedTimes(Next(claimed, MarkFailed(0, k, true, 0, "network"), maxAttempts), k + 1)
  {
  }

  lemma {:induction false} RetriesUseUpTheAttempts(rows: Table, k: nat, maxAttempts: nat)
    requires TriedTimes(rows, k) && k <= maxAttempts
    ensures TriedTimes(Exec(rows, RetriesFrom(k, maxAttempts), maxAttempts), maxAttempts)
    decreases maxAttempts - k
  {
    hide Next, TriedTimes;
    if k < maxAttempts {
      var claim, mark := ClaimSource(SOURCE, k, 0, 60), MarkFailed(0, k, true, 0, "network");
      var rest := RetriesFrom(k + 1, maxAttempts);
      OneRetry(rows, k, maxAttempts);
      RetriesUseUpTheAttempts(Next(Next(rows, claim, maxAttempts), mark, maxAttempts), k + 1, maxAttempts);
      assert ([claim, mark] + rest)[1..] == [mark] + rest;
      assert ([mark] + rest)[1..] == rest;
    }
  }

  lemma {:induction false} RetryTokensAreFresh(k: nat, n: nat, issued: set<Uuid>)
    requires forall token :: token in issued ==> token < k
    ensures FreshTokens(RetriesFrom(k, n), issued)
    decreases n - k
  {
    if k < n {
      var claim, mark := ClaimSource(SOURCE, k, 0, 60), MarkFailed(0, k, true, 0, "network");
      var rest := RetriesFrom(k + 1, n);
      RetryTokensAreFresh(k + 1, n, issued + {k});
      assert ([claim, mark] + rest)[1..] == [mark] + rest;
      assert ([mark] + rest)[1..] == rest;
    }
  }

  /** From an empty outbox, with fresh tokens and whatever limit, a retry at the limit parks the message. */
  lemma RetryAtTheLimitParks(maxAttempts: nat)
    requires maxAttempts > 0
    ensures FreshTokens(ParkingRun(maxAttempts), {})
    ensures var after := Exec(map[], ParkingRun(maxAttempts), maxAttempts);
      0 in after && Parked(after[0], maxAttempts)
    ensures !CallersRespectLimit(map[], ParkingRun(maxAttempts), maxAttempts)
  {
    var enqueue, retries := Event.Enqueue(0, SOURCE, CONTENT, 0, 0), RetriesFrom(0, maxAttempts);
    var stored := Next(map[], enqueue, maxAttempts);
    assert ParkingRun(maxAttempts)[1..] == retries;
    assert TriedTimes(stored, 0);
    RetriesUseUpTheAttempts(stored, 0, maxAttempts);
    RetryTokensAreFresh(0, maxAttempts, {});
    NothingStuckIffCallersRespectLimit(map[], ParkingRun(maxAttempts), maxAttempts);
  }

  // ---------- fencing by owner token ----------

  /** Owner tokens are fresh UUIDs: no claim reuses a token issued before it. */
  predicate FreshTokens(run: Run, issued: set<Uuid>) {
    run == []
    || (if run[0].IsClaim()
        then run[0].token !in issued && FreshTokens(run[1..], issued + {run[0].token})
        else FreshTokens(run[1..], issued))
  }

  predicate OwnersIssued(rows: Table, issued: set<Uuid>) {
    forall id :: id in rows && rows[id].ownerToken.Some? ==> rows[id].ownerToken.value in issued
  }

  predicate Owns(rows: Table, id: Uuid, token: Uuid) {
    id in rows && rows[id].ownerToken == Some(token)
  }

  /** A worker that lost its claim (to a reclaim, an expiry or a mark) is locked out for good. */
  lemma {:induction false} LostOwnerIsFencedForEver(
      rows: Table, run: Run, maxAttempts: nat, issued: set<Uuid>, id: Uuid, token: Uuid)
    requires token in issued && !Owns(rows, id, token) && FreshTokens(run, issued)
    ensures !Owns(Exec(rows, run, maxAttempts), id, token)
    ensures MarksBy(rows, run, maxAttempts, id, token) == 0
    decreases |run|
  {
    if run != [] {
      var e := run[0];
      var issued' := if e.IsClaim() then issued + {e.token} else issued;
      LostOwnerIsFencedForEver(Next(rows, e, maxAttempts), run[1..], maxAttempts, issued', id, token);
    }
  }

  /** One claim lets its owner mark the message at most once, over every interleaving. */
  lemma {:induction false} OneMarkPerClaim(
      rows: Table, run: Run, maxAttempts: nat, issued: set<Uuid>, id: Uuid, token: Uuid)
    requires OwnersIssued(rows, issued) && FreshTokens(run, issued)
    ensures MarksBy(rows, run, maxAttempts, id, token) <= 1
    decreases |run|
  {
    if run != [] {
      var e := run[0];
      var next := Next(rows, e, maxAttempts);
      var issued' := if e.IsClaim() then issued + {e.token} else issued;
      if id in rows && e.IsMark() && e.token == token && Acts(id, rows[id], e, maxAttempts) {
        LostOwnerIsFencedForEver(next, run[1..], maxAttempts, issued', id, token);
      } else {
        OneMarkPerClaim(next, run[1..], maxAttempts, issued', id, token);
      }
    }
  }

  // ---------- the repository ----------

  predicate DueBefore(a: Message, b: Message) {
    a.nextAttemptAt < b.nextAttemptAt || (a.nextAttemptAt == b.nextAttemptAt && a.createdAt <= b.createdAt)
  }

  function ClaimableIds(rows: Table, now: int, maxAttempts: nat): set<Uuid> {
    set id | id in rows && Claimable(rows[id], now, maxAttempts)
  }

  /** A batch takes as many claimable rows as the limit allows, the longest-due ones first. */
  predicate IsDueBatch(rows: Table, now: int, maxAttempts: nat, limit: nat, chosen: set<Uuid>) {
    var due := ClaimableIds(rows, now, maxAttempts);
    && chosen <= due
    && |chosen| == Min(limit, |due|)
    && forall c, d :: c in chosen && d in due - chosen ==> DueBefore(rows[c], rows[d])
  }

  /** A batch in plain terms: claimable rows, up to the limit, none due later than one left out, older ones first among equals. */
  lemma DueBatchMeans(rows: Table, now: int, maxAttempts: nat, limit: nat, chosen: set<Uuid>)
    ensures IsDueBatch(rows, now, maxAttempts, limit, chosen)
       <==> (&& (forall id :: id in chosen ==> id in rows && Claimable(rows[id], now, maxAttempts))
             && |chosen| <= limit
             && (|chosen| < limit ==> forall id :: id in rows && Claimable(rows[id], now, maxAttempts) ==> id in chosen)
             && (forall c, d :: c in chosen && d in rows && d !in chosen && Claimable(rows[d], now, maxAttempts) ==>
                   && rows[c].nextAttemptAt <= rows[d].nextAttemptAt
                   && (rows[c].nextAttemptAt == rows[d].nextAttemptAt ==> rows[c].createdAt <= rows[d].createdAt)))
  {
    hide Claimable;
    var due := ClaimableIds(rows, now, maxAttempts);
    if chosen <= due {
      SubsetCount(chosen, due);
      assert |chosen| == |due| <==> chosen == due;
    }
  }

  lemma SubsetCount(a: set<Uuid>, b: set<Uuid>)
    requires a <= b
    ensures |a| <= |b| && (|a| == |b| <==> a == b)
  {
    assert b == a + (b - a);
  }

  datatype OutboundClaim = Acquired(message: Message) | Existing(message: Message) | Missing

  class OutboundRepository {
    var rows: Table

    ghost predicate Valid()
      reads this
    {
      Inv(rows)
    }

    method Enqueue(id: Uuid, source: Source, content: Content, dueAt: int, now: int) returns (stored: Message)
      requires Valid() && id !in rows
      modifies this
      ensures Valid()
      ensures rows == Next(old(rows), Event.Enqueue(id, source, content, dueAt, now), OUTBOUND_MAX_ATTEMPTS)
      ensures stored in rows.Values && stored.source == source
      ensures HasSource(old(rows), source) ==> rows == old(rows)
      ensures !HasSource(old(rows), source) ==> rows == old(rows)[id := stored] && stored.status == Pending
      ensures !HasSource(old(rows), source) ==>
                stored.content == content && stored.nextAttemptAt == dueAt && stored.attemptCount == 0
    {
      if existing :| existing in rows && rows[existing].source == source {
        stored := rows[existing];
      } else {
        stored := NewMessage(source, content, dueAt, now);
        rows := rows[id := stored];
        assert rows[id] == stored;
      }
    }

    method ClaimSource(source: Source, token: Uuid, now: int, lease: int, maxAttempts: nat)
      returns (claim: OutboundClaim)
      requires Valid()
      modifies this
      ensures Valid()
      ensures rows == Next(old(rows), Event.ClaimSource(source, token, now, lease), maxAttempts)
      ensures claim.Missing? <==> !HasSource(old(rows), source)
      ensures claim.Acquired? <==>
                exists id :: id in old(rows) && old(rows)[id].source == source && Claimable(old(rows)[id], now, maxAttempts)
      ensures !claim.Missing? ==> claim.message in rows.Values && claim.message.source == source
      ensures claim.Acquired? ==> OwnedBy(claim.message, token)
      ensures claim.Acquired? ==>
                forall at :: Claimable(claim.message, at, maxAttempts) || Expirable(claim.message, at, maxAttempts) <==> at > lease
    {
      ghost var before := rows;
      if id :| id in rows && rows[id].source == source && Claimable(rows[id], now, maxAttempts) {
        rows := rows[id := Claimed(rows[id], token, now, lease)];
        assert rows == Next(before, Event.ClaimSource(source, token, now, lease), maxAttempts);
        claim := Acquired(rows[id]);
      } else {
        assert rows == Next(before, Event.ClaimSource(source, token, now, lease), maxAttempts);
        if id :| id in rows && rows[id].source == source {
          claim := Existing(rows[id]);
        } else {
          claim := Missing;
        }
      }
    }

    method PickLongestDue(candidates: set<Uuid>) returns (first: Uuid)
      requires candidates != {} && candidates <= rows.Keys
      ensures first in candidates
      ensures forall c :: c in candidates ==> DueBefore(rows[first], rows[c])
    {
      first :| first in candidates;
      var rest := candidates - {first};
      while rest != {}
        invariant first in candidates && rest <= candidates
        invariant forall c :: c in candidates - rest ==> DueBefore(rows[first], rows[c])
        decreases |rest|
      {
        var c :| c in rest;
        if !DueBefore(rows[first], rows[c]) {
          first := c;
        }
        rest := rest - {c};
      }
    }

    /** The candidate query: due rows in due order, cut off at the limit. */
    method ChooseDueBatch(now: int, maxAttempts: nat, limit: nat) returns (chosen: set<Uuid>)
      ensures IsDueBatch(rows, now, maxAttempts, limit, chosen)
    {
      var due := ClaimableIds(rows, now, maxAttempts);
      chosen := {};
      var left := due;
      while left != {} && |chosen| < limit
        invariant chosen + left == due && chosen !! left && |chosen| <= limit
        invariant forall c, d :: c in chosen && d in left ==> DueBefore(rows[c], rows[d])
        decreases |left|
      {
        var first := PickLongestDue(left);
        chosen := chosen + {first};
        left := left - {first};
      }
      assert |due| == |chosen| + |left|;
      assert left == due - chosen;
    }

    method ClaimDueBatch(token: Uuid, now: int, lease: int, maxAttempts: nat, limit: nat)
      returns (chosen: set<Uuid>)
      requires Valid()
      modifies this
      ensures Valid()
      ensures IsDueBatch(old(rows), now, maxAttempts, limit, chosen)
      ensures rows == Next(old(rows), Event.ClaimBatch(chosen, token, now, lease), maxAttempts)
      ensures forall id :: id in chosen ==> id in rows && OwnedBy(rows[id], token)
      ensures forall id, at :: id in chosen ==>
                (Claimable(rows[id], at, maxAttempts) || Expirable(rows[id], at, maxAttempts) <==> at > lease)
      ensures forall id :: id in old(rows) && id !in chosen ==> id in rows && rows[id] == old(rows)[id]
    {
      chosen := ChooseDueBatch(now, maxAttempts, limit);
      ghost var before := rows;
      StepKeepsInv(rows, ClaimBatch(chosen, token, now, lease), maxAttempts);
      rows := map id | id in rows :: if id in chosen then Claimed(rows[id], token, now, lease) else rows[id];
      assert rows == Next(before, Event.ClaimBatch(chosen, token, now, lease), maxAttempts);
    }

    method ExpireExhaustedStale(now: int, maxAttempts: nat) returns (count: nat)
      requires Valid()
      modifies this
      ensures Valid()
      ensures rows == Next(old(rows), ExpireStale(now), maxAttempts)
      ensures count == |set id | id in old(rows) && Expirable(old(rows)[id], now, maxAttempts)|
      ensures forall id :: id in rows ==> !Expirable(rows[id], now, maxAttempts)
    {
      var stale := set id | id in rows && Expirable(rows[id], now, maxAttempts);
      count := |stale|;
      rows := map id | id in rows ::
        if id in stale
        then Released(rows[id]).(status := Failed, lastErrorCategory := Some("attempts_exhausted"))
        else rows[id];
    }

    method MarkSent(id: Uuid, token: Uuid, telegramId: int, at: int) returns (done: bool)
      requires Valid()
      modifies this
      ensures Valid()
      ensures rows == Next(old(rows), Event.MarkSent(id, token, telegramId, at), OUTBOUND_MAX_ATTEMPTS)
      ensures done <==> id in old(rows) && OwnedBy(old(rows)[id], token)
      ensures done ==> rows[id].status == Sent && rows[id].telegramMessageId == Some(telegramId)
      ensures done ==> rows[id].sentAt == Some(at)
    {
      ghost var before := rows;
      done := id in rows && OwnedBy(rows[id], token);
      if done {
        rows := rows[id := Released(rows[id]).(status := Sent, sentAt := Some(at),
                                               telegramMessageId := Some(telegramId), lastErrorCategory := None)];
      }
      assert rows == Next(before, Event.MarkSent(id, token, telegramId, at), OUTBOUND_MAX_ATTEMPTS);
    }

    method MarkFailed(id: Uuid, token: Uuid, retryable: bool, dueAt: int, category: string) returns (done: bool)
      requires Valid()
      modifies this
      ensures Valid()
      ensures rows == Next(old(rows), Event.MarkFailed(id, token, retryable, dueAt, category), OUTBOUND_MAX_ATTEMPTS)
      ensures done <==> id in old(rows) && OwnedBy(old(rows)[id], token)
      ensures done ==> rows[id].status == (if retryable then Pending else Failed)
      ensures done ==> rows[id].nextAttemptAt == dueAt && rows[id].lastErrorCategory == Some(category)
    {
      ghost var before := rows;
      done := id in rows && OwnedBy(rows[id], token);
      if done {
        rows := rows[id := Released(rows[id]).(status := if retryable then Pending else Failed,
                                               nextAttemptAt := dueAt, lastErrorCategory := Some(category))];
      }
      assert rows == Next(before, Event.MarkFailed(id, token, retryable, dueAt, category), OUTBOUND_MAX_ATTEMPTS);
    }
  }

  /** The delivery service: the only caller of `MarkFailed`, and it respects the attempt limit. */
  class OutboundService {
    const repository: OutboundRepository

    constructor (repository: OutboundRepository)
      ensures this.repository == repository
    {
      this.repository := repository;
    }

    method MarkFailed(id: Uuid, token: Uuid, retryable: bool, dueAt: int, category: string) returns (done: bool)
      requires repository.Valid() && NoneParked(repository.rows, OUTBOUND_MAX_ATTEMPTS)
      modifies repository
      ensures repository.Valid() && NoneParked(repository.rows, OUTBOUND_MAX_ATTEMPTS)
      ensures done <==> id in old(repository.rows) && OwnedBy(old(repository.rows)[id], token)
      ensures done ==> id in repository.rows && repository.rows[id].nextAttemptAt == dueAt
      ensures done && retryable && old(repository.rows)[id].attemptCount < OUTBOUND_MAX_ATTEMPTS
              ==> repository.rows[id].status == Pending
      ensures done && !(retryable && old(repository.rows)[id].attemptCount < OUTBOUND_MAX_ATTEMPTS)
              ==> repository.rows[id].status == Failed
      ensures forall j :: j in old(repository.rows) && (j != id || !done)
                ==> j in repository.rows && repository.rows[j] == old(repository.rows)[j]
    {
      if id !in repository.rows {
        return false;
      }
      var shouldRetry := retryable && repository.rows[id].attemptCount < OUTBOUND_MAX_ATTEMPTS;
      done := repository.MarkFailed(id, token, shouldRetry, dueAt, category);
    }
  }
}
