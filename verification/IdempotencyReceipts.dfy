/**
 Idempotency receipts: at most one worker completes an operation, however often it is
 claimed, lost and reclaimed, and every later duplicate gets the stored response back.

 The unique constraint on (scope, operation, key) makes the table a map from that triple.
 Two clocks appear: leases are stamped by the application and compared by the database.
 */
module IdempotencyReceipts {
  import opened Common

  datatype Status = Processing | Completed | Failed

  datatype Key = Key(scope: string, operation: string, idempotencyKey: string)

  datatype Identity = Identity(companyId: Uuid, employeeId: Uuid)

  /** `response` is the stored JSON object, as text; `None` stands for SQL NULL. */
  datatype Receipt = Receipt(
    id: Uuid,
    requestHash: Option<string>,
    status: Status,
    ownerToken: Option<Uuid>,
    identity: Option<Identity>,
    response: Option<string>,
    leaseExpiresAt: Option<int>,
    completedAt: Option<int>)

  type Table = map<Key, Receipt>

  datatype ClaimRequest = ClaimRequest(
    key: Key, requestHash: Option<string>, receiptId: Uuid, token: Uuid, lease: int, identity: Option<Identity>)

  datatype Event =
    | Claim(request: ClaimRequest, dbNow: int)
    | Complete(id: Uuid, token: Uuid, at: int, response: Option<string>, identity: Option<Identity>)
    | Fail(id: Uuid, token: Uuid)

  type Run = seq<Event>

  // ---------- one statement ----------

  predicate Reclaimable(r: Receipt, dbNow: int) {
    || r.status == Failed
    || (r.status == Processing && r.leaseExpiresAt.Some? && r.leaseExpiresAt.value < dbNow)
  }

  /** The upsert takes effect: a new key, or a reclaimable receipt of the very same request. */
  predicate Grants(rows: Table, q: ClaimRequest, dbNow: int) {
    q.key !in rows || (rows[q.key].requestHash == q.requestHash && Reclaimable(rows[q.key], dbNow))
  }

  function Granted(rows: Table, q: ClaimRequest): Receipt {
    if q.key !in rows
    then Receipt(q.receiptId, q.requestHash, Processing, Some(q.token), q.identity, None, Some(q.lease), None)
    else rows[q.key].(status := Processing, ownerToken := Some(q.token), leaseExpiresAt := Some(q.lease),
                      completedAt := None, response := None)
  }

  predicate Owned(r: Receipt, id: Uuid, token: Uuid) {
    r.id == id && r.status == Processing && r.ownerToken == Some(token)
  }

  function RowStep(r: Receipt, e: Event): Receipt
    requires !e.Claim?
  {
    if !Owned(r, e.id, e.token) then r
    else match e
      case Complete(_, _, at, response, identity) =>
        r.(status := Completed, ownerToken := None, leaseExpiresAt := None, completedAt := Some(at),
           response := response, identity := if identity.Some? then identity else r.identity)
      case Fail(_, _) => r.(status := Failed, ownerToken := None, leaseExpiresAt := None)
  }

  /** One committed transaction of the service; a refused claim commits nothing. */
  function Next(rows: Table, e: Event): Table {
    match e
    case Claim(q, dbNow) => if Grants(rows, q, dbNow) then rows[q.key := Granted(rows, q)] else rows
    case _ => map key | key in rows :: RowStep(rows[key], e)
  }

  function Exec(rows: Table, run: Run): Table
    decreases |run|
  {
    if run == [] then rows else Exec(Next(rows, run[0]), run[1..])
  }

  /** What the service answers to a claim. */
  datatype Claim = Acquired(receiptId: Uuid, token: Uuid) | Duplicate(status: Status, receiptId: Uuid, response: Option<string>)

  function ClaimAnswer(rows: Table, q: ClaimRequest, dbNow: int): Result<Claim> {
    if Grants(rows, q, dbNow) then Ok(Acquired(Granted(rows, q).id, q.token))
    else if rows[q.key].requestHash != q.requestHash then Err(Conflict)
    else Ok(Duplicate(if rows[q.key].status == Completed then Completed else Processing,
                      rows[q.key].id, rows[q.key].response))
  }

  // ---------- invariants ----------

  /** Receipt ids are unique; a receipt has an owner and a lease exactly while it is processed. */
  ghost predicate Inv(rows: Table) {
    && (forall k, l :: k in rows && l in rows && rows[k].id == rows[l].id ==> k == l)
    && (forall k :: k in rows ==> (rows[k].status == Processing <==> rows[k].ownerToken.Some?))
    && (forall k :: k in rows ==> (rows[k].status == Processing <==> rows[k].leaseExpiresAt.Some?))
  }

  /** Receipt ids and owner tokens are fresh UUIDs at every claim. */
  predicate FreshUuids(run: Run, ids: set<Uuid>, tokens: set<Uuid>)
    decreases |run|
  {
    run == []
    || (if run[0].Claim?
        then && run[0].request.receiptId !in ids
             && run[0].request.token !in tokens
             && FreshUuids(run[1..], ids + {run[0].request.receiptId}, tokens + {run[0].request.token})
        else FreshUuids(run[1..], ids, tokens))
  }

  predicate Issued(rows: Table, ids: set<Uuid>, tokens: set<Uuid>) {
    forall k :: k in rows ==>
      rows[k].id in ids && (rows[k].ownerToken.Some? ==> rows[k].ownerToken.value in tokens)
  }

  function IdsAfter(e: Event, ids: set<Uuid>): set<Uuid> {
    if e.Claim? then ids + {e.request.receiptId} else ids
  }

  function TokensAfter(e: Event, tokens: set<Uuid>): set<Uuid> {
    if e.Claim? then tokens + {e.request.token} else tokens
  }

  lemma StepKeepsInv(rows: Table, e: Event, ids: set<Uuid>, tokens: set<Uuid>)
    requires Inv(rows) && Issued(rows, ids, tokens)
    requires e.Claim? ==> e.request.receiptId !in ids
    ensures Inv(Next(rows, e))
    ensures forall k :: k in rows ==>
      k in Next(rows, e) && Next(rows, e)[k].id == rows[k].id && Next(rows, e)[k].requestHash == rows[k].requestHash
  {
  }

  lemma StepKeepsIssued(rows: Table, e: Event, ids: set<Uuid>, tokens: set<Uuid>)
    requires Issued(rows, ids, tokens)
    ensures Issued(Next(rows, e), IdsAfter(e, ids), TokensAfter(e, tokens))
  {
  }

  // ---------- theorems over all runs ----------

  /** A key names one receipt and one request hash for ever. */
  lemma {:induction false} KeyKeepsItsRequest(rows: Table, run: Run, key: Key)
    requires key in rows
    ensures key in Exec(rows, run)
    ensures Exec(rows, run)[key].id == rows[key].id && Exec(rows, run)[key].requestHash == rows[key].requestHash
    decreases |run|
  {
    if run != [] {
      KeyKeepsItsRequest(Next(rows, run[0]), run[1..], key);
    }
  }

  /** The event completes the receipt stored under `key`. */
  predicate Completes(rows: Table, e: Event, key: Key) {
    e.Complete? && key in rows && Owned(rows[key], e.id, e.token)
  }

  function Completions(rows: Table, run: Run, key: Key): nat
    decreases |run|
  {
    if run == [] then 0
    else (if Completes(rows, run[0], key) then 1 else 0) + Completions(Next(rows, run[0]), run[1..], key)
  }

  predicate IsCompleted(rows: Table, key: Key) {
    key in rows && rows[key].status == Completed
  }

  /** Once completed, nothing about a receipt ever changes again. */
  lemma {:induction false} CompletedReceiptIsFrozen(rows: Table, run: Run, key: Key)
    requires IsCompleted(rows, key)
    ensures IsCompleted(Exec(rows, run), key) && Exec(rows, run)[key] == rows[key]
    ensures Completions(rows, run, key) == 0
    decreases |run|
  {
    if run != [] {
      assert Next(rows, run[0])[key] == rows[key];
      CompletedReceiptIsFrozen(Next(rows, run[0]), run[1..], key);
    }
  }

  /**
   Exactly once: over every interleaving of workers and lease expiries, the completions of a
   key number one if it ends up completed and zero otherwise.
   */
  lemma {:induction false} CompletedExactlyOnce(rows: Table, run: Run, key: Key)
    requires !IsCompleted(rows, key)
    ensures Completions(rows, run, key) == (if IsCompleted(Exec(rows, run), key) then 1 else 0)
    decreases |run|
  {
    if run != [] {
      var next := Next(rows, run[0]);
      if Completes(rows, run[0], key) {
        assert IsCompleted(next, key);
        CompletedReceiptIsFrozen(next, run[1..], key);
      } else {
        CompletedExactlyOnce(next, run[1..], key);
      }
    }
  }

  /** From the completing call on, every claim of the key gets that call's response or a conflict. */
  lemma LaterClaimsGetTheResponse(rows: Table, completing: Event, run: Run, q: ClaimRequest, dbNow: int)
    requires Completes(rows, completing, q.key)
    ensures var answer := ClaimAnswer(Exec(Next(rows, completing), run), q, dbNow);
      answer == if q.requestHash == rows[q.key].requestHash
                then Ok(Duplicate(Completed, rows[q.key].id, completing.response))
                else Err(Conflict)
  {
    CompletedReceiptIsFrozen(Next(rows, completing), run, q.key);
  }

  /** A claim for a different request conflicts, now and after any run, and changes nothing. */
  lemma DifferentRequestAlwaysConflicts(rows: Table, run: Run, q: ClaimRequest, dbNow: int)
    requires q.key in rows && rows[q.key].requestHash != q.requestHash
    ensures ClaimAnswer(Exec(rows, run), q, dbNow) == Err(Conflict)
    ensures Next(Exec(rows, run), Event.Claim(q, dbNow)) == Exec(rows, run)
  {
    KeyKeepsItsRequest(rows, run, q.key);
  }

  predicate Owns(rows: Table, id: Uuid, token: Uuid) {
    exists k :: k in rows && Owned(rows[k], id, token)
  }

  /** Completions and failures presented with `token` for receipt `id` that took effect. */
  function SettledBy(rows: Table, run: Run, id: Uuid, token: Uuid): nat
    decreases |run|
  {
    if run == [] then 0
    else (if !run[0].Claim? && run[0].id == id && run[0].token == token && Owns(rows, id, token) then 1 else 0)
         + SettledBy(Next(rows, run[0]), run[1..], id, token)
  }

  /** A superseded owner can never complete or fail the receipt again. */
  lemma {:induction false} SupersededOwnerIsFenced(
      rows: Table, run: Run, ids: set<Uuid>, tokens: set<Uuid>, id: Uuid, token: Uuid)
    requires Inv(rows) && Issued(rows, ids, tokens) && FreshUuids(run, ids, tokens)
    requires token in tokens && !Owns(rows, id, token)
    ensures !Owns(Exec(rows, run), id, token)
    ensures SettledBy(rows, run, id, token) == 0
    decreases |run|
  {
    if run != [] {
      var e := run[0];
      var next := Next(rows, e);
      StepKeepsInv(rows, e, ids, tokens);
      StepKeepsIssued(rows, e, ids, tokens);
      assert !Owns(next, id, token) by {
        if k :| k in next && Owned(next[k], id, token) {
          assert k in rows && !Owned(rows[k], id, token);
        }
      }
      SupersededOwnerIsFenced(next, run[1..], IdsAfter(e, ids), TokensAfter(e, tokens), id, token);
    }
  }

  /** One claim settles its receipt at most once. */
  lemma {:induction false} OneSettlementPerClaim(
      rows: Table, run: Run, ids: set<Uuid>, tokens: set<Uuid>, id: Uuid, token: Uuid)
    requires Inv(rows) && Issued(rows, ids, tokens) && FreshUuids(run, ids, tokens)
    ensures SettledBy(rows, run, id, token) <= 1
    decreases |run|
  {
    if run != [] {
      var e := run[0];
      var next := Next(rows, e);
      StepKeepsInv(rows, e, ids, tokens);
      StepKeepsIssued(rows, e, ids, tokens);
      if !e.Claim? && e.id == id && e.token == token && Owns(rows, id, token) {
        assert !Owns(next, id, token);
        SupersededOwnerIsFenced(next, run[1..], ids, tokens, id, token);
      } else {
        OneSettlementPerClaim(next, run[1..], IdsAfter(e, ids), TokensAfter(e, tokens), id, token);
      }
    }
  }

  /** A lost worker never blocks a key: once its lease has passed the same request is granted again. */
  lemma UncompletedReceiptBecomesClaimable(rows: Table, q: ClaimRequest)
    requires Inv(rows) && (q.key in rows ==> rows[q.key].requestHash == q.requestHash)
    ensures IsCompleted(rows, q.key) ==> forall dbNow :: !Grants(rows, q, dbNow)
    ensures !IsCompleted(rows, q.key)
        ==> forall dbNow :: Grants(rows, q, dbNow)
                       <==> (q.key in rows && rows[q.key].status == Processing ==> rows[q.key].leaseExpiresAt.value < dbNow)
  {
  }

  // ---------- what a claim is told ----------

  /** Only a completed receipt has a response and a time of completion. */
  predicate OnlyCompletedRespond(rows: Table) {
    forall k :: k in rows ==>
      (rows[k].response.Some? ==> rows[k].status == Completed) && (rows[k].completedAt.Some? <==> rows[k].status == Completed)
  }

  lemma {:induction false} OnlyCompletedRespondAlways(rows: Table, run: Run)
    requires OnlyCompletedRespond(rows)
    ensures OnlyCompletedRespond(Exec(rows, run))
    decreases |run|
  {
    if run != [] {
      OnlyCompletedRespondAlways(Next(rows, run[0]), run[1..]);
    }
  }

  lemma {:induction false} ReceiptInvHolds(rows: Table, run: Run, ids: set<Uuid>, tokens: set<Uuid>)
    requires Inv(rows) && Issued(rows, ids, tokens) && FreshUuids(run, ids, tokens)
    ensures Inv(Exec(rows, run))
    decreases |run|
  {
    if run != [] {
      StepKeepsInv(rows, run[0], ids, tokens);
      StepKeepsIssued(rows, run[0], ids, tokens);
      ReceiptInvHolds(Next(rows, run[0]), run[1..], IdsAfter(run[0], ids), TokensAfter(run[0], tokens));
    }
  }

  /**
   In every reachable table a request that already has a receipt is told the truth: completed, with the
   response, exactly when it was; processing, with nothing, exactly while it is held under a running lease;
   and otherwise it gets the receipt itself.
   */
  lemma DuplicatesAreToldTheTruth(run: Run, q: ClaimRequest, dbNow: int)
    requires FreshUuids(run, {}, {})
    requires q.key in Exec(map[], run) && Exec(map[], run)[q.key].requestHash == q.requestHash
    ensures var r, answer := Exec(map[], run)[q.key], ClaimAnswer(Exec(map[], run), q, dbNow);
      && (answer == Ok(Duplicate(Completed, r.id, r.response)) <==> r.status == Completed)
      && (answer == Ok(Duplicate(Processing, r.id, None))
          <==> r.status == Processing && r.leaseExpiresAt.Some? && dbNow <= r.leaseExpiresAt.value)
      && (answer == Ok(Acquired(r.id, q.token))
          <==> r.status == Failed || (r.status == Processing && r.leaseExpiresAt.Some? && r.leaseExpiresAt.value < dbNow))
  {
    ReceiptInvHolds(map[], run, {}, {});
    OnlyCompletedRespondAlways(map[], run);
  }

  /** A granted claim holds the receipt under the lease it asked for; a key's first claim gives it its request. */
  lemma GrantGivesTheReceipt(rows: Table, q: ClaimRequest, dbNow: int)
    requires Grants(rows, q, dbNow)
    ensures var granted := Next(rows, Event.Claim(q, dbNow));
      && granted.Keys == rows.Keys + {q.key}
      && granted[q.key] == Receipt(
           if q.key in rows then rows[q.key].id else q.receiptId, q.requestHash, Processing, Some(q.token),
           if q.key in rows then rows[q.key].identity else q.identity, None, Some(q.lease), None)
      && forall k :: k in rows && k != q.key ==> granted[k] == rows[k]
  {
  }

  /** The run claims this key only while the lease lasts. */
  predicate ClaimedBy(run: Run, key: Key, lease: int) {
    forall i :: 0 <= i < |run| && run[i].Claim? && run[i].request.key == key ==> run[i].dbNow <= lease
  }

  predicate Settles(e: Event, id: Uuid, token: Uuid) {
    !e.Claim? && e.id == id && e.token == token
  }

  lemma {:induction false} HeldUntilSettled(rows: Table, run: Run, key: Key)
    requires key in rows && rows[key].status == Processing && rows[key].ownerToken.Some? && rows[key].leaseExpiresAt.Some?
    requires ClaimedBy(run, key, rows[key].leaseExpiresAt.value)
    requires forall i :: 0 <= i < |run| ==> !Settles(run[i], rows[key].id, rows[key].ownerToken.value)
    ensures key in Exec(rows, run) && Exec(rows, run)[key] == rows[key]
    decreases |run|
  {
    if run != [] {
      assert Next(rows, run[0])[key] == rows[key];
      HeldUntilSettled(Next(rows, run[0]), run[1..], key);
    }
  }

  /**
   Until the lease it asked for has passed, a granted claim holds the receipt exactly until its own token
   completes or fails it, and every other claim of the request is told that it is being processed.
   */
  lemma ClaimStandsUntilSettled(rows: Table, q: ClaimRequest, dbNow: int, run: Run, ids: set<Uuid>, tokens: set<Uuid>)
    requires Inv(rows) && Issued(rows, ids, tokens) && Grants(rows, q, dbNow)
    requires FreshUuids([Event.Claim(q, dbNow)] + run, ids, tokens) && ClaimedBy(run, q.key, q.lease)
    ensures var granted := Next(rows, Event.Claim(q, dbNow));
      var id := granted[q.key].id;
      && (Owns(Exec(granted, run), id, q.token) <==> forall i :: 0 <= i < |run| ==> !Settles(run[i], id, q.token))
      && (Owns(Exec(granted, run), id, q.token) ==>
            forall p: ClaimRequest, now :: p.key == q.key && p.requestHash == q.requestHash && now <= q.lease ==>
              ClaimAnswer(Exec(granted, run), p, now) == Ok(Duplicate(Processing, id, None)))
  {
    var claim := Event.Claim(q, dbNow);
    var granted := Next(rows, claim);
    var id := granted[q.key].id;
    GrantGivesTheReceipt(rows, q, dbNow);
    StepKeepsInv(rows, claim, ids, tokens);
    StepKeepsIssued(rows, claim, ids, tokens);
    assert ([claim] + run)[1..] == run;
    if forall i :: 0 <= i < |run| ==> !Settles(run[i], id, q.token) {
      HeldUntilSettled(granted, run, q.key);
    } else {
      SettlementEndsTheClaim(granted, run, ids + {q.receiptId}, tokens + {q.token}, q.key, q.token, q.lease);
    }
  }

  lemma {:induction false} SettlementEndsTheClaim(
      rows: Table, run: Run, ids: set<Uuid>, tokens: set<Uuid>, key: Key, token: Uuid, lease: int)
    requires Inv(rows) && Issued(rows, ids, tokens) && FreshUuids(run, ids, tokens) && token in tokens
    requires key in rows && Owned(rows[key], rows[key].id, token) && rows[key].leaseExpiresAt == Some(lease)
    requires ClaimedBy(run, key, lease) && exists i :: 0 <= i < |run| && Settles(run[i], rows[key].id, token)
    ensures !Owns(Exec(rows, run), rows[key].id, token)
    decreases |run|
  {
    var e, next := run[0], Next(rows, run[0]);
    StepKeepsInv(rows, e, ids, tokens);
    StepKeepsIssued(rows, e, ids, tokens);
    if Settles(e, rows[key].id, token) {
      assert !Owned(next[key], rows[key].id, token);
      SupersededOwnerIsFenced(next, run[1..], IdsAfter(e, ids), TokensAfter(e, tokens), rows[key].id, token);
    } else {
      assert next[key] == rows[key];
      SettlementEndsTheClaim(next, run[1..], IdsAfter(e, ids), TokensAfter(e, tokens), key, token, lease);
    }
  }

  /** What the owner reports with the completion stays on the receipt for ever. */
  lemma CompletionIsRecorded(rows: Table, completing: Event, run: Run, key: Key)
    requires Completes(rows, completing, key)
    ensures var after := Exec(Next(rows, completing), run);
      key in after && after[key] == Receipt(
        rows[key].id, rows[key].requestHash, Completed, None,
        if completing.identity.Some? then completing.identity else rows[key].identity,
        completing.response, None, Some(completing.at))
  {
    CompletedReceiptIsFrozen(Next(rows, completing), run, key);
  }

  /** A failure that its owner reports frees the key at once for the same request, and changes no other receipt. */
  lemma FailureFreesTheKey(rows: Table, failing: Event, q: ClaimRequest, dbNow: int)
    requires Inv(rows) && failing.Fail? && q.key in rows && Owned(rows[q.key], failing.id, failing.token)
    requires rows[q.key].requestHash == q.requestHash
    ensures var after := Next(rows, failing);
      && after.Keys == rows.Keys && after[q.key].status == Failed
      && ClaimAnswer(after, q, dbNow) == Ok(Acquired(rows[q.key].id, q.token))
      && forall k :: k in rows && k != q.key ==> after[k] == rows[k]
  {
    assert forall k :: k in rows && k != q.key ==> rows[k].id != failing.id;
  }

  // ---------- repository and service ----------

  datatype RepositoryClaim = RepositoryClaim(acquired: bool, receipt: Receipt)

  class ReceiptRepository {
    var rows: Table

    method Claim(q: ClaimRequest, dbNow: int) returns (claim: RepositoryClaim)
      modifies this
      ensures rows == Next(old(rows), Event.Claim(q, dbNow))
      ensures q.key in rows && claim.receipt == rows[q.key]
      ensures claim.acquired <==> Grants(old(rows), q, dbNow)
      ensures claim.acquired ==> claim.receipt.status == Processing && claim.receipt.ownerToken == Some(q.token)
    {
      if q.key !in rows {
        rows := rows[q.key := Receipt(q.receiptId, q.requestHash, Processing, Some(q.token), q.identity,
                                      None, Some(q.lease), None)];
        return RepositoryClaim(true, rows[q.key]);
      }
      var existing := rows[q.key];
      if existing.requestHash == q.requestHash && Reclaimable(existing, dbNow) {
        rows := rows[q.key := existing.(status := Processing, ownerToken := Some(q.token),
                                        leaseExpiresAt := Some(q.lease), completedAt := None, response := None)];
        return RepositoryClaim(true, rows[q.key]);
      }
      claim := RepositoryClaim(false, existing);
    }

    method Complete(id: Uuid, token: Uuid, at: int, response: Option<string>, identity: Option<Identity>)
      returns (done: bool)
      requires Inv(rows)
      modifies this
      ensures rows == Next(old(rows), Event.Complete(id, token, at, response, identity))
      ensures done <==> Owns(old(rows), id, token)
    {
      ghost var before := rows;
      if key :| key in rows && Owned(rows[key], id, token) {
        rows := rows[key := rows[key].(status := Completed, ownerToken := None, leaseExpiresAt := None,
                                       completedAt := Some(at), response := response,
                                       identity := if identity.Some? then identity else rows[key].identity)];
        done := true;
      } else {
        done := false;
      }
      assert rows == Next(before, Event.Complete(id, token, at, response, identity));
    }

    method Fail(id: Uuid, token: Uuid) returns (done: bool)
      requires Inv(rows)
      modifies this
      ensures rows == Next(old(rows), Event.Fail(id, token))
      ensures done <==> Owns(old(rows), id, token)
    {
      ghost var before := rows;
      if key :| key in rows && Owned(rows[key], id, token) {
        rows := rows[key := rows[key].(status := Failed, ownerToken := None, leaseExpiresAt := None)];
        done := true;
      } else {
        done := false;
      }
      assert rows == Next(before, Event.Fail(id, token));
    }
  }

  class IdempotencyService {
    const repository: ReceiptRepository

    constructor (repository: ReceiptRepository)
      ensures this.repository == repository
    {
      this.repository := repository;
    }

    /** The transaction: claim, compare hashes, and roll back by restoring the table on conflict. */
    method Claim(q: ClaimRequest, dbNow: int) returns (answer: Result<Claim>)
      modifies repository
      ensures answer == ClaimAnswer(old(repository.rows), q, dbNow)
      ensures repository.rows == Next(old(repository.rows), Event.Claim(q, dbNow))
      ensures answer.Err? <==> q.key in old(repository.rows) && old(repository.rows)[q.key].requestHash != q.requestHash
      ensures answer.Err? ==> repository.rows == old(repository.rows) && answer.error == Conflict
      ensures q.key !in old(repository.rows) ==> answer == Ok(Acquired(q.receiptId, q.token))
      ensures q.key in old(repository.rows) && answer.Ok? ==>
        var r := old(repository.rows)[q.key];
        && (answer == Ok(Duplicate(Completed, r.id, r.response)) <==> r.status == Completed)
        && (answer == Ok(Duplicate(Processing, r.id, r.response))
            <==> r.status == Processing && !(r.leaseExpiresAt.Some? && r.leaseExpiresAt.value < dbNow))
        && (answer == Ok(Acquired(r.id, q.token))
            <==> r.status == Failed || (r.status == Processing && r.leaseExpiresAt.Some? && r.leaseExpiresAt.value < dbNow))
    {
      var snapshot := repository.rows;
      var claim := repository.Claim(q, dbNow);
      if claim.receipt.requestHash != q.requestHash {
        repository.rows := snapshot;
        return Err(Conflict);
      }
      if claim.acquired {
        return Ok(Acquired(claim.receipt.id, q.token));
      }
      answer := Ok(Duplicate(if claim.receipt.status == Completed then Completed else Processing,
                             claim.receipt.id, claim.receipt.response));
    }

    /** Completion of a Telegram update: no response and no identity to store. */
    method CompleteTelegramUpdate(id: Uuid, token: Uuid, at: int) returns (done: bool)
      requires Inv(repository.rows)
      modifies repository
      ensures repository.rows == Next(old(repository.rows), Event.Complete(id, token, at, None, None))
      ensures done <==> Owns(old(repository.rows), id, token)
    {
      done := repository.Complete(id, token, at, None, None);
    }

    method Fail(id: Uuid, token: Uuid) returns (done: bool)
      requires Inv(repository.rows)
      modifies repository
      ensures repository.rows == Next(old(repository.rows), Event.Fail(id, token))
      ensures done <==> Owns(old(repository.rows), id, token)
    {
      done := repository.Fail(id, token);
    }
  }
}
