/**
 The indexing claim on a knowledge article version: a lease fenced by owner token and by time.

 A worker claims a version, renews while it embeds, and finalises under the same claim; when
 it fails it restores the status it found, which it remembers from the moment of its claim.
 Statements are stamped with the start of their transaction, so stamps may come out of order when
 transactions overlap. Fencing by token does not depend on that; losing a claim to time does.
 */
module IndexingLease {
  import opened Common

  datatype IndexStatus = Pending | Indexing | Indexed | Failed

  datatype Version = Version(status: IndexStatus, owner: Option<Uuid>, leaseExpiresAt: Option<int>)

  /** `memory` maps an owner token to what its worker saw: was an index already active? */
  datatype World = World(versions: map<Uuid, Version>, memory: map<Uuid, bool>)

  datatype Event =
    | Claim(id: Uuid, token: Uuid, now: int, seconds: int)
    | Renew(id: Uuid, token: Uuid, now: int, seconds: int)
    | Finalize(id: Uuid, token: Uuid, now: int)
    | RecordFailure(id: Uuid, token: Uuid, now: int)

  type Run = seq<Event>

  // ---------- one statement ----------

  predicate Claimable(v: Version, now: int) {
    v.owner.None? || (v.leaseExpiresAt.Some? && v.leaseExpiresAt.value <= now)
  }

  /** The claim is live: its owner may renew it and may lock the row to finalise. */
  predicate Holds(v: Version, token: Uuid, now: int) {
    v.owner == Some(token) && v.leaseExpiresAt.Some? && v.leaseExpiresAt.value > now
  }

  predicate Succeeds(w: World, e: Event) {
    && e.id in w.versions
    && match e
       case Claim(id, _, now, _) => Claimable(w.versions[id], now)
       case Renew(id, token, now, _) => Holds(w.versions[id], token, now)
       case Finalize(id, token, now) => Holds(w.versions[id], token, now)
       case RecordFailure(id, token, _) => w.versions[id].owner == Some(token) && token in w.memory
  }

  function Next(w: World, e: Event): World {
    if !Succeeds(w, e) then w
    else
      var v := w.versions[e.id];
      match e
      case Claim(id, token, now, seconds) =>
        var status := if v.status == Indexed then Indexed else Indexing;
        World(w.versions[id := Version(status, Some(token), Some(now + seconds))], w.memory[token := status == Indexed])
      case Renew(id, _, now, seconds) =>
        w.(versions := w.versions[id := v.(leaseExpiresAt := Some(now + seconds))])
      case Finalize(id, _, _) =>
        w.(versions := w.versions[id := Version(Indexed, None, None)])
      case RecordFailure(id, token, _) =>
        w.(versions := w.versions[id := Version(if w.memory[token] then Indexed else Failed, None, None)])
  }

  function Exec(w: World, run: Run): World
    decreases |run|
  {
    if run == [] then w else Exec(Next(w, run[0]), run[1..])
  }

  // ---------- environment: fresh tokens; stamps in order, where a lemma asks for them ----------

  predicate FreshTokens(run: Run, issued: set<Uuid>)
    decreases |run|
  {
    run == []
    || (if run[0].Claim?
        then run[0].token !in issued && FreshTokens(run[1..], issued + {run[0].token})
        else FreshTokens(run[1..], issued))
  }

  predicate ClockFrom(run: Run, now: int)
    decreases |run|
  {
    run == [] || (now <= run[0].now && ClockFrom(run[1..], run[0].now))
  }

  function ClockAfter(run: Run, now: int): int {
    if run == [] then now else run[|run| - 1].now
  }

  function IssuedAfter(e: Event, issued: set<Uuid>): set<Uuid> {
    if e.Claim? then issued + {e.token} else issued
  }

  // ---------- invariant ----------

  predicate VersionInv(v: Version, memory: map<Uuid, bool>) {
    && (v.owner.Some? <==> v.leaseExpiresAt.Some?)
    && (v.status == Indexing ==> v.owner.Some?)
    && (v.owner.Some? ==> v.owner.value in memory && (memory[v.owner.value] <==> v.status == Indexed))
  }

  /** An owner's memory of its version is right, and every remembered token was issued. */
  predicate Inv(w: World, issued: set<Uuid>) {
    && w.memory.Keys <= issued
    && forall id :: id in w.versions ==> VersionInv(w.versions[id], w.memory)
  }

  lemma StepKeepsInv(w: World, e: Event, issued: set<Uuid>)
    requires Inv(w, issued) && (e.Claim? ==> e.token !in issued)
    ensures Inv(Next(w, e), IssuedAfter(e, issued))
    ensures Next(w, e).versions.Keys == w.versions.Keys
  {
  }

  // ---------- mutual exclusion ----------

  /** A claim is granted exactly when no token at all holds the version at that instant. */
  lemma GrantedIffNobodyHolds(w: World, issued: set<Uuid>, id: Uuid, now: int)
    requires Inv(w, issued) && id in w.versions
    ensures Claimable(w.versions[id], now) <==> forall token :: !Holds(w.versions[id], token, now)
    ensures forall t, u :: Holds(w.versions[id], t, now) && Holds(w.versions[id], u, now) ==> t == u
  {
    var v := w.versions[id];
    assert VersionInv(v, w.memory);
    if v.owner.Some? && v.leaseExpiresAt.value > now {
      assert Holds(v, v.owner.value, now);
    }
  }

  /** Renewals and finalisations of version `id` by `token` that succeed during the run. */
  function HolderActions(w: World, run: Run, id: Uuid, token: Uuid): nat
    decreases |run|
  {
    if run == [] then 0
    else (if (run[0].Renew? || run[0].Finalize?) && run[0].id == id && run[0].token == token && Succeeds(w, run[0])
          then 1 else 0)
         + HolderActions(Next(w, run[0]), run[1..], id, token)
  }

  /** A token that no longer owns the version never gets it back, whatever the stamps say. */
  lemma {:induction false} DisownedForEver(w: World, run: Run, issued: set<Uuid>, id: Uuid, token: Uuid)
    requires FreshTokens(run, issued) && token in issued
    requires id in w.versions && w.versions[id].owner != Some(token)
    ensures id in Exec(w, run).versions && Exec(w, run).versions[id].owner != Some(token)
    ensures HolderActions(w, run, id, token) == 0
    decreases |run|
  {
    if run != [] {
      DisownedForEver(Next(w, run[0]), run[1..], IssuedAfter(run[0], issued), id, token);
    }
  }

  /**
   A renewal or finalisation by `token`, stamped before the end of its lease, comes before the
   token gives the version up and before a claim stamped at the end of the lease or later.
   */
  predicate ActsInTime(run: Run, id: Uuid, token: Uuid, lease: int)
    decreases |run|
  {
    if run == [] then false
    else match run[0]
      case Claim(v, _, now, _) => (v != id || now < lease) && ActsInTime(run[1..], id, token, lease)
      case Renew(v, t, now, _) => (v == id && t == token && now < lease) || ActsInTime(run[1..], id, token, lease)
      case Finalize(v, t, now) => (v == id && t == token && now < lease) || ActsInTime(run[1..], id, token, lease)
      case RecordFailure(v, t, _) => !(v == id && t == token) && ActsInTime(run[1..], id, token, lease)
  }

  /**
   Whatever the stamps, a claim is never used again exactly when it is no longer owned, or its owner
   does not act in time; and then it is given up or left as it is, its lease not renewed.
   */
  lemma {:induction false} ClaimIsLostIffNotUsedInTime(w: World, run: Run, issued: set<Uuid>, id: Uuid, token: Uuid)
    requires Inv(w, issued) && FreshTokens(run, issued) && token in issued && id in w.versions
    ensures HolderActions(w, run, id, token) == 0
       <==> w.versions[id].owner != Some(token) || !ActsInTime(run, id, token, w.versions[id].leaseExpiresAt.value)
    ensures id in Exec(w, run).versions
    ensures HolderActions(w, run, id, token) == 0 ==>
      Exec(w, run).versions[id].owner != Some(token) || Exec(w, run).versions[id] == w.versions[id]
    decreases |run|
  {
    if w.versions[id].owner != Some(token) {
      DisownedForEver(w, run, issued, id, token);
    } else if run != [] {
      var e, next := run[0], Next(w, run[0]);
      StepKeepsInv(w, e, issued);
      if next.versions[id].owner != Some(token) {
        DisownedForEver(next, run[1..], IssuedAfter(e, issued), id, token);
      } else {
        ClaimIsLostIffNotUsedInTime(next, run[1..], IssuedAfter(e, issued), id, token);
      }
    }
  }

  /** With stamps in order, an action after the end of the lease is never in time. */
  lemma {:induction false} OrderedStampsComeTooLate(run: Run, id: Uuid, token: Uuid, lease: int, now: int)
    requires ClockFrom(run, now) && lease <= now
    ensures !ActsInTime(run, id, token, lease)
    decreases |run|
  {
    if run != [] {
      OrderedStampsComeTooLate(run[1..], id, token, lease, run[0].now);
    }
  }

  /**
   When stamps come in order, a claim that is lost is lost for ever, whether another worker took
   it, its owner gave it up, or its lease merely ran out while nobody else was interested.
   */
  lemma {:induction false} LostClaimNeverReturns(w: World, run: Run, issued: set<Uuid>, id: Uuid, token: Uuid, now: int)
    requires FreshTokens(run, issued) && ClockFrom(run, now)
    requires token in issued && id in w.versions && !Holds(w.versions[id], token, now)
    ensures id in Exec(w, run).versions
    ensures forall later :: later >= ClockAfter(run, now) ==> !Holds(Exec(w, run).versions[id], token, later)
    ensures HolderActions(w, run, id, token) == 0
    decreases |run|
  {
    if run != [] {
      var e := run[0];
      assert !Holds(w.versions[id], token, e.now);
      LostClaimNeverReturns(Next(w, e), run[1..], IssuedAfter(e, issued), id, token, e.now);
    }
  }

  /** After a granted claim every other issued token is shut out for ever, at every instant. */
  lemma NewClaimShutsOutOldTokens(w: World, claim: Event, run: Run, issued: set<Uuid>, old_: Uuid)
    requires claim.Claim? && Succeeds(w, claim) && old_ in issued
    requires FreshTokens([claim] + run, issued)
    ensures HolderActions(Next(w, claim), run, claim.id, old_) == 0
    ensures claim.id in Exec(Next(w, claim), run).versions
    ensures forall now :: !Holds(Exec(Next(w, claim), run).versions[claim.id], old_, now)
  {
    assert ([claim] + run)[1..] == run;
    DisownedForEver(Next(w, claim), run, issued + {claim.token}, claim.id, old_);
  }

  // ---------- how long a claim lasts ----------

  predicate UsedBy(e: Event, id: Uuid, token: Uuid) {
    !e.Claim? && e.id == id && e.token == token
  }

  /** A granted claim is held by its token exactly until the seconds it asked for have passed, and is then free again. */
  lemma ClaimLastsForItsLease(w: World, claim: Event)
    requires claim.Claim? && Succeeds(w, claim)
    ensures var v := Next(w, claim).versions[claim.id];
      && v.status == (if w.versions[claim.id].status == Indexed then Indexed else Indexing)
      && (forall t, at :: Holds(v, t, at) <==> t == claim.token && at < claim.now + claim.seconds)
      && (forall at :: Claimable(v, at) <==> at >= claim.now + claim.seconds)
  {
  }

  /** A renewal moves the end of the claim to the seconds it asked for, and changes nothing else. */
  lemma RenewalLastsForItsLease(w: World, renewal: Event)
    requires renewal.Renew? && renewal.id in w.versions && Holds(w.versions[renewal.id], renewal.token, renewal.now)
    ensures var before, v := w.versions[renewal.id], Next(w, renewal).versions[renewal.id];
      && v.status == before.status
      && (forall t, at :: Holds(v, t, at) <==> t == renewal.token && at < renewal.now + renewal.seconds)
      && (forall at :: Claimable(v, at) <==> at >= renewal.now + renewal.seconds)
  {
  }

  /** Until its lease ends a version changes only by its own token. */
  lemma {:induction false} HeldUntilUsed(w: World, run: Run, id: Uuid, token: Uuid, lease: int)
    requires id in w.versions && w.versions[id].owner == Some(token) && w.versions[id].leaseExpiresAt == Some(lease)
    requires forall i :: 0 <= i < |run| && run[i].Claim? && run[i].id == id ==> run[i].now < lease
    requires forall i :: 0 <= i < |run| ==> !UsedBy(run[i], id, token)
    ensures id in Exec(w, run).versions && Exec(w, run).versions[id] == w.versions[id]
    decreases |run|
  {
    if run != [] {
      var e, next := run[0], Next(w, run[0]);
      assert !UsedBy(e, id, token) && (e.Claim? && e.id == id ==> !Succeeds(w, e));
      assert next.versions[id] == w.versions[id];
      HeldUntilUsed(next, run[1..], id, token, lease);
    }
  }

  /** While every other claim is stamped before its end, a granted claim stands until its own token acts. */
  lemma ClaimStandsUntilUsed(w: World, claim: Event, run: Run)
    requires claim.Claim? && Succeeds(w, claim)
    requires forall i :: 0 <= i < |run| && run[i].Claim? && run[i].id == claim.id ==> run[i].now < claim.now + claim.seconds
    requires forall i :: 0 <= i < |run| ==> !UsedBy(run[i], claim.id, claim.token)
    ensures var after := Exec(Next(w, claim), run);
      claim.id in after.versions
      && forall at :: Holds(after.versions[claim.id], claim.token, at) <==> at < claim.now + claim.seconds
  {
    HeldUntilUsed(Next(w, claim), run, claim.id, claim.token, claim.now + claim.seconds);
  }

  // ---------- how a claim ends ----------

  /** Finalising publishes the index and frees the version. */
  lemma FinalizePublishes(w: World, e: Event)
    requires e.Finalize? && e.id in w.versions && Holds(w.versions[e.id], e.token, e.now)
    ensures Next(w, e).versions[e.id] == Version(Indexed, None, None)
    ensures Next(w, e).memory == w.memory && forall id :: id in w.versions && id != e.id ==> Next(w, e).versions[id] == w.versions[id]
  {
  }

  /** A failure frees the version; an index that was active stays active, anything else has failed. */
  lemma FailureRestores(w: World, e: Event, issued: set<Uuid>)
    requires Inv(w, issued) && e.RecordFailure? && e.id in w.versions && w.versions[e.id].owner == Some(e.token)
    ensures Next(w, e).versions[e.id] == Version(if w.versions[e.id].status == Indexed then Indexed else Failed, None, None)
    ensures Next(w, e).memory == w.memory && forall id :: id in w.versions && id != e.id ==> Next(w, e).versions[id] == w.versions[id]
  {
  }

  function Finalizations(w: World, run: Run, id: Uuid): nat
    decreases |run|
  {
    if run == [] then 0
    else (if run[0].Finalize? && run[0].id == id && id in w.versions && Holds(w.versions[id], run[0].token, run[0].now)
          then 1 else 0)
         + Finalizations(Next(w, run[0]), run[1..], id)
  }

  /** A version is indexed exactly when it was before or some live claim finalised it: nothing else makes an index active. */
  lemma {:induction false} IndexedIffFinalized(w: World, run: Run, issued: set<Uuid>, id: Uuid)
    requires Inv(w, issued) && FreshTokens(run, issued) && id in w.versions
    ensures id in Exec(w, run).versions
    ensures Exec(w, run).versions[id].status == Indexed
       <==> w.versions[id].status == Indexed || Finalizations(w, run, id) > 0
    decreases |run|
  {
    if run != [] {
      var e, next := run[0], Next(w, run[0]);
      StepKeepsInv(w, e, issued);
      assert VersionInv(w.versions[id], w.memory);
      IndexedIffFinalized(next, run[1..], IssuedAfter(e, issued), id);
    }
  }

  const PENDING := World(map[0 := Version(Pending, None, None)], map[])

  /** Stamps out of order bring a claim back that time had already ended. */
  lemma EarlierStampRenewsALapsedLease()
    ensures Inv(PENDING, {}) && FreshTokens([Claim(0, 1, 0, 10), Renew(0, 1, 9, 10)], {})
    ensures var w := Next(PENDING, Claim(0, 1, 0, 10));
      !Holds(w.versions[0], 1, 12) && Succeeds(w, Renew(0, 1, 9, 10)) && Holds(Next(w, Renew(0, 1, 9, 10)).versions[0], 1, 12)
  {
    assert [Claim(0, 1, 0, 10), Renew(0, 1, 9, 10)][1..] == [Renew(0, 1, 9, 10)];
  }

  // ---------- an index, once built, stays ----------

  /** No claim, renewal, failure or takeover ever takes an indexed version out of `indexed`. */
  lemma {:induction false} IndexedForEver(w: World, run: Run, issued: set<Uuid>, id: Uuid)
    requires Inv(w, issued) && FreshTokens(run, issued)
    requires id in w.versions && w.versions[id].status == Indexed
    ensures id in Exec(w, run).versions && Exec(w, run).versions[id].status == Indexed
    decreases |run|
  {
    if run != [] {
      StepKeepsInv(w, run[0], issued);
      IndexedForEver(Next(w, run[0]), run[1..], IssuedAfter(run[0], issued), id);
    }
  }

  /** A version reads `indexing` only while some worker still has it on its hands. */
  lemma {:induction false} InvHolds(w: World, run: Run, issued: set<Uuid>)
    requires Inv(w, issued) && FreshTokens(run, issued)
    ensures forall id :: id in Exec(w, run).versions && Exec(w, run).versions[id].status == Indexing
              ==> Exec(w, run).versions[id].owner.Some? && Exec(w, run).versions[id].leaseExpiresAt.Some?
    decreases |run|
  {
    if run != [] {
      StepKeepsInv(w, run[0], issued);
      InvHolds(Next(w, run[0]), run[1..], IssuedAfter(run[0], issued));
    }
  }

  // ---------- repository and indexer ----------

  class VersionRepository {
    var versions: map<Uuid, Version>

    method ClaimIndexing(id: Uuid, token: Uuid, now: int, seconds: int) returns (claimed: Option<Version>)
      modifies this
      ensures claimed.Some? <==> id in old(versions) && Claimable(old(versions)[id], now)
      ensures claimed.Some? ==> claimed.value.owner == Some(token) && claimed.value.leaseExpiresAt == Some(now + seconds)
      ensures claimed.Some? ==> (claimed.value.status == Indexed <==> old(versions)[id].status == Indexed)
      ensures claimed.Some? ==> claimed.value.status in {Indexed, Indexing}
      ensures versions == if claimed.Some? then old(versions)[id := claimed.value] else old(versions)
    {
      if id in versions && Claimable(versions[id], now) {
        var status := if versions[id].status == Indexed then Indexed else Indexing;
        versions := versions[id := Version(status, Some(token), Some(now + seconds))];
        return Some(versions[id]);
      }
      return None;
    }

    method RenewIndexingLease(id: Uuid, token: Uuid, now: int, seconds: int) returns (renewed: bool)
      modifies this
      ensures renewed <==> id in old(versions) && Holds(old(versions)[id], token, now)
      ensures versions == if renewed
                          then old(versions)[id := old(versions)[id].(leaseExpiresAt := Some(now + seconds))]
                          else old(versions)
    {
      renewed := id in versions && Holds(versions[id], token, now);
      if renewed {
        versions := versions[id := versions[id].(leaseExpiresAt := Some(now + seconds))];
      }
    }

    method GetClaimForUpdate(id: Uuid, token: Uuid, now: int) returns (row: Option<Version>)
      ensures row == if id in versions && Holds(versions[id], token, now) then Some(versions[id]) else None
    {
      if id in versions && Holds(versions[id], token, now) {
        row := Some(versions[id]);
      } else {
        row := None;
      }
    }
  }

  /** All workers together: the shared repository and each worker's own memory of its claim. */
  class Indexer {
    const repository: VersionRepository
    var hadActiveIndex: map<Uuid, bool>

    constructor (repository: VersionRepository)
      ensures this.repository == repository && hadActiveIndex == map[]
    {
      this.repository := repository;
      hadActiveIndex := map[];
    }

    function State(): World
      reads this, repository
    {
      World(repository.versions, hadActiveIndex)
    }

    method Claim(id: Uuid, token: Uuid, now: int, seconds: int) returns (done: bool)
      modifies this, repository
      ensures done <==> Succeeds(old(State()), Event.Claim(id, token, now, seconds))
      ensures State() == Next(old(State()), Event.Claim(id, token, now, seconds))
    {
      var claimed := repository.ClaimIndexing(id, token, now, seconds);
      done := claimed.Some?;
      if done {
        hadActiveIndex := hadActiveIndex[token := claimed.value.status == Indexed];
      }
    }

    method Renew(id: Uuid, token: Uuid, now: int, seconds: int) returns (done: bool)
      modifies repository
      ensures done <==> Succeeds(old(State()), Event.Renew(id, token, now, seconds))
      ensures State() == Next(old(State()), Event.Renew(id, token, now, seconds))
    {
      done := repository.RenewIndexingLease(id, token, now, seconds);
    }

    method Finalize(id: Uuid, token: Uuid, now: int) returns (done: bool)
      modifies repository
      ensures done <==> Succeeds(old(State()), Event.Finalize(id, token, now))
      ensures done ==> repository.versions == old(repository.versions)[id := Version(Indexed, None, None)]
      ensures State() == Next(old(State()), Event.Finalize(id, token, now))
    {
      var row := repository.GetClaimForUpdate(id, token, now);
      done := row.Some?;
      if done {
        repository.versions := repository.versions[id := Version(Indexed, None, None)];
      }
    }

    method RecordFailure(id: Uuid, token: Uuid, now: int) returns (done: bool)
      requires token in hadActiveIndex
      modifies repository
      ensures done <==> Succeeds(old(State()), Event.RecordFailure(id, token, now))
      ensures done ==> id in repository.versions
      ensures done ==> repository.versions[id] == Version(if hadActiveIndex[token] then Indexed else Failed, None, None)
      ensures State() == Next(old(State()), Event.RecordFailure(id, token, now))
    {
      done := id in repository.versions && repository.versions[id].owner == Some(token);
      if done {
        var status := if hadActiveIndex[token] then Indexed else Failed;
        repository.versions := repository.versions[id := Version(status, None, None)];
      }
    }
  }
}
