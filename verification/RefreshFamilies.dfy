/**
 Refresh-token families. Rotating a token takes two transactions: the presented token is
 revoked, and only later is its replacement issued. Between the two the family has no token
 but a rotation in flight, which the safety argument has to count.
 */
module RefreshFamilies {
  import opened Common

  /** SHA-256 of the raw token; raw tokens are fresh secrets, so hashes are never reused. */
  type Hash = nat

  datatype SubjectType = Employee | SuperAdmin

  datatype Session = Session(
    family: Uuid, subjectType: SubjectType, subjectId: Uuid, expiresAt: int, revokedAt: Option<int>)

  type Table = map<Hash, Session>

  /** `inFlight`: tokens whose rotation has begun and whose replacement is not issued yet. */
  datatype World = World(sessions: Table, inFlight: set<Hash>)

  datatype Event =
    | Login(hash: Hash, family: Uuid, subjectType: SubjectType, subjectId: Uuid, expiresAt: int)
    | BeginRotation(hash: Hash, subjectType: SubjectType, now: int)
    | IssueReplacement(rotated: Hash, hash: Hash, expiresAt: int)
    | AbandonRotation(rotated: Hash)
    | RevokeRaw(hash: Hash, now: int)
    | RevokeAll(subjectType: SubjectType, subjectId: Uuid, now: int)

  type Run = seq<Event>

  // ---------- one transaction ----------

  function Revoked(s: Session, now: int): Session {
    if s.revokedAt.None? then s.(revokedAt := Some(now)) else s
  }

  function RevokeFamily(rows: Table, family: Uuid, now: int): Table {
    map h | h in rows :: if rows[h].family == family then Revoked(rows[h], now) else rows[h]
  }

  function RevokeByHash(rows: Table, hash: Hash, now: int): Table {
    map h | h in rows :: if h == hash then Revoked(rows[h], now) else rows[h]
  }

  function RevokeSubject(rows: Table, subjectType: SubjectType, subjectId: Uuid, now: int): Table {
    map h | h in rows ::
      if rows[h].subjectType == subjectType && rows[h].subjectId == subjectId then Revoked(rows[h], now) else rows[h]
  }

  datatype Rotation = Invalid | ReuseDetected | Expired | Rotated(subjectId: Uuid, family: Uuid)

  function RotationOf(rows: Table, hash: Hash, subjectType: SubjectType, now: int): Rotation {
    if hash !in rows || rows[hash].subjectType != subjectType then Invalid
    else if rows[hash].revokedAt.Some? then ReuseDetected
    else if rows[hash].expiresAt <= now then Expired
    else Rotated(rows[hash].subjectId, rows[hash].family)
  }

  function AfterRotation(rows: Table, hash: Hash, subjectType: SubjectType, now: int): Table {
    match RotationOf(rows, hash, subjectType, now)
    case Invalid => rows
    case ReuseDetected => RevokeFamily(rows, rows[hash].family, now)
    case Expired => rows[hash := rows[hash].(revokedAt := Some(now))]
    case Rotated(_, _) => rows[hash := rows[hash].(revokedAt := Some(now))]
  }

  predicate FamilyUsed(w: World, family: Uuid) {
    exists h :: h in w.sessions && w.sessions[h].family == family
  }

  function Next(w: World, e: Event): World {
    match e
    case Login(hash, family, subjectType, subjectId, expiresAt) =>
      if hash in w.sessions || FamilyUsed(w, family) then w
      else w.(sessions := w.sessions[hash := Session(family, subjectType, subjectId, expiresAt, None)])
    case BeginRotation(hash, subjectType, now) =>
      World(AfterRotation(w.sessions, hash, subjectType, now),
            if RotationOf(w.sessions, hash, subjectType, now).Rotated? then w.inFlight + {hash} else w.inFlight)
    case IssueReplacement(rotated, hash, expiresAt) =>
      if rotated !in w.inFlight || rotated !in w.sessions || hash in w.sessions then w
      else World(w.sessions[hash := w.sessions[rotated].(expiresAt := expiresAt, revokedAt := None)],
                 w.inFlight - {rotated})
    case AbandonRotation(rotated) => w.(inFlight := w.inFlight - {rotated})
    case RevokeRaw(hash, now) => w.(sessions := RevokeByHash(w.sessions, hash, now))
    case RevokeAll(subjectType, subjectId, now) =>
      w.(sessions := RevokeSubject(w.sessions, subjectType, subjectId, now))
  }

  function Exec(w: World, run: Run): World
    decreases |run|
  {
    if run == [] then w else Exec(Next(w, run[0]), run[1..])
  }

  // ---------- the family budget ----------

  function Live(w: World, family: Uuid): set<Hash> {
    set h | h in w.sessions && w.sessions[h].family == family && w.sessions[h].revokedAt.None?
  }

  function InFlight(w: World, family: Uuid): set<Hash> {
    set h | h in w.inFlight && h in w.sessions && w.sessions[h].family == family
  }

  /** A token that is alive or about to be replaced by one that is. */
  predicate Charged(w: World, h: Hash) {
    h in w.sessions && (w.sessions[h].revokedAt.None? || h in w.inFlight)
  }

  ghost predicate Inv(w: World) {
    && (forall h :: h in w.inFlight ==> h in w.sessions && w.sessions[h].revokedAt.Some?)
    && (forall g, h :: Charged(w, g) && Charged(w, h) && w.sessions[g].family == w.sessions[h].family ==> g == h)
    && (forall g, h :: g in w.sessions && h in w.sessions && w.sessions[g].family == w.sessions[h].family
          ==> w.sessions[g].subjectType == w.sessions[h].subjectType && w.sessions[g].subjectId == w.sessions[h].subjectId)
  }

  /** Revoking only ever lets go of tokens. */
  lemma RevokingKeepsInv(w: World, rows: Table)
    requires Inv(w) && rows.Keys == w.sessions.Keys
    requires forall h :: h in rows ==> rows[h] == w.sessions[h] || rows[h] == w.sessions[h].(revokedAt := rows[h].revokedAt)
    requires forall h :: h in rows && rows[h].revokedAt.None? ==> w.sessions[h].revokedAt.None?
    ensures Inv(w.(sessions := rows))
  {
    var next := w.(sessions := rows);
    forall h | Charged(next, h) ensures Charged(w, h) && next.sessions[h].family == w.sessions[h].family {
    }
  }

  /** A rotation that succeeds keeps the charge on the token it revokes. */
  lemma RotationKeepsInv(w: World, hash: Hash, subjectType: SubjectType, now: int)
    requires Inv(w)
    ensures Inv(Next(w, BeginRotation(hash, subjectType, now)))
  {
    var next := Next(w, BeginRotation(hash, subjectType, now));
    if RotationOf(w.sessions, hash, subjectType, now).Rotated? {
      forall h | Charged(next, h) ensures Charged(w, h) && next.sessions[h].family == w.sessions[h].family {
      }
    } else {
      RevokingKeepsInv(w, AfterRotation(w.sessions, hash, subjectType, now));
    }
  }

  lemma IssueKeepsInv(w: World, rotated: Hash, hash: Hash, expiresAt: int)
    requires Inv(w) && rotated in w.inFlight && rotated in w.sessions && hash !in w.sessions
    ensures Inv(Next(w, IssueReplacement(rotated, hash, expiresAt)))
  {
    var next := Next(w, IssueReplacement(rotated, hash, expiresAt));
    assert Charged(w, rotated);
    forall h | Charged(next, h)
      ensures h == hash || (h != rotated && Charged(w, h) && next.sessions[h] == w.sessions[h])
    {
    }
    forall h | h in next.sessions
      ensures next.sessions[h] == if h == hash then w.sessions[rotated].(expiresAt := expiresAt, revokedAt := None) else w.sessions[h]
    {
    }
  }

  lemma StepKeepsInv(w: World, e: Event)
    requires Inv(w)
    ensures Inv(Next(w, e))
  {
    match e
    case Login(_, _, _, _, _) =>
    case BeginRotation(hash, subjectType, now) => RotationKeepsInv(w, hash, subjectType, now);
    case IssueReplacement(rotated, hash, expiresAt) =>
      if Next(w, e) != w {
        IssueKeepsInv(w, rotated, hash, expiresAt);
      }
    case AbandonRotation(_) =>
    case RevokeRaw(hash, now) => RevokingKeepsInv(w, RevokeByHash(w.sessions, hash, now));
    case RevokeAll(subjectType, subjectId, now) =>
      RevokingKeepsInv(w, RevokeSubject(w.sessions, subjectType, subjectId, now));
  }

  lemma BudgetOfOne(w: World, family: Uuid)
    requires Inv(w)
    ensures |Live(w, family)| + |InFlight(w, family)| <= 1
  {
    var charged := Live(w, family) + InFlight(w, family);
    assert Live(w, family) !! InFlight(w, family);
    assert |charged| == |Live(w, family)| + |InFlight(w, family)|;
    forall h | h in charged ensures Charged(w, h) { }
    if h :| h in charged {
      assert charged == {h};
    }
  }

  /**
   In every interleaving of logins, rotations, issues and revocations, the live tokens of a
   family and its rotations in flight never exceed one together, and the whole family
   belongs to one subject.
   */
  lemma {:induction false} FamilyBudgetHolds(w: World, run: Run, family: Uuid)
    requires Inv(w)
    ensures Inv(Exec(w, run))
    ensures |Live(Exec(w, run), family)| + |InFlight(Exec(w, run), family)| <= 1
    decreases |run|
  {
    if run == [] {
      BudgetOfOne(w, family);
    } else {
      StepKeepsInv(w, run[0]);
      FamilyBudgetHolds(Next(w, run[0]), run[1..], family);
    }
  }

  // ---------- each token rotates once ----------

  function RotationsOf(w: World, run: Run, hash: Hash): nat
    decreases |run|
  {
    if run == [] then 0
    else (if run[0].BeginRotation? && run[0].hash == hash
             && RotationOf(w.sessions, hash, run[0].subjectType, run[0].now).Rotated? then 1 else 0)
         + RotationsOf(Next(w, run[0]), run[1..], hash)
  }

  predicate IsRevoked(w: World, hash: Hash) {
    hash in w.sessions && w.sessions[hash].revokedAt.Some?
  }

  /** A revoked token stays revoked, keeps its family, and never rotates again. */
  lemma {:induction false} RevokedForEver(w: World, run: Run, hash: Hash)
    requires IsRevoked(w, hash)
    ensures IsRevoked(Exec(w, run), hash) && Exec(w, run).sessions[hash] == w.sessions[hash]
    ensures RotationsOf(w, run, hash) == 0
    decreases |run|
  {
    if run != [] {
      RevokedForEver(Next(w, run[0]), run[1..], hash);
    }
  }

  lemma {:induction false} RotatedAtMostOnce(w: World, run: Run, hash: Hash)
    ensures RotationsOf(w, run, hash) <= 1
    decreases |run|
  {
    if run != [] {
      var next := Next(w, run[0]);
      if IsRevoked(next, hash) {
        RevokedForEver(next, run[1..], hash);
      } else {
        RotatedAtMostOnce(next, run[1..], hash);
      }
    }
  }

  // ---------- what becomes of a token ----------

  /**
   The event revokes a live token: it is presented, or a revoked token of its family is, or it is
   revoked by itself or with its subject.
   */
  predicate Revokes(w: World, e: Event, hash: Hash) {
    && hash in w.sessions && w.sessions[hash].revokedAt.None?
    && match e
       case BeginRotation(h, subjectType, _) =>
         && h in w.sessions && w.sessions[h].subjectType == subjectType
         && (h == hash || (w.sessions[h].revokedAt.Some? && w.sessions[h].family == w.sessions[hash].family))
       case RevokeRaw(h, _) => h == hash
       case RevokeAll(subjectType, subjectId, _) =>
         w.sessions[hash].subjectType == subjectType && w.sessions[hash].subjectId == subjectId
       case _ => false
  }

  function Revocations(w: World, run: Run, hash: Hash): nat
    decreases |run|
  {
    if run == [] then 0
    else (if Revokes(w, run[0], hash) then 1 else 0) + Revocations(Next(w, run[0]), run[1..], hash)
  }

  /** One event writes nothing of a token but its revocation, at the time of the event. */
  lemma StepRevokes(w: World, e: Event, hash: Hash)
    requires hash in w.sessions
    ensures hash in Next(w, e).sessions
    ensures Next(w, e).sessions[hash] == if Revokes(w, e, hash) then w.sessions[hash].(revokedAt := Some(e.now)) else w.sessions[hash]
  {
  }

  /** Over every run a token keeps its family, subject and expiry, and is revoked exactly when one event revoked it. */
  lemma {:induction false} RevokedIffSomeEventRevokes(w: World, run: Run, hash: Hash)
    requires hash in w.sessions
    ensures hash in Exec(w, run).sessions
    ensures var before, after := w.sessions[hash], Exec(w, run).sessions[hash];
      && after == before.(revokedAt := after.revokedAt)
      && Revocations(w, run, hash) == (if after.revokedAt.Some? && before.revokedAt.None? then 1 else 0)
    decreases |run|
  {
    if run != [] {
      hide Next, Revokes;
      var next := Next(w, run[0]);
      StepRevokes(w, run[0], hash);
      assert Revokes(w, run[0], hash) ==> w.sessions[hash].revokedAt.None? by {
        RevokesTheLive(w, run[0], hash);
      }
      RevokedIffSomeEventRevokes(next, run[1..], hash);
      if next.sessions[hash].revokedAt.Some? {
        RevokedForEver(next, run[1..], hash);
      }
    }
  }

  lemma RevokesTheLive(w: World, e: Event, hash: Hash)
    ensures Revokes(w, e, hash) ==> hash in w.sessions && w.sessions[hash].revokedAt.None?
  {
  }

  /** The answer to a token that is presented, from what was issued under it and what happened since. */
  function Presented(issued: Session, revoked: bool, subjectType: SubjectType, now: int): Rotation {
    if issued.subjectType != subjectType then Invalid
    else if revoked then ReuseDetected
    else if now >= issued.expiresAt then Expired
    else Rotated(issued.subjectId, issued.family)
  }

  /**
   The token of a login, after any run: it rotates for its own subject and family until it expires, unless it
   was revoked since; then presenting it is reuse.
   */
  lemma LoginTokenRotatesUntilRevoked(w: World, login: Event, run: Run, subjectType: SubjectType, now: int)
    requires login.Login? && login.hash !in w.sessions && !FamilyUsed(w, login.family)
    ensures var start := Next(w, login);
      RotationOf(Exec(start, run).sessions, login.hash, subjectType, now)
      == Presented(Session(login.family, login.subjectType, login.subjectId, login.expiresAt, None),
                   Revocations(start, run, login.hash) > 0, subjectType, now)
  {
    RevokedIffSomeEventRevokes(Next(w, login), run, login.hash);
  }

  /** The replacement of a rotated token belongs to the same family and subject, with its own expiry. */
  lemma ReplacementRotatesUntilRevoked(w: World, issue: Event, run: Run, subjectType: SubjectType, now: int)
    requires issue.IssueReplacement? && issue.rotated in w.inFlight && issue.rotated in w.sessions && issue.hash !in w.sessions
    ensures var start, rotated := Next(w, issue), w.sessions[issue.rotated];
      && RotationOf(Exec(start, run).sessions, issue.hash, subjectType, now)
         == Presented(Session(rotated.family, rotated.subjectType, rotated.subjectId, issue.expiresAt, None),
                      Revocations(start, run, issue.hash) > 0, subjectType, now)
      && issue.rotated !in start.inFlight
  {
    RevokedIffSomeEventRevokes(Next(w, issue), run, issue.hash);
  }

  /** Presenting a token that nobody was issued, or of another type of subject, changes nothing. */
  lemma InvalidChangesNothing(w: World, hash: Hash, subjectType: SubjectType, now: int)
    ensures RotationOf(w.sessions, hash, subjectType, now) == Invalid
       <==> hash !in w.sessions || w.sessions[hash].subjectType != subjectType
    ensures RotationOf(w.sessions, hash, subjectType, now) == Invalid ==> Next(w, BeginRotation(hash, subjectType, now)) == w
  {
  }

  /** A rotation is in flight from its beginning until its replacement is issued or it is abandoned. */
  lemma InFlightFromBeginToIssue(w: World, e: Event, hash: Hash)
    requires Inv(w)
    ensures hash in Next(w, e).inFlight
       <==> || (e.BeginRotation? && e.hash == hash && hash in w.sessions && w.sessions[hash].subjectType == e.subjectType
                && w.sessions[hash].revokedAt.None? && e.now < w.sessions[hash].expiresAt)
            || (hash in w.inFlight && !(e.AbandonRotation? && e.rotated == hash)
                && !(e.IssueReplacement? && e.rotated == hash && e.hash !in w.sessions))
  {
  }

  // ---------- reuse detection ----------

  predicate Dead(w: World, family: Uuid) {
    FamilyUsed(w, family) && Live(w, family) == {} && InFlight(w, family) == {}
  }

  lemma StepKeepsDead(w: World, e: Event, family: Uuid)
    requires Inv(w) && Dead(w, family)
    ensures Dead(Next(w, e), family)
  {
    var next := Next(w, e);
    var witness_ :| witness_ in w.sessions && w.sessions[witness_].family == family;
    assert witness_ in next.sessions && next.sessions[witness_].family == family;
    forall h
      ensures h !in Live(next, family) && h !in InFlight(next, family)
    {
      assert h !in Live(w, family) && h !in InFlight(w, family);
      assert e.IssueReplacement? ==> e.rotated !in InFlight(w, family);
    }
    assert Live(next, family) == {} && InFlight(next, family) == {};
  }

  lemma {:induction false} DeadForEver(w: World, run: Run, family: Uuid)
    requires Inv(w) && Dead(w, family)
    ensures Dead(Exec(w, run), family)
    decreases |run|
  {
    if run != [] {
      StepKeepsInv(w, run[0]);
      StepKeepsDead(w, run[0], family);
      DeadForEver(Next(w, run[0]), run[1..], family);
    }
  }

  lemma {:induction false} FreshHash(used: set<Hash>) returns (fresh_: Hash)
    ensures forall h :: h in used ==> h < fresh_
    decreases |used|
  {
    if used == {} {
      fresh_ := 0;
    } else {
      var h :| h in used;
      var rest := FreshHash(used - {h});
      fresh_ := if h < rest then rest else h + 1;
      assert used == (used - {h}) + {h};
    }
  }

  predicate Reused(w: World, hash: Hash, subjectType: SubjectType, now: int) {
    RotationOf(w.sessions, hash, subjectType, now).ReuseDetected?
  }

  /**
   Presenting a revoked token kills the family for good exactly when no rotation of it is in
   flight: a rotation that has already begun can still issue its replacement afterwards.
   */
  lemma ReuseKillsForGoodIffNothingInFlight(w: World, hash: Hash, subjectType: SubjectType, now: int)
    requires Inv(w) && Reused(w, hash, subjectType, now)
    ensures var family, after := w.sessions[hash].family, Next(w, BeginRotation(hash, subjectType, now));
      && Live(after, family) == {}
      && ((forall run: Run :: Live(Exec(after, run), family) == {}) <==> InFlight(w, family) == {})
  {
    var e := BeginRotation(hash, subjectType, now);
    var family, after := w.sessions[hash].family, Next(w, e);
    StepKeepsInv(w, e);
    assert Live(after, family) == {};
    forall h ensures h in InFlight(after, family) <==> h in InFlight(w, family) {
      assert h in w.sessions <==> h in after.sessions;
    }
    assert InFlight(after, family) == InFlight(w, family);
    if InFlight(w, family) == {} {
      assert hash in after.sessions;
      forall run: Run ensures Live(Exec(after, run), family) == {} {
        DeadForEver(after, run, family);
      }
    } else {
      var rotated :| rotated in InFlight(after, family);
      var replacement := FreshHash(after.sessions.Keys);
      var issue := IssueReplacement(rotated, replacement, now);
      assert replacement !in after.sessions;
      assert replacement in Live(Next(after, issue), family);
      assert Exec(after, [issue]) == Next(after, issue) by {
        assert [issue][1..] == [];
      }
    }
  }

  const NOBODY := World(map[], {})

  lemma ExecStep(w: World, e: Event, run: Run)
    ensures Exec(w, [e] + run) == Exec(Next(w, e), run)
  {
    assert ([e] + run)[1..] == run;
  }

  /** A login whose rotation has begun: one token, revoked, and nothing issued for it yet. */
  lemma RotationBegun()
    ensures Exec(NOBODY, [Login(0, 7, Employee, 1, 100), BeginRotation(0, Employee, 10)])
         == World(map[0 := Session(7, Employee, 1, 100, Some(10))], {0})
  {
    var login, begin := Login(0, 7, Employee, 1, 100), BeginRotation(0, Employee, 10);
    ExecStep(NOBODY, login, [begin]);
    ExecStep(Next(NOBODY, login), begin, []);
    assert [login, begin] == [login] + [begin];
    assert [begin] == [begin] + [];
  }

  /** Login, begin a rotation, present the same token again: the family is revoked, and then the replacement is issued. */
  lemma ReplacementOutlivesReuse()
    ensures var begun := Exec(NOBODY, [Login(0, 7, Employee, 1, 100), BeginRotation(0, Employee, 10)]);
      var detected := Next(begun, BeginRotation(0, Employee, 11));
      && Reused(begun, 0, Employee, 11)
      && Live(detected, 7) == {}
      && Live(Next(detected, IssueReplacement(0, 1, 200)), 7) == {1}
  {
    RotationBegun();
    var begun := World(map[0 := Session(7, Employee, 1, 100, Some(10))], {0});
    var detected := Next(begun, BeginRotation(0, Employee, 11));
    assert detected.sessions[0].revokedAt == Some(10);
  }

  // ---------- logging out everywhere ----------

  function LiveOf(w: World, subjectType: SubjectType, subjectId: Uuid): set<Hash> {
    set h | h in w.sessions && w.sessions[h].subjectType == subjectType && w.sessions[h].subjectId == subjectId
            && w.sessions[h].revokedAt.None?
  }

  function InFlightOf(w: World, subjectType: SubjectType, subjectId: Uuid): set<Hash> {
    set h | h in w.inFlight && h in w.sessions
            && w.sessions[h].subjectType == subjectType && w.sessions[h].subjectId == subjectId
  }

  /** The run holds no login of the subject. */
  predicate NoLogin(run: Run, subjectType: SubjectType, subjectId: Uuid) {
    forall i :: 0 <= i < |run| ==>
      !(run[i].Login? && run[i].subjectType == subjectType && run[i].subjectId == subjectId)
  }

  predicate LoggedOut(w: World, subjectType: SubjectType, subjectId: Uuid) {
    LiveOf(w, subjectType, subjectId) == {} && InFlightOf(w, subjectType, subjectId) == {}
  }

  lemma StepKeepsLoggedOut(w: World, e: Event, subjectType: SubjectType, subjectId: Uuid)
    requires LoggedOut(w, subjectType, subjectId) && NoLogin([e], subjectType, subjectId)
    ensures LoggedOut(Next(w, e), subjectType, subjectId)
  {
    var next := Next(w, e);
    assert !([e][0].Login? && [e][0].subjectType == subjectType && [e][0].subjectId == subjectId);
    forall h ensures h !in LiveOf(next, subjectType, subjectId) && h !in InFlightOf(next, subjectType, subjectId) {
      assert h !in LiveOf(w, subjectType, subjectId) && h !in InFlightOf(w, subjectType, subjectId);
      assert e.IssueReplacement? ==> e.rotated !in InFlightOf(w, subjectType, subjectId);
    }
  }

  lemma {:induction false} LoggedOutUntilLogin(w: World, run: Run, subjectType: SubjectType, subjectId: Uuid)
    requires LoggedOut(w, subjectType, subjectId) && NoLogin(run, subjectType, subjectId)
    ensures LoggedOut(Exec(w, run), subjectType, subjectId)
    decreases |run|
  {
    hide Next, LoggedOut;
    if run != [] {
      assert [run[0]][0] == run[0];
      StepKeepsLoggedOut(w, run[0], subjectType, subjectId);
      LoggedOutUntilLogin(Next(w, run[0]), run[1..], subjectType, subjectId);
    }
  }

  lemma RevokeAllLeavesRotations(w: World, subjectType: SubjectType, subjectId: Uuid, now: int)
    ensures var after := Next(w, RevokeAll(subjectType, subjectId, now));
      && LiveOf(after, subjectType, subjectId) == {}
      && InFlightOf(after, subjectType, subjectId) == InFlightOf(w, subjectType, subjectId)
      && after.sessions.Keys == w.sessions.Keys
  {
    var after := Next(w, RevokeAll(subjectType, subjectId, now));
    forall h ensures h in InFlightOf(after, subjectType, subjectId) <==> h in InFlightOf(w, subjectType, subjectId) {
      assert h in after.sessions <==> h in w.sessions;
    }
  }

  /**
   After logging out everywhere the subject has no live token until its next login exactly when
   none of its rotations is in flight: one that has begun still issues its replacement.
   */
  lemma LogoutLastsIffNothingInFlight(w: World, subjectType: SubjectType, subjectId: Uuid, now: int)
    ensures var after := Next(w, RevokeAll(subjectType, subjectId, now));
      && LiveOf(after, subjectType, subjectId) == {}
      && ((forall run: Run :: NoLogin(run, subjectType, subjectId) ==> LiveOf(Exec(after, run), subjectType, subjectId) == {})
          <==> InFlightOf(w, subjectType, subjectId) == {})
  {
    var after := Next(w, RevokeAll(subjectType, subjectId, now));
    RevokeAllLeavesRotations(w, subjectType, subjectId, now);
    if InFlightOf(w, subjectType, subjectId) == {} {
      forall run: Run | NoLogin(run, subjectType, subjectId) ensures LiveOf(Exec(after, run), subjectType, subjectId) == {} {
        LoggedOutUntilLogin(after, run, subjectType, subjectId);
      }
    } else {
      var rotated :| rotated in InFlightOf(after, subjectType, subjectId);
      var replacement := FreshHash(after.sessions.Keys);
      var issue := IssueReplacement(rotated, replacement, now);
      assert replacement !in after.sessions;
      assert replacement in LiveOf(Next(after, issue), subjectType, subjectId);
      assert Exec(after, [issue]) == Next(after, issue) by {
        assert [issue][1..] == [];
      }
      assert NoLogin([issue], subjectType, subjectId);
    }
  }

  /** Login, begin a rotation, log out everywhere: the replacement is still issued and is live. */
  lemma ReplacementOutlivesLogout()
    ensures var begun := Exec(NOBODY, [Login(0, 7, Employee, 1, 100), BeginRotation(0, Employee, 10)]);
      var out := Next(begun, RevokeAll(Employee, 1, 11));
      && LiveOf(out, Employee, 1) == {}
      && LiveOf(Next(out, IssueReplacement(0, 1, 200)), Employee, 1) == {1}
  {
    RotationBegun();
    var begun := World(map[0 := Session(7, Employee, 1, 100, Some(10))], {0});
    var out := Next(begun, RevokeAll(Employee, 1, 11));
    assert out.sessions[0] == begun.sessions[0];
  }

  // ---------- repository and service ----------

  class RefreshSessionRepository {
    var rows: Table

    method RevokeFamilyRows(family: Uuid, now: int) returns (count: nat)
      modifies this
      ensures rows == RevokeFamily(old(rows), family, now)
      ensures count == |set h | h in old(rows) && old(rows)[h].family == family && old(rows)[h].revokedAt.None?|
    {
      var hit := set h | h in rows && rows[h].family == family && rows[h].revokedAt.None?;
      count := |hit|;
      rows := map h | h in rows :: if h in hit then rows[h].(revokedAt := Some(now)) else rows[h];
    }

    method RevokeRow(hash: Hash, now: int) returns (count: nat)
      modifies this
      ensures rows == RevokeByHash(old(rows), hash, now)
      ensures count == if hash in old(rows) && old(rows)[hash].revokedAt.None? then 1 else 0
    {
      count := 0;
      if hash in rows && rows[hash].revokedAt.None? {
        rows := rows[hash := rows[hash].(revokedAt := Some(now))];
        count := 1;
      }
    }

    method RevokeSubjectRows(subjectType: SubjectType, subjectId: Uuid, now: int) returns (count: nat)
      modifies this
      ensures rows == RevokeSubject(old(rows), subjectType, subjectId, now)
      ensures count == |set h | h in old(rows) && old(rows)[h].subjectType == subjectType
                                && old(rows)[h].subjectId == subjectId && old(rows)[h].revokedAt.None?|
    {
      var hit := set h | h in rows && rows[h].subjectType == subjectType && rows[h].subjectId == subjectId
                                   && rows[h].revokedAt.None?;
      count := |hit|;
      rows := map h | h in rows :: if h in hit then rows[h].(revokedAt := Some(now)) else rows[h];
    }
  }

  class RefreshSessionService {
    const repository: RefreshSessionRepository
    var inFlight: set<Hash>

    constructor (repository: RefreshSessionRepository)
      ensures this.repository == repository && inFlight == {}
    {
      this.repository := repository;
      inFlight := {};
    }

    function State(): World
      reads this, repository
    {
      World(repository.rows, inFlight)
    }

    method Login(hash: Hash, family: Uuid, subjectType: SubjectType, subjectId: Uuid, expiresAt: int)
      requires hash !in repository.rows && !FamilyUsed(State(), family)
      modifies repository
      ensures State() == Next(old(State()), Event.Login(hash, family, subjectType, subjectId, expiresAt))
    {
      repository.rows := repository.rows[hash := Session(family, subjectType, subjectId, expiresAt, None)];
    }

    method BeginRotation(hash: Hash, subjectType: SubjectType, now: int) returns (outcome: Rotation)
      modifies this, repository
      ensures outcome == RotationOf(old(repository.rows), hash, subjectType, now)
      ensures outcome.Invalid? <==> hash !in old(repository.rows) || old(repository.rows)[hash].subjectType != subjectType
      ensures !outcome.Invalid? ==>
        var s := old(repository.rows)[hash];
        && (outcome.ReuseDetected? <==> s.revokedAt.Some?)
        && (outcome.Expired? <==> s.revokedAt.None? && now >= s.expiresAt)
        && (outcome == Rotated(s.subjectId, s.family) <==> s.revokedAt.None? && now < s.expiresAt)
      ensures State() == Next(old(State()), Event.BeginRotation(hash, subjectType, now))
    {
      if hash !in repository.rows || repository.rows[hash].subjectType != subjectType {
        return Invalid;
      }
      var existing := repository.rows[hash];
      if existing.revokedAt.Some? {
        var _ := repository.RevokeFamilyRows(existing.family, now);
        return ReuseDetected;
      }
      if existing.expiresAt <= now {
        repository.rows := repository.rows[hash := existing.(revokedAt := Some(now))];
        return Expired;
      }
      repository.rows := repository.rows[hash := existing.(revokedAt := Some(now))];
      inFlight := inFlight + {hash};
      outcome := Rotated(existing.subjectId, existing.family);
    }

    method IssueReplacement(rotated: Hash, hash: Hash, expiresAt: int)
      requires rotated in inFlight && rotated in repository.rows && hash !in repository.rows
      modifies this, repository
      ensures State() == Next(old(State()), Event.IssueReplacement(rotated, hash, expiresAt))
      ensures hash in repository.rows && repository.rows[hash].family == old(repository.rows)[rotated].family
      ensures repository.rows[hash].expiresAt == expiresAt && repository.rows[hash].revokedAt.None?
    {
      var session := repository.rows[rotated];
      repository.rows := repository.rows[
        hash := Session(session.family, session.subjectType, session.subjectId, expiresAt, None)];
      inFlight := inFlight - {rotated};
    }

    method RevokeRaw(hash: Option<Hash>, now: int)
      modifies repository
      ensures hash.None? ==> State() == old(State())
      ensures hash.Some? ==> State() == Next(old(State()), Event.RevokeRaw(hash.value, now))
    {
      if hash.Some? {
        var _ := repository.RevokeRow(hash.value, now);
      }
    }

    method RevokeAllForSubject(subjectType: SubjectType, subjectId: Uuid, now: int) returns (count: nat)
      modifies repository
      ensures State() == Next(old(State()), RevokeAll(subjectType, subjectId, now))
      ensures count == |LiveOf(old(State()), subjectType, subjectId)|
    {
      ghost var live := LiveOf(State(), subjectType, subjectId);
      assert live == set h | h in repository.rows && repository.rows[h].subjectType == subjectType
                              && repository.rows[h].subjectId == subjectId && repository.rows[h].revokedAt.None?;
      count := repository.RevokeSubjectRows(subjectType, subjectId, now);
    }
  }
}
