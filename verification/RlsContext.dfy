/**
 The row-level-security context of a Unit of Work. A mode and its pins live in the object; the
 database sees only ten transaction-local settings, which are lost at every commit and rollback
 and written again from mode and pins. Policies read the settings.
 */
module RlsContext {
  import opened Common
  import opened Text

  datatype Mode = NoMode | Tenant | Platform | AuthBootstrap | SessionBootstrap

  datatype Setting =
    | COMPANY_ID | EMPLOYEE_ID | PLATFORM_ADMIN | AUTH_MODE | SESSION_MODE
    | AUTH_EMPLOYEE_ID | AUTH_TELEGRAM_USER_ID | AUTH_INVITE_TOKEN_HASH | AUTH_SUPER_ADMIN_ID | AUTH_SUPER_ADMIN_EMAIL

  /** The text of a setting, kept apart by what it was printed from. */
  datatype Value = Blank | On | Bootstrap | Id(id: Uuid) | Number(n: int) | Word(s: string)

  type Settings = map<Setting, Value>

  datatype AuthPins = AuthPins(
    employee: Option<Uuid>, telegramUser: Option<int>, inviteHash: Option<string>,
    superAdmin: Option<Uuid>, superAdminEmail: Option<string>)

  const NO_PINS := AuthPins(None, None, None, None, None)

  datatype Session = Session(
    mode: Mode, company: Option<Uuid>, employee: Option<Uuid>, auth: AuthPins, settings: Settings)

  const CLOSED := Session(NoMode, None, None, NO_PINS, map[])

  /** What a caller entered last: the reference the settings are compared with. */
  datatype Context =
    | NoContext
    | InTenant(company: Uuid, employee: Option<Uuid>)
    | OnPlatform
    | InAuthBootstrap(pins: AuthPins)
    | InSessionBootstrap

  /** `lower` is Python's `str.lower`; `people` are the employees the lookup can find, with their companies. */
  datatype Event =
    | EnterTenant(company: Uuid)
    | EnterEmployee(employee: Uuid, people: map<Uuid, Uuid>)
    | EnterPlatform
    | EnterAuthBootstrap(pins: AuthPins, lower: string -> string)
    | EnterSessionBootstrap
    | Commit
    | Rollback
    | Close

  type Run = seq<Event>

  // ---------- entering ----------

  function IdOrBlank(id: Option<Uuid>): Value {
    if id.Some? then Id(id.value) else Blank
  }

  function WordOrBlank(word: Option<string>): Value {
    if word.Some? && word.value != "" then Word(word.value) else Blank
  }

  /** What `_apply_rls_gucs` writes to a setting. */
  function ValueOf(s: Session, key: Setting): Value {
    match key
    case COMPANY_ID => IdOrBlank(s.company)
    case EMPLOYEE_ID => IdOrBlank(s.employee)
    case PLATFORM_ADMIN => if s.mode == Platform then On else Blank
    case AUTH_MODE => if s.mode == AuthBootstrap then Bootstrap else Blank
    case SESSION_MODE => if s.mode == SessionBootstrap then Bootstrap else Blank
    case AUTH_EMPLOYEE_ID => IdOrBlank(s.auth.employee)
    case AUTH_TELEGRAM_USER_ID => if s.auth.telegramUser.Some? then Number(s.auth.telegramUser.value) else Blank
    case AUTH_INVITE_TOKEN_HASH => WordOrBlank(s.auth.inviteHash)
    case AUTH_SUPER_ADMIN_ID => IdOrBlank(s.auth.superAdmin)
    case AUTH_SUPER_ADMIN_EMAIL => WordOrBlank(s.auth.superAdminEmail)
  }

  const ALL_SETTINGS: set<Setting> := {
    COMPANY_ID, EMPLOYEE_ID, PLATFORM_ADMIN, AUTH_MODE, SESSION_MODE,
    AUTH_EMPLOYEE_ID, AUTH_TELEGRAM_USER_ID, AUTH_INVITE_TOKEN_HASH, AUTH_SUPER_ADMIN_ID, AUTH_SUPER_ADMIN_EMAIL}

  lemma ThatIsAll(key: Setting)
    ensures key in ALL_SETTINGS
  {
    match key
    case COMPANY_ID =>
    case EMPLOYEE_ID =>
    case PLATFORM_ADMIN =>
    case AUTH_MODE =>
    case SESSION_MODE =>
    case AUTH_EMPLOYEE_ID =>
    case AUTH_TELEGRAM_USER_ID =>
    case AUTH_INVITE_TOKEN_HASH =>
    case AUTH_SUPER_ADMIN_ID =>
    case AUTH_SUPER_ADMIN_EMAIL =>
  }

  /** Every setting is written, whatever was there. */
  function Applied(s: Session): Session {
    s.(settings := map key | key in ALL_SETTINGS :: ValueOf(s, key))
  }

  lemma AppliedReads(s: Session, key: Setting)
    ensures Read(Applied(s).settings, key) == ValueOf(s, key)
  {
    ThatIsAll(key);
  }

  predicate BlankWord(word: Option<string>) {
    word.Some? && Strip(word.value) == ""
  }

  predicate ValidPins(pins: AuthPins) {
    && (pins.telegramUser.Some? ==> pins.telegramUser.value > 0)
    && !BlankWord(pins.inviteHash) && !BlankWord(pins.superAdminEmail)
  }

  function Normalised(pins: AuthPins, lower: string -> string): AuthPins {
    pins.(inviteHash := if pins.inviteHash.Some? then Some(Strip(pins.inviteHash.value)) else None,
          superAdminEmail := if pins.superAdminEmail.Some? then Some(lower(Strip(pins.superAdminEmail.value))) else None)
  }

  function PinnedTo(employee: Uuid): AuthPins {
    NO_PINS.(employee := Some(employee))
  }

  /** The transaction ended: its settings are gone, and are written again if a mode was entered. */
  function Renewed(s: Session): Session {
    if s.mode == NoMode then s.(settings := map[]) else Applied(s.(settings := map[]))
  }

  function Next(s: Session, e: Event): Session {
    match e
    case EnterTenant(company) => Applied(Session(Tenant, Some(company), None, NO_PINS, s.settings))
    case EnterEmployee(employee, people) =>
      if employee in people then Applied(Session(Tenant, Some(people[employee]), Some(employee), NO_PINS, s.settings))
      else Applied(Session(AuthBootstrap, None, None, PinnedTo(employee), s.settings))
    case EnterPlatform => Applied(Session(Platform, None, None, NO_PINS, s.settings))
    case EnterAuthBootstrap(pins, lower) =>
      if !ValidPins(pins) then s
      else Applied(Session(AuthBootstrap, None, None, Normalised(pins, lower), s.settings))
    case EnterSessionBootstrap => Applied(Session(SessionBootstrap, None, None, NO_PINS, s.settings))
    case Commit => Renewed(s)
    case Rollback => Renewed(s)
    case Close => CLOSED
  }

  function Exec(s: Session, run: Run): Session
    decreases |run|
  {
    if run == [] then s else Next(Exec(s, run[..|run| - 1]), run[|run| - 1])
  }

  // ---------- what the settings mean ----------

  /** What a setting holds in a context; no other context shows through. */
  function Shows(c: Context, key: Setting): Value {
    match c
    case NoContext => Blank
    case InTenant(company, employee) =>
      (match key
       case COMPANY_ID => Id(company)
       case EMPLOYEE_ID => IdOrBlank(employee)
       case _ => Blank)
    case OnPlatform => if key == PLATFORM_ADMIN then On else Blank
    case InAuthBootstrap(pins) =>
      (match key
       case AUTH_MODE => Bootstrap
       case AUTH_EMPLOYEE_ID => IdOrBlank(pins.employee)
       case AUTH_TELEGRAM_USER_ID => if pins.telegramUser.Some? then Number(pins.telegramUser.value) else Blank
       case AUTH_INVITE_TOKEN_HASH => WordOrBlank(pins.inviteHash)
       case AUTH_SUPER_ADMIN_ID => IdOrBlank(pins.superAdmin)
       case AUTH_SUPER_ADMIN_EMAIL => WordOrBlank(pins.superAdminEmail)
       case _ => Blank)
    case InSessionBootstrap => if key == SESSION_MODE then Bootstrap else Blank
  }

  /** `current_setting(..., true)`: unset reads as blank. */
  function Read(settings: Settings, key: Setting): Value {
    if key in settings then settings[key] else Blank
  }

  /** The context after one event, from the event alone unless it enters nothing. */
  function Entered(c: Context, e: Event): Context {
    match e
    case EnterTenant(company) => InTenant(company, None)
    case EnterEmployee(employee, people) =>
      if employee in people then InTenant(people[employee], Some(employee)) else InAuthBootstrap(PinnedTo(employee))
    case EnterPlatform => OnPlatform
    case EnterAuthBootstrap(pins, lower) => if ValidPins(pins) then InAuthBootstrap(Normalised(pins, lower)) else c
    case EnterSessionBootstrap => InSessionBootstrap
    case Commit => c
    case Rollback => c
    case Close => NoContext
  }

  /** The last context entered in a run that starts from `c`. */
  function LastEntered(c: Context, run: Run): Context
    decreases |run|
  {
    if run == [] then c else Entered(LastEntered(c, run[..|run| - 1]), run[|run| - 1])
  }

  /** Mode and pins are those of the context, and of no other. */
  predicate HasMode(s: Session, c: Context) {
    match c
    case NoContext => s.mode == NoMode && s.company.None? && s.employee.None? && s.auth == NO_PINS
    case InTenant(company, employee) =>
      s.mode == Tenant && s.company == Some(company) && s.employee == employee && s.auth == NO_PINS
    case OnPlatform => s.mode == Platform && s.company.None? && s.employee.None? && s.auth == NO_PINS
    case InAuthBootstrap(pins) => s.mode == AuthBootstrap && s.company.None? && s.employee.None? && s.auth == pins
    case InSessionBootstrap => s.mode == SessionBootstrap && s.company.None? && s.employee.None? && s.auth == NO_PINS
  }

  ghost predicate InContext(s: Session, c: Context) {
    HasMode(s, c) && forall key :: Read(s.settings, key) == Shows(c, key)
  }

  /** Writing all ten settings leaves nothing of an earlier mode behind. */
  lemma AppliedShows(s: Session, c: Context)
    requires HasMode(s, c) && c != NoContext
    ensures InContext(Applied(s), c)
  {
    forall key ensures Read(Applied(s).settings, key) == Shows(c, key) {
      AppliedReads(s, key);
      match key
      case _ =>
    }
  }

  lemma StepKeepsContext(s: Session, c: Context, e: Event)
    requires InContext(s, c)
    ensures InContext(Next(s, e), Entered(c, e))
  {
    hide Applied, Shows, Read, ValidPins, Normalised;
    match e
    case EnterTenant(company) =>
      AppliedShows(Session(Tenant, Some(company), None, NO_PINS, s.settings), Entered(c, e));
    case EnterEmployee(employee, people) =>
      if employee in people {
        AppliedShows(Session(Tenant, Some(people[employee]), Some(employee), NO_PINS, s.settings), Entered(c, e));
      } else {
        AppliedShows(Session(AuthBootstrap, None, None, PinnedTo(employee), s.settings), Entered(c, e));
      }
    case EnterPlatform => AppliedShows(Session(Platform, None, None, NO_PINS, s.settings), Entered(c, e));
    case EnterAuthBootstrap(pins, lower) =>
      if ValidPins(pins) {
        AppliedShows(Session(AuthBootstrap, None, None, Normalised(pins, lower), s.settings), Entered(c, e));
      }
    case EnterSessionBootstrap => AppliedShows(Session(SessionBootstrap, None, None, NO_PINS, s.settings), Entered(c, e));
    case Commit => RenewedShows(s, c);
    case Rollback => RenewedShows(s, c);
    case Close => ClosedShowsNothing();
  }

  /** Settings lost at the end of a transaction come back as they were. */
  lemma RenewedShows(s: Session, c: Context)
    requires InContext(s, c)
    ensures InContext(Renewed(s), c)
  {
    hide Applied;
    if c == NoContext {
      ClosedShowsNothing();
    } else {
      AppliedShows(s.(settings := map[]), c);
    }
  }

  lemma ClosedShowsNothing()
    ensures InContext(CLOSED, NoContext)
  {
  }

  /**
   After any sequence of enters, commits and rollbacks the ten settings are a function of the
   last context entered, whatever was entered before.
   */
  lemma {:induction false} SettingsFollowTheLastEntry(s: Session, c: Context, run: Run)
    requires InContext(s, c)
    ensures InContext(Exec(s, run), LastEntered(c, run))
    decreases |run|
  {
    hide Next, InContext, Entered;
    if run != [] {
      SettingsFollowTheLastEntry(s, c, run[..|run| - 1]);
      StepKeepsContext(Exec(s, run[..|run| - 1]), LastEntered(c, run[..|run| - 1]), run[|run| - 1]);
    }
  }

  /**
   Pins that are invalid, a Telegram user that is not positive or a text that is blank, are refused and
   change nothing; others are kept as they are, texts stripped and the e-mail in lower case.
   */
  lemma BootstrapOutcome(s: Session, pins: AuthPins, lower: string -> string)
    ensures var after := Next(s, EnterAuthBootstrap(pins, lower));
      var invalid := || (pins.telegramUser.Some? && pins.telegramUser.value <= 0)
                     || (pins.inviteHash.Some? && Strip(pins.inviteHash.value) == "")
                     || (pins.superAdminEmail.Some? && Strip(pins.superAdminEmail.value) == "");
      && (invalid <==> !ValidPins(pins))
      && (invalid ==> after == s)
      && (!invalid ==>
            && after.mode == AuthBootstrap && after.company.None? && after.employee.None?
            && after.auth.employee == pins.employee && after.auth.telegramUser == pins.telegramUser
            && after.auth.superAdmin == pins.superAdmin
            && (after.auth.inviteHash.Some? <==> pins.inviteHash.Some?)
            && (pins.inviteHash.Some? ==> after.auth.inviteHash.value == Strip(pins.inviteHash.value))
            && (after.auth.superAdminEmail.Some? <==> pins.superAdminEmail.Some?)
            && (pins.superAdminEmail.Some? ==> after.auth.superAdminEmail.value == lower(Strip(pins.superAdminEmail.value))))
  {
    hide Strip;
  }

  /** In auth bootstrap the five pins are read back from their settings; a pin that is missing or empty reads as blank. */
  lemma PinsAreReadBack(s: Session, c: Context)
    requires InContext(s, c) && c.InAuthBootstrap?
    ensures (match c.pins.employee case Some(id) => Read(s.settings, AUTH_EMPLOYEE_ID) == Id(id)
                                   case None => Read(s.settings, AUTH_EMPLOYEE_ID) == Blank)
    ensures (match c.pins.telegramUser case Some(n) => Read(s.settings, AUTH_TELEGRAM_USER_ID) == Number(n)
                                       case None => Read(s.settings, AUTH_TELEGRAM_USER_ID) == Blank)
    ensures (match c.pins.superAdmin case Some(id) => Read(s.settings, AUTH_SUPER_ADMIN_ID) == Id(id)
                                     case None => Read(s.settings, AUTH_SUPER_ADMIN_ID) == Blank)
    ensures (match c.pins.inviteHash
             case Some(hash) => Read(s.settings, AUTH_INVITE_TOKEN_HASH) == if hash == "" then Blank else Word(hash)
             case None => Read(s.settings, AUTH_INVITE_TOKEN_HASH) == Blank)
    ensures (match c.pins.superAdminEmail
             case Some(email) => Read(s.settings, AUTH_SUPER_ADMIN_EMAIL) == if email == "" then Blank else Word(email)
             case None => Read(s.settings, AUTH_SUPER_ADMIN_EMAIL) == Blank)
    ensures Read(s.settings, AUTH_MODE) == Bootstrap && Read(s.settings, COMPANY_ID) == Blank && Read(s.settings, PLATFORM_ADMIN) == Blank
  {
    hide Read;
    assert forall key :: Read(s.settings, key) == Shows(c, key);
  }

  // ---------- policies ----------

  predicate IsPlatform(settings: Settings) {
    Read(settings, PLATFORM_ADMIN) == On
  }

  /** `app.company_id()`, null when blank. */
  function CompanyId(settings: Settings): Option<Uuid> {
    if Read(settings, COMPANY_ID).Id? then Some(Read(settings, COMPANY_ID).id) else None
  }

  /** The `tenant_isolation` policy, for reading and for writing a row of the company. */
  predicate Isolated(settings: Settings, rowCompany: Uuid) {
    IsPlatform(settings) || CompanyId(settings) == Some(rowCompany)
  }

  /** The rows of a tenant table that the policy lets through; `table` gives each row's company. */
  function VisibleRows(settings: Settings, table: map<Uuid, Uuid>): set<Uuid> {
    set row | row in table && Isolated(settings, table[row])
  }

  function RowsOf(company: Uuid, table: map<Uuid, Uuid>): set<Uuid> {
    set row | row in table && table[row] == company
  }

  /**
   In tenant mode a tenant table shows exactly that company's rows, on the platform all rows, and
   otherwise none, whatever modes came before.
   */
  lemma TableShowsTheContext(run: Run, table: map<Uuid, Uuid>)
    ensures VisibleRows(Exec(CLOSED, run).settings, table) == match LastEntered(NoContext, run)
      case InTenant(company, _) => RowsOf(company, table)
      case OnPlatform => table.Keys
      case _ => {}
  {
    hide Exec, LastEntered;
    ClosedShowsNothing();
    SettingsFollowTheLastEntry(CLOSED, NoContext, run);
    var settings := Exec(CLOSED, run).settings;
    assert Read(settings, PLATFORM_ADMIN) == Shows(LastEntered(NoContext, run), PLATFORM_ADMIN);
    assert Read(settings, COMPANY_ID) == Shows(LastEntered(NoContext, run), COMPANY_ID);
  }

  /** Two tenants never see a row in common. */
  lemma TenantsAreDisjoint(run: Run, other: Run, table: map<Uuid, Uuid>)
    requires LastEntered(NoContext, run).InTenant? && LastEntered(NoContext, other).InTenant?
    requires LastEntered(NoContext, run).company != LastEntered(NoContext, other).company
    ensures VisibleRows(Exec(CLOSED, run).settings, table) !! VisibleRows(Exec(CLOSED, other).settings, table)
  {
    hide Exec, LastEntered, VisibleRows;
    TableShowsTheContext(run, table);
    TableShowsTheContext(other, table);
  }

  // ---------- the unit of work ----------

  class UnitOfWork {
    var mode: Mode
    var company: Option<Uuid>
    var employee: Option<Uuid>
    var auth: AuthPins
    var settings: Settings

    function State(): Session
      reads this
    {
      Session(mode, company, employee, auth, settings)
    }

    constructor ()
      ensures State() == CLOSED
    {
      mode, company, employee, auth, settings := NoMode, None, None, NO_PINS, map[];
    }

    method ClearAuthPins()
      modifies this`auth
      ensures auth == NO_PINS
    {
      auth := NO_PINS;
    }

    /** One `set_config(key, value, true)`; `done` are the keys written so far. */
    method SetConfig(key: Setting, value: Value, ghost done: set<Setting>) returns (ghost now: set<Setting>)
      requires value == ValueOf(State(), key) && Written(State(), done)
      modifies this`settings
      ensures now == done + {key} && Written(State(), now)
    {
      settings := settings[key := value];
      now := done + {key};
      ValuesIgnoreSettings(State(), old(settings));
    }

    /** Ten statements, one after the other. */
    method ApplyRlsGucs()
      modifies this`settings
      ensures State() == Applied(old(State()))
    {
      hide Written, ValueOf, Applied;
      ghost var before := State();
      NothingWritten(before);
      ghost var done := {};
      done := SetConfig(COMPANY_ID, ValueOf(State(), COMPANY_ID), done);
      done := SetConfig(EMPLOYEE_ID, ValueOf(State(), EMPLOYEE_ID), done);
      done := SetConfig(PLATFORM_ADMIN, ValueOf(State(), PLATFORM_ADMIN), done);
      done := SetConfig(AUTH_MODE, ValueOf(State(), AUTH_MODE), done);
      done := SetConfig(SESSION_MODE, ValueOf(State(), SESSION_MODE), done);
      done := SetConfig(AUTH_EMPLOYEE_ID, ValueOf(State(), AUTH_EMPLOYEE_ID), done);
      done := SetConfig(AUTH_TELEGRAM_USER_ID, ValueOf(State(), AUTH_TELEGRAM_USER_ID), done);
      done := SetConfig(AUTH_INVITE_TOKEN_HASH, ValueOf(State(), AUTH_INVITE_TOKEN_HASH), done);
      done := SetConfig(AUTH_SUPER_ADMIN_ID, ValueOf(State(), AUTH_SUPER_ADMIN_ID), done);
      done := SetConfig(AUTH_SUPER_ADMIN_EMAIL, ValueOf(State(), AUTH_SUPER_ADMIN_EMAIL), done);
      assert done == ALL_SETTINGS;
      AllWritten(State());
      ApplyingForgets(State(), before.settings);
    }

    method EnterTenantMode(companyId: Uuid)
      modifies this
      ensures State() == Next(old(State()), EnterTenant(companyId))
      ensures mode == Tenant && company == Some(companyId) && employee.None? && auth == NO_PINS
      ensures forall key :: Read(settings, key) == if key == COMPANY_ID then Id(companyId) else Blank
    {
      company, employee := Some(companyId), None;
      ClearAuthPins();
      mode := Tenant;
      hide Applied, Read;
      ghost var entered := State();
      ApplyRlsGucs();
      AllRead(entered);
    }

    method EnterEmployeeMode(employeeId: Uuid, people: map<Uuid, Uuid>) returns (r: Result<Uuid>)
      modifies this
      ensures State() == Next(old(State()), EnterEmployee(employeeId, people))
      ensures r == if employeeId in people then Ok(people[employeeId]) else Err(NotFound)
      ensures employeeId in people ==> mode == Tenant && company == Some(people[employeeId]) && employee == Some(employeeId)
      ensures employeeId !in people ==> mode == AuthBootstrap && company.None? && employee.None? && auth.employee == Some(employeeId)
    {
      hide Applied;
      ghost var before := State();
      company, employee, auth, mode := None, None, PinnedTo(employeeId), AuthBootstrap;
      ApplyRlsGucs();
      if employeeId !in people {
        return Err(NotFound);
      }
      company, employee := Some(people[employeeId]), Some(employeeId);
      ClearAuthPins();
      mode := Tenant;
      ghost var entered := State();
      ApplyRlsGucs();
      ApplyingForgets(entered, before.settings);
      r := Ok(people[employeeId]);
    }

    method EnterPlatformMode()
      modifies this
      ensures State() == Next(old(State()), EnterPlatform)
      ensures mode == Platform && company.None? && employee.None? && auth == NO_PINS
      ensures forall key :: Read(settings, key) == if key == PLATFORM_ADMIN then On else Blank
    {
      company, employee := None, None;
      ClearAuthPins();
      mode := Platform;
      hide Applied, Read;
      ghost var entered := State();
      ApplyRlsGucs();
      AllRead(entered);
    }

    method EnterAuthBootstrapMode(pins: AuthPins, lower: string -> string) returns (r: Result<AuthPins>)
      modifies this
      ensures State() == Next(old(State()), EnterAuthBootstrap(pins, lower))
      ensures r == if ValidPins(pins) then Ok(Normalised(pins, lower)) else Err(Validation)
    {
      if pins.telegramUser.Some? && pins.telegramUser.value <= 0 {
        return Err(Validation);
      }
      var checked := pins;
      if pins.inviteHash.Some? {
        if Strip(pins.inviteHash.value) == "" {
          return Err(Validation);
        }
        checked := checked.(inviteHash := Some(Strip(pins.inviteHash.value)));
      }
      if pins.superAdminEmail.Some? {
        if Strip(pins.superAdminEmail.value) == "" {
          return Err(Validation);
        }
        checked := checked.(superAdminEmail := Some(lower(Strip(pins.superAdminEmail.value))));
      }
      company, employee, auth, mode := None, None, checked, AuthBootstrap;
      ApplyRlsGucs();
      r := Ok(checked);
    }

    method EnterSessionBootstrapMode()
      modifies this
      ensures State() == Next(old(State()), EnterSessionBootstrap)
      ensures mode == SessionBootstrap && company.None? && employee.None? && auth == NO_PINS
      ensures forall key :: Read(settings, key) == if key == SESSION_MODE then Bootstrap else Blank
    {
      company, employee := None, None;
      ClearAuthPins();
      mode := SessionBootstrap;
      hide Applied, Read;
      ghost var entered := State();
      ApplyRlsGucs();
      AllRead(entered);
    }

    /** The transaction ends, and with it the local settings. */
    method EndTransaction()
      modifies this`settings
      ensures State() == Renewed(old(State()))
    {
      settings := map[];
      if mode != NoMode {
        ApplyRlsGucs();
      }
    }

    method CommitWork()
      modifies this`settings
      ensures State() == Next(old(State()), Commit)
      ensures mode == NoMode ==> settings == map[]
    {
      EndTransaction();
    }

    method RollbackWork()
      modifies this`settings
      ensures State() == Next(old(State()), Rollback)
      ensures mode == NoMode ==> settings == map[]
    {
      EndTransaction();
    }

    /** `__aexit__`. */
    method Exit()
      modifies this
      ensures State() == Next(old(State()), Close)
      ensures mode == NoMode && company.None? && employee.None? && auth == NO_PINS && settings == map[]
    {
      settings := map[];
      mode, company, employee := NoMode, None, None;
      ClearAuthPins();
    }
  }

  lemma AllRead(s: Session)
    ensures Applied(s) == s.(settings := Applied(s).settings)
    ensures forall key :: Read(Applied(s).settings, key) == ValueOf(s, key)
  {
    hide ValueOf;
    forall key ensures Read(Applied(s).settings, key) == ValueOf(s, key) {
      AppliedReads(s, key);
    }
  }

  /** The settings in `done` hold what the session's mode and pins say. */
  ghost predicate Written(s: Session, done: set<Setting>) {
    forall key :: key in done ==> key in s.settings && s.settings[key] == ValueOf(s, key)
  }

  lemma NothingWritten(s: Session)
    ensures Written(s, {})
  {
  }

  lemma AllWritten(s: Session)
    requires Written(s, ALL_SETTINGS)
    ensures s == Applied(s)
  {
    hide ValueOf;
    forall key: Setting ensures key in ALL_SETTINGS && key in s.settings && s.settings[key] == ValueOf(s, key) {
      ThatIsAll(key);
    }
    assert s.settings == Applied(s).settings;
  }

  /** The result does not depend on the settings it overwrites. */
  lemma ApplyingForgets(s: Session, settings: Settings)
    ensures Applied(s) == Applied(s.(settings := settings))
  {
    hide ValueOf;
    ValuesIgnoreSettings(s, settings);
  }

  lemma ValuesIgnoreSettings(s: Session, settings: Settings)
    ensures forall key :: ValueOf(s, key) == ValueOf(s.(settings := settings), key)
  {
  }
}
