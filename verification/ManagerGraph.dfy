/**
 The reporting lines of a company. Every write of a manager edge is guarded by a walk up the
 manager chain that gives up after `MAX_MANAGER_CHAIN_DEPTH` reads; the property of the whole
 graph is that nobody reports to themselves, directly or indirectly, nor to another company.
 */
module ManagerGraph {
  import opened Common

  const MAX_MANAGER_CHAIN_DEPTH := 256

  datatype Status = Invited | Active | Archived

  datatype Role = Staff | Hr | Admin

  datatype Employee = Employee(companyId: Uuid, role: Role, status: Status, managerId: Option<Uuid>)

  type Table = map<Uuid, Employee>

  /** Row-level security in tenant mode: other companies' rows do not exist. */
  predicate Visible(rows: Table, tenant: Uuid, id: Uuid) {
    id in rows && rows[id].companyId == tenant
  }

  // ---------- the guard ----------

  /** `path` lists employees upwards from `manager`, each followed by their manager. */
  predicate IsChain(rows: Table, tenant: Uuid, manager: Uuid, path: seq<Uuid>) {
    && (forall i :: 0 <= i < |path| ==> Visible(rows, tenant, path[i]))
    && (path != [] ==> path[0] == manager)
    && (forall i :: 0 <= i < |path| - 1 ==> rows[path[i]].managerId == Some(path[i + 1]))
  }

  /** Who comes after the last member of the chain. */
  function Beyond(rows: Table, tenant: Uuid, manager: Uuid, path: seq<Uuid>): Option<Uuid>
    requires IsChain(rows, tenant, manager, path)
  {
    if path == [] then Some(manager) else rows[path[|path| - 1]].managerId
  }

  predicate NoRepeats(path: seq<Uuid>) {
    forall i, j :: 0 <= i < j < |path| ==> path[i] != path[j]
  }

  /** The whole chain above `manager`: short enough, ending, without `employee` and without repeats. */
  predicate SafeChain(rows: Table, tenant: Uuid, employee: Uuid, manager: Uuid, path: seq<Uuid>) {
    && |path| < MAX_MANAGER_CHAIN_DEPTH
    && IsChain(rows, tenant, manager, path)
    && employee !in path
    && NoRepeats(path)
    && var end := Beyond(rows, tenant, manager, path);
       end.None? || (end.value != employee && !Visible(rows, tenant, end.value))
  }

  ghost predicate SafeEdge(rows: Table, tenant: Uuid, employee: Uuid, manager: Uuid) {
    exists path :: SafeChain(rows, tenant, employee, manager, path)
  }

  lemma ChainsAgree(rows: Table, tenant: Uuid, employee: Uuid, manager: Uuid, walked: seq<Uuid>, path: seq<Uuid>)
    requires IsChain(rows, tenant, manager, walked) && SafeChain(rows, tenant, employee, manager, path)
    requires walked != [] && walked[..|walked| - 1] <= path
    ensures walked <= path
  {
    var n := |walked| - 1;
    var current := walked[n];
    if n > 0 {
      assert walked[n - 1] == path[n - 1];
      assert rows[path[n - 1]].managerId == Some(current);
    }
    if n == |path| {
      assert false;
    }
    assert path[n] == current;
  }

  /** What the walk has seen: a chain from the manager without the employee, which every safe chain continues. */
  ghost predicate Walked(rows: Table, tenant: Uuid, employee: Uuid, manager: Uuid, walked: seq<Uuid>) {
    && IsChain(rows, tenant, manager, walked) && NoRepeats(walked) && employee !in walked
    && forall path :: SafeChain(rows, tenant, employee, manager, path) ==> walked <= path
  }

  lemma NothingWalked(rows: Table, tenant: Uuid, employee: Uuid, manager: Uuid)
    ensures Walked(rows, tenant, employee, manager, []) && Beyond(rows, tenant, manager, []) == Some(manager)
  {
  }

  /** The walk comes to its end, or to someone of another company. */
  lemma WalkEnds(rows: Table, tenant: Uuid, employee: Uuid, manager: Uuid, walked: seq<Uuid>)
    requires Walked(rows, tenant, employee, manager, walked) && |walked| < MAX_MANAGER_CHAIN_DEPTH
    requires var end := Beyond(rows, tenant, manager, walked);
      end.None? || (end.value != employee && !Visible(rows, tenant, end.value))
    ensures SafeEdge(rows, tenant, employee, manager)
  {
    assert SafeChain(rows, tenant, employee, manager, walked);
  }

  /** The walk comes back to the employee, or to someone it has seen. */
  lemma WalkReturns(rows: Table, tenant: Uuid, employee: Uuid, manager: Uuid, walked: seq<Uuid>, again: Uuid)
    requires Walked(rows, tenant, employee, manager, walked)
    requires Beyond(rows, tenant, manager, walked) == Some(again) && (again == employee || again in walked)
    ensures !SafeEdge(rows, tenant, employee, manager)
  {
    var n := |walked|;
    forall path | IsChain(rows, tenant, manager, path) && walked <= path && |path| > n ensures path[n] == again {
      assert n > 0 ==> path[n - 1] == walked[n - 1];
    }
    forall path ensures !SafeChain(rows, tenant, employee, manager, path) {
    }
  }

  lemma WalkGoesOn(rows: Table, tenant: Uuid, employee: Uuid, manager: Uuid, walked: seq<Uuid>, next: Uuid)
    requires Walked(rows, tenant, employee, manager, walked) && Beyond(rows, tenant, manager, walked) == Some(next)
    requires next != employee && next !in walked && Visible(rows, tenant, next)
    ensures Walked(rows, tenant, employee, manager, walked + [next])
    ensures Beyond(rows, tenant, manager, walked + [next]) == rows[next].managerId
  {
    var longer := walked + [next];
    assert longer[..|longer| - 1] == walked;
    forall i | 0 <= i < |longer| ensures Visible(rows, tenant, longer[i]) {
    }
    forall i | 0 <= i < |longer| - 1 ensures rows[longer[i]].managerId == Some(longer[i + 1]) {
      assert i < |walked| - 1 ==> rows[walked[i]].managerId == Some(walked[i + 1]);
    }
    assert IsChain(rows, tenant, manager, longer);
    forall path | SafeChain(rows, tenant, employee, manager, path)
      ensures longer <= path
    {
      ChainsAgree(rows, tenant, employee, manager, longer, path);
    }
  }

  /** A safe chain is shorter than the walk may get. */
  lemma WalkIsTooLong(rows: Table, tenant: Uuid, employee: Uuid, manager: Uuid, walked: seq<Uuid>)
    requires Walked(rows, tenant, employee, manager, walked) && |walked| >= MAX_MANAGER_CHAIN_DEPTH
    ensures !SafeEdge(rows, tenant, employee, manager)
  {
  }

  lemma NobodyIsTheirOwnManager(rows: Table, tenant: Uuid, employee: Uuid)
    ensures !SafeEdge(rows, tenant, employee, employee)
  {
    forall path ensures !SafeChain(rows, tenant, employee, employee, path) {
    }
  }

  /** The walk answers "no cycle" exactly when the chain above the new manager is safe. */
  method ManagerAssignmentWouldCycle(rows: Table, tenant: Uuid, employee: Uuid, manager: Uuid) returns (cycle: bool)
    ensures cycle <==> !SafeEdge(rows, tenant, employee, manager)
  {
    hide SafeEdge, Beyond;
    if employee == manager {
      NobodyIsTheirOwnManager(rows, tenant, employee);
      return true;
    }
    var seen := {employee};
    var current := Some(manager);
    ghost var walked: seq<Uuid> := [];
    NothingWalked(rows, tenant, employee, manager);
    for depth := 0 to MAX_MANAGER_CHAIN_DEPTH
      invariant |walked| == depth && Walked(rows, tenant, employee, manager, walked)
      invariant forall x :: x in seen <==> x == employee || x in walked
      invariant current == Beyond(rows, tenant, manager, walked)
    {
      hide Walked, IsChain, NoRepeats;
      if current.None? {
        WalkEnds(rows, tenant, employee, manager, walked);
        return false;
      }
      if current.value in seen {
        WalkReturns(rows, tenant, employee, manager, walked, current.value);
        return true;
      }
      seen := seen + {current.value};
      if !Visible(rows, tenant, current.value) {
        WalkEnds(rows, tenant, employee, manager, walked);
        return false;
      }
      WalkGoesOn(rows, tenant, employee, manager, walked, current.value);
      walked := walked + [current.value];
      current := rows[current.value].managerId;
    }
    WalkIsTooLong(rows, tenant, employee, manager, walked);
    cycle := true;
  }

  // ---------- the graph ----------

  /** The `k`-th superior of `id`. */
  function Up(rows: Table, id: Uuid, k: nat): Option<Uuid> {
    if k == 0 then Some(id)
    else match Up(rows, id, k - 1)
      case None => None
      case Some(x) => if x in rows then rows[x].managerId else None
  }

  ghost predicate Acyclic(rows: Table) {
    forall id, k: nat :: id in rows && k > 0 ==> Up(rows, id, k) != Some(id)
  }

  /** Nobody from `manager` upwards is `employee`. */
  ghost predicate NotAbove(rows: Table, employee: Uuid, manager: Uuid) {
    forall k: nat :: Up(rows, manager, k) != Some(employee)
  }

  ghost predicate InCompany(rows: Table) {
    forall id :: id in rows && rows[id].managerId.Some? ==>
      var m := rows[id].managerId.value;
      m in rows && rows[m].companyId == rows[id].companyId
  }

  lemma {:induction false} UpAdds(rows: Table, id: Uuid, j: nat, k: nat)
    ensures Up(rows, id, j + k) == (if Up(rows, id, j).None? then None else Up(rows, Up(rows, id, j).value, k))
    decreases k
  {
    if k > 0 {
      UpAdds(rows, id, j, k - 1);
      assert j + k - 1 == j + (k - 1);
    }
  }

  lemma {:induction false} UpStaysInCompany(rows: Table, id: Uuid, k: nat)
    requires InCompany(rows) && id in rows
    ensures var up := Up(rows, id, k);
      up.Some? ==> up.value in rows && rows[up.value].companyId == rows[id].companyId
    decreases k
  {
    if k > 0 {
      UpStaysInCompany(rows, id, k - 1);
    }
  }

  /** Two tables give the same superiors as long as the way up avoids the rows that differ. */
  lemma {:induction false} UpUnchanged(rows: Table, rows': Table, id: Uuid, k: nat, changed: Uuid)
    requires forall x :: x != changed ==> (x in rows <==> x in rows') && (x in rows ==> rows[x].managerId == rows'[x].managerId)
    requires forall j: nat :: j < k ==> Up(rows', id, j) != Some(changed)
    ensures Up(rows, id, k) == Up(rows', id, k)
    decreases k
  {
    if k > 0 {
      UpUnchanged(rows, rows', id, k - 1, changed);
      assert Up(rows', id, k - 1) != Some(changed);
    }
  }

  lemma {:induction false} NoneStaysNone(rows: Table, id: Uuid, j: nat, k: nat)
    requires j <= k && Up(rows, id, j).None?
    ensures Up(rows, id, k).None?
  {
    UpAdds(rows, id, j, k - j);
  }

  /** Redirecting one edge to someone who is not below keeps the graph acyclic. */
  lemma RedirectedEdgeKeepsAcyclic(rows: Table, rows': Table, employee: Uuid)
    requires Acyclic(rows) && employee in rows'
    requires forall x :: x != employee ==> (x in rows <==> x in rows') && (x in rows ==> rows[x].managerId == rows'[x].managerId)
    requires rows'[employee].managerId.Some? ==> NotAbove(rows', employee, rows'[employee].managerId.value)
    ensures Acyclic(rows')
  {
    forall id, k: nat | id in rows' && k > 0
      ensures Up(rows', id, k) != Some(id)
    {
      if Up(rows', id, k) == Some(id) {
        if j: nat :| j < k && Up(rows', id, j) == Some(employee) {
          UpAdds(rows', id, j, k);
          UpAdds(rows', id, k, j);
          assert j + k == k + j;
          assert Up(rows', employee, k) == Some(employee);
          NeverOwnSuperior(rows', employee, k);
          assert false;
        } else {
          assert Up(rows', id, 0) == Some(id);
          UpUnchanged(rows, rows', id, k, employee);
          assert false;
        }
      }
    }
  }

  lemma NeverOwnSuperior(rows: Table, employee: Uuid, k: nat)
    requires employee in rows && k > 0
    requires rows[employee].managerId.Some? ==> NotAbove(rows, employee, rows[employee].managerId.value)
    ensures Up(rows, employee, k) != Some(employee)
  {
    UpAdds(rows, employee, 1, k - 1);
    assert Up(rows, employee, 0) == Some(employee);
    assert Up(rows, employee, 1) == rows[employee].managerId;
  }

  lemma {:induction false} SafeChainIsUp(rows: Table, tenant: Uuid, employee: Uuid, manager: Uuid, path: seq<Uuid>, k: nat)
    requires InCompany(rows) && Visible(rows, tenant, manager)
    requires SafeChain(rows, tenant, employee, manager, path)
    ensures Up(rows, manager, k) == (if k < |path| then Some(path[k]) else None)
    decreases k
  {
    if k == 0 {
      assert path != [];
    } else {
      SafeChainIsUp(rows, tenant, employee, manager, path, k - 1);
      if k <= |path| {
        assert Visible(rows, tenant, path[k - 1]);
      }
    }
  }

  /** The first `n` superiors, starting with `manager` itself. */
  function Superiors(rows: Table, manager: Uuid, n: nat): (path: seq<Uuid>)
    requires forall i: nat :: i < n ==> Up(rows, manager, i).Some?
    ensures |path| == n && forall i :: 0 <= i < n ==> Some(path[i]) == Up(rows, manager, i)
  {
    seq(n, i requires 0 <= i < n => Up(rows, manager, i).value)
  }

  lemma {:induction false} ChainLength(rows: Table, manager: Uuid, bound: nat) returns (n: nat)
    requires Up(rows, manager, bound).None?
    ensures n <= bound && Up(rows, manager, n).None?
    ensures forall i: nat :: i < n ==> Up(rows, manager, i).Some?
    decreases bound
  {
    if bound == 0 || Up(rows, manager, bound - 1).Some? {
      n := bound;
      forall i: nat | i < n ensures Up(rows, manager, i).Some? {
        if Up(rows, manager, i).None? {
          NoneStaysNone(rows, manager, i, n - 1);
        }
      }
    } else {
      n := ChainLength(rows, manager, bound - 1);
    }
  }

  /**
   What the guard decides in a sound graph: an edge is refused exactly when it would close a
   cycle, or when the chain above the manager has more than 255 members.
   */
  lemma GuardDecidesReachability(rows: Table, tenant: Uuid, employee: Uuid, manager: Uuid)
    requires Acyclic(rows) && InCompany(rows) && Visible(rows, tenant, manager)
    ensures SafeEdge(rows, tenant, employee, manager)
       <==> Up(rows, manager, MAX_MANAGER_CHAIN_DEPTH - 1).None? && NotAbove(rows, employee, manager)
  {
    if path :| SafeChain(rows, tenant, employee, manager, path) {
      forall k: nat ensures Up(rows, manager, k) != Some(employee) {
        SafeChainIsUp(rows, tenant, employee, manager, path, k);
      }
      SafeChainIsUp(rows, tenant, employee, manager, path, MAX_MANAGER_CHAIN_DEPTH - 1);
    }
    if Up(rows, manager, MAX_MANAGER_CHAIN_DEPTH - 1).None? && NotAbove(rows, employee, manager) {
      SafePathExists(rows, tenant, employee, manager);
    }
  }

  lemma SafePathExists(rows: Table, tenant: Uuid, employee: Uuid, manager: Uuid)
    requires Acyclic(rows) && InCompany(rows) && Visible(rows, tenant, manager)
    requires Up(rows, manager, MAX_MANAGER_CHAIN_DEPTH - 1).None?
    requires NotAbove(rows, employee, manager)
    ensures SafeEdge(rows, tenant, employee, manager)
  {
    var n := ChainLength(rows, manager, MAX_MANAGER_CHAIN_DEPTH - 1);
    var path := Superiors(rows, manager, n);
    assert Up(rows, manager, 0) == Some(manager);
    forall i | 0 <= i < n
      ensures Visible(rows, tenant, path[i]) && path[i] != employee
      ensures rows[path[i]].managerId == (if i + 1 < n then Some(path[i + 1]) else None)
    {
      UpStaysInCompany(rows, manager, i);
      assert Up(rows, manager, i + 1) == rows[path[i]].managerId;
    }
    forall i, j | 0 <= i < j < n ensures path[i] != path[j] {
      UpAdds(rows, manager, i, j - i);
      UpStaysInCompany(rows, manager, i);
    }
    assert SafeChain(rows, tenant, employee, manager, path);
  }

  // ---------- the writers ----------

  /** A PATCH: `None` means the key is absent; `manager: Some(None)` clears the manager. */
  datatype Patch = Patch(manager: Option<Option<Uuid>>, status: Option<Status>)

  datatype Event =
    | Create(id: Uuid, companyId: Uuid, role: Role, status: Status, managerId: Option<Uuid>)
    | Update(tenant: Uuid, actor: Role, id: Uuid, patch: Patch)
    | AcceptInvite(id: Uuid)

  type Run = seq<Event>

  function ResolveManager(rows: Table, tenant: Uuid, manager: Uuid, current: Option<Uuid>): Option<Error> {
    if !Visible(rows, tenant, manager) then Some(NotFound)
    else if rows[manager].status != Active && current != Some(manager) then Some(Validation)
    else None
  }

  ghost function ManagerError(rows: Table, tenant: Uuid, employee: Option<Uuid>, manager: Option<Uuid>, current: Option<Uuid>): Option<Error> {
    if manager.None? then None
    else if employee == manager then Some(Validation)
    else if ResolveManager(rows, tenant, manager.value, current).Some? then ResolveManager(rows, tenant, manager.value, current)
    else if employee.Some? && !SafeEdge(rows, tenant, employee.value, manager.value) then Some(Validation)
    else None
  }

  function StatusError(row: Employee, actor: Role, status: Option<Status>): Option<Error> {
    if status != Some(Active) then None
    else if row.status != Archived then Some(Validation)
    else if actor != Admin then Some(Forbidden)
    else None
  }

  ghost function UpdateError(rows: Table, tenant: Uuid, actor: Role, id: Uuid, patch: Patch): Option<Error> {
    if !Visible(rows, tenant, id) then Some(NotFound)
    else if actor != Admin && rows[id].role != Staff then Some(Forbidden)
    else
      var managerError := if patch.manager.None? then None
                          else ManagerError(rows, tenant, Some(id), patch.manager.value, rows[id].managerId);
      if managerError.Some? then managerError else StatusError(rows[id], actor, patch.status)
  }

  function Patched(row: Employee, patch: Patch): Employee {
    row.(managerId := if patch.manager.Some? then patch.manager.value else row.managerId,
         status := if patch.status.Some? then patch.status.value else row.status)
  }

  ghost function Next(rows: Table, e: Event): Table {
    match e
    case Create(id, companyId, role, status, managerId) =>
      if id in rows || ManagerError(rows, companyId, None, managerId, None).Some? then rows
      else rows[id := Employee(companyId, role, status, managerId)]
    case Update(tenant, actor, id, patch) =>
      if UpdateError(rows, tenant, actor, id, patch).Some? then rows else rows[id := Patched(rows[id], patch)]
    case AcceptInvite(id) => if id in rows then rows[id := rows[id].(status := Active)] else rows
  }

  ghost function Exec(rows: Table, run: Run): Table
    decreases |run|
  {
    if run == [] then rows else Exec(Next(rows, run[0]), run[1..])
  }

  lemma SafeEdgeNotBelow(rows: Table, rows': Table, tenant: Uuid, employee: Uuid, manager: Uuid, k: nat)
    requires InCompany(rows) && Visible(rows, tenant, manager) && SafeEdge(rows, tenant, employee, manager)
    requires forall x :: x != employee ==> (x in rows <==> x in rows') && (x in rows ==> rows[x].managerId == rows'[x].managerId)
    ensures Up(rows', manager, k) != Some(employee)
    decreases k
  {
    forall j: nat | j < k ensures Up(rows', manager, j) != Some(employee) {
      SafeEdgeNotBelow(rows, rows', tenant, employee, manager, j);
    }
    UpUnchanged(rows, rows', manager, k, employee);
    var path :| SafeChain(rows, tenant, employee, manager, path);
    SafeChainIsUp(rows, tenant, employee, manager, path, k);
  }

  lemma CreateKeepsGraph(rows: Table, e: Event)
    requires Acyclic(rows) && InCompany(rows) && e.Create?
    ensures Acyclic(Next(rows, e)) && InCompany(Next(rows, e))
  {
    var rows' := Next(rows, e);
    if rows' != rows && e.managerId.Some? {
      forall k: nat ensures Up(rows', e.managerId.value, k) != Some(e.id) {
        NewcomerIsNobodysSuperior(rows, rows', e.id, e.managerId.value, k);
      }
    }
    if rows' != rows {
      RedirectedEdgeKeepsAcyclic(rows, rows', e.id);
    }
  }

  lemma {:induction false} NewcomerIsNobodysSuperior(rows: Table, rows': Table, newcomer: Uuid, id: Uuid, k: nat)
    requires InCompany(rows) && newcomer !in rows && id in rows
    requires forall x :: x in rows ==> x in rows' && rows'[x].managerId == rows[x].managerId
    ensures var up := Up(rows', id, k); up.Some? ==> up.value in rows
    ensures Up(rows', id, k) != Some(newcomer)
    decreases k
  {
    if k > 0 {
      NewcomerIsNobodysSuperior(rows, rows', newcomer, id, k - 1);
    }
  }

  lemma UpdateKeepsGraph(rows: Table, e: Event)
    requires Acyclic(rows) && InCompany(rows) && e.Update?
    ensures Acyclic(Next(rows, e)) && InCompany(Next(rows, e))
  {
    var rows' := Next(rows, e);
    if rows' != rows {
      var manager := rows'[e.id].managerId;
      if e.patch.manager.None? {
        SameEdgesKeepGraph(rows, rows');
      } else {
        if manager.Some? {
          forall k: nat ensures Up(rows', manager.value, k) != Some(e.id) {
            SafeEdgeNotBelow(rows, rows', e.tenant, e.id, manager.value, k);
          }
        }
        RedirectedEdgeKeepsAcyclic(rows, rows', e.id);
      }
    }
  }

  lemma SameEdgesKeepGraph(rows: Table, rows': Table)
    requires Acyclic(rows) && InCompany(rows)
    requires rows.Keys == rows'.Keys
    requires forall x :: x in rows ==> rows'[x].managerId == rows[x].managerId && rows'[x].companyId == rows[x].companyId
    ensures Acyclic(rows') && InCompany(rows')
  {
    forall id, k: nat ensures Up(rows', id, k) == Up(rows, id, k) {
      SameEdgesSameUp(rows, rows', id, k);
    }
    forall id, k: nat | id in rows' && k > 0 ensures Up(rows', id, k) != Some(id) {
      assert id in rows && Up(rows, id, k) != Some(id);
    }
  }

  lemma {:induction false} SameEdgesSameUp(rows: Table, rows': Table, id: Uuid, k: nat)
    requires rows.Keys == rows'.Keys && forall x :: x in rows ==> rows'[x].managerId == rows[x].managerId
    ensures Up(rows', id, k) == Up(rows, id, k)
    decreases k
  {
    if k > 0 {
      SameEdgesSameUp(rows, rows', id, k - 1);
    }
  }

  /** Over every sequence of creates and updates the graph stays acyclic and inside each company. */
  lemma {:induction false} GraphStaysSound(rows: Table, run: Run)
    requires Acyclic(rows) && InCompany(rows)
    ensures Acyclic(Exec(rows, run)) && InCompany(Exec(rows, run))
    decreases |run|
  {
    if run != [] {
      match run[0] {
        case Create(_, _, _, _, _) => CreateKeepsGraph(rows, run[0]);
        case Update(_, _, _, _) => UpdateKeepsGraph(rows, run[0]);
        case AcceptInvite(_) => SameEdgesKeepGraph(rows, Next(rows, run[0]));
      }
      GraphStaysSound(Next(rows, run[0]), run[1..]);
    }
  }

  // ---------- what a write needs ----------

  /** A colleague who can be made somebody's manager: in the company, and active or the manager already. */
  predicate Eligible(rows: Table, tenant: Uuid, manager: Uuid, current: Option<Uuid>) {
    manager in rows && rows[manager].companyId == tenant && (rows[manager].status == Active || current == Some(manager))
  }

  /** Making `manager` the manager of `employee` closes no cycle, and there are at most 255 people from `manager` upwards. */
  ghost predicate Fits(rows: Table, employee: Uuid, manager: Uuid) {
    manager != employee && Up(rows, manager, 255).None? && forall k: nat :: Up(rows, manager, k) != Some(employee)
  }

  /** Creating an employee needs only an eligible manager, if any; a newcomer is nobody's superior. */
  lemma CreationOutcome(rows: Table, id: Uuid, companyId: Uuid, role: Role, status: Status, managerId: Option<Uuid>)
    requires id !in rows
    ensures var after, error := Next(rows, Create(id, companyId, role, status, managerId)), ManagerError(rows, companyId, None, managerId, None);
      var found := managerId.Some? ==> managerId.value in rows && rows[managerId.value].companyId == companyId;
      && (error == Some(NotFound) <==> !found)
      && (error == Some(Validation) <==> found && managerId.Some? && rows[managerId.value].status != Active)
      && (error.None? <==> managerId.Some? ==> Eligible(rows, companyId, managerId.value, None))
      && after == if error.None? then rows[id := Employee(companyId, role, status, managerId)] else rows
  {
  }

  lemma EdgeIsSafeIffItFits(rows: Table, tenant: Uuid, employee: Uuid, manager: Uuid)
    requires Acyclic(rows) && InCompany(rows) && manager in rows && rows[manager].companyId == tenant
    ensures SafeEdge(rows, tenant, employee, manager) <==> Fits(rows, employee, manager)
  {
    GuardDecidesReachability(rows, tenant, employee, manager);
    assert Up(rows, manager, 0) == Some(manager);
    hide Acyclic, InCompany, SafeEdge;
  }

  /**
   Updating an employee, in a sound graph. It is allowed for anyone of the company, by an administrator or on
   staff; a new manager has to be eligible and to fit; and making someone active means reactivating an
   archived employee, which only an administrator may. Each refusal has its own error.
   */
  lemma UpdateOutcome(rows: Table, tenant: Uuid, actor: Role, id: Uuid, patch: Patch)
    requires Acyclic(rows) && InCompany(rows)
    ensures var error, after := UpdateError(rows, tenant, actor, id, patch), Next(rows, Update(tenant, actor, id, patch));
      var mine := id in rows && rows[id].companyId == tenant;
      var allowed := mine && (actor == Admin || rows[id].role == Staff);
      var asks := patch.manager.Some? && patch.manager.value.Some?;
      var stranger := asks && patch.manager.value.value != id
                      && !(patch.manager.value.value in rows && rows[patch.manager.value.value].companyId == tenant);
      var managed := mine && (asks ==> Eligible(rows, tenant, patch.manager.value.value, rows[id].managerId)
                                       && Fits(rows, id, patch.manager.value.value));
      var activates := patch.status == Some(Active);
      && (error.None? <==> allowed && managed && (activates ==> rows[id].status == Archived && actor == Admin))
      && (error == Some(NotFound) <==> !mine || (allowed && stranger))
      && (error == Some(Forbidden) <==> mine && (!allowed || (managed && activates && rows[id].status == Archived && actor != Admin)))
      && (error == Some(Validation) <==> allowed && !stranger && (!managed || (activates && rows[id].status != Archived)))
      && (error.Some? ==> after == rows)
  {
    if patch.manager.Some? && patch.manager.value.Some? {
      var manager := patch.manager.value.value;
      if manager in rows && rows[manager].companyId == tenant {
        EdgeIsSafeIffItFits(rows, tenant, id, manager);
      }
    }
    hide Acyclic, InCompany, SafeEdge, Up;
  }

  /** An update that is allowed writes the manager and the status it names, and nothing else of anybody. */
  lemma UpdateWrites(rows: Table, tenant: Uuid, actor: Role, id: Uuid, patch: Patch)
    requires UpdateError(rows, tenant, actor, id, patch).None?
    ensures id in rows
    ensures Next(rows, Update(tenant, actor, id, patch)) == rows[id := Employee(
      rows[id].companyId, rows[id].role,
      match patch.status case Some(status) => status case None => rows[id].status,
      match patch.manager case Some(manager) => manager case None => rows[id].managerId)]
  {
    hide SafeEdge;
  }

  /** An accepted invitation makes the employee active and changes nothing else. */
  lemma AcceptanceWrites(rows: Table, id: Uuid)
    requires id in rows
    ensures Next(rows, AcceptInvite(id)) == rows[id := Employee(rows[id].companyId, rows[id].role, Active, rows[id].managerId)]
  {
  }

  /**
   Whoever gets a new manager in one step gets a colleague of the same company who is active at that moment,
   and is not among the colleague's superiors.
   */
  lemma NewManagersAreActiveColleagues(rows: Table, e: Event, id: Uuid)
    requires Acyclic(rows) && InCompany(rows) && id in Next(rows, e) && Next(rows, e)[id].managerId.Some?
    requires id in rows ==> rows[id].managerId != Next(rows, e)[id].managerId
    ensures var manager := Next(rows, e)[id].managerId.value;
      && manager in rows && rows[manager].companyId == Next(rows, e)[id].companyId && rows[manager].status == Active
      && (id in rows ==> forall k: nat :: Up(rows, manager, k) != Some(id))
  {
    match e
    case Create(other, companyId, role, status, managerId) =>
      if other !in rows {
        CreationOutcome(rows, other, companyId, role, status, managerId);
      }
    case Update(tenant, actor, other, patch) =>
      UpdateOutcome(rows, tenant, actor, other, patch);
      if UpdateError(rows, tenant, actor, other, patch).None? {
        UpdateWrites(rows, tenant, actor, other, patch);
      }
    case AcceptInvite(_) =>
  }

  // ---------- the service ----------

  class EmployeeService {
    var rows: Table

    method ValidateManager(tenant: Uuid, employee: Option<Uuid>, manager: Option<Uuid>, current: Option<Uuid>)
      returns (error: Option<Error>)
      ensures error == ManagerError(rows, tenant, employee, manager, current)
    {
      if manager.None? {
        return None;
      }
      if employee == manager {
        return Some(Validation);
      }
      error := ResolveManager(rows, tenant, manager.value, current);
      if error.Some? {
        return error;
      }
      if employee.Some? {
        var cycle := ManagerAssignmentWouldCycle(rows, tenant, employee.value, manager.value);
        if cycle {
          return Some(Validation);
        }
      }
      return None;
    }

    method CreateEmployee(id: Uuid, companyId: Uuid, role: Role, status: Status, managerId: Option<Uuid>)
      returns (error: Option<Error>)
      requires id !in rows
      requires Acyclic(rows) && InCompany(rows)
      modifies this
      ensures rows == Next(old(rows), Event.Create(id, companyId, role, status, managerId))
      ensures Acyclic(rows) && InCompany(rows)
      ensures error.Some? ==> rows == old(rows)
      ensures error.None? ==> rows == old(rows)[id := Employee(companyId, role, status, managerId)]
      ensures error.None? <==> managerId.Some? ==> Eligible(old(rows), companyId, managerId.value, None)
    {
      CreateKeepsGraph(rows, Event.Create(id, companyId, role, status, managerId));
      error := ValidateManager(companyId, None, managerId, None);
      if error.None? {
        rows := rows[id := Employee(companyId, role, status, managerId)];
      }
    }

    method UpdateEmployee(tenant: Uuid, actor: Role, id: Uuid, patch: Patch) returns (error: Option<Error>)
      requires Acyclic(rows) && InCompany(rows)
      modifies this
      ensures error == UpdateError(old(rows), tenant, actor, id, patch)
      ensures rows == Next(old(rows), Event.Update(tenant, actor, id, patch))
      ensures Acyclic(rows) && InCompany(rows)
    {
      UpdateKeepsGraph(rows, Event.Update(tenant, actor, id, patch));
      if !Visible(rows, tenant, id) {
        return Some(NotFound);
      }
      if actor != Admin && rows[id].role != Staff {
        return Some(Forbidden);
      }
      if patch.manager.Some? {
        error := ValidateManager(tenant, Some(id), patch.manager.value, rows[id].managerId);
        if error.Some? {
          return error;
        }
      }
      error := StatusError(rows[id], actor, patch.status);
      if error.None? {
        rows := rows[id := Patched(rows[id], patch)];
      }
    }
  }
}
