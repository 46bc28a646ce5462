/**
 Who a bulk assignment is for: the explicit employees joined with the non-archived members of the
 departments, all of them in the company, each of them once.
 */
module Recipients {
  import opened Common
  import opened Lists

  datatype Person = Person(companyId: Uuid, department: Option<Uuid>, archived: bool)

  datatype Department = Department(companyId: Uuid, active: bool)

  datatype Directory = Directory(people: map<Uuid, Person>, departments: map<Uuid, Department>)

  function DepartmentError(dir: Directory, companyId: Uuid, id: Uuid): Option<Error> {
    if id !in dir.departments || dir.departments[id].companyId != companyId then Some(NotFound)
    else if !dir.departments[id].active then Some(Validation)
    else None
  }

  function PersonError(dir: Directory, companyId: Uuid, id: Uuid): Option<Error> {
    if id !in dir.people || dir.people[id].companyId != companyId then Some(NotFound)
    else if dir.people[id].archived then Some(Validation)
    else None
  }

  function DepartmentCheck(dir: Directory, companyId: Uuid): Uuid -> Option<Error> {
    (id: Uuid) => DepartmentError(dir, companyId, id)
  }

  function PersonCheck(dir: Directory, companyId: Uuid): Uuid -> Option<Error> {
    (id: Uuid) => PersonError(dir, companyId, id)
  }

  /** The error of the first offender, if any. */
  function FirstError(errorOf: Uuid -> Option<Error>, ids: seq<Uuid>): Option<Error> {
    if ids == [] then None
    else if errorOf(ids[0]).Some? then errorOf(ids[0])
    else FirstError(errorOf, ids[1..])
  }

  lemma {:induction false} FirstErrorIsNone(errorOf: Uuid -> Option<Error>, ids: seq<Uuid>)
    ensures FirstError(errorOf, ids).None? <==> forall k :: 0 <= k < |ids| ==> errorOf(ids[k]).None?
    decreases |ids|
  {
    if ids != [] {
      FirstErrorIsNone(errorOf, ids[1..]);
      assert forall k :: 0 < k < |ids| ==> ids[k] == ids[1..][k - 1];
    }
  }

  lemma {:induction false} FirstErrorFound(errorOf: Uuid -> Option<Error>, ids: seq<Uuid>, n: nat)
    requires n < |ids| && errorOf(ids[n]).Some? && forall k :: 0 <= k < n ==> errorOf(ids[k]).None?
    ensures FirstError(errorOf, ids) == errorOf(ids[n])
    decreases n
  {
    if n > 0 {
      FirstErrorFound(errorOf, ids[1..], n - 1);
    }
  }

  function Members(dir: Directory, departments: seq<Uuid>): set<Uuid> {
    set e | e in dir.people && !dir.people[e].archived
      && dir.people[e].department.Some? && dir.people[e].department.value in departments
  }

  function Everyone(dir: Directory, employees: seq<Uuid>, departments: seq<Uuid>): set<Uuid> {
    Members(dir, departments) + Elements(employees)
  }

  /** Departments first, then their members, then the explicit employees, then an empty result. */
  function ResolutionError(dir: Directory, companyId: Uuid, employees: seq<Uuid>, departments: seq<Uuid>): Option<Error> {
    var departmentError := FirstError(DepartmentCheck(dir, companyId), Unique(departments));
    var personError := FirstError(PersonCheck(dir, companyId), Unique(employees));
    if departmentError.Some? then departmentError
    else if exists e :: e in Members(dir, departments) && e in dir.people && dir.people[e].companyId != companyId
    then Some(NotFound)
    else if personError.Some? then personError
    else if Everyone(dir, employees, departments) == {} then Some(Validation)
    else None
  }

  /** Success means: every department usable, and everyone found, in the company and not archived. */
  lemma ResolvedMeans(dir: Directory, companyId: Uuid, employees: seq<Uuid>, departments: seq<Uuid>)
    ensures ResolutionError(dir, companyId, employees, departments).None?
       <==> (&& (forall d :: d in departments ==> DepartmentError(dir, companyId, d).None?)
             && Everyone(dir, employees, departments) != {}
             && (forall e :: e in Everyone(dir, employees, departments) ==> PersonError(dir, companyId, e).None?))
  {
    hide DepartmentError, FirstError, Distinct;
    UniqueMeans(departments);
    UniqueMeans(employees);
    FirstErrorIsNone(DepartmentCheck(dir, companyId), Unique(departments));
    FirstErrorIsNone(PersonCheck(dir, companyId), Unique(employees));
    var depts, people := Unique(departments), Unique(employees);
    assert (forall k :: 0 <= k < |depts| ==> DepartmentError(dir, companyId, depts[k]).None?)
      <==> forall d :: d in departments ==> DepartmentError(dir, companyId, d).None?;
    assert (forall k :: 0 <= k < |people| ==> PersonError(dir, companyId, people[k]).None?)
      <==> forall e :: e in employees ==> PersonError(dir, companyId, e).None?;
  }

  /** The members a department brings in: everyone in it who is not archived. */
  predicate BroughtIn(dir: Directory, departments: seq<Uuid>, e: Uuid) {
    && e in dir.people && !dir.people[e].archived
    && exists k :: 0 <= k < |departments| && dir.people[e].department == Some(departments[k])
  }

  lemma EveryoneIsBroughtInOrNamed(dir: Directory, employees: seq<Uuid>, departments: seq<Uuid>, e: Uuid)
    ensures e in Everyone(dir, employees, departments) <==> BroughtIn(dir, departments, e) || e in employees
  {
  }

  /**
   Resolving succeeds exactly when every named department is an active one of the company, every named
   employee is a colleague who is not archived, departments bring in colleagues only, and there is anyone at all.
   */
  lemma ResolutionSucceedsIff(dir: Directory, companyId: Uuid, employees: seq<Uuid>, departments: seq<Uuid>)
    ensures ResolutionError(dir, companyId, employees, departments).None?
       <==> (&& (forall d :: d in departments ==>
                   d in dir.departments && dir.departments[d].companyId == companyId && dir.departments[d].active)
             && (forall e :: e in employees ==>
                   e in dir.people && dir.people[e].companyId == companyId && !dir.people[e].archived)
             && (forall e :: BroughtIn(dir, departments, e) ==> dir.people[e].companyId == companyId)
             && (exists e :: BroughtIn(dir, departments, e) || e in employees))
  {
    hide FirstError, Members;
    ResolvedMeans(dir, companyId, employees, departments);
    var all := Everyone(dir, employees, departments);
    forall e ensures e in all <==> BroughtIn(dir, departments, e) || e in employees {
      EveryoneIsBroughtInOrNamed(dir, employees, departments, e);
    }
    hide ResolutionError, Everyone;
    assert all != {} <==> exists e :: e in all;
    if forall e :: e in all ==> PersonError(dir, companyId, e).None? {
      forall e | e in employees ensures e in dir.people && dir.people[e].companyId == companyId && !dir.people[e].archived {
        assert e in all;
      }
      forall e | BroughtIn(dir, departments, e) ensures dir.people[e].companyId == companyId {
        assert e in all;
      }
    }
  }

  /** Looking at each name once finds the same first offender as looking at all of them. */
  lemma {:induction false} FirstErrorOfUnique(errorOf: Uuid -> Option<Error>, ids: seq<Uuid>, n: nat)
    requires n <= |ids|
    ensures FirstError(errorOf, UniqueUpTo(ids, n)) == FirstError(errorOf, ids[..n])
  {
    if n > 0 {
      FirstErrorOfUnique(errorOf, ids, n - 1);
      UniqueUpToMeans(ids, n - 1);
      var front := UniqueUpTo(ids, n - 1);
      assert ids[..n] == ids[..n - 1] + [ids[n - 1]];
      FirstErrorAppend(errorOf, ids[..n - 1], ids[n - 1]);
      FirstErrorAppend(errorOf, front, ids[n - 1]);
      FirstErrorIsNone(errorOf, front);
      if ids[n - 1] in front && FirstError(errorOf, front).None? {
        var k :| 0 <= k < |front| && front[k] == ids[n - 1];
        assert errorOf(front[k]).None?;
      }
    }
  }

  lemma {:induction false} FirstErrorAppend(errorOf: Uuid -> Option<Error>, ids: seq<Uuid>, id: Uuid)
    ensures FirstError(errorOf, ids + [id])
         == if FirstError(errorOf, ids).Some? then FirstError(errorOf, ids) else errorOf(id)
    decreases |ids|
  {
    if ids == [] {
      assert ids + [id] == [id] && [id][1..] == [];
    } else {
      FirstErrorAppend(errorOf, ids[1..], id);
      assert (ids + [id])[1..] == ids[1..] + [id];
    }
  }

  /** A department that is not the company's is not found, and one that is not active is invalid; the first such one decides. */
  lemma FirstBadDepartmentDecides(dir: Directory, companyId: Uuid, employees: seq<Uuid>, departments: seq<Uuid>, n: nat)
    requires n < |departments|
    requires forall k :: 0 <= k < n ==>
      departments[k] in dir.departments && dir.departments[departments[k]].companyId == companyId && dir.departments[departments[k]].active
    ensures var d := departments[n];
      && (d !in dir.departments || dir.departments[d].companyId != companyId
          ==> ResolutionError(dir, companyId, employees, departments) == Some(NotFound))
      && (d in dir.departments && dir.departments[d].companyId == companyId && !dir.departments[d].active
          ==> ResolutionError(dir, companyId, employees, departments) == Some(Validation))
  {
    hide Members, UniqueUpTo;
    var check := DepartmentCheck(dir, companyId);
    FirstErrorOfUnique(check, departments, |departments|);
    assert departments[..|departments|] == departments;
    if check(departments[n]).Some? {
      FirstErrorFound(check, departments, n);
    }
  }

  /** With usable departments that bring in colleagues only, the first named employee that is unusable decides. */
  lemma FirstBadEmployeeDecides(dir: Directory, companyId: Uuid, employees: seq<Uuid>, departments: seq<Uuid>, n: nat)
    requires n < |employees|
    requires forall d :: d in departments ==> d in dir.departments && dir.departments[d].companyId == companyId && dir.departments[d].active
    requires forall e :: BroughtIn(dir, departments, e) ==> dir.people[e].companyId == companyId
    requires forall k :: 0 <= k < n ==>
      employees[k] in dir.people && dir.people[employees[k]].companyId == companyId && !dir.people[employees[k]].archived
    ensures var e := employees[n];
      && (e !in dir.people || dir.people[e].companyId != companyId
          ==> ResolutionError(dir, companyId, employees, departments) == Some(NotFound))
      && (e in dir.people && dir.people[e].companyId == companyId && dir.people[e].archived
          ==> ResolutionError(dir, companyId, employees, departments) == Some(Validation))
  {
    hide UniqueUpTo, Distinct;
    var check := PersonCheck(dir, companyId);
    UniqueMeans(departments);
    FirstErrorIsNone(DepartmentCheck(dir, companyId), Unique(departments));
    forall e | e in Members(dir, departments) ensures BroughtIn(dir, departments, e) {
    }
    FirstErrorOfUnique(check, employees, |employees|);
    assert employees[..|employees|] == employees;
    if check(employees[n]).Some? {
      FirstErrorFound(check, employees, n);
    }
  }

  /** A department that brings in somebody of another company is not found, when no department is unusable. */
  lemma StrangerIsNotFound(dir: Directory, companyId: Uuid, employees: seq<Uuid>, departments: seq<Uuid>, e: Uuid)
    requires forall d :: d in departments ==> d in dir.departments && dir.departments[d].companyId == companyId && dir.departments[d].active
    requires BroughtIn(dir, departments, e) && dir.people[e].companyId != companyId
    ensures ResolutionError(dir, companyId, employees, departments) == Some(NotFound)
  {
    hide Distinct, UniqueUpTo;
    UniqueMeans(departments);
    FirstErrorIsNone(DepartmentCheck(dir, companyId), Unique(departments));
    assert e in Members(dir, departments);
  }

  /** With nothing unusable, a selection of nobody is invalid. */
  lemma NobodyIsInvalid(dir: Directory, companyId: Uuid, departments: seq<Uuid>)
    requires forall d :: d in departments ==> d in dir.departments && dir.departments[d].companyId == companyId && dir.departments[d].active
    requires forall e :: !BroughtIn(dir, departments, e)
    ensures ResolutionError(dir, companyId, [], departments) == Some(Validation)
  {
    hide Distinct;
    UniqueMeans(departments);
    FirstErrorIsNone(DepartmentCheck(dir, companyId), Unique(departments));
    forall e ensures e !in Members(dir, departments) {
      assert !BroughtIn(dir, departments, e);
    }
    assert Members(dir, departments) == {};
    assert Unique<Uuid>([]) == [] && FirstError(PersonCheck(dir, companyId), []).None?;
  }

  method FirstOffender(errorOf: Uuid -> Option<Error>, ids: seq<Uuid>) returns (error: Option<Error>)
    ensures error == FirstError(errorOf, ids)
  {
    for i := 0 to |ids|
      invariant forall k :: 0 <= k < i ==> errorOf(ids[k]).None?
    {
      if errorOf(ids[i]).Some? {
        FirstErrorFound(errorOf, ids, i);
        return errorOf(ids[i]);
      }
    }
    FirstErrorIsNone(errorOf, ids);
    error := None;
  }

  lemma AddOne(xs: seq<Uuid>, x: Uuid)
    ensures Elements(xs + [x]) == Elements(xs) + {x}
    ensures x in Elements(xs) <==> x in xs
    ensures Distinct(xs) && x !in xs ==> Distinct(xs + [x])
  {
  }

  /** The keys of a dict, in some order. */
  method Listing(ids: set<Uuid>) returns (listed: seq<Uuid>)
    ensures Distinct(listed) && Elements(listed) == ids
  {
    hide Distinct, Elements;
    listed := [];
    var rest := ids;
    NoneListed();
    while rest != {}
      invariant Distinct(listed) && rest !! Elements(listed) && rest + Elements(listed) == ids
      decreases rest
    {
      var e :| e in rest;
      AddOne(listed, e);
      rest := rest - {e};
      listed := listed + [e];
    }
  }

  lemma NoneListed()
    ensures Distinct<Uuid>([]) && Elements<Uuid>([]) == {}
  {
  }

  /** `setdefault` for each explicit employee. */
  method Join(byId: seq<Uuid>, explicit: seq<Uuid>) returns (joined: seq<Uuid>)
    requires Distinct(byId)
    ensures Distinct(joined) && Elements(joined) == Elements(byId) + Elements(explicit)
  {
    hide Distinct, Elements;
    joined := byId;
    NoneListed();
    assert explicit[..0] == [];
    for i := 0 to |explicit|
      invariant Distinct(joined) && Elements(joined) == Elements(byId) + Elements(explicit[..i])
    {
      AddOne(explicit[..i], explicit[i]);
      AddOne(joined, explicit[i]);
      assert explicit[..i + 1] == explicit[..i] + [explicit[i]];
      if explicit[i] !in joined {
        joined := joined + [explicit[i]];
      }
    }
    assert explicit[..|explicit|] == explicit;
  }

  method ResolveAssignmentRecipients(dir: Directory, companyId: Uuid, employees: seq<Uuid>, departments: seq<Uuid>)
    returns (r: Result<seq<Uuid>>)
    ensures r.Err? <==> ResolutionError(dir, companyId, employees, departments).Some?
    ensures r.Err? ==> Some(r.error) == ResolutionError(dir, companyId, employees, departments)
    ensures r.Ok? ==> Distinct(r.value) && Elements(r.value) == Everyone(dir, employees, departments) && r.value != []
  {
    hide Distinct, DepartmentCheck, PersonCheck, FirstError, Members;
    var uniqueDepartments := Deduplicate(departments);
    var uniqueEmployees := Deduplicate(employees);
    var error := FirstOffender(DepartmentCheck(dir, companyId), uniqueDepartments);
    if error.Some? {
      return Err(error.value);
    }
    var members := Members(dir, departments);
    if exists e :: e in members && e in dir.people && dir.people[e].companyId != companyId {
      return Err(NotFound);
    }
    error := FirstOffender(PersonCheck(dir, companyId), uniqueEmployees);
    if error.Some? {
      return Err(error.value);
    }
    var byId := Listing(members);
    byId := Join(byId, uniqueEmployees);
    SameElements(employees);
    if byId == [] {
      return Err(Validation);
    }
    assert byId[0] in Elements(byId);
    r := Ok(byId);
  }

  lemma SameElements(ids: seq<Uuid>)
    ensures Elements(Unique(ids)) == Elements(ids)
  {
    hide Unique, Distinct;
    UniqueMeans(ids);
  }
}
