/** What creating, deleting and listing employees does to and with the
    tables. The employee service and the employee router are both proved to
    behave as these functions say. */
module EmployeeRules {

  import opened Common
  import opened Seqs
  import opened Schemas
  import opened Models
  import opened Http
  import opened EmployeeRepository

  /** A stored employee as the API reports it. */
  function ToEmployeeResponse(e: EmployeeRow): EmployeeResponse
  {
    EmployeeResponse(e.id, e.employeeId, e.fullName, e.email, e.department, e.createdAt)
  }

  /** Some stored employee already has this identifier. */
  predicate EmployeeIdInUse(es: seq<EmployeeRow>, employeeId: string)
  {
    exists i :: 0 <= i < |es| && es[i].employeeId == employeeId
  }

  /** Some stored employee already has this e-mail. */
  predicate EmailInUse(es: seq<EmployeeRow>, email: string)
  {
    exists i :: 0 <= i < |es| && es[i].email == email
  }

  /** `create_employee`: a used identifier is refused first, then a used
      e-mail (both 400); otherwise the employee is stored and reported. */
  function Create(t: Tables, req: EmployeeCreate, now: int): (out: (Result<EmployeeResponse, Rejection>, Tables))
    ensures out.0.Err? ==> out.1 == t
    ensures out.0 == Err(EmployeeIdTaken(req.employeeId)) <==> EmployeeIdInUse(t.employees, req.employeeId)
    ensures out.0 == Err(EmailTaken(req.email)) <==>
      (!EmployeeIdInUse(t.employees, req.employeeId) && EmailInUse(t.employees, req.email))
    ensures out.0.Ok? ==>
      out.1 == t.(employees := t.employees + [NewEmployeeRow(t, req, now)], nextEmployeeKey := t.nextEmployeeKey + 1)
    ensures out.0.Ok? ==>
      out.0.value == EmployeeResponse(t.nextEmployeeKey, req.employeeId, req.fullName, req.email, req.department, now)
  {
    if ByEmployeeId(t.employees, req.employeeId).Some? then (Err(EmployeeIdTaken(req.employeeId)), t)
    else if ByEmail(t.employees, req.email).Some? then (Err(EmailTaken(req.email)), t)
    else
      var stored := InsertEmployee(t, req, now);
      match stored.0
      case Ok(row) => (Ok(ToEmployeeResponse(row)), stored.1)
      case Err(_) => (Err(StoreRefused), t)
  }

  /** Creating keeps every table constraint, so identifiers and e-mails stay
      unique. */
  lemma CreateConsistent(t: Tables, req: EmployeeCreate, now: int)
    requires Consistent(t)
    ensures Consistent(Create(t, req, now).1)
  {
    InsertEmployeeConsistent(t, req, now);
  }

  /** A valid request with an unused identifier and e-mail is refused by the
      database only when the e-mail is longer than its column: the request
      validator does not bound the e-mail's length. */
  lemma CreateRefusedOnlyForLongEmail(t: Tables, req: EmployeeCreate, now: int)
    requires EmployeeBaseValid(req)
    ensures Create(t, req, now).0 == Err(StoreRefused) <==>
      (!EmployeeIdInUse(t.employees, req.employeeId) && !EmailInUse(t.employees, req.email) && |req.email| > EmailWidth)
  {
  }

  /** The tables after a run of creates. */
  function CreateAll(t: Tables, reqs: seq<EmployeeCreate>, now: int): Tables
    decreases |reqs|
  {
    if reqs == [] then t else CreateAll(Create(t, reqs[0], now).1, reqs[1..], now)
  }

  /** However many creates are made, identifiers and e-mails stay unique:
      the service's own checks keep this, whatever the database enforces. */
  lemma {:induction false} CreateAllKeepsUnique(t: Tables, reqs: seq<EmployeeCreate>, now: int)
    requires EmployeeIdsUnique(t.employees) && EmailsUnique(t.employees)
    ensures EmployeeIdsUnique(CreateAll(t, reqs, now).employees) && EmailsUnique(CreateAll(t, reqs, now).employees)
    decreases |reqs|
  {
    if reqs != [] {
      CreateKeepsUnique(t, reqs[0], now);
      CreateAllKeepsUnique(Create(t, reqs[0], now).1, reqs[1..], now);
    }
  }

  lemma CreateKeepsUnique(t: Tables, req: EmployeeCreate, now: int)
    requires EmployeeIdsUnique(t.employees) && EmailsUnique(t.employees)
    ensures EmployeeIdsUnique(Create(t, req, now).1.employees) && EmailsUnique(Create(t, req, now).1.employees)
  {
    if Create(t, req, now).0.Ok? {
      var row := NewEmployeeRow(t, req, now);
      var es := t.employees;
      assert !EmployeeIdInUse(es, req.employeeId) && !EmailInUse(es, req.email);
      PairwiseAppend(es, row, (a: EmployeeRow, b: EmployeeRow) => a.employeeId != b.employeeId);
      PairwiseAppend(es, row, (a: EmployeeRow, b: EmployeeRow) => a.email != b.email);
    }
  }

  /** `delete_employee`: 404 for an unknown key, otherwise the employee and
      its attendance go. */
  function Delete(t: Tables, key: int): (out: (Result<(), Rejection>, Tables))
    ensures out.0.Err? <==> !HasEmployee(t.employees, key)
    ensures out.0.Err? ==> out.0.error == EmployeeNotFound(key) && out.1 == t
    ensures out.0.Ok? ==> out.1 == DeleteEmployee(t, key)
  {
    match ByKey(t.employees, key)
    case None => (Err(EmployeeNotFound(key)), t)
    case Some(e) => (Ok(()), DeleteEmployee(t, e.id))
  }

  /** Deleting a stored employee removes exactly one employee row, and no
      other row of the table changes. */
  lemma DeleteRemovesOne(t: Tables, key: int)
    requires EmployeeKeysUnique(t.employees) && HasEmployee(t.employees, key)
    ensures var t' := Delete(t, key).1;
      |t'.employees| == |t.employees| - 1
      && !HasEmployee(t'.employees, key)
      && IsSubseq(t'.employees, t.employees)
  {
    var p := (e: EmployeeRow) => e.id == key;
    var q := (e: EmployeeRow) => e.id != key;
    KeepOneMatch(t.employees, key);
    KeepDisjointCount(t.employees, p, q);
    KeepIsSubseq(t.employees, q);
    assert Delete(t, key).1.employees == Keep(t.employees, q);
  }

  /** Deleting keeps every table constraint: no attendance row is left for
      the removed employee. */
  lemma DeleteConsistent(t: Tables, key: int)
    requires Consistent(t)
    ensures Consistent(Delete(t, key).1)
  {
    DeleteEmployeeConsistent(t, key);
  }

  /** `get_all_employees`: one response per stored employee, in storage
      order. */
  function AllEmployees(t: Tables): (r: seq<EmployeeResponse>)
    ensures |r| == |t.employees|
    ensures forall i :: 0 <= i < |r| ==>
      r[i].id == t.employees[i].id && r[i].employeeId == t.employees[i].employeeId && r[i].email == t.employees[i].email
      && r[i].fullName == t.employees[i].fullName && r[i].department == t.employees[i].department
      && r[i].createdAt == t.employees[i].createdAt
  {
    Map(t.employees, ToEmployeeResponse)
  }
}
