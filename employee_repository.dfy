/** The employee queries and the employee table's writes. */
module EmployeeRepository {

  import opened Common
  import opened Seqs
  import opened Schemas
  import opened Models
  import opened Storage

  /** `filter(Employee.id == key).first()`. */
  function ByKey(es: seq<EmployeeRow>, key: int): (r: Option<EmployeeRow>)
    ensures r.Some? ==> r.value in es && r.value.id == key
    ensures r.None? <==> forall i :: 0 <= i < |es| ==> es[i].id != key
    ensures r.None? <==> !HasEmployee(es, key)
  {
    FindFirst(es, (e: EmployeeRow) => e.id == key)
  }

  /** `filter(Employee.employee_id == employeeId).first()`. */
  function ByEmployeeId(es: seq<EmployeeRow>, employeeId: string): (r: Option<EmployeeRow>)
    ensures r.Some? ==> r.value in es && r.value.employeeId == employeeId
    ensures r.None? <==> forall i :: 0 <= i < |es| ==> es[i].employeeId != employeeId
  {
    FindFirst(es, (e: EmployeeRow) => e.employeeId == employeeId)
  }

  /** `filter(Employee.email == email).first()`. */
  function ByEmail(es: seq<EmployeeRow>, email: string): (r: Option<EmployeeRow>)
    ensures r.Some? ==> r.value in es && r.value.email == email
    ensures r.None? <==> forall i :: 0 <= i < |es| ==> es[i].email != email
  {
    FindFirst(es, (e: EmployeeRow) => e.email == email)
  }

  /** With unique keys, looking up a stored employee's key finds that
      employee. */
  lemma ByKeyFindsStored(es: seq<EmployeeRow>, e: EmployeeRow)
    requires EmployeeKeysUnique(es) && e in es
    ensures ByKey(es, e.id) == Some(e)
  {
    FindFirstUnique(es, (x: EmployeeRow) => x.id == e.id, e);
  }

  function Department(e: EmployeeRow): string
  {
    e.department
  }

  /** `query(Employee.department).distinct()`: each department in use, once,
      in the order of its first employee. */
  function Departments(es: seq<EmployeeRow>): (r: seq<string>)
    ensures NoDuplicates(r)
    ensures forall i :: 0 <= i < |r| ==> exists j :: 0 <= j < |es| && es[j].department == r[i]
    ensures forall j :: 0 <= j < |es| ==> es[j].department in r
  {
    var all := Map(es, Department);
    var r := Distinct(all);
    assert forall i :: 0 <= i < |r| ==> exists j :: 0 <= j < |es| && es[j].department == r[i] by {
      forall i | 0 <= i < |r| ensures exists j :: 0 <= j < |es| && es[j].department == r[i] {
        var j :| 0 <= j < |all| && all[j] == r[i];
        assert es[j].department == r[i];
      }
    }
    assert forall j :: 0 <= j < |es| ==> es[j].department == all[j];
    r
  }

  class EmployeeRepository {
    const db: Session

    constructor (db: Session)
      ensures this.db == db
    {
      this.db := db;
    }

    /** Stores a new employee; the database may refuse it. */
    method Create(data: EmployeeCreate, now: int) returns (r: Result<EmployeeRow, StoreError>)
      modifies db
      ensures (r, db.Snapshot()) == InsertEmployee(old(db.Snapshot()), data, now)
      ensures old(db.Valid()) ==> db.Valid()
    {
      r := db.AddEmployee(data, now);
    }

    /** Every stored employee, in storage order. */
    method GetAll() returns (r: seq<EmployeeRow>)
      ensures r == db.employees
    {
      r := db.employees;
    }

    method GetById(key: int) returns (r: Option<EmployeeRow>)
      ensures r == ByKey(db.employees, key)
    {
      r := ByKey(db.employees, key);
    }

    method GetByEmployeeId(employeeId: string) returns (r: Option<EmployeeRow>)
      ensures r == ByEmployeeId(db.employees, employeeId)
    {
      r := ByEmployeeId(db.employees, employeeId);
    }

    method GetByEmail(email: string) returns (r: Option<EmployeeRow>)
      ensures r == ByEmail(db.employees, email)
    {
      r := ByEmail(db.employees, email);
    }

    /** Removes `employee` (by its key) with its attendance rows. */
    method Delete(employee: EmployeeRow)
      modifies db
      ensures db.Snapshot() == DeleteEmployee(old(db.Snapshot()), employee.id)
      ensures old(db.Valid()) ==> db.Valid()
    {
      db.Delete(employee.id);
    }

    method GetAllDepartments() returns (r: seq<string>)
      ensures r == Departments(db.employees)
    {
      r := Departments(db.employees);
    }
  }
}
