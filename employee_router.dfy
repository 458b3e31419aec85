/** The employee routes as the router module writes them, with the queries
    inline. The router is not mounted by the application; its rules are
    proved equal to the service's, and its duplicate-identifier detail text
    differs. */
module EmployeeRouter {

  import opened Common
  import opened Seqs
  import opened Schemas
  import opened Models
  import opened Storage
  import opened Http
  import opened EmployeeRepository
  import opened EmployeeRules

  /** `POST /api/employees/`. The framework checks the body against the
      schema and answers 422 before the handler runs, so the handler only
      sees a valid body. */
  method CreateEmployee(req: EmployeeCreate, db: Session, now: int) returns (r: Result<EmployeeResponse, HttpError>)
    requires EmployeeBaseValid(req)
    modifies db
    ensures r == MapErr(Create(old(db.Snapshot()), req, now).0, RouterError)
    ensures db.Snapshot() == Create(old(db.Snapshot()), req, now).1
    ensures old(db.Valid()) ==> db.Valid()
  {
    ghost var before := db.Snapshot();
    if Consistent(before) {
      CreateConsistent(before, req, now);
    }
    var existing := ByEmployeeId(db.employees, req.employeeId);
    if existing.Some? {
      return Err(RouterError(EmployeeIdTaken(req.employeeId)));
    }
    var sameEmail := ByEmail(db.employees, req.email);
    if sameEmail.Some? {
      return Err(RouterError(EmailTaken(req.email)));
    }
    var stored := db.AddEmployee(req, now);
    match stored
    case Ok(row) => r := Ok(ToEmployeeResponse(row));
    case Err(_) => r := Err(RouterError(StoreRefused));
  }

  /** `GET /api/employees/`. */
  method GetEmployees(db: Session) returns (r: seq<EmployeeResponse>)
    ensures r == AllEmployees(db.Snapshot())
  {
    r := Map(db.employees, ToEmployeeResponse);
  }

  /** `DELETE /api/employees/{employee_id}`. */
  method DeleteEmployee(key: int, db: Session) returns (r: Result<(), HttpError>)
    modifies db
    ensures r == MapErr(Delete(old(db.Snapshot()), key).0, RouterError)
    ensures db.Snapshot() == Delete(old(db.Snapshot()), key).1
    ensures old(db.Valid()) ==> db.Valid()
  {
    ghost var before := db.Snapshot();
    if Consistent(before) {
      DeleteConsistent(before, key);
    }
    var employee := ByKey(db.employees, key);
    if employee.None? {
      return Err(RouterError(EmployeeNotFound(key)));
    }
    db.Delete(employee.value.id);
    r := Ok(());
  }
}
