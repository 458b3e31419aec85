/** The attendance routes as the router module writes them, with the
    queries inline. The router is not mounted by the application; its rules
    are proved equal to the service's. */
module AttendanceRouter {

  import opened Common
  import opened Seqs
  import opened Calendar
  import opened Schemas
  import opened Models
  import opened Storage
  import opened Http
  import opened EmployeeRepository
  import opened AttendanceRepository
  import opened AttendanceRules

  /** `POST /api/attendance/`. The framework checks the body against the
      schema and answers 422 before the handler runs, so the handler only
      sees a valid body; it then never answers 500. */
  method MarkAttendance(req: AttendanceCreate, db: Session, now: int) returns (r: Result<AttendanceResponse, HttpError>)
    requires AttendanceBaseValid(req)
    modifies db
    ensures r.Err? ==> r.error.statusCode != InternalServerError
    ensures r == MapErr(Mark(old(db.Snapshot()), req, now).0, RouterError)
    ensures db.Snapshot() == Mark(old(db.Snapshot()), req, now).1
    ensures old(db.Valid()) ==> db.Valid()
  {
    ghost var before := db.Snapshot();
    if Consistent(before) {
      MarkConsistent(before, req, now);
    }
    MarkValidNeverFails(before, req, now);
    var employee := ByKey(db.employees, req.employeeId);
    if employee.None? {
      return Err(RouterError(EmployeeNotFound(req.employeeId)));
    }
    var existing := ByEmployeeAndDate(db.attendance, req.employeeId, req.date);
    if existing.Some? {
      return Err(RouterError(AlreadyMarked(employee.value.fullName, req.date)));
    }
    var stored := db.AddAttendance(req, now);
    match stored
    case Ok(row) => r := Ok(ToResponse(row, employee.value.fullName));
    case Err(_) => r := Err(RouterError(StoreRefused));
  }

  /** `GET /api/attendance/{employee_id}`. */
  method GetEmployeeAttendance(key: int, db: Session) returns (r: Result<seq<AttendanceResponse>, HttpError>)
    ensures r == MapErr(EmployeeAttendance(db.Snapshot(), key), RouterError)
  {
    var employee := ByKey(db.employees, key);
    if employee.None? {
      return Err(RouterError(EmployeeNotFound(key)));
    }
    var name := employee.value.fullName;
    var rows := ByEmployee(db.attendance, key);
    r := Ok(Map(rows, (a: AttendanceRow) => ToResponse(a, name)));
  }

  /** `GET /api/attendance/?date=`. */
  method GetAllAttendance(dateFilter: Option<Date>, db: Session) returns (r: seq<AttendanceResponse>)
    ensures r == AllAttendance(db.Snapshot(), dateFilter)
  {
    var results := AllWithEmployees(db.attendance, db.employees, dateFilter);
    r := Map(results, (p: (AttendanceRow, EmployeeRow)) => ToResponse(p.0, p.1.fullName));
  }
}
