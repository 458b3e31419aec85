/** The attendance service: the checks of `mark_attendance` on top of the
    two repositories, and the two listings. */
module AttendanceService {

  import opened Common
  import opened Seqs
  import opened Calendar
  import opened Schemas
  import opened Models
  import opened Storage
  import opened Http
  import opened AttendanceRules
  import EmployeeRepository
  import AttendanceRepository

  class AttendanceService {
    const attendanceRepo: AttendanceRepository.AttendanceRepository
    const employeeRepo: EmployeeRepository.EmployeeRepository

    /** Both repositories work on the same session. */
    constructor (db: Session)
      ensures attendanceRepo.db == db && employeeRepo.db == db
    {
      attendanceRepo := new AttendanceRepository.AttendanceRepository(db);
      employeeRepo := new EmployeeRepository.EmployeeRepository(db);
    }

    /** `mark_attendance`, with the service's detail texts. It is called
        with a body the framework has already checked against the schema,
        so it never answers 500. */
    method MarkAttendance(req: AttendanceCreate, now: int) returns (r: Result<AttendanceResponse, HttpError>)
      requires attendanceRepo.db == employeeRepo.db
      requires AttendanceBaseValid(req)
      modifies attendanceRepo.db
      ensures r.Err? ==> r.error.statusCode != InternalServerError
      ensures r == MapErr(Mark(old(attendanceRepo.db.Snapshot()), req, now).0, ServiceError)
      ensures attendanceRepo.db.Snapshot() == Mark(old(attendanceRepo.db.Snapshot()), req, now).1
      ensures old(attendanceRepo.db.Valid()) ==> attendanceRepo.db.Valid()
    {
      ghost var before := attendanceRepo.db.Snapshot();
      if Consistent(before) {
        MarkConsistent(before, req, now);
      }
      MarkValidNeverFails(before, req, now);
      var employee := employeeRepo.GetById(req.employeeId);
      if employee.None? {
        return Err(ServiceError(EmployeeNotFound(req.employeeId)));
      }
      var existing := attendanceRepo.GetByEmployeeAndDate(req.employeeId, req.date);
      if existing.Some? {
        return Err(ServiceError(AlreadyMarked(employee.value.fullName, req.date)));
      }
      var stored := attendanceRepo.Create(req, now);
      match stored
      case Ok(row) => r := Ok(ToResponse(row, employee.value.fullName));
      case Err(_) => r := Err(ServiceError(StoreRefused));
    }

    /** `get_employee_attendance`. */
    method GetEmployeeAttendance(key: int) returns (r: Result<seq<AttendanceResponse>, HttpError>)
      requires attendanceRepo.db == employeeRepo.db
      ensures r == MapErr(EmployeeAttendance(attendanceRepo.db.Snapshot(), key), ServiceError)
    {
      var employee := employeeRepo.GetById(key);
      if employee.None? {
        return Err(ServiceError(EmployeeNotFound(key)));
      }
      var name := employee.value.fullName;
      var rows := attendanceRepo.GetByEmployeeId(key);
      r := Ok(Map(rows, (a: AttendanceRow) => ToResponse(a, name)));
    }

    /** `get_all_attendance`. */
    method GetAllAttendance(dateFilter: Option<Date>) returns (r: seq<AttendanceResponse>)
      requires attendanceRepo.db == employeeRepo.db
      ensures r == AllAttendance(attendanceRepo.db.Snapshot(), dateFilter)
    {
      var results := attendanceRepo.GetAllWithEmployees(dateFilter);
      r := Map(results, (p: (AttendanceRow, EmployeeRow)) => ToResponse(p.0, p.1.fullName));
    }
  }
}
