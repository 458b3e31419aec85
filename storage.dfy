/** The database session the repositories and routers share: the two
    tables held as fields that `add`/`delete` followed by `commit` update in
    place. */
module Storage {

  import opened Common
  import opened Schemas
  import opened Models
  import Seqs

  class Session {
    var employees: seq<EmployeeRow>
    var attendance: seq<AttendanceRow>
    var nextEmployeeKey: int
    var nextAttendanceKey: int

    /** The stored state as a value. */
    function Snapshot(): Tables
      reads this
    {
      Tables(employees, attendance, nextEmployeeKey, nextAttendanceKey)
    }

    /** The declared constraints hold of the stored state. */
    ghost predicate Valid()
      reads this
    {
      Consistent(Snapshot())
    }

    /** A fresh, empty database. */
    constructor ()
      ensures Snapshot() == EmptyTables && Valid()
    {
      employees, attendance := [], [];
      nextEmployeeKey, nextAttendanceKey := 1, 1;
    }

    /** Adds and commits an employee row; a refused insert changes nothing. */
    method AddEmployee(data: EmployeeCreate, now: int) returns (r: Result<EmployeeRow, StoreError>)
      modifies this
      ensures (r, Snapshot()) == InsertEmployee(old(Snapshot()), data, now)
      ensures old(Valid()) ==> Valid()
    {
      ghost var before := Snapshot();
      var row := EmployeeRow(nextEmployeeKey, data.employeeId, data.fullName, data.email, data.department, now);
      if EmployeeRowAccepted(Snapshot(), row) {
        employees := employees + [row];
        nextEmployeeKey := nextEmployeeKey + 1;
        r := Ok(row);
      } else {
        r := Err(ConstraintViolation);
      }
      if Consistent(before) {
        InsertEmployeeConsistent(before, data, now);
      }
    }

    /** Adds and commits an attendance row; a refused insert changes nothing. */
    method AddAttendance(data: AttendanceCreate, now: int) returns (r: Result<AttendanceRow, StoreError>)
      modifies this
      ensures (r, Snapshot()) == InsertAttendance(old(Snapshot()), data, now)
      ensures old(Valid()) ==> Valid()
    {
      ghost var before := Snapshot();
      var row := AttendanceRow(nextAttendanceKey, data.employeeId, data.date, data.status, now);
      if AttendanceRowAccepted(Snapshot(), row) {
        attendance := attendance + [row];
        nextAttendanceKey := nextAttendanceKey + 1;
        r := Ok(row);
      } else {
        r := Err(ConstraintViolation);
      }
      if Consistent(before) {
        InsertAttendanceConsistent(before, data, now);
      }
    }

    /** Deletes and commits the employee with key `key`, cascading to its
      attendance rows. */
    method Delete(key: int)
      modifies this
      ensures Snapshot() == DeleteEmployee(old(Snapshot()), key)
      ensures old(Valid()) ==> Valid()
    {
      ghost var before := Snapshot();
      employees := Seqs.Keep(employees, (e: EmployeeRow) => e.id != key);
      attendance := Seqs.Keep(attendance, (a: AttendanceRow) => a.employeeId != key);
      if Consistent(before) {
        DeleteEmployeeConsistent(before, key);
      }
    }
  }
}
