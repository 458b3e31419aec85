/** What marking and listing attendance does to and with the tables. The
    attendance service and the attendance router are both proved to behave
    as these functions say. */
module AttendanceRules {

  import opened Common
  import opened Seqs
  import opened Calendar
  import opened Schemas
  import opened Models
  import opened Http
  import opened EmployeeRepository
  import opened AttendanceRepository

  /** An attendance row reported under an employee's name. */
  function ToResponse(a: AttendanceRow, employeeName: string): AttendanceResponse
  {
    AttendanceResponse(a.id, a.employeeId, employeeName, a.date, a.status, a.createdAt)
  }

  /** Some stored employee has key `key` and name `name`. */
  predicate IsNameOf(es: seq<EmployeeRow>, key: int, name: string)
  {
    exists i :: 0 <= i < |es| && es[i].id == key && es[i].fullName == name
  }

  /** No row records employee `key` on day `d`. */
  predicate NoRecordFor(rs: seq<AttendanceRow>, key: int, d: Date)
  {
    forall i :: 0 <= i < |rs| ==> !(rs[i].employeeId == key && rs[i].date == d)
  }

  /** `mark_attendance`: an unknown employee is refused first (404), then a
      second record for the same employee and day (400); otherwise the row is
      stored and reported under the employee's name. */
  function Mark(t: Tables, req: AttendanceCreate, now: int): (out: (Result<AttendanceResponse, Rejection>, Tables))
    ensures out.0.Err? ==> out.1 == t
    ensures out.0 == Err(EmployeeNotFound(req.employeeId)) <==> !HasEmployee(t.employees, req.employeeId)
    ensures (HasEmployee(t.employees, req.employeeId) && !NoRecordFor(t.attendance, req.employeeId, req.date)) ==>
      out.0.Err? && out.0.error.AlreadyMarked? && out.0.error.date == req.date
      && IsNameOf(t.employees, req.employeeId, out.0.error.employeeName)
    ensures out.0.Err? && out.0.error.AlreadyMarked? ==>
      HasEmployee(t.employees, req.employeeId) && !NoRecordFor(t.attendance, req.employeeId, req.date)
    ensures (AttendanceBaseValid(req) && HasEmployee(t.employees, req.employeeId)
             && NoRecordFor(t.attendance, req.employeeId, req.date)) ==> out.0.Ok?
    ensures out.0.Ok? ==>
      out.1 == t.(attendance := t.attendance + [NewAttendanceRow(t, req, now)], nextAttendanceKey := t.nextAttendanceKey + 1)
    ensures out.0.Ok? ==>
      var resp := out.0.value;
      resp.id == t.nextAttendanceKey && resp.employeeId == req.employeeId && resp.date == req.date
      && resp.status == req.status && resp.createdAt == now
      && IsNameOf(t.employees, req.employeeId, resp.employeeName)
  {
    match ByKey(t.employees, req.employeeId)
    case None => (Err(EmployeeNotFound(req.employeeId)), t)
    case Some(emp) =>
      assert emp.id == req.employeeId && emp in t.employees;
      if ByEmployeeAndDate(t.attendance, req.employeeId, req.date).Some? then
        (Err(AlreadyMarked(emp.fullName, req.date)), t)
      else
        var stored := InsertAttendance(t, req, now);
        assert AttendanceBaseValid(req) ==> AttendanceRowAccepted(t, NewAttendanceRow(t, req, now)) by {
          if AttendanceBaseValid(req) {
            assert |req.status| <= StatusWidth;
            assert HasEmployee(t.employees, req.employeeId) by {
              var i :| 0 <= i < |t.employees| && t.employees[i] == emp;
            }
          }
        }
        match stored.0
        case Ok(row) => (Ok(ToResponse(row, emp.fullName)), stored.1)
        case Err(_) => (Err(StoreRefused), t)
  }

  /** A validated request is refused only with a 404 or a 400: the
      service's own checks leave the database nothing to refuse. */
  lemma MarkValidNeverFails(t: Tables, req: AttendanceCreate, now: int)
    requires AttendanceBaseValid(req)
    ensures Mark(t, req, now).0.Err? ==> StatusCode(Mark(t, req, now).0.error) != InternalServerError
  {
  }

  /** Marking keeps every table constraint. */
  lemma MarkConsistent(t: Tables, req: AttendanceCreate, now: int)
    requires Consistent(t)
    ensures Consistent(Mark(t, req, now).1)
  {
    InsertAttendanceConsistent(t, req, now);
  }

  /** The tables after a run of marks. */
  function MarkAll(t: Tables, reqs: seq<AttendanceCreate>, now: int): Tables
    decreases |reqs|
  {
    if reqs == [] then t else MarkAll(Mark(t, reqs[0], now).1, reqs[1..], now)
  }

  /** However many marks are made, no two rows share an employee and a day.
      The service's own duplicate check keeps this, whatever the database
      enforces. */
  lemma {:induction false} MarkAllKeepsDaysUnique(t: Tables, reqs: seq<AttendanceCreate>, now: int)
    requires EmployeeDateUnique(t.attendance)
    ensures EmployeeDateUnique(MarkAll(t, reqs, now).attendance)
    decreases |reqs|
  {
    if reqs != [] {
      MarkKeepsDaysUnique(t, reqs[0], now);
      MarkAllKeepsDaysUnique(Mark(t, reqs[0], now).1, reqs[1..], now);
    }
  }

  lemma MarkKeepsDaysUnique(t: Tables, req: AttendanceCreate, now: int)
    requires EmployeeDateUnique(t.attendance)
    ensures EmployeeDateUnique(Mark(t, req, now).1.attendance)
  {
    var out := Mark(t, req, now);
    if out.0.Ok? {
      var row := NewAttendanceRow(t, req, now);
      var rs := t.attendance;
      assert ByKey(t.employees, req.employeeId).Some?;
      assert ByEmployeeAndDate(rs, req.employeeId, req.date).None?;
      PairwiseAppend(rs, row, (a: AttendanceRow, b: AttendanceRow) => !(a.employeeId == b.employeeId && a.date == b.date));
    }
  }

  /** `get_employee_attendance`: 404 for an unknown employee, otherwise that
      employee's rows, newest first, under the employee's name. */
  function EmployeeAttendance(t: Tables, key: int): (r: Result<seq<AttendanceResponse>, Rejection>)
    ensures r.Err? <==> !HasEmployee(t.employees, key)
    ensures r.Err? ==> r.error == EmployeeNotFound(key)
  {
    match ByKey(t.employees, key)
    case None => Err(EmployeeNotFound(key))
    case Some(emp) => Ok(Map(ByEmployee(t.attendance, key), (a: AttendanceRow) => ToResponse(a, emp.fullName)))
  }

  function ResponseDateKey(r: AttendanceResponse): int
  {
    Ord(r.date)
  }

  /** Every row a known employee's listing reports is a stored row of
      theirs, reported under their name. */
  lemma EmployeeAttendanceIsTheirs(t: Tables, key: int)
    requires HasEmployee(t.employees, key)
    ensures EmployeeAttendance(t, key).Ok?
    ensures var r := EmployeeAttendance(t, key).value;
      forall i :: 0 <= i < |r| ==> r[i].employeeId == key && IsNameOf(t.employees, key, r[i].employeeName)
    ensures var r := EmployeeAttendance(t, key).value;
      forall i :: 0 <= i < |r| ==>
        exists k :: 0 <= k < |t.attendance| && r[i] == ToResponse(t.attendance[k], r[i].employeeName)
  {
    var emp := ByKey(t.employees, key).value;
    assert IsNameOf(t.employees, key, emp.fullName) by {
      var i :| 0 <= i < |t.employees| && t.employees[i] == emp;
    }
    var rows := ByEmployee(t.attendance, key);
    var r := EmployeeAttendance(t, key).value;
    forall i | 0 <= i < |r|
      ensures r[i].employeeId == key && r[i].employeeName == emp.fullName
      ensures exists k :: 0 <= k < |t.attendance| && r[i] == ToResponse(t.attendance[k], r[i].employeeName)
    {
      assert rows[i] in rows;
      var k :| 0 <= k < |t.attendance| && t.attendance[k] == rows[i];
      assert r[i] == ToResponse(t.attendance[k], emp.fullName);
    }
  }

  /** Every row of a known employee is in their listing. */
  lemma EmployeeAttendanceReportsAll(t: Tables, key: int, i: nat)
    requires HasEmployee(t.employees, key)
    requires i < |t.attendance| && t.attendance[i].employeeId == key
    ensures EmployeeAttendance(t, key).Ok?
    ensures var r := EmployeeAttendance(t, key).value;
      exists j :: 0 <= j < |r| && r[j].id == t.attendance[i].id && r[j].date == t.attendance[i].date && r[j].status == t.attendance[i].status
  {
    var emp := ByKey(t.employees, key).value;
    var rows := ByEmployee(t.attendance, key);
    var r := EmployeeAttendance(t, key).value;
    var a := t.attendance[i];
    assert a in rows;
    var j :| 0 <= j < |rows| && rows[j] == a;
    assert r[j] == ToResponse(a, emp.fullName);
  }

  /** A known employee's listing comes newest first. */
  lemma EmployeeAttendanceNewestFirst(t: Tables, key: int)
    requires HasEmployee(t.employees, key)
    ensures EmployeeAttendance(t, key).Ok?
    ensures SortedDesc(EmployeeAttendance(t, key).value, ResponseDateKey)
  {
    var rows := ByEmployee(t.attendance, key);
    var r := EmployeeAttendance(t, key).value;
    forall i, j | 0 <= i < j < |r| ensures ResponseDateKey(r[i]) >= ResponseDateKey(r[j]) {
      assert r[i].date == rows[i].date && r[j].date == rows[j].date;
      assert DateKey(rows[i]) >= DateKey(rows[j]);
    }
  }

  /** `get_all_attendance(date_filter)`: every joined row under its
      employee's name, only those of the given date when there is one,
      newest first. */
  function AllAttendance(t: Tables, dateFilter: Option<Date>): (r: seq<AttendanceResponse>)
    ensures SortedDesc(r, ResponseDateKey)
    ensures dateFilter.Some? ==> forall i :: 0 <= i < |r| ==> r[i].date == dateFilter.value
    ensures forall i :: 0 <= i < |r| ==> IsNameOf(t.employees, r[i].employeeId, r[i].employeeName)
    ensures forall i :: 0 <= i < |r| ==>
      exists k :: 0 <= k < |t.attendance| && r[i] == ToResponse(t.attendance[k], r[i].employeeName)
  {
    var pairs := AllWithEmployees(t.attendance, t.employees, dateFilter);
    var r := Map(pairs, (p: (AttendanceRow, EmployeeRow)) => ToResponse(p.0, p.1.fullName));
    forall i | 0 <= i < |r|
      ensures IsNameOf(t.employees, r[i].employeeId, r[i].employeeName)
      ensures exists k :: 0 <= k < |t.attendance| && r[i] == ToResponse(t.attendance[k], r[i].employeeName)
    {
      assert pairs[i] in pairs;
      JoinedResponse(t, pairs[i]);
    }
    forall i, j | 0 <= i < j < |r| ensures ResponseDateKey(r[i]) >= ResponseDateKey(r[j]) {
      assert PairDateKey(pairs[i]) >= PairDateKey(pairs[j]);
    }
    r
  }

  /** A joined pair, reported under its employee's name, is a stored row
      under the name of the stored employee it names. */
  lemma JoinedResponse(t: Tables, p: (AttendanceRow, EmployeeRow))
    requires p in Join(t.attendance, t.employees)
    ensures IsNameOf(t.employees, p.0.employeeId, p.1.fullName)
    ensures exists k :: 0 <= k < |t.attendance| && ToResponse(p.0, p.1.fullName) == ToResponse(t.attendance[k], p.1.fullName)
  {
    var k :| 0 <= k < |t.employees| && t.employees[k] == p.1;
    var m :| 0 <= m < |t.attendance| && t.attendance[m] == p.0;
  }

  /** When employee keys are unique and every row names a stored employee
      (both part of the table constraints), the unfiltered listing reports
      every stored row, once. */
  lemma AllAttendanceComplete(t: Tables, i: nat)
    requires EmployeeKeysUnique(t.employees) && ReferencesResolve(t) && i < |t.attendance|
    ensures |AllAttendance(t, None)| == |t.attendance|
    ensures exists j :: 0 <= j < |AllAttendance(t, None)| && AllAttendance(t, None)[j].id == t.attendance[i].id
  {
    AllWithEmployeesComplete(t.attendance, t.employees, i);
    var all := AllWithEmployees(t.attendance, t.employees, None);
    var j :| 0 <= j < |t.attendance| && all[j].0 == t.attendance[i];
    assert AllAttendance(t, None)[j].id == t.attendance[i].id;
  }

  /** Under the same constraints, the listing for day `d` reports every row
      of that day. */
  lemma AllAttendanceOfDay(t: Tables, d: Date, i: nat)
    requires EmployeeKeysUnique(t.employees) && ReferencesResolve(t)
    requires i < |t.attendance| && t.attendance[i].date == d
    ensures exists j :: 0 <= j < |AllAttendance(t, Some(d))| && AllAttendance(t, Some(d))[j].id == t.attendance[i].id
  {
    var joined := Join(t.attendance, t.employees);
    assert i < |joined| && joined[i].0 == t.attendance[i] by {
      JoinOnePerRow(t.attendance, t.employees);
    }
    var p := joined[i];
    var some := AllWithEmployees(t.attendance, t.employees, Some(d));
    assert p in some by {
      assert p in joined;
    }
    var k :| 0 <= k < |some| && some[k] == p;
    assert AllAttendance(t, Some(d))[k].id == p.0.id;
  }
}
