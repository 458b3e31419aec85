/** The two tables of the backend, `employees` and `attendance`, with the
    constraints their declarations put on every stored state, and what the
    database does with an insert or a delete: it refuses any change that
    would break a declared constraint and removes an employee's attendance
    rows with the employee. */
module Models {

  import opened Common
  import opened Calendar
  import opened Seqs
  import opened Schemas

  /** A row of `employees`. `id` is the integer primary key; `employeeId` is
      the organisation's own identifier. `createdAt` is the time of the insert. */
  datatype EmployeeRow = EmployeeRow(
    id: int, employeeId: string, fullName: string, email: string, department: string, createdAt: int)

  /** A row of `attendance`; `employeeId` is the key of an employee row. */
  datatype AttendanceRow = AttendanceRow(id: int, employeeId: int, date: Date, status: string, createdAt: int)

  /** Everything stored, in insertion order, with the next key each table
      will hand out (keys start at 1 and are never reused). */
  datatype Tables = Tables(
    employees: seq<EmployeeRow>, attendance: seq<AttendanceRow>, nextEmployeeKey: int, nextAttendanceKey: int)

  const EmptyTables := Tables([], [], 1, 1)

  const EmployeeIdWidth := 50
  const FullNameWidth := 200
  const EmailWidth := 200
  const DepartmentWidth := 100
  const StatusWidth := 20

  /** The `String(n)` widths of the employee columns. */
  predicate EmployeeColumnsFit(e: EmployeeRow)
  {
    |e.employeeId| <= EmployeeIdWidth && |e.fullName| <= FullNameWidth
    && |e.email| <= EmailWidth && |e.department| <= DepartmentWidth
  }

  /** The `String(20)` status column, the `check_status` constraint and a
      `Date` column holding a real date. */
  predicate AttendanceColumnsFit(a: AttendanceRow)
  {
    |a.status| <= StatusWidth && IsStatus(a.status) && IsValid(a.date)
  }

  predicate EmployeeKeysUnique(es: seq<EmployeeRow>)
  {
    Pairwise(es, (a: EmployeeRow, b: EmployeeRow) => a.id != b.id)
  }

  /** `unique=True` on `employee_id`. */
  predicate EmployeeIdsUnique(es: seq<EmployeeRow>)
  {
    Pairwise(es, (a: EmployeeRow, b: EmployeeRow) => a.employeeId != b.employeeId)
  }

  /** `unique=True` on `email`. */
  predicate EmailsUnique(es: seq<EmployeeRow>)
  {
    Pairwise(es, (a: EmployeeRow, b: EmployeeRow) => a.email != b.email)
  }

  predicate AttendanceKeysUnique(rs: seq<AttendanceRow>)
  {
    Pairwise(rs, (a: AttendanceRow, b: AttendanceRow) => a.id != b.id)
  }

  /** The `unique_employee_date` constraint. */
  predicate EmployeeDateUnique(rs: seq<AttendanceRow>)
  {
    Pairwise(rs, (a: AttendanceRow, b: AttendanceRow) => !(a.employeeId == b.employeeId && a.date == b.date))
  }

  /** Some employee row has primary key `key`. */
  predicate HasEmployee(es: seq<EmployeeRow>, key: int)
  {
    exists i :: 0 <= i < |es| && es[i].id == key
  }

  /** The foreign key: every attendance row names a stored employee. */
  predicate ReferencesResolve(t: Tables)
  {
    forall i :: 0 <= i < |t.attendance| ==> HasEmployee(t.employees, t.attendance[i].employeeId)
  }

  /** Every stored key was handed out by the key counter. */
  predicate KeysIssued(t: Tables)
  {
    t.nextEmployeeKey >= 1 && t.nextAttendanceKey >= 1
    && (forall i :: 0 <= i < |t.employees| ==> 1 <= t.employees[i].id < t.nextEmployeeKey)
    && (forall i :: 0 <= i < |t.attendance| ==> 1 <= t.attendance[i].id < t.nextAttendanceKey)
  }

  /** Every constraint declared on the two tables. */
  predicate Consistent(t: Tables)
  {
    (forall i :: 0 <= i < |t.employees| ==> EmployeeColumnsFit(t.employees[i]))
    && (forall i :: 0 <= i < |t.attendance| ==> AttendanceColumnsFit(t.attendance[i]))
    && EmployeeKeysUnique(t.employees) && EmployeeIdsUnique(t.employees) && EmailsUnique(t.employees)
    && AttendanceKeysUnique(t.attendance) && EmployeeDateUnique(t.attendance)
    && ReferencesResolve(t) && KeysIssued(t)
  }

  lemma EmptyTablesConsistent()
    ensures Consistent(EmptyTables)
  {
  }

  /** A stored key matches exactly one employee when keys are unique. */
  lemma {:induction false} KeepOneMatch(es: seq<EmployeeRow>, key: int)
    requires EmployeeKeysUnique(es) && HasEmployee(es, key)
    ensures |Keep(es, (e: EmployeeRow) => e.id == key)| == 1
  {
    var p := (e: EmployeeRow) => e.id == key;
    if p(es[0]) {
      KeepNone(es[1..], p);
    } else {
      var i :| 0 <= i < |es| && es[i].id == key;
      assert es[1..][i - 1].id == key;
      assert EmployeeKeysUnique(es[1..]) by {
        KeepPairwiseTail(es);
      }
      KeepOneMatch(es[1..], key);
    }
  }

  lemma KeepPairwiseTail(es: seq<EmployeeRow>)
    requires es != [] && EmployeeKeysUnique(es)
    ensures EmployeeKeysUnique(es[1..])
  {
    forall i, j | 0 <= i < j < |es[1..]| ensures es[1..][i].id != es[1..][j].id {
      assert es[1..][i] == es[i + 1] && es[1..][j] == es[j + 1];
    }
  }

  datatype StoreError = ConstraintViolation

  /** The row an insert of `data` would store. */
  function NewEmployeeRow(t: Tables, data: EmployeeCreate, now: int): EmployeeRow
  {
    EmployeeRow(t.nextEmployeeKey, data.employeeId, data.fullName, data.email, data.department, now)
  }

  /** The database accepts an employee row that fits its columns and repeats
      neither a stored `employee_id` nor a stored e-mail. */
  predicate EmployeeRowAccepted(t: Tables, row: EmployeeRow)
  {
    EmployeeColumnsFit(row)
    && forall i :: 0 <= i < |t.employees| ==>
         t.employees[i].employeeId != row.employeeId && t.employees[i].email != row.email
  }

  /** `db.add(Employee(**data)); db.commit()`: the new row goes at the end
      with the next key, or the whole insert is refused. */
  function InsertEmployee(t: Tables, data: EmployeeCreate, now: int): (out: (Result<EmployeeRow, StoreError>, Tables))
    ensures out.0.Err? ==> out.1 == t
    ensures out.0.Ok? ==> out.0.value == NewEmployeeRow(t, data, now)
    ensures out.0.Ok? ==> out.1 == t.(employees := t.employees + [out.0.value], nextEmployeeKey := t.nextEmployeeKey + 1)
  {
    var row := NewEmployeeRow(t, data, now);
    if EmployeeRowAccepted(t, row) then
      (Ok(row), t.(employees := t.employees + [row], nextEmployeeKey := t.nextEmployeeKey + 1))
    else (Err(ConstraintViolation), t)
  }

  function NewAttendanceRow(t: Tables, data: AttendanceCreate, now: int): AttendanceRow
  {
    AttendanceRow(t.nextAttendanceKey, data.employeeId, data.date, data.status, now)
  }

  /** The database accepts an attendance row that fits its columns, passes
      the status check, names a stored employee and is the first for its
      employee and date. */
  predicate AttendanceRowAccepted(t: Tables, row: AttendanceRow)
  {
    AttendanceColumnsFit(row) && HasEmployee(t.employees, row.employeeId)
    && forall i :: 0 <= i < |t.attendance| ==>
         !(t.attendance[i].employeeId == row.employeeId && t.attendance[i].date == row.date)
  }

  /** `db.add(Attendance(**data)); db.commit()`. */
  function InsertAttendance(t: Tables, data: AttendanceCreate, now: int): (out: (Result<AttendanceRow, StoreError>, Tables))
    ensures out.0.Err? ==> out.1 == t
    ensures out.0.Ok? ==> out.0.value == NewAttendanceRow(t, data, now)
    ensures out.0.Ok? ==> out.1 == t.(attendance := t.attendance + [out.0.value], nextAttendanceKey := t.nextAttendanceKey + 1)
  {
    var row := NewAttendanceRow(t, data, now);
    if AttendanceRowAccepted(t, row) then
      (Ok(row), t.(attendance := t.attendance + [row], nextAttendanceKey := t.nextAttendanceKey + 1))
    else (Err(ConstraintViolation), t)
  }

  /** `db.delete(employee); db.commit()`: the employee row goes and, by the
      cascade, every attendance row that names it. */
  function DeleteEmployee(t: Tables, key: int): (t': Tables)
    ensures forall i :: 0 <= i < |t'.employees| ==> t'.employees[i].id != key && t'.employees[i] in t.employees
    ensures forall i :: 0 <= i < |t.employees| && t.employees[i].id != key ==> t.employees[i] in t'.employees
    ensures forall i :: 0 <= i < |t'.attendance| ==> t'.attendance[i].employeeId != key && t'.attendance[i] in t.attendance
    ensures forall i :: 0 <= i < |t.attendance| && t.attendance[i].employeeId != key ==> t.attendance[i] in t'.attendance
    ensures t'.nextEmployeeKey == t.nextEmployeeKey && t'.nextAttendanceKey == t.nextAttendanceKey
  {
    t.(employees := Keep(t.employees, (e: EmployeeRow) => e.id != key),
       attendance := Keep(t.attendance, (a: AttendanceRow) => a.employeeId != key))
  }

  /** The database refuses exactly the employee inserts that would leave a
      constraint broken, and an accepted one keeps every constraint. */
  lemma InsertEmployeeConsistent(t: Tables, data: EmployeeCreate, now: int)
    requires Consistent(t)
    ensures var row := NewEmployeeRow(t, data, now);
      InsertEmployee(t, data, now).0.Ok?
      <==> Consistent(t.(employees := t.employees + [row], nextEmployeeKey := t.nextEmployeeKey + 1))
    ensures Consistent(InsertEmployee(t, data, now).1)
  {
    var row := NewEmployeeRow(t, data, now);
    var t' := t.(employees := t.employees + [row], nextEmployeeKey := t.nextEmployeeKey + 1);
    var es := t.employees;
    PairwiseAppend(es, row, (a: EmployeeRow, b: EmployeeRow) => a.id != b.id);
    PairwiseAppend(es, row, (a: EmployeeRow, b: EmployeeRow) => a.employeeId != b.employeeId);
    PairwiseAppend(es, row, (a: EmployeeRow, b: EmployeeRow) => a.email != b.email);
    assert forall i :: 0 <= i < |es| ==> (es + [row])[i] == es[i];
    assert (es + [row])[|es|] == row;
    forall k | HasEmployee(es, k) ensures HasEmployee(es + [row], k) {
      var i :| 0 <= i < |es| && es[i].id == k;
      assert (es + [row])[i].id == k;
    }
    if EmployeeRowAccepted(t, row) {
      assert Consistent(t');
    } else {
      assert !Consistent(t');
    }
  }

  /** The same for attendance inserts. */
  lemma InsertAttendanceConsistent(t: Tables, data: AttendanceCreate, now: int)
    requires Consistent(t)
    ensures var row := NewAttendanceRow(t, data, now);
      InsertAttendance(t, data, now).0.Ok?
      <==> Consistent(t.(attendance := t.attendance + [row], nextAttendanceKey := t.nextAttendanceKey + 1))
    ensures Consistent(InsertAttendance(t, data, now).1)
  {
    var row := NewAttendanceRow(t, data, now);
    var t' := t.(attendance := t.attendance + [row], nextAttendanceKey := t.nextAttendanceKey + 1);
    var rs := t.attendance;
    PairwiseAppend(rs, row, (a: AttendanceRow, b: AttendanceRow) => a.id != b.id);
    PairwiseAppend(rs, row, (a: AttendanceRow, b: AttendanceRow) => !(a.employeeId == b.employeeId && a.date == b.date));
    assert forall i :: 0 <= i < |rs| ==> (rs + [row])[i] == rs[i];
    assert (rs + [row])[|rs|] == row;
    if AttendanceRowAccepted(t, row) {
      assert Consistent(t');
    } else {
      assert !Consistent(t');
    }
  }

  /** Deleting an employee keeps every constraint; in particular no
      attendance row is left naming a missing employee. */
  lemma DeleteEmployeeConsistent(t: Tables, key: int)
    requires Consistent(t)
    ensures Consistent(DeleteEmployee(t, key))
  {
    var t' := DeleteEmployee(t, key);
    var pe := (e: EmployeeRow) => e.id != key;
    var pa := (a: AttendanceRow) => a.employeeId != key;
    KeepPairwise(t.employees, pe, (a: EmployeeRow, b: EmployeeRow) => a.id != b.id);
    KeepPairwise(t.employees, pe, (a: EmployeeRow, b: EmployeeRow) => a.employeeId != b.employeeId);
    KeepPairwise(t.employees, pe, (a: EmployeeRow, b: EmployeeRow) => a.email != b.email);
    KeepPairwise(t.attendance, pa, (a: AttendanceRow, b: AttendanceRow) => a.id != b.id);
    KeepPairwise(t.attendance, pa, (a: AttendanceRow, b: AttendanceRow) => !(a.employeeId == b.employeeId && a.date == b.date));
    forall i | 0 <= i < |t'.attendance| ensures HasEmployee(t'.employees, t'.attendance[i].employeeId) {
      var a := t'.attendance[i];
      var j :| 0 <= j < |t.attendance| && t.attendance[j] == a;
      var k :| 0 <= k < |t.employees| && t.employees[k].id == a.employeeId;
      assert t.employees[k] in t'.employees;
    }
  }
}
