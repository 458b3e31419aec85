/** The attendance queries and the attendance table's write. */
module AttendanceRepository {

  import opened Common
  import opened Seqs
  import opened Calendar
  import opened Schemas
  import opened Models
  import opened Storage

  /** The sort key of `order_by(Attendance.date.desc())`. */
  function DateKey(a: AttendanceRow): int
  {
    Ord(a.date)
  }

  /** `filter(Attendance.employee_id == key).order_by(date desc)`: exactly
      that employee's rows, newest first. */
  function ByEmployee(rs: seq<AttendanceRow>, key: int): (r: seq<AttendanceRow>)
    ensures SortedDesc(r, DateKey)
    ensures forall a :: a in r <==> a in rs && a.employeeId == key
    ensures multiset(r) == multiset(Keep(rs, (a: AttendanceRow) => a.employeeId == key))
  {
    var mine := Keep(rs, (a: AttendanceRow) => a.employeeId == key);
    var r := SortDesc(mine, DateKey);
    assert forall a :: a in r <==> a in multiset(mine);
    r
  }

  /** `filter(employee_id == key, date == d).first()`. */
  function ByEmployeeAndDate(rs: seq<AttendanceRow>, key: int, d: Date): (r: Option<AttendanceRow>)
    ensures r.Some? ==> r.value in rs && r.value.employeeId == key && r.value.date == d
    ensures r.None? <==> forall i :: 0 <= i < |rs| ==> !(rs[i].employeeId == key && rs[i].date == d)
  {
    FindFirst(rs, (a: AttendanceRow) => a.employeeId == key && a.date == d)
  }

  /** `query(Attendance, Employee).join(Employee, Attendance.employee_id ==
      Employee.id)`: every row paired with every employee it names, row by
      row in storage order. */
  function Join(rs: seq<AttendanceRow>, es: seq<EmployeeRow>): (r: seq<(AttendanceRow, EmployeeRow)>)
    ensures forall p :: p in r <==> p.0 in rs && p.1 in es && p.1.id == p.0.employeeId
  {
    if rs == [] then []
    else
      var a := rs[0];
      var head := Map(Keep(es, (e: EmployeeRow) => e.id == a.employeeId), (e: EmployeeRow) => (a, e));
      var tail := Join(rs[1..], es);
      assert forall p :: p in head <==> p.0 == a && p.1 in es && p.1.id == a.employeeId by {
        var mine := Keep(es, (e: EmployeeRow) => e.id == a.employeeId);
        forall p ensures p in head <==> p.0 == a && p.1 in es && p.1.id == a.employeeId {
          if p.0 == a && p.1 in es && p.1.id == a.employeeId {
            var j :| 0 <= j < |es| && es[j] == p.1;
            var k :| 0 <= k < |mine| && mine[k] == p.1;
            assert head[k] == p;
          }
        }
      }
      assert forall x :: x in rs <==> x == a || x in rs[1..] by {
        assert rs == [a] + rs[1..];
      }
      head + tail
  }

  function PairDateKey(p: (AttendanceRow, EmployeeRow)): int
  {
    Ord(p.0.date)
  }

  /** `get_all_with_employees(date_filter)`: the joined pairs, only those of
      the given date when there is one, newest first. */
  function AllWithEmployees(rs: seq<AttendanceRow>, es: seq<EmployeeRow>, dateFilter: Option<Date>)
    : (r: seq<(AttendanceRow, EmployeeRow)>)
    ensures SortedDesc(r, PairDateKey)
    ensures forall p :: p in r <==> p in Join(rs, es) && (dateFilter.Some? ==> p.0.date == dateFilter.value)
  {
    var joined := Join(rs, es);
    var chosen := if dateFilter.Some? then Keep(joined, (p: (AttendanceRow, EmployeeRow)) => p.0.date == dateFilter.value) else joined;
    var r := SortDesc(chosen, PairDateKey);
    assert forall p :: p in r <==> p in multiset(chosen);
    r
  }

  /** When keys are unique and every row names a stored employee, the join
      pairs each row with exactly its employee, so it has one pair per row,
      in storage order. */
  lemma {:induction false} JoinOnePerRow(rs: seq<AttendanceRow>, es: seq<EmployeeRow>)
    requires EmployeeKeysUnique(es)
    requires forall i :: 0 <= i < |rs| ==> HasEmployee(es, rs[i].employeeId)
    ensures |Join(rs, es)| == |rs|
    ensures forall i :: 0 <= i < |rs| ==> Join(rs, es)[i].0 == rs[i]
  {
    if rs != [] {
      var a := rs[0];
      var mine := Keep(es, (e: EmployeeRow) => e.id == a.employeeId);
      KeepOneMatch(es, a.employeeId);
      JoinOnePerRow(rs[1..], es);
      var head := Map(mine, (e: EmployeeRow) => (a, e));
      assert Join(rs, es) == head + Join(rs[1..], es);
      forall i | 0 <= i < |rs| ensures Join(rs, es)[i].0 == rs[i] {
        if i > 0 {
          assert Join(rs, es)[i] == Join(rs[1..], es)[i - 1];
          assert rs[i] == rs[1..][i - 1];
        }
      }
    }
  }

  /** Under the same constraints, the unfiltered listing has one pair per
      row, and every row is in it. */
  lemma AllWithEmployeesComplete(rs: seq<AttendanceRow>, es: seq<EmployeeRow>, i: nat)
    requires EmployeeKeysUnique(es)
    requires forall k :: 0 <= k < |rs| ==> HasEmployee(es, rs[k].employeeId)
    requires i < |rs|
    ensures |AllWithEmployees(rs, es, None)| == |rs|
    ensures exists j :: 0 <= j < |rs| && AllWithEmployees(rs, es, None)[j].0 == rs[i]
  {
    var joined := Join(rs, es);
    JoinOnePerRow(rs, es);
    assert AllWithEmployees(rs, es, None) == SortDesc(joined, PairDateKey);
    SortedHasEvery(joined, i);
  }

  /** Sorting keeps every pair, so row `i` of a one-pair-per-row join is
      still somewhere in the sorted join. */
  lemma SortedHasEvery(joined: seq<(AttendanceRow, EmployeeRow)>, i: nat)
    requires i < |joined|
    ensures exists j :: 0 <= j < |joined| && SortDesc(joined, PairDateKey)[j] == joined[i]
  {
    var sorted := SortDesc(joined, PairDateKey);
    assert joined[i] in multiset(sorted) by {
      assert joined[i] in multiset(joined);
    }
    var j :| 0 <= j < |sorted| && sorted[j] == joined[i];
  }

  class AttendanceRepository {
    const db: Session

    constructor (db: Session)
      ensures this.db == db
    {
      this.db := db;
    }

    /** Stores a new attendance row; the database may refuse it. */
    method Create(data: AttendanceCreate, now: int) returns (r: Result<AttendanceRow, StoreError>)
      modifies db
      ensures (r, db.Snapshot()) == InsertAttendance(old(db.Snapshot()), data, now)
      ensures old(db.Valid()) ==> db.Valid()
    {
      r := db.AddAttendance(data, now);
    }

    method GetByEmployeeId(key: int) returns (r: seq<AttendanceRow>)
      ensures r == ByEmployee(db.attendance, key)
    {
      r := ByEmployee(db.attendance, key);
    }

    method GetByEmployeeAndDate(key: int, d: Date) returns (r: Option<AttendanceRow>)
      ensures r == ByEmployeeAndDate(db.attendance, key, d)
    {
      r := ByEmployeeAndDate(db.attendance, key, d);
    }

    method GetAllWithEmployees(dateFilter: Option<Date>) returns (r: seq<(AttendanceRow, EmployeeRow)>)
      ensures r == AllWithEmployees(db.attendance, db.employees, dateFilter)
    {
      r := AllWithEmployees(db.attendance, db.employees, dateFilter);
    }
  }
}
