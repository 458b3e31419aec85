/** The dashboard's four numbers and the load that fills them: the employee
    list and the day's attendance are fetched, the attendance is counted by
    status, and a failure shows the error's message instead. */
module Dashboard {

  import opened Common
  import opened Seqs
  import opened Calendar
  import opened Schemas
  import opened Api

  datatype Stats = Stats(totalEmployees: nat, todayAttendance: nat, presentToday: nat, absentToday: nat)

  const InitialStats := Stats(0, 0, 0, 0)

  function Status(a: AttendanceResponse): string
  {
    a.status
  }

  /** `records.filter(a => a.status === status).length`. */
  function CountStatus(records: seq<AttendanceResponse>, status: string): nat
  {
    |Keep(records, (a: AttendanceResponse) => a.status == status)|
  }

  /** The stats `loadDashboardData` sets from the two lists it fetched. */
  function ComputeStats(employees: seq<EmployeeResponse>, today: seq<AttendanceResponse>): (s: Stats)
    ensures s.totalEmployees == |employees| && s.todayAttendance == |today|
    ensures s.presentToday == multiset(Map(today, Status))[Present]
    ensures s.absentToday == multiset(Map(today, Status))[Absent]
    ensures s.presentToday + s.absentToday <= s.todayAttendance
  {
    var s := Stats(|employees|, |today|, CountStatus(today, Present), CountStatus(today, Absent));
    CountIsOccurrences(today, Present);
    CountIsOccurrences(today, Absent);
    KeepDisjointCount(today, (a: AttendanceResponse) => a.status == Present, (a: AttendanceResponse) => a.status == Absent);
    s
  }

  /** Counting by filter is counting occurrences: the present and absent
      figures are the number of times each status occurs among the loaded
      records. */
  lemma {:induction false} CountIsOccurrences(records: seq<AttendanceResponse>, status: string)
    ensures CountStatus(records, status) == multiset(Map(records, Status))[status]
  {
    if records != [] {
      CountIsOccurrences(records[1..], status);
      assert Map(records, Status) == [records[0].status] + Map(records[1..], Status);
    }
  }

  /** Present and absent make up the whole day exactly when every record
      has one of the two statuses; a record with any other status counts
      in the total only. */
  lemma PresentPlusAbsent(employees: seq<EmployeeResponse>, today: seq<AttendanceResponse>)
    ensures var s := ComputeStats(employees, today);
      s.presentToday + s.absentToday == s.todayAttendance
      <==> forall i :: 0 <= i < |today| ==> IsStatus(today[i].status)
  {
    KeepDisjointCount(today, (a: AttendanceResponse) => a.status == Present, (a: AttendanceResponse) => a.status == Absent);
  }

  class Dashboard {
    var stats: Stats
    var loading: bool
    var error: string

    /** The first render: zero stats, loading. */
    constructor ()
      ensures stats == InitialStats && loading && error == ""
    {
      stats := InitialStats;
      loading := true;
      error := "";
    }

    /** The start of `loadDashboardData` on day `today`: `loading` on,
      `error` cleared, and the two requests it sends, in order. */
    method StartLoad(today: Date) returns (requests: seq<string>)
      modifies this
      ensures loading && error == "" && stats == old(stats)
      ensures requests == [EmployeesPath, AttendancePath + DateQuery + FormatDate(today)]
    {
      loading := true;
      error := "";
      requests := [EmployeesPath, AttendanceListUrl(Some(FormatDate(today)))];
      assert FormatDate(today) != "";
    }

    /** The end of the load. With both lists, the stats are recomputed from
      them; on a failure, the error's message is shown and the stats stay.
      Either way the page stops loading. */
    method FinishLoad(outcome: Result<(seq<EmployeeResponse>, seq<AttendanceResponse>), CallFailure>)
      requires loading
      modifies this
      ensures !loading
      ensures outcome.Ok? ==> stats == ComputeStats(outcome.value.0, outcome.value.1) && error == old(error)
      ensures outcome.Err? ==> stats == old(stats) && error == Reject(outcome.error).message && error != ""
    {
      match outcome {
        case Ok(lists) =>
          stats := ComputeStats(lists.0, lists.1);
        case Err(f) =>
          error := Reject(f).message;
      }
      loading := false;
    }
  }
}
