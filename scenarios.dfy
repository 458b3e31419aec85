/** The worked examples of the attendance page: three records of two
    employees in June 2024, filtered by name and day, by month, and
    counted by status. */
module Scenarios {
  import opened Common
  import opened Seqs
  import opened Text
  import opened Calendar
  import opened Schemas
  import opened AttendanceList
  import opened Dashboard

  /** Alice, present on 2024-06-10. */
  function Alice10(): AttendanceResponse { AttendanceResponse(1, 1, "Alice", Date(2024, 6, 10), Present, 0) }
  /** Bob, absent on 2024-06-10. */
  function Bob10(): AttendanceResponse { AttendanceResponse(2, 2, "Bob", Date(2024, 6, 10), Absent, 0) }
  /** Alice, present on 2024-06-03. */
  function Alice3(): AttendanceResponse { AttendanceResponse(3, 1, "Alice", Date(2024, 6, 3), Present, 0) }

  /** Query "ali" with the Today window on 2024-06-10 keeps only Alice's
      record of that day. */
  lemma DayScenario()
    ensures FilteredAttendances([Alice10(), Bob10(), Alice3()], Filters("ali", SetDateFilter("today", Date(2024, 6, 10)))) == [Alice10()]
  {
    var a, b, c := Alice10(), Bob10(), Alice3();
    var day := Filters("ali", SetDateFilter("today", Date(2024, 6, 10)));
    assert Lower("ali") == "ali";
    assert Lower("Alice") == "alice";
    assert StartsWith("alice", "ali");
    assert Matches(a, day);
    assert !Matches(b, day) by {
      assert Lower("Bob") == "bob";
      assert !Includes("bob", "ali");
    }
    assert !Matches(c, day) by {
      TodayWindowExact(Date(2024, 6, 10), Date(2024, 6, 3));
    }
    var p := (x: AttendanceResponse) => Matches(x, day);
    assert [a, b, c][1..] == [b, c];
    assert [b, c][1..] == [c];
    assert Keep([c], p) == [] by { assert [c][1..] == []; }
  }

  /** This Month on 2024-06-15 with no query keeps all three records. */
  lemma MonthScenario()
    ensures FilteredAttendances([Alice10(), Bob10(), Alice3()], Filters("", SetDateFilter("this_month", Date(2024, 6, 15)))) == [Alice10(), Bob10(), Alice3()]
  {
    var s := [Alice10(), Bob10(), Alice3()];
    var month := Filters("", SetDateFilter("this_month", Date(2024, 6, 15)));
    forall i | 0 <= i < 3 ensures Matches(s[i], month) {
      MonthWindowExact(Date(2024, 6, 15), s[i].date);
    }
    KeepAll(s, (x: AttendanceResponse) => Matches(x, month));
  }

  /** The three records count two present and one absent. */
  lemma StatsScenario()
    ensures ComputeStats([], [Alice10(), Bob10(), Alice3()]) == Stats(0, 3, 2, 1)
  {
    var s := [Alice10(), Bob10(), Alice3()];
    assert s[1..] == [Bob10(), Alice3()];
    assert s[2..] == [Alice3()];
  }
}
