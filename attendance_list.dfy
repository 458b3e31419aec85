/** The attendance list's filters: a case-insensitive employee-name search
    and a date window (today, this week, this month) resolved against a
    reference day, combined with AND in a stable filter over the records the
    page loaded. The reference day stands for the browser's clock. */
module AttendanceList {

  import opened Common
  import opened Seqs
  import opened Text
  import opened Calendar
  import opened Schemas

  /** The `filterDate` state: a formatted day, or an interval whose ends
      are both inside it. `OtherWindow` is a window of any other type. */
  datatype DateWindow =
    | Day(value: string)
    | Week(start: Date, end: Date)
    | Month(start: Date, end: Date)
    | OtherWindow(kind: string)

  /** The component's two filter states. */
  datatype Filters = Filters(employee: string, date: Option<DateWindow>)

  const NoFilters := Filters("", None)

  /** `setDateFilter(type)` on day `today`. */
  function SetDateFilter(kind: string, today: Date): (w: Option<DateWindow>)
    ensures kind == "today" ==> w == Some(Day(FormatDate(today)))
    ensures kind == "this_week" ==> w == Some(Week(StartOfWeek(today), EndOfWeek(today)))
    ensures kind == "this_month" ==> w == Some(Month(StartOfMonth(today), EndOfMonth(today)))
    ensures w.None? <==> kind != "today" && kind != "this_week" && kind != "this_month"
  {
    if kind == "today" then Some(Day(FormatDate(today)))
    else if kind == "this_week" then Some(Week(StartOfWeek(today), EndOfWeek(today)))
    else if kind == "this_month" then Some(Month(StartOfMonth(today), EndOfMonth(today)))
    else None
  }

  /** The Clear Filters button. */
  function ClearFilters(f: Filters): (g: Filters)
    ensures g.employee == "" && g.date.None?
  {
    NoFilters
  }

  /** `matchesEmployee`: no query, or the lower-cased name contains the
      lower-cased query. */
  predicate NameMatches(name: string, query: string)
  {
    query == "" || Includes(Lower(name), Lower(query))
  }

  /** Whether a record's date satisfies the window: the `yyyy-MM-dd` text
      for a day, inclusive bounds for an interval, no constraint for any
      other window type. */
  predicate InWindow(d: Date, w: DateWindow)
  {
    match w
    case Day(value) => FormatDate(d) == value
    case Week(start, end) => Ord(start) <= Ord(d) <= Ord(end)
    case Month(start, end) => Ord(start) <= Ord(d) <= Ord(end)
    case OtherWindow(_) => true
  }

  /** The per-record test of `filteredAttendances`. */
  predicate Matches(a: AttendanceResponse, f: Filters)
  {
    NameMatches(a.employeeName, f.employee) && (f.date.None? || InWindow(a.date, f.date.value))
  }

  /** `filteredAttendances`. */
  function FilteredAttendances(records: seq<AttendanceResponse>, f: Filters): seq<AttendanceResponse>
  {
    Keep(records, (a: AttendanceResponse) => Matches(a, f))
  }

  /** The result is an order-preserving subsequence of the records, keeps
      exactly the records that pass both tests, and every record it keeps
      passes both. */
  lemma FilterKeepsExactlyMatches(records: seq<AttendanceResponse>, f: Filters)
    ensures IsSubseq(FilteredAttendances(records, f), records)
    ensures forall a :: a in FilteredAttendances(records, f) <==> a in records && Matches(a, f)
    ensures forall a :: a in FilteredAttendances(records, f) ==>
      NameMatches(a.employeeName, f.employee) && (f.date.None? || InWindow(a.date, f.date.value))
  {
    KeepIsSubseq(records, (a: AttendanceResponse) => Matches(a, f));
  }

  /** No query and no window: every record, in the same order. */
  lemma {:induction false} NoFiltersKeepAll(records: seq<AttendanceResponse>)
    ensures FilteredAttendances(records, NoFilters) == records
  {
    KeepAll(records, (a: AttendanceResponse) => Matches(a, NoFilters));
  }

  /** After Clear Filters the list shows every record again. */
  lemma ClearShowsAll(records: seq<AttendanceResponse>, f: Filters)
    ensures FilteredAttendances(records, ClearFilters(f)) == records
  {
    NoFiltersKeepAll(records);
  }

  /** Filtering the filtered list again changes nothing. */
  lemma FilterIdempotent(records: seq<AttendanceResponse>, f: Filters)
    ensures FilteredAttendances(FilteredAttendances(records, f), f) == FilteredAttendances(records, f)
  {
    KeepIdempotent(records, (a: AttendanceResponse) => Matches(a, f));
  }

  /** The name test passes exactly when the query is empty or the
      lower-cased query occurs at some position of the lower-cased name; it
      ignores the case of both. */
  lemma NameMatchesOccurrence(name: string, query: string)
    ensures NameMatches(name, query) <==> query == "" || exists i :: OccursAt(Lower(name), Lower(query), i)
    ensures NameMatches(name, query) <==> NameMatches(Lower(name), Lower(query))
  {
    IncludesOccurs(Lower(name), Lower(query));
    LowerIdempotent(name);
    LowerIdempotent(query);
    assert Lower(query) == "" <==> query == "";
  }

  /** A window of an unrecognised type leaves only the name test. */
  lemma {:induction false} OtherWindowIsNameOnly(records: seq<AttendanceResponse>, query: string, kind: string)
    ensures FilteredAttendances(records, Filters(query, Some(OtherWindow(kind))))
         == FilteredAttendances(records, Filters(query, None))
  {
    KeepSameVerdict(records,
      (a: AttendanceResponse) => Matches(a, Filters(query, Some(OtherWindow(kind)))),
      (a: AttendanceResponse) => Matches(a, Filters(query, None)));
  }

  /** The `today` window holds exactly the reference day. */
  lemma TodayWindowExact(today: Date, d: Date)
    requires IsValid(today) && IsValid(d)
    ensures SetDateFilter("today", today).Some?
    ensures InWindow(d, SetDateFilter("today", today).value) <==> d == today
  {
    if FormatDate(d) == FormatDate(today) {
      FormatDateInjective(d, today);
    }
  }

  /** The `this_week` window runs from the Monday on or before the
      reference day to the Sunday six days later, contains the reference
      day, and holds exactly those seven days. */
  lemma WeekWindowExact(today: Date, d: Date)
    requires IsValid(today) && IsValid(d)
    ensures SetDateFilter("this_week", today).Some? && SetDateFilter("this_week", today).value.Week?
    ensures var w := SetDateFilter("this_week", today).value;
      JsDay(w.start) == Monday && JsDay(w.end) == Sunday
      && Ord(w.end) == Ord(w.start) + 6
      && InWindow(today, w)
      && (InWindow(d, w) <==> exists i :: 0 <= i < 7 && d == AddDays(w.start, i))
  {
    WeekBounds(today);
    WeekDays(today, d);
  }

  /** The `this_month` window runs from day 1 to the last day of the
      reference month and holds exactly the days of that month. */
  lemma MonthWindowExact(today: Date, d: Date)
    requires IsValid(today) && IsValid(d)
    ensures SetDateFilter("this_month", today).Some? && SetDateFilter("this_month", today).value.Month?
    ensures var w := SetDateFilter("this_month", today).value;
      w.start == Date(today.year, today.month, 1)
      && w.end == Date(today.year, today.month, DaysInMonth(today.year, today.month))
      && InWindow(today, w)
      && (InWindow(d, w) <==> d.year == today.year && d.month == today.month)
  {
    MonthDays(today, d);
    MonthDays(today, today);
  }

  /** Every window the buttons produce contains the reference day, and any
      other choice removes the date constraint. */
  lemma WindowsContainToday(kind: string, today: Date)
    requires IsValid(today)
    ensures SetDateFilter(kind, today).Some? ==> InWindow(today, SetDateFilter(kind, today).value)
    ensures SetDateFilter(kind, today).None? ==> forall records :: FilteredAttendances(records, Filters("", SetDateFilter(kind, today))) == records
  {
    if kind == "this_week" {
      WeekWindowExact(today, today);
    } else if kind == "this_month" {
      MonthWindowExact(today, today);
    }
    if SetDateFilter(kind, today).None? {
      forall records ensures FilteredAttendances(records, Filters("", SetDateFilter(kind, today))) == records {
        NoFiltersKeepAll(records);
      }
    }
  }

  /** With the `today` window, the list keeps exactly the records of the
      reference day whose names match. */
  lemma TodayFilterKeepsToday(records: seq<AttendanceResponse>, query: string, today: Date)
    requires IsValid(today)
    requires forall i :: 0 <= i < |records| ==> IsValid(records[i].date)
    ensures var r := FilteredAttendances(records, Filters(query, SetDateFilter("today", today)));
      forall a :: a in r <==> a in records && a.date == today && NameMatches(a.employeeName, query)
  {
    forall a | a in records ensures InWindow(a.date, Day(FormatDate(today))) <==> a.date == today {
      TodayWindowExact(today, a.date);
    }
    FilterKeepsExactlyMatches(records, Filters(query, SetDateFilter("today", today)));
  }
}
