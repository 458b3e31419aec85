/** Proleptic Gregorian calendar dates, standing for the date-fns calls of
    the attendance list (`startOfWeek`, `endOfWeek`, `startOfMonth`,
    `endOfMonth`, `format(_, 'yyyy-MM-dd')`) and for Python's `date`.
    Dates carry no time of day and no time zone. */
module Calendar {

  import opened Text

  datatype Date = Date(year: nat, month: nat, day: nat)

  predicate IsLeapYear(y: int)
  {
    y % 4 == 0 && (y % 100 != 0 || y % 400 == 0)
  }

  function DaysInYear(y: int): int
  {
    if IsLeapYear(y) then 366 else 365
  }

  function DaysInMonth(y: int, m: int): int
  {
    if m == 2 then (if IsLeapYear(y) then 29 else 28)
    else if m == 4 || m == 6 || m == 9 || m == 11 then 30
    else 31
  }

  /** A real calendar day from year 1 on. */
  predicate IsValid(d: Date)
  {
    d.year >= 1 && 1 <= d.month <= 12 && 1 <= d.day <= DaysInMonth(d.year, d.month)
  }

  /** Days of the years before `y`, counted from year 1. */
  function DaysBeforeYear(y: int): int
  {
    var p := y - 1;
    365 * p + p / 4 - p / 100 + p / 400
  }

  /** Days of the months of year `y` before month `m`. */
  function DaysBeforeMonth(y: int, m: int): int
  {
    var leap := if IsLeapYear(y) && m > 2 then 1 else 0;
    leap + (if m <= 1 then 0 else if m == 2 then 31 else if m == 3 then 59
            else if m == 4 then 90 else if m == 5 then 120 else if m == 6 then 151
            else if m == 7 then 181 else if m == 8 then 212 else if m == 9 then 243
            else if m == 10 then 273 else if m == 11 then 304 else 334)
  }

  /** The day number of `d`: 0001-01-01 is day 1 (Python `date.toordinal`).
      Dates are compared in time by comparing their day numbers. */
  function Ord(d: Date): int
  {
    DaysBeforeYear(d.year) + DaysBeforeMonth(d.year, d.month) + d.day
  }

  /** `a` comes before `b` field by field: year, then month, then day. */
  predicate LexLess(a: Date, b: Date)
  {
    a.year < b.year || (a.year == b.year && (a.month < b.month || (a.month == b.month && a.day < b.day)))
  }

  lemma MonthStep(y: int, m: int)
    requires 1 <= m < 12
    ensures DaysBeforeMonth(y, m + 1) == DaysBeforeMonth(y, m) + DaysInMonth(y, m)
  {
  }

  lemma DivStep(p: int, n: int)
    requires n > 0
    ensures (p + 1) / n == p / n + (if (p + 1) % n == 0 then 1 else 0)
  {
    var q, r := p / n, p % n;
    assert p == q * n + r && 0 <= r < n;
    if r == n - 1 {
      assert p + 1 == (q + 1) * n + 0;
      DivUnique(p + 1, n, q + 1, 0);
    } else {
      assert p + 1 == q * n + (r + 1);
      DivUnique(p + 1, n, q, r + 1);
    }
  }

  lemma DivUnique(a: int, n: int, q: int, r: int)
    requires n > 0 && 0 <= r < n && a == q * n + r
    ensures a / n == q && a % n == r
  {
    var q', r' := a / n, a % n;
    assert a == q' * n + r' && 0 <= r' < n;
    if q' < q {
      assert q' * n + n <= q * n by { MulMono(q' + 1, q, n); }
      assert false;
    } else if q < q' {
      assert q * n + n <= q' * n by { MulMono(q + 1, q', n); }
      assert false;
    }
  }

  lemma MulMono(a: int, b: int, n: int)
    requires a <= b && n > 0
    ensures a * n <= b * n
  {
  }

  /** A year adds its own length to the day count. */
  lemma YearStep(y: int)
    ensures DaysBeforeYear(y + 1) == DaysBeforeYear(y) + DaysInYear(y)
  {
    DivStep(y - 1, 4);
    DivStep(y - 1, 100);
    DivStep(y - 1, 400);
  }

  lemma {:induction false} DaysBeforeYearGrows(y1: int, y2: int)
    requires y1 <= y2
    ensures DaysBeforeYear(y1) + 365 * (y2 - y1) <= DaysBeforeYear(y2)
    decreases y2 - y1
  {
    if y1 < y2 {
      YearStep(y1);
      DaysBeforeYearGrows(y1 + 1, y2);
    }
  }

  /** A valid date falls inside its year's block of day numbers; the first
      valid date, 0001-01-01, is day 1. */
  lemma OrdInYear(d: Date)
    requires IsValid(d)
    ensures DaysBeforeYear(d.year) < Ord(d) <= DaysBeforeYear(d.year) + DaysInYear(d.year)
    ensures Ord(d) >= 1
  {
    DaysBeforeYearGrows(1, d.year);
  }

  /** Day numbers follow the field-by-field order of valid dates. */
  lemma OrdFollowsLexOrder(a: Date, b: Date)
    requires IsValid(a) && IsValid(b) && LexLess(a, b)
    ensures Ord(a) < Ord(b)
  {
    OrdInYear(a);
    OrdInYear(b);
    if a.year < b.year {
      YearStep(a.year);
      DaysBeforeYearGrows(a.year + 1, b.year);
    } else if a.month < b.month {
      MonthGap(a.year, a.month, b.month);
    }
  }

  lemma {:induction false} MonthGap(y: int, m1: int, m2: int)
    requires 1 <= m1 < m2 <= 12
    ensures DaysBeforeMonth(y, m1) + DaysInMonth(y, m1) <= DaysBeforeMonth(y, m2)
    decreases m2 - m1
  {
    MonthStep(y, m1);
    if m1 + 1 < m2 {
      MonthGap(y, m1 + 1, m2);
    }
  }

  /** On valid dates, comparing day numbers is comparing the fields. */
  lemma OrdOrder(a: Date, b: Date)
    requires IsValid(a) && IsValid(b)
    ensures Ord(a) < Ord(b) <==> LexLess(a, b)
    ensures Ord(a) == Ord(b) <==> a == b
  {
    if LexLess(a, b) {
      OrdFollowsLexOrder(a, b);
    } else if LexLess(b, a) {
      OrdFollowsLexOrder(b, a);
    } else {
      assert a == b;
    }
  }

  /** The calendar day after `d`. */
  function NextDay(d: Date): Date
  {
    if d.day < DaysInMonth(d.year, d.month) then Date(d.year, d.month, d.day + 1)
    else if d.month < 12 then Date(d.year, d.month + 1, 1)
    else Date(d.year + 1, 1, 1)
  }

  /** The calendar day before `d` (0001-01-01 has none and becomes
      0000-12-31, which is not valid). */
  function PrevDay(d: Date): Date
  {
    if d.day > 1 then Date(d.year, d.month, d.day - 1)
    else if d.month > 1 then Date(d.year, d.month - 1, DaysInMonth(d.year, d.month - 1))
    else Date(if d.year > 0 then d.year - 1 else 0, 12, 31)
  }

  lemma NextDayOrd(d: Date)
    requires IsValid(d)
    ensures IsValid(NextDay(d)) && Ord(NextDay(d)) == Ord(d) + 1
  {
    if d.day == DaysInMonth(d.year, d.month) {
      if d.month < 12 {
        MonthStep(d.year, d.month);
      } else {
        YearStep(d.year);
      }
    }
  }

  lemma PrevDayOrd(d: Date)
    requires IsValid(d) && Ord(d) > 1
    ensures IsValid(PrevDay(d)) && Ord(PrevDay(d)) == Ord(d) - 1
  {
    if d.day == 1 {
      if d.month > 1 {
        MonthStep(d.year, d.month - 1);
      } else {
        YearStep(d.year - 1);
      }
    }
  }

  /** `n` days after `d` (date-fns `addDays`, `setDate(getDate() + n)`). */
  function AddDays(d: Date, n: nat): Date
    decreases n
  {
    if n == 0 then d else AddDays(NextDay(d), n - 1)
  }

  /** `n` days before `d` (`setDate(getDate() - n)`). */
  function SubDays(d: Date, n: nat): Date
    decreases n
  {
    if n == 0 then d else SubDays(PrevDay(d), n - 1)
  }

  lemma {:induction false} AddDaysOrd(d: Date, n: nat)
    requires IsValid(d)
    ensures IsValid(AddDays(d, n)) && Ord(AddDays(d, n)) == Ord(d) + n
    decreases n
  {
    if n > 0 {
      NextDayOrd(d);
      AddDaysOrd(NextDay(d), n - 1);
    }
  }

  lemma {:induction false} SubDaysOrd(d: Date, n: nat)
    requires IsValid(d) && n < Ord(d)
    ensures IsValid(SubDays(d, n)) && Ord(SubDays(d, n)) == Ord(d) - n
    decreases n
  {
    if n > 0 {
      PrevDayOrd(d);
      SubDaysOrd(PrevDay(d), n - 1);
    }
  }

  /** JavaScript `getDay()`: 0 for Sunday, 1 for Monday, ..., 6 for Saturday.
      0001-01-01 (day 1) was a Monday. */
  function JsDay(d: Date): (w: nat)
    ensures w < 7
  {
    Ord(d) % 7
  }

  const Sunday: nat := 0
  const Monday: nat := 1

  /** The `weekStartsOn: 1` option of the attendance list. */
  const WeekStartsOn: nat := Monday

  /** How many days `startOfWeek` goes back from a day whose weekday is
      `day`. */
  function WeekBack(day: nat): int
  {
    (if day < WeekStartsOn then 7 else 0) + day - WeekStartsOn
  }

  /** How many days `endOfWeek` goes forward from a day whose weekday is
      `day`. */
  function WeekAhead(day: nat): int
  {
    (if day < WeekStartsOn then -7 else 0) + 6 - (day - WeekStartsOn)
  }

  /** date-fns `startOfWeek(d, { weekStartsOn })`: back to the last week
      start on or before `d`. */
  function StartOfWeek(d: Date): Date
  {
    SubDays(d, WeekBack(JsDay(d)))
  }

  /** date-fns `endOfWeek(d, { weekStartsOn })`: forward to the last day of
      that week (its time of day, 23:59:59.999, is not modelled). */
  function EndOfWeek(d: Date): Date
  {
    AddDays(d, WeekAhead(JsDay(d)))
  }

  /** date-fns `startOfMonth`. */
  function StartOfMonth(d: Date): Date
  {
    Date(d.year, d.month, 1)
  }

  /** date-fns `endOfMonth`: day 0 of the next month, i.e. the last day. */
  function EndOfMonth(d: Date): Date
  {
    Date(d.year, d.month, DaysInMonth(d.year, d.month))
  }

  /** The week of a valid date runs from the Monday on or before it to the
      Sunday six days later. */
  lemma WeekBounds(d: Date)
    requires IsValid(d)
    ensures IsValid(StartOfWeek(d)) && IsValid(EndOfWeek(d))
    ensures JsDay(StartOfWeek(d)) == Monday && JsDay(EndOfWeek(d)) == Sunday
    ensures Ord(d) - 6 <= Ord(StartOfWeek(d)) <= Ord(d)
    ensures Ord(EndOfWeek(d)) == Ord(StartOfWeek(d)) + 6
  {
    OrdInYear(d);
    var o := Ord(d);
    WeekOffsets(o);
    StartOfWeekOrd(d, WeekBack(o % 7));
    EndOfWeekOrd(d, WeekAhead(o % 7));
  }

  /** `startOfWeek` lands `back` days before `d`. */
  lemma StartOfWeekOrd(d: Date, back: nat)
    requires IsValid(d) && back == WeekBack(JsDay(d)) && back < Ord(d)
    ensures IsValid(StartOfWeek(d)) && Ord(StartOfWeek(d)) == Ord(d) - back
  {
    SubDaysOrd(d, back);
  }

  /** `endOfWeek` lands `ahead` days after `d`. */
  lemma EndOfWeekOrd(d: Date, ahead: nat)
    requires IsValid(d) && ahead == WeekAhead(JsDay(d))
    ensures IsValid(EndOfWeek(d)) && Ord(EndOfWeek(d)) == Ord(d) + ahead
  {
    AddDaysOrd(d, ahead);
  }

  /** The day-number arithmetic behind `WeekBounds`. */
  lemma WeekOffsets(o: int)
    requires o >= 1
    ensures var back, ahead := WeekBack(o % 7), WeekAhead(o % 7);
      0 <= back < o && 0 <= ahead && back + ahead == 6 && (o - back) % 7 == 1 && (o + ahead) % 7 == 0
  {
    var q, r := o / 7, o % 7;
    assert o == 7 * q + r;
    if r == 0 {
      DivUnique(o - 6, 7, q - 1, 1);
      DivUnique(o, 7, q, 0);
    } else {
      DivUnique(o - (r - 1), 7, q, 1);
      DivUnique(o + 7 - r, 7, q + 1, 0);
    }
  }

  /** The week window holds exactly the seven days Monday to Sunday. */
  lemma WeekDays(d: Date, x: Date)
    requires IsValid(d) && IsValid(x)
    ensures Ord(StartOfWeek(d)) <= Ord(x) <= Ord(EndOfWeek(d))
        <==> exists i :: 0 <= i < 7 && x == AddDays(StartOfWeek(d), i)
  {
    WeekBounds(d);
    var s := StartOfWeek(d);
    if Ord(s) <= Ord(x) <= Ord(EndOfWeek(d)) {
      var i := Ord(x) - Ord(s);
      AddDaysOrd(s, i);
      OrdOrder(x, AddDays(s, i));
    }
    forall i | 0 <= i < 7 ensures Ord(s) <= Ord(AddDays(s, i)) <= Ord(EndOfWeek(d)) {
      AddDaysOrd(s, i);
    }
  }

  /** The month window holds exactly the days of the same year and month. */
  lemma MonthDays(d: Date, x: Date)
    requires IsValid(d) && IsValid(x)
    ensures Ord(StartOfMonth(d)) <= Ord(x) <= Ord(EndOfMonth(d))
        <==> x.year == d.year && x.month == d.month
  {
    var s, e := StartOfMonth(d), EndOfMonth(d);
    assert IsValid(s) && IsValid(e);
    if !(x.year == d.year && x.month == d.month) {
      if x.year < d.year || (x.year == d.year && x.month < d.month) {
        OrdFollowsLexOrder(x, s);
      } else {
        OrdFollowsLexOrder(e, x);
      }
    }
  }

  /** date-fns `format(d, 'yyyy-MM-dd')` and Python `date.isoformat()`. */
  function FormatDate(d: Date): string
  {
    Decimal(d.year, 4) + "-" + Decimal(d.month, 2) + "-" + Decimal(d.day, 2)
  }

  /** Distinct valid dates never format alike, so comparing formatted days
      compares the days. */
  lemma FormatDateInjective(a: Date, b: Date)
    requires IsValid(a) && IsValid(b)
    requires FormatDate(a) == FormatDate(b)
    ensures a == b
  {
    DecimalTwoDigits(a.month);
    DecimalTwoDigits(a.day);
    DecimalTwoDigits(b.month);
    DecimalTwoDigits(b.day);
    var s := FormatDate(a);
    var ya, ma, da := Decimal(a.year, 4), Decimal(a.month, 2), Decimal(a.day, 2);
    var yb, mb, db := Decimal(b.year, 4), Decimal(b.month, 2), Decimal(b.day, 2);
    var n := |s|;
    assert s == ya + "-" + ma + "-" + da;
    assert s == yb + "-" + mb + "-" + db;
    assert s[n - 2..] == da && s[n - 2..] == db;
    assert s[n - 5..n - 3] == ma && s[n - 5..n - 3] == mb;
    assert s[..n - 6] == ya && s[..n - 6] == yb;
    DecimalInjective(a.year, b.year, 4);
    DecimalInjective(a.month, b.month, 2);
    DecimalInjective(a.day, b.day, 2);
  }
}
