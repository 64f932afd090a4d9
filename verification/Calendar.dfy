/** Billing periods on the proleptic Gregorian calendar. */
module Calendar {
  import opened Prelude

  const MAX_YEAR: int := 9999

  datatype Cycle = Monthly | Yearly

  /** A date with its time of day. */
  datatype Date = Date(year: int, month: int, day: int, time: nat)

  predicate Leap(year: int) {
    year % 4 == 0 && (year % 100 != 0 || year % 400 == 0)
  }

  function DaysIn(year: int, month: int): (n: int)
    ensures 28 <= n <= 31
    ensures month != 2 ==> n >= 30
    ensures month == 2 ==> n <= 29
  {
    if month == 2 then (if Leap(year) then 29 else 28)
    else if month == 4 || month == 6 || month == 9 || month == 11 then 30
    else 31
  }

  const COMMON_YEAR: seq<int> := [31, 28, 31, 30, 31, 30, 31, 31, 30, 31, 30, 31]

  /** The lengths of the months, one by one; February has a day more every fourth year, but not in the three of four
      century years that 400 does not divide. */
  lemma MonthLengths(year: int, month: int)
    requires 1 <= month <= 12
    ensures DaysIn(year, month) == COMMON_YEAR[month - 1]
              + (if month == 2 && (year % 400 == 0 || (year % 4 == 0 && year % 100 != 0)) then 1 else 0)
  {
  }

  /** A date of the calendar, however late. */
  predicate OnCalendar(d: Date) {
    1 <= d.year && 1 <= d.month <= 12 && 1 <= d.day <= DaysIn(d.year, d.month)
  }

  predicate Valid(d: Date) {
    OnCalendar(d) && d.year <= MAX_YEAR
  }

  predicate Before(a: Date, b: Date) {
    || a.year < b.year
    || (a.year == b.year && a.month < b.month)
    || (a.year == b.year && a.month == b.month && a.day < b.day)
    || (a.year == b.year && a.month == b.month && a.day == b.day && a.time < b.time)
  }

  predicate NotAfter(a: Date, b: Date) {
    a == b || Before(a, b)
  }

  /** `start.replace(year=..., month=..., day=...)`; `None` stands for the ValueError. */
  function Replace(start: Date, year: int, month: int, day: int): Option<Date> {
    var d := Date(year, month, day, start.time);
    if Valid(d) then Some(d) else None
  }

  function NextMonth(d: Date): (int, int) {
    if d.month == 12 then (d.year + 1, 1) else (d.year, d.month + 1)
  }

  /** The same day one period on, or the last day of the target month when that is shorter; `None` past year 9999. */
  function AddPeriod(start: Date, cycle: Cycle): Option<Date> {
    var (year, month) := if cycle == Yearly then (start.year + 1, start.month) else NextMonth(start);
    if year > MAX_YEAR then None
    else Some(Date(year, month, Min(start.day, DaysIn(year, month)), start.time))
  }

  /** The computation as it is done: try the day, step back while it does not exist, fall back to the 28th. The floor
      branch is reached only when the target year does not exist at all. */
  method ComputePeriod(start: Date, cycle: Cycle) returns (result: Option<Date>, floorReached: bool)
    requires Valid(start)
    ensures result == AddPeriod(start, cycle)
    ensures floorReached <==> cycle == Monthly && NextMonth(start).0 > MAX_YEAR
  {
    floorReached := false;
    if cycle == Yearly {
      result := Replace(start, start.year + 1, start.month, start.day);
      if result == None {
        result := Replace(start, start.year + 1, start.month, 28);
      }
      return;
    }
    var year := start.year + (if start.month == 12 then 1 else 0);
    var month := if start.month == 12 then 1 else start.month + 1;
    var day := start.day;
    while true
      invariant 1 <= day <= start.day
      invariant day < start.day ==> 28 <= day && (year > MAX_YEAR || day + 1 > DaysIn(year, month))
      invariant !floorReached
      decreases day
    {
      result := Replace(start, year, month, day);
      if result.Some? {
        return;
      }
      day := day - 1;
      if day < 28 {
        floorReached := true;
        result := Replace(start, year, month, 28);
        return;
      }
    }
  }

  /** A billing period always ends on a real date strictly after its start. */
  lemma PeriodIsLater(start: Date, cycle: Cycle)
    requires Valid(start) && AddPeriod(start, cycle).Some?
    ensures Valid(AddPeriod(start, cycle).value) && Before(start, AddPeriod(start, cycle).value)
    ensures AddPeriod(start, cycle).value.day <= start.day && AddPeriod(start, cycle).value.time == start.time
  {
  }

  // ---------------------------------------------------------------- many renewals

  function MonthIndex(d: Date): int {
    12 * d.year + d.month - 1
  }

  function LengthAt(index: int): int {
    DaysIn(index / 12, index % 12 + 1)
  }

  /** n monthly periods one after another. */
  function Renew(d: Date, n: nat): Option<Date>
    decreases n
  {
    if n == 0 then Some(d)
    else match Renew(d, n - 1) case None => None case Some(e) => AddPeriod(e, Monthly)
  }

  /** The smallest of `day` and the lengths of the `n` months that follow month `index`. */
  function ClampedDay(day: int, index: int, n: nat): int
    decreases n
  {
    if n == 0 then day else Min(ClampedDay(day, index, n - 1), LengthAt(index + n))
  }

  lemma MonthStep(d: Date)
    requires Valid(d)
    ensures
      var (year, month) := NextMonth(d);
      12 * year + month - 1 == MonthIndex(d) + 1 && (MonthIndex(d) + 1) / 12 == year
          && (MonthIndex(d) + 1) % 12 + 1 == month
  {
  }

  /** n monthly renewals move exactly n months on, and the day is the smallest of the starting day and the length of
      every month passed through: a day lost to a short month is never regained. */
  lemma {:induction false} RenewExact(d: Date, n: nat)
    requires Valid(d) && MonthIndex(d) + n <= 12 * MAX_YEAR + 11
    ensures Renew(d, n).Some?
    ensures
      var e := Renew(d, n).value;
      && Valid(e) && e.time == d.time
      && MonthIndex(e) == MonthIndex(d) + n
      && e.day == ClampedDay(d.day, MonthIndex(d), n)
    decreases n
  {
    if n > 0 {
      RenewExact(d, n - 1);
      MonthStep(Renew(d, n - 1).value);
    }
  }

  lemma {:induction false} ClampedIsMin(day: int, index: int, n: nat)
    ensures ClampedDay(day, index, n) <= day
    ensures forall m :: index < m <= index + n ==> ClampedDay(day, index, n) <= LengthAt(m)
    ensures ClampedDay(day, index, n) == day
            || exists m :: index < m <= index + n && ClampedDay(day, index, n) == LengthAt(m)
    decreases n
  {
    if n > 0 {
      ClampedIsMin(day, index, n - 1);
      assert LengthAt(index + n) >= ClampedDay(day, index, n);
    }
  }

  /** The February passed through in the twelve months after `d`. */
  function FebruaryAfter(d: Date): int {
    DaysIn(if d.month == 1 then d.year else d.year + 1, 2)
  }

  /** The index of that February. */
  function FebruaryIndex(d: Date): int {
    MonthIndex(d) + (if d.month == 1 then 1 else 14 - d.month)
  }

  lemma OneFebruary(d: Date, m: int)
    requires 1 <= d.month <= 12 && MonthIndex(d) < m <= MonthIndex(d) + 12
    ensures m % 12 == 1 <==> m == FebruaryIndex(d)
    ensures LengthAt(FebruaryIndex(d)) == FebruaryAfter(d)
    ensures m != FebruaryIndex(d) ==> LengthAt(m) >= 30
  {
    var f := FebruaryIndex(d);
    assert f == 12 * (if d.month == 1 then d.year else d.year + 1) + 1;
    assert f / 12 == (if d.month == 1 then d.year else d.year + 1) && f % 12 == 1;
    assert -11 <= m - f <= 11;
    assert m % 12 == 1 ==> (m - f) % 12 == 0;
  }

  /** Over twelve months only the one February can clamp the day below what the other months allow. */
  lemma TwelveMonthClamp(d: Date)
    requires Valid(d)
    ensures ClampedDay(d.day, MonthIndex(d), 12) == Min(d.day, FebruaryAfter(d))
  {
    var index := MonthIndex(d);
    var clamped := ClampedDay(d.day, index, 12);
    ClampedIsMin(d.day, index, 12);
    var f := FebruaryIndex(d);
    OneFebruary(d, f);
    assert clamped <= LengthAt(f);
    if clamped != d.day {
      var m :| index < m <= index + 12 && clamped == LengthAt(m);
      OneFebruary(d, m);
    }
  }

  /** Twelve monthly renewals end where one yearly renewal ends if and only if the day exists in the February on the
      way, or the start is itself in February. */
  lemma TwelveMonthsOrOneYear(d: Date)
    requires Valid(d) && d.year < MAX_YEAR
    ensures Renew(d, 12) == AddPeriod(d, Yearly) <==> d.day <= FebruaryAfter(d) || d.month == 2
  {
    hide Renew, Leap;
    RenewTwelve(d);
    var yearly := AddPeriod(d, Yearly).value;
    assert d.month != 2 ==> DaysIn(d.year + 1, d.month) == DaysIn(d.year, d.month);
    assert Renew(d, 12) == AddPeriod(d, Yearly) <==> Min(d.day, FebruaryAfter(d)) == yearly.day;
  }

  lemma RenewTwelve(d: Date)
    requires Valid(d) && d.year < MAX_YEAR
    ensures Renew(d, 12) == Some(Date(d.year + 1, d.month, Min(d.day, FebruaryAfter(d)), d.time))
  {
    hide Renew, ClampedDay, FebruaryAfter;
    RenewExact(d, 12);
    TwelveMonthClamp(d);
    SameIndex(Renew(d, 12).value, d.year + 1, d.month);
  }

  lemma SameIndex(e: Date, year: int, month: int)
    requires 1 <= e.month <= 12 && 1 <= month <= 12 && MonthIndex(e) == 12 * year + month - 1
    ensures e.year == year && e.month == month
  {
  }

  // ---------------------------------------------------------------- day counts

  function DaysBeforeYear(year: int): int {
    365 * (year - 1) + (year - 1) / 4 - (year - 1) / 100 + (year - 1) / 400
  }

  function DaysBeforeMonth(year: int, month: int): int
    decreases month
  {
    if month <= 1 then 0 else DaysBeforeMonth(year, month - 1) + DaysIn(year, month - 1)
  }

  /** Days since the start of year 1. */
  function DayNumber(d: Date): int {
    DaysBeforeYear(d.year) + DaysBeforeMonth(d.year, d.month) + d.day
  }

  const REFUND_WINDOW_DAYS: int := 14

  /** `requested_at <= paid_at + 14 days`, to the instant. */
  predicate WithinRefundWindow(paid: Date, requested: Date) {
    || DayNumber(requested) < DayNumber(paid) + REFUND_WINDOW_DAYS
    || (DayNumber(requested) == DayNumber(paid) + REFUND_WINDOW_DAYS && requested.time <= paid.time)
  }

  lemma FourthYears(year: int)
    ensures year / 4 == (year - 1) / 4 + (if year % 4 == 0 then 1 else 0)
  {
  }

  lemma Centuries(year: int)
    ensures year / 100 == (year - 1) / 100 + (if year % 100 == 0 then 1 else 0)
    ensures year % 100 == 0 ==> year % 4 == 0
  {
  }

  lemma FourthCenturies(year: int)
    ensures year / 400 == (year - 1) / 400 + (if year % 400 == 0 then 1 else 0)
    ensures year % 400 == 0 ==> year % 100 == 0
  {
  }

  lemma YearStep(year: int)
    requires year >= 1
    ensures DaysBeforeYear(year + 1) == DaysBeforeYear(year) + (if Leap(year) then 366 else 365)
  {
    FourthYears(year);
    Centuries(year);
    FourthCenturies(year);
  }

  lemma {:induction false} YearsApart(a: int, b: int)
    requires 1 <= a < b
    ensures DaysBeforeYear(a) + (if Leap(a) then 366 else 365) <= DaysBeforeYear(b)
    decreases b - a
  {
    YearStep(a);
    if a + 1 < b {
      YearsApart(a + 1, b);
    }
  }

  lemma {:induction false} MonthsApart(year: int, a: int, b: int)
    requires 1 <= a < b <= 13
    ensures DaysBeforeMonth(year, a) + DaysIn(year, a) <= DaysBeforeMonth(year, b)
    decreases b - a
  {
    if a + 1 < b {
      MonthsApart(year, a, b - 1);
    }
  }

  lemma YearLength(year: int)
    ensures DaysBeforeMonth(year, 13) == if Leap(year) then 366 else 365
  {
    var m3 := DaysBeforeMonth(year, 3);
    assert m3 == 31 + DaysIn(year, 2) by { assert DaysBeforeMonth(year, 2) == 31; }
    assert DaysBeforeMonth(year, 5) == m3 + 61 by { assert DaysBeforeMonth(year, 4) == m3 + 31; }
    assert DaysBeforeMonth(year, 7) == m3 + 122 by { assert DaysBeforeMonth(year, 6) == m3 + 92; }
    assert DaysBeforeMonth(year, 9) == m3 + 184 by { assert DaysBeforeMonth(year, 8) == m3 + 153; }
    assert DaysBeforeMonth(year, 11) == m3 + 245 by { assert DaysBeforeMonth(year, 10) == m3 + 214; }
    assert DaysBeforeMonth(year, 13) == m3 + 306 by { assert DaysBeforeMonth(year, 12) == m3 + 275; }
  }

  lemma {:induction false} DayOfYear(d: Date)
    requires OnCalendar(d)
    ensures 1 <= DaysBeforeMonth(d.year, d.month) + d.day <= (if Leap(d.year) then 366 else 365)
  {
    YearLength(d.year);
    MonthsApart(d.year, d.month, 13);
    if d.month > 1 {
      MonthsApart(d.year, 1, d.month);
    }
  }

  /** Day counts order dates as the calendar does. */
  lemma DayNumberOrders(a: Date, b: Date)
    requires OnCalendar(a) && OnCalendar(b)
    ensures Before(a, b) <==> DayNumber(a) < DayNumber(b) || (DayNumber(a) == DayNumber(b) && a.time < b.time)
  {
    DayOfYear(a);
    DayOfYear(b);
    if a.year < b.year {
      YearsApart(a.year, b.year);
    } else if b.year < a.year {
      YearsApart(b.year, a.year);
    } else if a.month < b.month {
      MonthsApart(a.year, a.month, b.month);
    } else if b.month < a.month {
      MonthsApart(a.year, b.month, a.month);
    }
  }

  // ---------------------------------------------------------------- the refund window

  function NextDay(d: Date): (e: Date)
    requires OnCalendar(d)
    ensures OnCalendar(e) && e.time == d.time
  {
    if d.day < DaysIn(d.year, d.month) then d.(day := d.day + 1)
    else var (year, month) := NextMonth(d); Date(year, month, 1, d.time)
  }

  /** `d + timedelta(days=n)`, counted off day by day. */
  function AddDays(d: Date, n: nat): (e: Date)
    requires OnCalendar(d)
    ensures OnCalendar(e) && e.time == d.time
  {
    if n == 0 then d else NextDay(AddDays(d, n - 1))
  }

  lemma NextDayNumber(d: Date)
    requires OnCalendar(d)
    ensures DayNumber(NextDay(d)) == DayNumber(d) + 1
  {
    hide DaysBeforeYear;
    YearStep(d.year);
    YearLength(d.year);
    assert DaysBeforeMonth(d.year, 1) == 0 && DaysBeforeMonth(d.year + 1, 1) == 0;
    assert DaysBeforeMonth(d.year, d.month + 1) == DaysBeforeMonth(d.year, d.month) + DaysIn(d.year, d.month);
  }

  lemma {:induction false} AddDaysNumber(d: Date, n: nat)
    requires OnCalendar(d)
    ensures DayNumber(AddDays(d, n)) == DayNumber(d) + n
  {
    hide DayNumber, NextDay;
    if n > 0 {
      AddDaysNumber(d, n - 1);
      NextDayNumber(AddDays(d, n - 1));
    }
  }

  /** A refund is accepted up to and including the instant fourteen calendar days after the payment. */
  lemma RefundWindowExact(paid: Date, requested: Date)
    requires Valid(paid) && Valid(requested)
    ensures WithinRefundWindow(paid, requested) <==> NotAfter(requested, AddDays(paid, 14))
  {
    var last := AddDays(paid, REFUND_WINDOW_DAYS);
    AddDaysNumber(paid, REFUND_WINDOW_DAYS);
    hide DayNumber, AddDays;
    DayNumberOrders(requested, last);
    DayNumberOrders(last, requested);
  }
}
