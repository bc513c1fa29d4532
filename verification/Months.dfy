/**
 Adding months, three ways: a clamp by arithmetic, a clamp by day zero of the next month,
 and a roll-over pulled back. Days are counted from 1 January of year 0 and months from
 January of year 0; instants are milliseconds from the first midnight.
 */
module Months {
  import opened Wrappers

  // --- The Gregorian calendar -------------------------------------------------------------

  predicate IsLeap(year: nat) {
    year % 4 == 0 && (year % 100 != 0 || year % 400 == 0)
  }

  /** How long a month is; `month` counts every month since January of year 0. */
  function Length(month: nat): (days: nat)
    ensures 28 <= days <= 31
  {
    var m := month % 12;
    if m == 1 then (if IsLeap(month / 12) then 29 else 28)
    else if m == 3 || m == 5 || m == 8 || m == 10 then 30
    else 31
  }

  /** The day a month begins on. */
  function FirstDay(month: nat): nat {
    if month == 0 then 0 else FirstDay(month - 1) + Length(month - 1)
  }

  /** The month a day falls in, looking from `month` on. */
  function MonthFrom(day: nat, month: nat): (r: nat)
    requires FirstDay(month) <= day
    ensures FirstDay(r) <= day < FirstDay(r + 1)
    decreases day - FirstDay(month)
  {
    if day < FirstDay(month + 1) then month else MonthFrom(day, month + 1)
  }

  function MonthOf(day: nat): (r: nat)
    ensures FirstDay(r) <= day < FirstDay(r + 1)
  {
    MonthFrom(day, 0)
  }

  function DayOfMonth(day: nat): (d: nat)
    ensures 1 <= d <= Length(MonthOf(day))
  {
    day - FirstDay(MonthOf(day)) + 1
  }

  lemma {:induction false} MonthsInOrder(a: nat, b: nat)
    requires a <= b
    ensures FirstDay(a) + 28 * (b - a) <= FirstDay(b)
    decreases b
  {
    if a < b { MonthsInOrder(a, b - 1); }
  }

  lemma NextFirstDay(month: nat)
    ensures FirstDay(month + 1) == FirstDay(month) + Length(month)
  {
    hide Length;
  }

  /** A month and a day in it are read back from the day they make. */
  lemma DateReadsBack(month: nat, d: nat)
    requires 1 <= d <= Length(month)
    ensures MonthOf(FirstDay(month) + d - 1) == month && DayOfMonth(FirstDay(month) + d - 1) == d
  {
    hide Length, FirstDay, MonthOf;
    var r := MonthOf(FirstDay(month) + d - 1);
    NextFirstDay(month);
    if r < month { MonthsInOrder(r + 1, month); }
    if r > month { MonthsInOrder(month + 1, r); }
  }

  // --- What a date object does ------------------------------------------------------------

  /** A year, a zero-based month and a day, any of them out of range, carried over. */
  function MakeDay(year: int, month: int, d: int): int
    requires year * 12 + month >= 0
  {
    FirstDay(year * 12 + month) + d - 1
  }

  /** `Date.UTC` takes the years 0 to 99 for 1900 to 1999. */
  function UtcYear(year: int): int {
    if 0 <= year <= 99 then 1900 + year else year
  }

  /** The length of a month as the code finds it: day zero of the next. `month` counts from 1. */
  function DaysInMonthOf(year: nat, month: nat): nat
    requires 1 <= month <= 12
  {
    DayOfMonth(MakeDay(UtcYear(year), month, 0))
  }

  lemma DayZeroIsTheLast(month: nat)
    ensures FirstDay(month + 1) >= 1 && DayOfMonth(FirstDay(month + 1) - 1) == Length(month) && MonthOf(FirstDay(month + 1) - 1) == month
  {
    hide Length, FirstDay, MonthOf, DayOfMonth;
    NextFirstDay(month);
    DateReadsBack(month, Length(month));
  }

  /** The year `Date.UTC` takes for another is as long as it, but for year 0. */
  lemma DaysInMonthIsLength(year: nat, month: nat)
    requires 1 <= month <= 12
    ensures DaysInMonthOf(year, month) == if year == 0 && month == 2 then 28 else Length(year * 12 + month - 1)
  {
    hide FirstDay, MonthOf, DayOfMonth;
    DayZeroIsTheLast(UtcYear(year) * 12 + month - 1);
    SplitMonth(year * 12 + month - 1);
    SplitMonth(UtcYear(year) * 12 + month - 1);
    SameYears(year);
  }

  lemma SameYears(year: nat)
    ensures IsLeap(UtcYear(year)) == IsLeap(year) || year == 0
  {
  }

  lemma SplitMonth(month: nat)
    ensures month == month / 12 * 12 + month % 12 && 0 <= month % 12 < 12
  {
  }

  // --- The three adders -------------------------------------------------------------------

  datatype Date = Date(year: nat, month: nat, day: nat)

  predicate IsDate(date: Date) {
    1 <= date.month <= 12 && 1 <= date.day <= Length(date.year * 12 + date.month - 1)
  }

  function DayOf(date: Date): int
    requires IsDate(date)
  {
    FirstDay(date.year * 12 + date.month - 1) + date.day - 1
  }

  /** Clamps by arithmetic on months. */
  function AddMonths(date: Date, months: int): Date
    requires 1 <= date.month <= 12 && date.year * 12 + (date.month - 1) + months >= 0
  {
    var target := date.year * 12 + (date.month - 1) + months;
    var targetYear := target / 12;
    var targetMonth := target - targetYear * 12 + 1;
    var last := DaysInMonthOf(targetYear, targetMonth);
    Date(targetYear, targetMonth, if date.day < last then date.day else last)
  }

  const DAY_MS: nat := 86400000

  datatype Interval = Month | Year

  /** Clamps by day zero of the month after. */
  function NextPeriodEnd(from: nat, interval: Interval): int {
    var day := from / DAY_MS;
    var year := MonthOf(day) / 12 + if interval == Year then 1 else 0;
    var month := MonthOf(day) % 12 + if interval == Month then 1 else 0;
    var last := DayOfMonth(MakeDay(UtcYear(year), month + 1, 0));
    MakeDay(UtcYear(year), month, if DayOfMonth(day) < last then DayOfMonth(day) else last) * DAY_MS + from % DAY_MS
  }

  /** Rolls over, and pulls back to the last day of the month meant. */
  function ExpiryFrom(issuedAt: nat, months: Option<int>): Option<int> {
    if months.None? || months.value <= 0 then None
    else
      var day := issuedAt / DAY_MS;
      var rolled := MakeDay(MonthOf(day) / 12, MonthOf(day) % 12 + months.value, DayOfMonth(day));
      var pulled := if DayOfMonth(rolled) != DayOfMonth(day) then MakeDay(MonthOf(rolled) / 12, MonthOf(rolled) % 12, 0) else rolled;
      Some(pulled * DAY_MS + issuedAt % DAY_MS)
  }

  // --- They agree -------------------------------------------------------------------------

  /** The day meant: so many months on, the same day of the month or the month's last. */
  function MonthsLater(day: nat, months: int): nat
    requires MonthOf(day) + months >= 0
  {
    var month := MonthOf(day) + months;
    FirstDay(month) + (if DayOfMonth(day) < Length(month) then DayOfMonth(day) else Length(month)) - 1
  }

  /** Clamping by arithmetic gives the day meant, if and only if that is not 29 February of year 0. */
  lemma AddMonthsIsMonthsLaterIff(date: Date, months: int)
    requires IsDate(date) && date.year * 12 + (date.month - 1) + months >= 0
    ensures var r := AddMonths(date, months);
            && IsDate(r) && MonthOf(DayOf(date)) + months >= 0
            && (DayOf(r) == MonthsLater(DayOf(date), months) <==> !(r.year == 0 && r.month == 2 && date.day >= 29))
  {
    hide FirstDay, MonthOf, DayOfMonth, DaysInMonthOf;
    var target := date.year * 12 + (date.month - 1) + months;
    DateReadsBack(date.year * 12 + date.month - 1, date.day);
    DaysInMonthIsLength(target / 12, target % 12 + 1);
  }

  lemma NextPeriodEndIsMonthsLater(from: nat, interval: Interval)
    requires (MonthOf(from / DAY_MS) + (if interval == Year then 12 else 0)) / 12 >= 100
    ensures NextPeriodEnd(from, interval)
            == MonthsLater(from / DAY_MS, if interval == Year then 12 else 1) * DAY_MS + from % DAY_MS
  {
    hide Length, FirstDay, MonthOf, DayOfMonth;
    var day := from / DAY_MS;
    SplitMonth(MonthOf(day));
    DayZeroIsTheLast(MonthOf(day) + if interval == Year then 12 else 1);
  }

  /** Rolling over never goes past the month after the one meant. */
  lemma RollsOverOnce(month: nat, d: nat)
    requires 1 <= d <= 31
    ensures var rolled := FirstDay(month) + d - 1;
            if d <= Length(month) then MonthOf(rolled) == month && DayOfMonth(rolled) == d
            else MonthOf(rolled) == month + 1 && DayOfMonth(rolled) == d - Length(month)
  {
    hide Length, FirstDay, MonthOf, DayOfMonth;
    NextFirstDay(month);
    if d <= Length(month) {
      DateReadsBack(month, d);
    } else {
      DateReadsBack(month + 1, d - Length(month));
    }
  }

  lemma ExpiryIsMonthsLater(issuedAt: nat, months: int)
    requires months > 0
    ensures ExpiryFrom(issuedAt, Some(months)) == Some(MonthsLater(issuedAt / DAY_MS, months) * DAY_MS + issuedAt % DAY_MS)
  {
    hide Length, FirstDay, MonthOf, DayOfMonth;
    var day := issuedAt / DAY_MS;
    var month := MonthOf(day) + months;
    SplitMonth(MonthOf(day));
    NextFirstDay(month);
    RollsOverOnce(month, DayOfMonth(day));
    SplitMonth(MonthOf(FirstDay(month) + DayOfMonth(day) - 1));
  }

  /** Unless `Date.UTC` mistakes the year: then the period ends nineteen centuries after the expiry. */
  lemma AgreeIffYearIsFull(from: nat, interval: Interval)
    ensures Some(NextPeriodEnd(from, interval)) == ExpiryFrom(from, Some(if interval == Year then 12 else 1))
            <==> MonthOf(from / DAY_MS) / 12 + (if interval == Year then 1 else 0) >= 100
  {
    hide Length, FirstDay, MonthOf, DayOfMonth, ExpiryFrom;
    var months := if interval == Year then 12 else 1;
    var day := from / DAY_MS;
    SplitMonth(MonthOf(day));
    ExpiryIsMonthsLater(from, months);
    var year := MonthOf(day) / 12 + if interval == Year then 1 else 0;
    if year >= 100 {
      NextPeriodEndIsMonthsLater(from, interval);
    } else {
      var month := MonthOf(day) % 12 + if interval == Month then 1 else 0;
      var target, mistaken := MonthOf(day) + months, (1900 + year) * 12 + month;
      NextFirstDay(target);
      MonthsInOrder(target + 1, mistaken);
      DayZeroIsTheLast(mistaken);
      assert MonthsLater(day, months) < FirstDay(target + 1) <= FirstDay(mistaken);
      assert MakeDay(1900 + year, month, DayOfMonth(day)) == FirstDay(mistaken) + DayOfMonth(day) - 1;
      assert MakeDay(1900 + year, month + 1, 0) == FirstDay(mistaken + 1) - 1;
    }
  }
}
