/** The proleptic Gregorian calendar of Python's `datetime`, to the minute, on a clock with a fixed offset. */
module Calendar {

  datatype Moment = Moment(year: int, month: int, day: int, hour: int, minute: int)

  predicate Leap(year: int) {
    year % 4 == 0 && (year % 100 != 0 || year % 400 == 0)
  }

  function DaysIn(year: int, month: int): int {
    if month == 2 then (if Leap(year) then 29 else 28)
    else if month in {4, 6, 9, 11} then 30
    else 31
  }

  /** The length every year grants the month. */
  function ShortestLength(month: int): int {
    if month == 2 then 28 else if month in {4, 6, 9, 11} then 30 else 31
  }

  predicate Valid(m: Moment) {
    && 1 <= m.year && 1 <= m.month <= 12 && 1 <= m.day <= DaysIn(m.year, m.month)
    && 0 <= m.hour < 24 && 0 <= m.minute < 60
  }

  /** `candidate + timedelta(minutes=1)`. */
  function Tick(m: Moment): Moment {
    if m.minute < 59 then m.(minute := m.minute + 1)
    else if m.hour < 23 then m.(hour := m.hour + 1, minute := 0)
    else if m.day < DaysIn(m.year, m.month) then m.(day := m.day + 1, hour := 0, minute := 0)
    else if m.month < 12 then Moment(m.year, m.month + 1, 1, 0, 0)
    else Moment(m.year + 1, 1, 1, 0, 0)
  }

  // ----- counting days and minutes -----

  function DaysBeforeYear(year: int): int {
    (year - 1) * 365 + (year - 1) / 4 - (year - 1) / 100 + (year - 1) / 400
  }

  function DaysBeforeMonth(year: int, month: int): int
    decreases month
  {
    if month <= 1 then 0 else DaysBeforeMonth(year, month - 1) + DaysIn(year, month - 1)
  }

  /** `date.toordinal()`: 1 is Monday, 1 January of the year 1. */
  function Ordinal(m: Moment): int {
    DaysBeforeYear(m.year) + DaysBeforeMonth(m.year, m.month) + m.day
  }

  /** Minutes on the clock since the day with ordinal 0. */
  function Minutes(m: Moment): int {
    Ordinal(m) * 1440 + m.hour * 60 + m.minute
  }

  function DaysInYear(year: int): int {
    if Leap(year) then 366 else 365
  }

  lemma FourthYears(y: int)
    ensures (y + 1) / 4 == y / 4 + if (y + 1) % 4 == 0 then 1 else 0
  {
  }

  lemma HundredthYears(y: int)
    ensures (y + 1) / 100 == y / 100 + if (y + 1) % 100 == 0 then 1 else 0
  {
  }

  lemma FourHundredthYears(y: int)
    ensures (y + 1) / 400 == y / 400 + if (y + 1) % 400 == 0 then 1 else 0
  {
  }

  lemma YearLength(year: int)
    requires year >= 1
    ensures DaysBeforeYear(year + 1) == DaysBeforeYear(year) + DaysInYear(year)
  {
    var y := year - 1;
    FourthYears(y);
    HundredthYears(y);
    FourHundredthYears(y);
    LeapSteps(year);
  }

  lemma LeapSteps(year: int)
    ensures year % 100 == 0 ==> year % 4 == 0
    ensures year % 400 == 0 ==> year % 100 == 0
  {
    if year % 100 == 0 { assert year == 4 * (25 * (year / 100)); }
    if year % 400 == 0 { assert year == 100 * (4 * (year / 400)); }
  }

  lemma MonthsFillYear(year: int)
    ensures DaysBeforeMonth(year, 12) + DaysIn(year, 12) == DaysInYear(year)
  {
    assert DaysBeforeMonth(year, 4) == DaysIn(year, 1) + DaysIn(year, 2) + DaysIn(year, 3);
    assert DaysBeforeMonth(year, 7) == DaysBeforeMonth(year, 4) + 91;
    assert DaysBeforeMonth(year, 10) == DaysBeforeMonth(year, 7) + 92;
  }

  lemma {:induction false} MonthsAscend(year: int, a: int, b: int)
    requires 1 <= a < b <= 13
    ensures DaysBeforeMonth(year, a) + DaysIn(year, a) <= DaysBeforeMonth(year, b)
    decreases b
  {
    if a + 1 < b { MonthsAscend(year, a, b - 1); }
  }

  lemma {:induction false} YearsAscend(a: int, b: int)
    requires 1 <= a <= b
    ensures DaysBeforeYear(a) + 365 * (b - a) <= DaysBeforeYear(b) <= DaysBeforeYear(a) + 366 * (b - a)
    decreases b
  {
    if a < b {
      YearsAscend(a, b - 1);
      YearLength(b - 1);
    }
  }

  /** A date lies within its year. */
  lemma WithinYear(m: Moment)
    requires Valid(m)
    ensures DaysBeforeYear(m.year) < Ordinal(m) <= DaysBeforeYear(m.year + 1)
  {
    YearLength(m.year);
    MonthsFillYear(m.year);
    if m.month < 12 { MonthsAscend(m.year, m.month, 12); }
    if m.month > 1 { MonthsAscend(m.year, 1, m.month); }
  }

  /** The minute after is one minute later. */
  lemma TickAddsOne(m: Moment)
    requires Valid(m)
    ensures Valid(Tick(m)) && Minutes(Tick(m)) == Minutes(m) + 1
  {
    if m.minute == 59 && m.hour == 23 && m.day == DaysIn(m.year, m.month) && m.month == 12 {
      YearLength(m.year);
      MonthsFillYear(m.year);
    }
  }

  lemma YearsSeparate(a: Moment, b: Moment)
    requires Valid(a) && Valid(b) && a.year < b.year
    ensures Ordinal(a) < Ordinal(b)
  {
    WithinYear(a);
    WithinYear(b);
    YearsAscend(a.year + 1, b.year);
  }

  lemma MonthsSeparate(a: Moment, b: Moment)
    requires Valid(a) && Valid(b) && a.year == b.year && a.month < b.month
    ensures Ordinal(a) < Ordinal(b)
  {
    MonthsAscend(a.year, a.month, b.month);
  }

  /** No two moments share a minute. */
  lemma MinutesInjective(a: Moment, b: Moment)
    requires Valid(a) && Valid(b) && Minutes(a) == Minutes(b)
    ensures a == b
  {
    assert Ordinal(a) == Ordinal(b);
    if a.year < b.year { YearsSeparate(a, b); }
    if b.year < a.year { YearsSeparate(b, a); }
    if a.month < b.month { MonthsSeparate(a, b); }
    if b.month < a.month { MonthsSeparate(b, a); }
  }

  /** The months' lengths; centuries are leap years every four hundred years. */
  lemma MonthLengths(year: int, month: int)
    ensures month in {1, 3, 5, 7, 8, 10, 12} ==> DaysIn(year, month) == ShortestLength(month) == 31
    ensures month in {4, 6, 9, 11} ==> DaysIn(year, month) == ShortestLength(month) == 30
    ensures ShortestLength(2) == 28
    ensures year % 100 == 0 && year % 400 != 0 ==> DaysIn(year, 2) == 28
    ensures year % 4 == 0 && year % 100 != 0 ==> DaysIn(year, 2) == 29
    ensures year % 4 != 0 ==> DaysIn(year, 2) == 28
  {
  }

  lemma FourHundredYears(k: int)
    ensures DaysIn(400 * k, 2) == 29
  {
    assert 400 * k == 4 * (100 * k) == 100 * (4 * k);
    assert (400 * k) % 4 == 0 && (400 * k) % 400 == 0;
  }

  /** The count of days is that of `toordinal()`: the epoch of Unix is day 719163. */
  lemma EpochOrdinal()
    ensures Ordinal(Moment(1970, 1, 1, 0, 0)) == 719163 && Ordinal(Moment(1, 1, 1, 0, 0)) == 1
  {
  }
}
