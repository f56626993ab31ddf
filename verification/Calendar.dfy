// The proleptic Gregorian calendar of absl::CivilDay, as src/base/date_util.cc uses it.
module Calendar {
  datatype Date = Date(year: int, month: nat, day: nat)

  predicate IsLeap(year: int) {
    year % 4 == 0 && (year % 100 != 0 || year % 400 == 0)
  }

  function DaysIn(year: int, month: nat): (n: nat)
    requires 1 <= month <= 12
    ensures 28 <= n <= 31
  {
    if month == 2 then (if IsLeap(year) then 29 else 28)
    else if month in {4, 6, 9, 11} then 30
    else 31
  }

  predicate Valid(d: Date) {
    1 <= d.month <= 12 && 1 <= d.day <= DaysIn(d.year, d.month)
  }

  // ---- Days counted from a fixed one.

  function DaysBeforeYear(year: int): int {
    365 * year + (year - 1) / 4 - (year - 1) / 100 + (year - 1) / 400
  }

  function DaysBeforeMonth(year: int, month: nat): nat
    requires 1 <= month <= 12
  {
    if month == 1 then 0 else DaysBeforeMonth(year, month - 1) + DaysIn(year, month - 1)
  }

  function Number(d: Date): int
    requires 1 <= d.month <= 12
  {
    DaysBeforeYear(d.year) + DaysBeforeMonth(d.year, d.month) + d.day
  }

  function YearLength(year: int): nat {
    if IsLeap(year) then 366 else 365
  }

  lemma YearAdds(year: int)
    ensures DaysBeforeYear(year + 1) == DaysBeforeYear(year) + YearLength(year)
  {
    QuotientStep(year, 4);
    QuotientStep(year, 100);
    QuotientStep(year, 400);
    if year % 400 == 0 {
      assert year % 100 == 0 && year % 4 == 0;
    } else if year % 100 == 0 {
      assert year % 4 == 0;
    }
  }

  lemma QuotientStep(n: int, k: nat)
    requires k in {4, 100, 400}
    ensures n / k == (n - 1) / k + (if n % k == 0 then 1 else 0)
  {
  }

  // The month table: the days before each month, and before the next year.
  lemma MonthTable(year: int)
    ensures var leap := if IsLeap(year) then 1 else 0;
            && DaysBeforeMonth(year, 1) == 0 && DaysBeforeMonth(year, 2) == 31 && DaysBeforeMonth(year, 3) == 59 + leap
            && DaysBeforeMonth(year, 4) == 90 + leap && DaysBeforeMonth(year, 5) == 120 + leap && DaysBeforeMonth(year, 6) == 151 + leap
            && DaysBeforeMonth(year, 7) == 181 + leap && DaysBeforeMonth(year, 8) == 212 + leap && DaysBeforeMonth(year, 9) == 243 + leap
            && DaysBeforeMonth(year, 10) == 273 + leap && DaysBeforeMonth(year, 11) == 304 + leap && DaysBeforeMonth(year, 12) == 334 + leap
  {
    hide IsLeap;
    assert DaysBeforeMonth(year, 3) == DaysBeforeMonth(year, 2) + DaysIn(year, 2);
    assert DaysBeforeMonth(year, 5) == DaysBeforeMonth(year, 4) + 30;
    assert DaysBeforeMonth(year, 7) == DaysBeforeMonth(year, 6) + 30;
    assert DaysBeforeMonth(year, 9) == DaysBeforeMonth(year, 8) + 31;
    assert DaysBeforeMonth(year, 11) == DaysBeforeMonth(year, 10) + 31;
  }

  // The day after.
  function Next(d: Date): Date
    requires Valid(d)
  {
    if d.day < DaysIn(d.year, d.month) then d.(day := d.day + 1)
    else if d.month < 12 then Date(d.year, d.month + 1, 1)
    else Date(d.year + 1, 1, 1)
  }

  // The numbers are a count of days.
  lemma NextCounts(d: Date)
    requires Valid(d)
    ensures Valid(Next(d)) && Number(Next(d)) == Number(d) + 1
  {
    hide IsLeap;
    hide DaysBeforeYear;
    if d.month == 12 {
      YearAdds(d.year);
      MonthTable(d.year);
    }
  }

  // A day past the end of its month is a day of the next; no more than three are
  // past it here, and December has all its days.
  function Normalized(year: int, month: nat, day: nat): Date
    requires 1 <= month <= 12 && 1 <= day <= 31
  {
    if day <= DaysIn(year, month) then Date(year, month, day) else Date(year, month + 1, day - DaysIn(year, month))
  }

  lemma NormalizedCounts(year: int, month: nat, day: nat)
    requires 1 <= month <= 12 && 1 <= day <= 31
    ensures Valid(Normalized(year, month, day)) && Normalized(year, month, day).year == year
    ensures Number(Normalized(year, month, day)) == DaysBeforeYear(year) + DaysBeforeMonth(year, month) + day
    ensures Normalized(year, month, day) == Date(year, month, day) <==> Valid(Date(year, month, day))
  {
    hide IsLeap;
    hide DaysBeforeYear;
  }
}
