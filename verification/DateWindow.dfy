// src/base/date_util.cc: the year of a date written without one.
module DateWindow {
  import opened Options
  import opened Calendar

  // How many days a date is after another.
  function DaysAfter(d: Date, today: Date): int
    requires 1 <= d.month <= 12 && 1 <= today.month <= 12
  {
    Number(d) - Number(today)
  }

  function TargetYear(today: Date, month: nat, day: nat): int
    requires Valid(today) && 1 <= month <= 12 && 1 <= day <= 31
  {
    NormalizedCounts(today.year, month, day);
    var diff := DaysAfter(Normalized(today.year, month, day), today);
    if diff < -90 then today.year + 1 else if diff > 275 then today.year - 1 else today.year
  }

  // The end of ParseTrailingDate, from the numbers that were read.
  method ResolveDate(today: Date, explicitYear: Option<nat>, month: nat, day: nat) returns (r: Option<Date>)
    requires Valid(today)
    ensures r == Resolved(today, explicitYear, month, day)
  {
    if month < 1 || month > 12 || day < 1 || day > 31 {
      return None;
    }
    var targetYear := 0;
    if explicitYear.Some? {
      if explicitYear.value < 1900 || explicitYear.value > 2100 {
        return None;
      }
      targetYear := explicitYear.value;
    } else {
      var candidate := Normalized(today.year, month, day);
      NormalizedCounts(today.year, month, day);
      var diffDays := DaysAfter(candidate, today);
      if diffDays < -90 {
        targetYear := today.year + 1;
      } else if diffDays > 275 {
        targetYear := today.year - 1;
      } else {
        targetYear := today.year;
      }
    }
    var resultDay := Normalized(targetYear, month, day);
    if resultDay.year != targetYear || resultDay.month != month || resultDay.day != day {
      return None;
    }
    r := Some(resultDay);
  }

  // A date that is written with its year must be valid and in range; one without
  // must be valid in its target year.
  function Resolved(today: Date, explicitYear: Option<nat>, month: nat, day: nat): Option<Date>
    requires Valid(today)
  {
    if month < 1 || month > 12 || day < 1 || day > 31 then None
    else if explicitYear.Some? && (explicitYear.value < 1900 || explicitYear.value > 2100) then None
    else
      var year := if explicitYear.Some? then explicitYear.value else TargetYear(today, month, day);
      if Valid(Date(year, month, day)) then Some(Date(year, month, day)) else None
  }

  predicate InWindow(d: Date, today: Date)
    requires 1 <= d.month <= 12 && 1 <= today.month <= 12
  {
    -90 <= DaysAfter(d, today) <= 275
  }

  // ---- Where the resolved day lies.

  lemma DayOfYear(d: Date)
    requires Valid(d)
    ensures DaysBeforeYear(d.year) < Number(d) <= DaysBeforeYear(d.year) + YearLength(d.year)
  {
    hide IsLeap;
    hide DaysBeforeYear;
    MonthTable(d.year);
  }

  // The same day of the month a year later.
  lemma YearLater(year: int, month: nat, day: nat)
    requires 1 <= month <= 12
    ensures var shift := DaysBeforeYear(year + 1) + DaysBeforeMonth(year + 1, month) - DaysBeforeYear(year) - DaysBeforeMonth(year, month);
            shift == if month <= 2 then YearLength(year) else YearLength(year + 1)
  {
    hide IsLeap;
    YearAdds(year);
    hide DaysBeforeYear;
    MonthTable(year);
    MonthTable(year + 1);
  }

  lemma NoTwoLeapsRunning(year: int)
    ensures !(IsLeap(year) && IsLeap(year + 1))
  {
  }

  // Whatever today is, an accepted date lies from 90 days before it to 275 days
  // after, the 29th of February included.
  lemma AcceptedInWindow(today: Date, month: nat, day: nat)
    requires Valid(today) && Resolved(today, None, month, day).Some?
    ensures InWindow(Resolved(today, None, month, day).value, today)
  {
    hide IsLeap;
    hide DaysBeforeYear;
    NormalizedCounts(today.year, month, day);
    DayOfYear(today);
    DayOfYear(Normalized(today.year, month, day));
    YearLater(today.year, month, day);
    YearLater(today.year - 1, month, day);
    YearAdds(today.year);
    YearAdds(today.year - 1);
    NoTwoLeapsRunning(today.year);
    NoTwoLeapsRunning(today.year - 1);
  }

  // ---- Which dates are accepted.

  // The one day of the year before a leap year from which its 29th of February is in
  // the window and is not found: the candidate, the 1st of March, is 90 days ago.
  predicate Misses(today: Date, month: nat, day: nat) {
    month == 2 && day == 29 && today.month == 5 && today.day == 30 && IsLeap(today.year + 1)
  }

  lemma SameDayOfYear(a: Date, b: Date)
    requires Valid(a) && Valid(b) && a.year == b.year && Number(a) == Number(b)
    ensures a == b
  {
    hide IsLeap;
    hide DaysBeforeYear;
    MonthTable(a.year);
  }

  lemma MissedCandidate(today: Date)
    requires Valid(today) && Misses(today, 2, 29)
    ensures Resolved(today, None, 2, 29) == None
  {
    NoTwoLeapsRunning(today.year);
    hide IsLeap;
    hide DaysBeforeYear;
    NormalizedCounts(today.year, 2, 29);
    MonthTable(today.year);
  }

  predicate Written(month: nat, day: nat) {
    1 <= month <= 12 && 1 <= day <= 31
  }

  // The years whose date can be in the window at all.
  lemma WindowYears(today: Date, d: Date)
    requires Valid(today) && Valid(d) && InWindow(d, today)
    ensures today.year - 1 <= d.year <= today.year + 1
  {
    hide IsLeap;
    hide DaysBeforeYear;
    DayOfYear(today);
    DayOfYear(d);
    if d.year < today.year - 1 {
      YearsApart(d.year + 1, today.year - d.year - 1);
      YearAdds(d.year);
    } else if d.year > today.year + 1 {
      YearsApart(today.year + 1, d.year - today.year - 1);
      YearAdds(today.year);
    }
  }

  lemma {:induction false} YearsApart(year: int, n: nat)
    ensures DaysBeforeYear(year + n) >= DaysBeforeYear(year) + 365 * n
  {
    hide DaysBeforeYear;
    if n > 0 {
      YearsApart(year, n - 1);
      YearAdds(year + n - 1);
    }
  }

  lemma FoundThisYear(today: Date, month: nat, day: nat)
    requires Valid(today) && Written(month, day)
    requires Valid(Date(today.year, month, day)) && InWindow(Date(today.year, month, day), today)
    ensures Resolved(today, None, month, day) == Some(Date(today.year, month, day))
  {
    hide IsLeap;
    hide DaysBeforeYear;
    NormalizedCounts(today.year, month, day);
  }

  lemma FoundNextYear(today: Date, month: nat, day: nat)
    requires Valid(today) && Written(month, day) && !Misses(today, month, day)
    requires Valid(Date(today.year + 1, month, day)) && InWindow(Date(today.year + 1, month, day), today)
    ensures Resolved(today, None, month, day).Some?
  {
    NormalizedCounts(today.year, month, day);
    YearLater(today.year, month, day);
    if month == 2 && day == 29 {
      var may30 := Date(today.year, 5, 30);
      NoTwoLeapsRunning(today.year);
      hide IsLeap;
      hide DaysBeforeYear;
      MonthTable(today.year);
      if Number(today) == Number(may30) {
        SameDayOfYear(today, may30);
      }
    }
    hide IsLeap;
    hide DaysBeforeYear;
  }

  lemma FoundLastYear(today: Date, month: nat, day: nat)
    requires Valid(today) && Written(month, day)
    requires Valid(Date(today.year - 1, month, day)) && InWindow(Date(today.year - 1, month, day), today)
    ensures Resolved(today, None, month, day).Some?
  {
    hide IsLeap;
    hide DaysBeforeYear;
    NormalizedCounts(today.year, month, day);
    YearLater(today.year - 1, month, day);
  }

  // A date is accepted exactly when it falls in the window in some year, but for the
  // 29th of February seen from the 30th of May.
  lemma AcceptedIff(today: Date, month: nat, day: nat)
    requires Valid(today) && Written(month, day)
    ensures Resolved(today, None, month, day).Some? <==>
            && (exists year :: Valid(Date(year, month, day)) && InWindow(Date(year, month, day), today))
            && !Misses(today, month, day)
  {
    hide IsLeap;
    hide InWindow;
    if Resolved(today, None, month, day).Some? {
      AcceptedInWindow(today, month, day);
      if Misses(today, month, day) {
        MissedCandidate(today);
      }
    } else if !Misses(today, month, day) {
      if year :| Valid(Date(year, month, day)) && InWindow(Date(year, month, day), today) {
        WindowYears(today, Date(year, month, day));
        if year == today.year {
          FoundThisYear(today, month, day);
        } else if year > today.year {
          FoundNextYear(today, month, day);
        } else {
          FoundLastYear(today, month, day);
        }
      }
    }
  }

  // The missed date is 275 days away: in the window, and refused.
  lemma MissedIsInWindow(today: Date)
    requires Valid(today) && Misses(today, 2, 29)
    ensures Valid(Date(today.year + 1, 2, 29)) && DaysAfter(Date(today.year + 1, 2, 29), today) == 275
    ensures Resolved(today, None, 2, 29) == None
  {
    MissedCandidate(today);
    NoTwoLeapsRunning(today.year);
    hide DaysBeforeYear;
    YearAdds(today.year);
    MonthTable(today.year);
    MonthTable(today.year + 1);
  }

  // Whatever is accepted has the month and the day that were written, and the year if
  // one was; a written year is accepted from 1900 to 2100, for a date it has.
  lemma AsWritten(today: Date, explicitYear: Option<nat>, month: nat, day: nat)
    requires Valid(today)
    ensures var r := Resolved(today, explicitYear, month, day);
            && (r.Some? ==> r.value.month == month && r.value.day == day && Valid(r.value))
            && (explicitYear.Some? ==>
                  var year := explicitYear.value;
                  (r == Some(Date(year, month, day)) <==> 1900 <= year <= 2100 && Valid(Date(year, month, day)))
                  && (r == Some(Date(year, month, day)) || r == None))
  {
    hide IsLeap;
  }
}
