// src/base/date_util.cc: the date at the end of a text, already in half-width form.
module DateText {
  import opened Options
  import opened Calendar
  import opened NumberPrinter
  import NumberRoundTrip
  import DateWindow

  predicate EndsWith(s: string, c: char) {
    s != "" && s[|s| - 1] == c
  }

  predicate EndsWithDigit(s: string) {
    s != "" && IsDigit(s[|s| - 1])
  }

  method ConsumeTrailingDigits(s: string) returns (digits: string, rest: string)
    ensures s == rest + digits && IsDecimal(digits) && !EndsWithDigit(rest)
  {
    var pos := |s|;
    while pos > 0 && IsDigit(s[pos - 1])
      invariant 0 <= pos <= |s| && forall k :: pos <= k < |s| ==> IsDigit(s[k])
    {
      pos := pos - 1;
    }
    digits, rest := s[pos..], s[..pos];
  }

  // The digits at the end are all the digits at the end.
  lemma TrailingDigitsUnique(rest: string, digits: string, q: string, d: string)
    requires rest + digits == q + d && IsDecimal(digits) && IsDecimal(d) && !EndsWithDigit(rest) && !EndsWithDigit(q)
    ensures rest == q && digits == d
  {
    var s := rest + digits;
    assert forall k :: |rest| <= k < |s| ==> s[k] == digits[k - |rest|] && IsDigit(s[k]);
    assert forall k :: |q| <= k < |s| ==> s[k] == d[k - |q|] && IsDigit(s[k]);
    assert rest != "" ==> s[|rest| - 1] == rest[|rest| - 1];
    assert q != "" ==> s[|q| - 1] == q[|q| - 1];
    assert rest == s[..|rest|] && q == s[..|q|];
    assert digits == s[|rest|..] && d == s[|q|..];
  }

  // ---- What counts as a date.

  datatype Parts = Parts(year: Option<string>, month: string, day: string)

  predicate Short(d: string) {
    1 <= |d| <= 2 && IsDecimal(d)
  }

  predicate Stops(p: string, bad: set<char>) {
    EndsWithDigit(p) || (p != "" && p[|p| - 1] in bad)
  }

  // A form: the character after the month, the one after the year, and those that
  // may not come before the date.
  datatype Form = Form(monthMark: char, yearMark: char, bad: set<char>)

  const KANJI := Form('月', '年', {})
  const SLASHES := Form('/', '/', {'/', '.'})

  function YearText(f: Form, year: Option<string>): string {
    if year.Some? then year.value + [f.yearMark] else ""
  }

  // The text p, then the parts in this form.
  predicate Dated(f: Form, s: string, p: string, parts: Parts) {
    && s == p + YearText(f, parts.year) + parts.month + [f.monthMark] + parts.day
    && Short(parts.month) && Short(parts.day)
    && (parts.year.Some? ==> |parts.year.value| == 4 && IsDecimal(parts.year.value))
    && (parts.year.None? ==> !EndsWith(p, f.yearMark))
    && !Stops(p, f.bad)
  }

  // A text that ends in a date: in Kanji, closed by the mark of the day, or with
  // slashes.
  predicate EndsInDate(text: string, p: string, parts: Parts) {
    if EndsWith(text, '日') then Dated(KANJI, text[..|text| - 1], p, parts) else Dated(SLASHES, text, p, parts)
  }

  lemma MarkBefore(a: string, c: char, b: string, c': char)
    requires a + [c] == b + [c']
    ensures a == b && c == c'
  {
    var s := a + [c];
    assert a == s[..|s| - 1] && b == s[..|s| - 1] && s[|s| - 1] == c && s[|s| - 1] == c';
  }

  // The parts of a date that is there are those read from the end.
  lemma DayUnique(f: Form, s: string, rest: string, day: string, p: string, parts: Parts)
    requires !IsDigit(f.monthMark) && Dated(f, s, p, parts)
    requires s == rest + day && IsDecimal(day) && !EndsWithDigit(rest)
    ensures day == parts.day && rest == p + YearText(f, parts.year) + parts.month + [f.monthMark]
  {
    TrailingDigitsUnique(rest, day, p + YearText(f, parts.year) + parts.month + [f.monthMark], parts.day);
  }

  lemma MonthUnique(f: Form, rest: string, month: string, p: string, parts: Parts)
    requires !IsDigit(f.yearMark) && !Stops(p, f.bad)
    requires rest + month == p + YearText(f, parts.year) + parts.month
    requires IsDecimal(month) && IsDecimal(parts.month) && !EndsWithDigit(rest)
    ensures month == parts.month && rest == p + YearText(f, parts.year)
  {
    var q := p + YearText(f, parts.year);
    if parts.year.Some? {
      assert q[|q| - 1] == f.yearMark;
    } else {
      assert q == p;
    }
    TrailingDigitsUnique(rest, month, q, parts.month);
  }

  lemma YearUnique(f: Form, rest: string, year: string, p: string, parts: Parts)
    requires parts.year.Some? && !Stops(p, f.bad) && IsDecimal(parts.year.value)
    requires rest + year + [f.yearMark] == p + YearText(f, parts.year)
    requires IsDecimal(year) && !EndsWithDigit(rest)
    ensures year == parts.year.value && rest == p
  {
    assert p + YearText(f, parts.year) == p + parts.year.value + [f.yearMark];
    MarkBefore(rest + year, f.yearMark, p + parts.year.value, f.yearMark);
    TrailingDigitsUnique(rest, year, p, parts.year.value);
  }

  ghost predicate ReadAs(f: Form, s: string, r: Option<Parts>) {
    && (forall p, parts :: Dated(f, s, p, parts) ==> r == Some(parts))
    && (r.Some? ==> exists p :: Dated(f, s, p, r.value))
  }

  // The two branches of ParseTrailingDate read in the same way.
  method ReadParts(f: Form, s: string) returns (r: Option<Parts>)
    requires !IsDigit(f.monthMark) && !IsDigit(f.yearMark)
    ensures ReadAs(f, s, r)
  {
    var day, afterDay := ConsumeTrailingDigits(s);
    forall p, parts | Dated(f, s, p, parts)
      ensures day == parts.day && afterDay == p + YearText(f, parts.year) + parts.month + [f.monthMark] {
      DayUnique(f, s, afterDay, day, p, parts);
    }
    if day == "" || |day| > 2 || !EndsWith(afterDay, f.monthMark) {
      return None;
    }
    r := ReadMonth(f, s, afterDay[..|afterDay| - 1], day);
  }

  ghost predicate DayRead(f: Form, s: string, before: string, day: string) {
    && s == before + [f.monthMark] + day && Short(day)
    && forall p, parts :: Dated(f, s, p, parts) ==> day == parts.day && before == p + YearText(f, parts.year) + parts.month
  }

  method ReadMonth(f: Form, ghost s: string, before: string, day: string) returns (r: Option<Parts>)
    requires !IsDigit(f.monthMark) && !IsDigit(f.yearMark) && DayRead(f, s, before, day)
    ensures ReadAs(f, s, r)
  {
    var month, afterMonth := ConsumeTrailingDigits(before);
    forall p, parts | Dated(f, s, p, parts)
      ensures month == parts.month && afterMonth == p + YearText(f, parts.year) {
      MonthUnique(f, afterMonth, month, p, parts);
    }
    if month == "" || |month| > 2 {
      return None;
    }
    if EndsWith(afterMonth, f.yearMark) {
      var year, p := ConsumeTrailingDigits(afterMonth[..|afterMonth| - 1]);
      assert afterMonth == p + year + [f.yearMark];
      forall p', parts | Dated(f, s, p', parts) ensures parts.year == Some(year) && p' == p {
        YearRead(f, afterMonth, p', parts);
        YearUnique(f, p, year, p', parts);
      }
      if |year| != 4 || Stops(p, f.bad) {
        return None;
      }
      r := Some(Parts(Some(year), month, day));
      assert Dated(f, s, p, r.value);
    } else {
      forall p', parts | Dated(f, s, p', parts) ensures parts.year == None && p' == afterMonth {
        YearRead(f, afterMonth, p', parts);
      }
      if Stops(afterMonth, f.bad) {
        return None;
      }
      r := Some(Parts(None, month, day));
      assert Dated(f, s, afterMonth, r.value);
    }
  }

  lemma YearRead(f: Form, afterMonth: string, p: string, parts: Parts)
    requires afterMonth == p + YearText(f, parts.year) && (parts.year.None? ==> !EndsWith(p, f.yearMark))
    ensures EndsWith(afterMonth, f.yearMark) <==> parts.year.Some?
    ensures parts.year.None? ==> p == afterMonth
  {
  }

  // ---- The date that is read.

  function DateOf(today: Date, r: Option<Parts>): Option<Date>
    requires Valid(today)
    requires r.Some? ==> IsDecimal(r.value.month) && IsDecimal(r.value.day) && (r.value.year.Some? ==> IsDecimal(r.value.year.value))
  {
    if r.None? then None
    else
      DateWindow.Resolved(today, if r.value.year.Some? then Some(NumberRoundTrip.ValueOf(r.value.year.value)) else None,
                          NumberRoundTrip.ValueOf(r.value.month), NumberRoundTrip.ValueOf(r.value.day))
  }

  // absl::SimpleAtoi on digits, of which there are too few to overflow.
  method SimpleAtoi(digits: string) returns (n: nat)
    requires IsDecimal(digits)
    ensures n == NumberRoundTrip.ValueOf(digits)
  {
    n := 0;
    NumberRoundTrip.NoValueInZeros([]);
    for i := 0 to |digits|
      invariant n == NumberRoundTrip.ValueOf(digits[..i])
    {
      assert Digits(digits[..i + 1])[..i] == Digits(digits[..i]);
      n := n * 10 + DigitOf(digits[i]);
    }
    assert digits[..|digits|] == digits;
  }

  method ReadDate(text: string) returns (r: Option<Parts>)
    ensures forall p, parts :: EndsInDate(text, p, parts) ==> r == Some(parts)
    ensures r.Some? ==> exists p :: EndsInDate(text, p, r.value)
  {
    hide Dated;
    if EndsWith(text, '日') {
      var s := text[..|text| - 1];
      r := ReadParts(KANJI, s);
      if r.Some? {
        ghost var p :| Dated(KANJI, s, p, r.value);
        assert EndsInDate(text, p, r.value);
      }
    } else {
      r := ReadParts(SLASHES, text);
      if r.Some? {
        ghost var p :| Dated(SLASHES, text, p, r.value);
        assert EndsInDate(text, p, r.value);
      }
    }
  }

  lemma PartsAreDigits(text: string, p: string, parts: Parts)
    requires EndsInDate(text, p, parts)
    ensures IsDecimal(parts.month) && IsDecimal(parts.day) && (parts.year.Some? ==> IsDecimal(parts.year.value))
  {
  }

  ghost predicate NoDate(text: string) {
    forall p, parts :: !EndsInDate(text, p, parts)
  }

  // What the parts of a date say: the month stands before its mark and the day after
  // it, the year first; a date without a year is in the window around today.
  lemma PartsMean(today: Date, parts: Parts)
    requires Valid(today) && IsDecimal(parts.month) && IsDecimal(parts.day) && (parts.year.Some? ==> IsDecimal(parts.year.value))
    ensures var r, month, day := DateOf(today, Some(parts)), NumberRoundTrip.ValueOf(parts.month), NumberRoundTrip.ValueOf(parts.day);
            && (r.Some? ==> Valid(r.value) && r.value.month == month && r.value.day == day)
            && (parts.year.Some? ==>
                  var year := NumberRoundTrip.ValueOf(parts.year.value);
                  && (r.Some? ==> r.value.year == year)
                  && (r.Some? <==> 1900 <= year <= 2100 && Valid(Date(year, month, day))))
            && (parts.year.None? && r.Some? ==> DateWindow.InWindow(r.value, today))
            && (parts.year.None? && DateWindow.Written(month, day) ==>
                  (r.Some? <==>
                     && (exists year :: Valid(Date(year, month, day)) && DateWindow.InWindow(Date(year, month, day), today))
                     && !DateWindow.Misses(today, month, day)))
  {
    var month, day := NumberRoundTrip.ValueOf(parts.month), NumberRoundTrip.ValueOf(parts.day);
    hide NumberRoundTrip.ValueOf;
    hide IsLeap;
    hide DateWindow.InWindow;
    hide DateWindow.TargetYear;
    DateWindow.AsWritten(today, if parts.year.Some? then Some(NumberRoundTrip.ValueOf(parts.year.value)) else None, month, day);
    if parts.year.None? && DateWindow.Written(month, day) {
      DateWindow.AcceptedIff(today, month, day);
      if DateOf(today, Some(parts)).Some? {
        DateWindow.AcceptedInWindow(today, month, day);
      }
    }
  }

  // A month of the form, whatever stands before it, is that of any date there is.
  lemma SlashMonth(q: string, month: string, day: string, p: string, parts: Parts)
    requires IsDecimal(month) && Short(day) && !EndsWithDigit(q) && EndsInDate(q + month + "/" + day, p, parts)
    ensures Dated(SLASHES, q + month + "/" + day, p, parts)
    ensures parts.month == month && q == p + YearText(SLASHES, parts.year)
  {
    var s, rest := q + month + "/" + day, q + month + ['/'];
    assert s[|s| - 1] == day[|day| - 1];
    assert s == rest + day && rest[|rest| - 1] == '/';
    DayUnique(SLASHES, s, rest, day, p, parts);
    MarkBefore(q + month, '/', p + YearText(SLASHES, parts.year) + parts.month, '/');
    MonthUnique(SLASHES, q, month, p, parts);
  }

  // A text with slashes is no date when its month has more than two digits or none,
  // when a full stop stands before it, or when its year has not four digits.
  lemma RefusedTexts(q: string, month: string, day: string)
    requires IsDecimal(month) && Short(day) && !EndsWithDigit(q)
    ensures month == "" || |month| > 2 || EndsWith(q, '.') ==> NoDate(q + month + "/" + day)
    ensures forall r, year :: q == r + year + "/" && IsDecimal(year) && |year| != 4 && !EndsWithDigit(r) ==>
                                NoDate(q + month + "/" + day)
  {
    forall p, parts | EndsInDate(q + month + "/" + day, p, parts)
      ensures parts.month == month && q == p + YearText(SLASHES, parts.year) && Dated(SLASHES, q + month + "/" + day, p, parts)
    {
      SlashMonth(q, month, day, p, parts);
    }
    hide EndsInDate;
    forall r, year, p, parts
      | q == r + year + "/" && IsDecimal(year) && !EndsWithDigit(r) && EndsInDate(q + month + "/" + day, p, parts)
      ensures |year| == 4
    {
      YearRead(SLASHES, q, p, parts);
      assert q[|q| - 1] == '/';
      YearUnique(SLASHES, r, year, p, parts);
    }
  }

  // A date with a year and one without, read from text.
  lemma ExampleDates()
    ensures EndsInDate("2026年3月15日", "", Parts(Some("2026"), "3", "15"))
    ensures EndsInDate("on 3/15", "on ", Parts(None, "3", "15"))
    ensures EndsInDate("2026/3/15", "", Parts(Some("2026"), "3", "15"))
  {
    assert "2026年3月15日"[..9] == "2026年3月15";
  }

  // ParseTrailingDate, after the suffix has been cut and made half-width: the date of
  // the one way in which the text ends in a date, if that date is accepted.
  method ParseTrailingDate(text: string, today: Date) returns (r: Option<Date>)
    requires Valid(today)
    ensures forall p, parts :: EndsInDate(text, p, parts) ==> r == DateOf(today, Some(parts))
    ensures NoDate(text) ==> r == None
    ensures r.Some? ==> Valid(r.value)
  {
    hide EndsInDate;
    var parts := ReadDate(text);
    if parts.None? {
      return None;
    }
    ghost var p :| EndsInDate(text, p, parts.value);
    PartsAreDigits(text, p, parts.value);
    var month := SimpleAtoi(parts.value.month);
    var day := SimpleAtoi(parts.value.day);
    var explicitYear := None;
    if parts.value.year.Some? {
      var y := SimpleAtoi(parts.value.year.value);
      explicitYear := Some(y);
    }
    r := DateWindow.ResolveDate(today, explicitYear, month, day);
    assert r == DateOf(today, Some(parts.value));
  }

  // A text ends in a date in one way at most.
  lemma OneDate(f: Form, s: string, p: string, parts: Parts, p': string, parts': Parts)
    requires !IsDigit(f.monthMark) && !IsDigit(f.yearMark) && Dated(f, s, p, parts) && Dated(f, s, p', parts')
    ensures parts == parts' && p == p'
  {
    var before := p + YearText(f, parts.year) + parts.month + [f.monthMark];
    DayUnique(f, s, before, parts.day, p', parts');
    MarkBefore(p + YearText(f, parts.year) + parts.month, f.monthMark, p' + YearText(f, parts'.year) + parts'.month, f.monthMark);
    MonthUnique(f, p + YearText(f, parts.year), parts.month, p', parts');
    YearRead(f, p + YearText(f, parts.year), p', parts');
    if parts.year.Some? {
      YearUnique(f, p, parts.year.value, p', parts');
    }
  }
}
