/**
 * Local calendar dates and the override key of pages/Availability.jsx:
 * `date.toLocaleDateString('en-CA')`, i.e. the local day as "YYYY-MM-DD".
 * Time zones and locales stay outside the model: a moment is given directly
 * as its local date and time of day.
 */
module Calendar {
  import opened Wrappers
  import opened Digits

  datatype Day = Monday | Tuesday | Wednesday | Thursday | Friday | Saturday | Sunday

  /** A day of the proleptic Gregorian calendar, in the user's local time zone. */
  datatype LocalDate = LocalDate(year: nat, month: nat, day: nat)

  /** A JavaScript `Date`, seen through the local time zone. */
  datatype LocalDateTime = LocalDateTime(date: LocalDate, hour: nat, minute: nat, second: nat, millisecond: nat)

  predicate IsLeapYear(y: nat) {
    y % 4 == 0 && (y % 100 != 0 || y % 400 == 0)
  }

  function DaysInMonth(y: nat, m: nat): nat
    requires 1 <= m <= 12
  {
    if m == 2 then (if IsLeapYear(y) then 29 else 28)
    else if m == 4 || m == 6 || m == 9 || m == 11 then 30
    else 31
  }

  /** A date with a four-digit year whose month and day exist. */
  predicate ValidDate(d: LocalDate) {
    && 1 <= d.year <= 9999
    && 1 <= d.month <= 12
    && 1 <= d.day <= DaysInMonth(d.year, d.month)
  }

  /** The "YYYY-MM-DD" key of a local date: year, month and day zero-padded. */
  function DateKey(d: LocalDate): (key: string)
    requires ValidDate(d)
    ensures |key| == 10 && key[4] == '-' && key[7] == '-'
    ensures AllDigits(key[..4]) && AllDigits(key[5..7]) && AllDigits(key[8..])
    ensures DigitsValue(key[..4]) == d.year
    ensures DigitsValue(key[5..7]) == d.month
    ensures DigitsValue(key[8..]) == d.day
  {
    DecimalLength(d.year, 4);
    DecimalLength(d.month, 2);
    DecimalLength(d.day, 2);
    var y := ZeroPad(DecimalString(d.year), 4);
    var m := ZeroPad(DecimalString(d.month), 2);
    var dd := ZeroPad(DecimalString(d.day), 2);
    var key := y + "-" + m + "-" + dd;
    assert key[..4] == y && key[5..7] == m && key[8..] == dd;
    key
  }

  /** `formatDateKey`: the key of the local day a moment falls on. */
  function FormatDateKey(moment: LocalDateTime): (key: string)
    requires ValidDate(moment.date)
    ensures |key| == 10 && ParseDateKey(key) == Some(moment.date)
  {
    DateKey(moment.date)
  }

  /** Reads a "YYYY-MM-DD" key back into the date it names. */
  function ParseDateKey(key: string): (r: Option<LocalDate>)
    ensures r.Some? ==> ValidDate(r.value)
  {
    if |key| == 10 && key[4] == '-' && key[7] == '-'
       && AllDigits(key[..4]) && AllDigits(key[5..7]) && AllDigits(key[8..])
    then
      var d := LocalDate(DigitsValue(key[..4]), DigitsValue(key[5..7]), DigitsValue(key[8..]));
      if ValidDate(d) then Some(d) else None
    else None
  }

  /** Every date key reads back as its date. */
  lemma ParseDateKeyInverse(d: LocalDate)
    requires ValidDate(d)
    ensures ParseDateKey(DateKey(d)) == Some(d)
  {
  }

  /** The only text that reads as a date is that date's key. */
  lemma {:induction false} OnlyKeyOfDate(key: string, d: LocalDate)
    requires ParseDateKey(key) == Some(d)
    ensures key == DateKey(d)
  {
    assert |key| == 10 && key[4] == '-' && key[7] == '-';
    assert AllDigits(key[..4]) && AllDigits(key[5..7]) && AllDigits(key[8..]);
    assert DigitsValue(key[..4]) == d.year;
    assert DigitsValue(key[5..7]) == d.month;
    assert DigitsValue(key[8..]) == d.day;
    var canonical := DateKey(d);
    DigitsValueInjective(key[..4], canonical[..4]);
    DigitsValueInjective(key[5..7], canonical[5..7]);
    DigitsValueInjective(key[8..], canonical[8..]);
    SameKeyFields(key, canonical);
  }

  lemma SameKeyFields(a: string, b: string)
    requires |a| == 10 && |b| == 10 && a[4] == b[4] && a[7] == b[7]
    requires a[..4] == b[..4] && a[5..7] == b[5..7] && a[8..] == b[8..]
    ensures a == b
  {
    forall i | 0 <= i < 10 ensures a[i] == b[i] {
      if i < 4 {
        assert a[i] == a[..4][i];
      } else if 5 <= i < 7 {
        assert a[i] == a[5..7][i - 5];
      } else if 8 <= i {
        assert a[i] == a[8..][i - 8];
      }
    }
  }

  /**
   * Two moments get the same override key exactly when they fall on the same
   * local day, whatever their times of day.
   */
  lemma SameKeyIffSameDay(a: LocalDateTime, b: LocalDateTime)
    requires ValidDate(a.date) && ValidDate(b.date)
    ensures FormatDateKey(a) == FormatDateKey(b) <==> a.date == b.date
  {
  }

  /**
   * The weekday of a date (what the browser reports as `weekday: 'long'`),
   * by Sakamoto's method for the Gregorian calendar.
   */
  function Weekday(d: LocalDate): Day
    requires ValidDate(d)
  {
    [Sunday, Monday, Tuesday, Wednesday, Thursday, Friday, Saturday][WeekdayNumber(d)]
  }

  /** The weekday counted from Sunday = 0. */
  function WeekdayNumber(d: LocalDate): (w: nat)
    requires ValidDate(d)
    ensures w < 7
  {
    (YearShift(ShiftYear(d)) + MonthOffset(d.month) + d.day) % 7
  }

  /** January and February count with the year before. */
  function ShiftYear(d: LocalDate): int {
    if d.month < 3 then d.year - 1 else d.year
  }

  /** Sakamoto's month table: 0, 3, 2, 5, 0, 3, 5, 1, 4, 6, 2, 4. */
  function MonthOffset(m: nat): nat
    requires 1 <= m <= 12
  {
    match m
    case 1 => 0 case 2 => 3 case 3 => 2 case 4 => 5 case 5 => 0 case 6 => 3
    case 7 => 5 case 8 => 1 case 9 => 4 case 10 => 6 case 11 => 2 case _ => 4
  }

  /** Days a year's start moves the weekday: one per year, one more per leap year. */
  function YearShift(y: int): int {
    y + y / 4 - y / 100 + y / 400
  }

  /** The day that follows a weekday. */
  function Tomorrow(w: Day): Day {
    match w
    case Monday => Tuesday
    case Tuesday => Wednesday
    case Wednesday => Thursday
    case Thursday => Friday
    case Friday => Saturday
    case Saturday => Sunday
    case Sunday => Monday
  }

  /** The calendar day after d. */
  function NextDate(d: LocalDate): (r: LocalDate)
    requires ValidDate(d)
    ensures d.year < 9999 ==> ValidDate(r)
  {
    if d.day < DaysInMonth(d.year, d.month) then LocalDate(d.year, d.month, d.day + 1)
    else if d.month < 12 then LocalDate(d.year, d.month + 1, 1)
    else LocalDate(d.year + 1, 1, 1)
  }

  /** From one year to the next the shift grows by one, and by two into a leap year. */
  lemma YearShiftStep(y: int)
    requires y >= 1
    ensures YearShift(y) - YearShift(y - 1) == if IsLeapYear(y) then 2 else 1
  {
    QuotientStep(y, 4);
    QuotientStep(y, 100);
    QuotientStep(y, 400);
    CenturyDivisibility(y);
  }

  lemma QuotientStep(y: int, k: int)
    requires k == 4 || k == 100 || k == 400
    ensures y / k - (y - 1) / k == if y % k == 0 then 1 else 0
  {
    if k == 4 {
      Step4(y);
    } else if k == 100 {
      Step100(y);
    } else {
      Step400(y);
    }
  }

  lemma Step4(y: int)
    ensures y / 4 - (y - 1) / 4 == if y % 4 == 0 then 1 else 0
  {
  }

  lemma Step100(y: int)
    ensures y / 100 - (y - 1) / 100 == if y % 100 == 0 then 1 else 0
  {
  }

  lemma Step400(y: int)
    ensures y / 400 - (y - 1) / 400 == if y % 400 == 0 then 1 else 0
  {
  }

  lemma CenturyDivisibility(y: int)
    ensures y % 400 == 0 ==> y % 100 == 0
    ensures y % 100 == 0 ==> y % 4 == 0
  {
    if y % 400 == 0 {
      EveryFourthCentury(y);
    }
    if y % 100 == 0 {
      EveryCentury(y);
    }
  }

  lemma EveryFourthCentury(y: int)
    requires y % 400 == 0
    ensures y % 100 == 0
  {
    var t := y / 400;
    assert y == 100 * (4 * t);
  }

  lemma EveryCentury(y: int)
    requires y % 100 == 0
    ensures y % 4 == 0
  {
    var t := y / 100;
    assert y == 4 * (25 * t);
  }

  /** Each day has the weekday after that of the day before it. */
  lemma WeekdayNextDate(d: LocalDate)
    requires ValidDate(d) && ValidDate(NextDate(d))
    ensures Weekday(NextDate(d)) == Tomorrow(Weekday(d))
  {
    if d.day < DaysInMonth(d.year, d.month) {
      StepWithinMonth(d);
    } else if d.month == 2 {
      StepIntoMarch(d);
    } else if d.month < 12 {
      StepIntoMonth(d);
    } else {
      StepIntoYear(d);
    }
    DayAfterNumber(WeekdayNumber(d));
  }

  lemma StepWithinMonth(d: LocalDate)
    requires ValidDate(d) && d.day < DaysInMonth(d.year, d.month)
    ensures WeekdayNumber(NextDate(d)) == (WeekdayNumber(d) + 1) % 7
  {
    var before := YearShift(ShiftYear(d)) + MonthOffset(d.month) + d.day;
    NextResidue(before, before + 1);
  }

  lemma StepIntoMarch(d: LocalDate)
    requires ValidDate(d) && d.month == 2 && d.day == DaysInMonth(d.year, 2)
    ensures WeekdayNumber(NextDate(d)) == (WeekdayNumber(d) + 1) % 7
  {
    YearShiftStep(d.year);
    var before := YearShift(d.year - 1) + 3 + d.day;
    var after := YearShift(d.year) + 2 + 1;
    NextResidue(before, after);
  }

  lemma StepIntoMonth(d: LocalDate)
    requires ValidDate(d) && d.month != 2 && d.month < 12 && d.day == DaysInMonth(d.year, d.month)
    ensures WeekdayNumber(NextDate(d)) == (WeekdayNumber(d) + 1) % 7
  {
    MonthStep(d.year, d.month);
    var shift := YearShift(ShiftYear(d));
    NextResidue(shift + MonthOffset(d.month) + d.day, shift + MonthOffset(d.month + 1) + 1);
  }

  lemma StepIntoYear(d: LocalDate)
    requires ValidDate(d) && d.year < 9999 && d.month == 12 && d.day == 31
    ensures WeekdayNumber(NextDate(d)) == (WeekdayNumber(d) + 1) % 7
  {
    var shift := YearShift(d.year);
    NextResidue(shift + 4 + 31, shift + 0 + 1);
  }

  /** Across the end of any month but February, the weekday moves on by one. */
  lemma MonthStep(y: nat, m: nat)
    requires 1 <= m < 12 && m != 2
    ensures (MonthOffset(m + 1) - MonthOffset(m) - DaysInMonth(y, m)) % 7 == 0
  {
  }

  lemma DayAfterNumber(w: nat)
    requires w < 7
    ensures var days := [Sunday, Monday, Tuesday, Wednesday, Thursday, Friday, Saturday];
            days[(w + 1) % 7] == Tomorrow(days[w])
  {
  }

  lemma NextResidue(x: int, y: int)
    requires (y - x - 1) % 7 == 0
    ensures y % 7 == (x % 7 + 1) % 7
  {
  }

  /** 1 January 2024 was a Monday. */
  lemma WeekdayAnchor()
    ensures Weekday(LocalDate(2024, 1, 1)) == Monday
  {
  }
}
