/**
 * The time-of-day codec of the availability page (pages/Availability.jsx):
 * stored times are 24-hour "HH:MM" strings, the picker edits a 12-hour
 * (hour, minute, AM/PM) triple.
 */
module TimeCodec {
  import opened Wrappers
  import opened Digits

  datatype Period = AM | PM

  /** The editable form: an hour on the 12-hour clock, the minute text, AM or PM. */
  datatype Time12 = Time12(hour: int, minute: string, period: Period)

  /** What the picker shows for a slot without a time. */
  const DefaultTime := Time12(9, "00", AM)

  // ---------------------------------------------------------------------------
  // String splitting and integer parsing, as the codec uses them

  /** The text before the first ':' of s. */
  function BeforeColon(s: string): (r: string)
    requires ':' in s
    ensures ':' !in r && |r| < |s| && s[|r|] == ':' && s[..|r|] == r
  {
    if s[0] == ':' then [] else [s[0]] + BeforeColon(s[1..])
  }

  /** The text after the first ':' of s. */
  function AfterColon(s: string): string
    requires ':' in s
  {
    s[|BeforeColon(s)| + 1..]
  }

  /** `parts.join(':')`: the pieces with a ':' between each two. */
  function JoinColon(parts: seq<string>): string
    requires |parts| >= 1
  {
    if |parts| == 1 then parts[0] else parts[0] + ":" + JoinColon(parts[1..])
  }

  /** `s.split(':')`: the pieces between the colons, in order. */
  function SplitOnColon(s: string): (parts: seq<string>)
    ensures |parts| >= 1
    ensures |parts| >= 2 <==> ':' in s
    ensures forall i :: 0 <= i < |parts| ==> ':' !in parts[i]
    ensures JoinColon(parts) == s
    decreases |s|
  {
    if ':' in s then
      var rest := SplitOnColon(AfterColon(s));
      var parts := [BeforeColon(s)] + rest;
      assert parts[1..] == rest;
      assert s == BeforeColon(s) + ":" + AfterColon(s);
      parts
    else [s]
  }

  /** The run of decimal digits at the start of s: what `parseInt(s, 10)` reads. */
  function LeadingDigits(s: string): (r: string)
    ensures AllDigits(r) && |r| <= |s| && s[..|r|] == r
    ensures |r| < |s| ==> !IsDigit(s[|r|])
  {
    if s == [] || !IsDigit(s[0]) then [] else [s[0]] + LeadingDigits(s[1..])
  }

  /**
   * A stored value the codec can read: absent or empty (the default applies),
   * or a string with a ':' whose hour part starts with a digit, so that
   * `parseInt` yields a number and the minute part exists.
   */
  predicate Parseable(time24: Option<string>) {
    || time24.None?
    || time24.value == ""
    || (':' in time24.value && var h := SplitOnColon(time24.value)[0]; |h| > 0 && IsDigit(h[0]))
  }

  /** The 24-hour hour that `parseInt` reads from the part before the first ':'. */
  function HourOf(time24: string): nat
    requires ':' in time24
  {
    DigitsValue(LeadingDigits(SplitOnColon(time24)[0]))
  }

  /** The minute text: the part between the first and second ':'. */
  function MinuteOf(time24: string): string
    requires ':' in time24
  {
    SplitOnColon(time24)[1]
  }

  // ---------------------------------------------------------------------------
  // The codec

  /** `parseTime`: from the stored 24-hour text to the editable 12-hour form. */
  function ParseTime(time24: Option<string>): (r: Time12)
    requires Parseable(time24)
    ensures time24 == None || time24 == Some("") ==> r == DefaultTime
    ensures 1 <= r.hour <= 12
    ensures time24.Some? && time24.value != "" ==>
              && r.hour % 12 == HourOf(time24.value) % 12
              && (r.period == PM <==> HourOf(time24.value) >= 12)
              && r.minute == MinuteOf(time24.value)
  {
    if time24.None? || time24.value == "" then DefaultTime
    else
      var parts := SplitOnColon(time24.value);
      var hourInt := DigitsValue(LeadingDigits(parts[0]));
      var period := if hourInt >= 12 then PM else AM;
      var h := hourInt % 12;
      Time12(if h == 0 then 12 else h, parts[1], period)
  }

  /** The hour on the 24-hour clock that `formatTime` computes before padding. */
  function Hour24(hour: nat, period: Period): nat {
    if period == PM && hour != 12 then hour + 12
    else if period == AM && hour == 12 then 0
    else hour
  }

  /**
   * `formatTime`: from the 12-hour form to stored text. The hour is written
   * in decimal and padded to two digits; the minute is appended unchanged.
   */
  function FormatTime(hour: nat, minute: string, period: Period): (r: string)
    ensures 1 <= hour <= 12 ==>
              && |r| == 3 + |minute| && AllDigits(r[..2]) && r[2] == ':' && r[3..] == minute
              && var h := DigitsValue(r[..2]);
                 && h < 24
                 && h % 12 == hour % 12
                 && (h >= 12 <==> period == PM)
  {
    var h24 := Hour24(hour, period);
    var text := ZeroPad(DecimalString(h24), 2);
    var r := text + ":" + minute;
    if 1 <= hour <= 12 then
      PaddedHour(hour, period);
      assert r[..2] == text && r[2] == ':' && r[3..] == minute;
      r
    else r
  }

  /**
   * On the 12-hour clock the 24-hour hour is below 24, agrees with the hour
   * modulo 12, is at least 12 exactly for PM, and pads to two digits.
   */
  lemma PaddedHour(hour: nat, period: Period)
    requires 1 <= hour <= 12
    ensures var h24 := Hour24(hour, period);
            && h24 < 24
            && h24 % 12 == hour % 12
            && (h24 >= 12 <==> period == PM)
            && |ZeroPad(DecimalString(h24), 2)| == 2
            && DigitsValue(ZeroPad(DecimalString(h24), 2)) == h24
  {
    DecimalLength(Hour24(hour, period), 2);
  }

  // ---------------------------------------------------------------------------
  // Round trips

  /** A canonical stored time: two digits for an hour 00..23, ':', then a minute without ':'. */
  predicate IsStoredTime(t: string) {
    && |t| >= 3
    && AllDigits(t[..2])
    && DigitsValue(t[..2]) < 24
    && t[2] == ':'
    && ':' !in t[3..]
  }

  lemma SplitAtOnlyColon(a: string, b: string)
    requires ':' !in a && ':' !in b
    ensures ':' in a + ":" + b
    ensures SplitOnColon(a + ":" + b) == [a, b]
  {
    var s := a + ":" + b;
    assert s[|a|] == ':';
    assert BeforeColon(s) == a;
    assert AfterColon(s) == b;
  }

  lemma AllDigitsLead(s: string)
    requires AllDigits(s)
    ensures LeadingDigits(s) == s
  {
  }

  /** Every canonical stored time is read and written back unchanged. */
  lemma {:induction false} FormatAfterParse(t: string)
    requires IsStoredTime(t)
    ensures Parseable(Some(t))
    ensures var r := ParseTime(Some(t)); FormatTime(r.hour, r.minute, r.period) == t
  {
    var hh, mm := t[..2], t[3..];
    assert t == hh + ":" + mm;
    SplitAtOnlyColon(hh, mm);
    AllDigitsLead(hh);
    var v := DigitsValue(hh);
    assert HourOf(t) == v;
    var r := ParseTime(Some(t));
    assert Hour24(r.hour, r.period) == v;
    var text := ZeroPad(DecimalString(v), 2);
    DecimalLength(v, 2);
    DigitsValueInjective(text, hh);
  }

  /** Every 12-hour triple the picker produces is written and read back unchanged. */
  lemma {:induction false} ParseAfterFormat(hour: nat, minute: string, period: Period)
    requires 1 <= hour <= 12 && ':' !in minute
    ensures Parseable(Some(FormatTime(hour, minute, period)))
    ensures ParseTime(Some(FormatTime(hour, minute, period))) == Time12(hour, minute, period)
  {
    var t := FormatTime(hour, minute, period);
    var hh := t[..2];
    assert t == hh + ":" + minute;
    assert ':' !in hh by {
      assert forall i :: 0 <= i < |hh| ==> IsDigit(hh[i]);
    }
    SplitAtOnlyColon(hh, minute);
    AllDigitsLead(hh);
    assert HourOf(t) == DigitsValue(hh);
    var r := ParseTime(Some(t));
    assert r.minute == minute && r.period == period;
    SameHourOnTwelveHourClock(r.hour, hour);
  }

  lemma SameHourOnTwelveHourClock(a: int, b: int)
    requires 1 <= a <= 12 && 1 <= b <= 12 && a % 12 == b % 12
    ensures a == b
  {
  }

  /** Midnight and noon: "00:30" reads as 12:30 AM, "12:30" as 12:30 PM. */
  lemma NoonAndMidnight()
    ensures Parseable(Some("00:30")) && ParseTime(Some("00:30")) == Time12(12, "30", AM)
    ensures Parseable(Some("12:30")) && ParseTime(Some("12:30")) == Time12(12, "30", PM)
  {
    assert "00:30" == "00" + ":" + "30";
    assert "12:30" == "12" + ":" + "30";
    ReadStored("00", "30");
    ReadStored("12", "30");
    assert DigitsValue("00") == 0 by {
      assert "00"[..1] == "0";
    }
    assert DigitsValue("12") == 12 by {
      assert "12"[..1] == "1";
    }
    SameHourOnTwelveHourClock(ParseTime(Some("00:30")).hour, 12);
    SameHourOnTwelveHourClock(ParseTime(Some("12:30")).hour, 12);
  }

  /**
   * A 12-hour text such as "02:00 PM" is misread: the hour is taken as a
   * 24-hour hour, so the period is AM, and the suffix stays in the minute.
   */
  lemma TwelveHourTextMisread()
    ensures Parseable(Some("02:00 PM")) && ParseTime(Some("02:00 PM")) == Time12(2, "00 PM", AM)
  {
    assert "02:00 PM" == "02" + ":" + "00 PM";
    ReadStored("02", "00 PM");
    assert DigitsValue("02") == 2 by {
      assert "02"[..1] == "0";
    }
    SameHourOnTwelveHourClock(ParseTime(Some("02:00 PM")).hour, 2);
  }

  /** A digit string, a ':' and a colon-free minute part read as that hour and minute. */
  lemma ReadStored(hh: string, mm: string)
    requires |hh| > 0 && AllDigits(hh) && ':' !in mm
    ensures Parseable(Some(hh + ":" + mm))
    ensures HourOf(hh + ":" + mm) == DigitsValue(hh) && MinuteOf(hh + ":" + mm) == mm
  {
    assert ':' !in hh;
    SplitAtOnlyColon(hh, mm);
    AllDigitsLead(hh);
  }
}
