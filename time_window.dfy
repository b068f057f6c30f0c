/** The quiet-hours check `is_time_between` (main.py): is the current time of
    day inside the exclusion window given by two "HH:MM" strings? */
module TimeWindow {
  import opened Wrappers
  import opened Text

  const MinutesPerDay := 1440
  const MicrosPerMinute := 60_000_000

  /** A time of day, in microseconds since midnight (Python's `datetime.time`
      resolution). */
  type TimeOfDay = t: int | 0 <= t < 86_400_000_000

  const MicrosPerDay: int := MinutesPerDay * MicrosPerMinute

  /** The `%H` directive of `strptime`: one digit, or two digits from 00 to 23. */
  function ParseHour(h: string): (r: Option<nat>)
    ensures r.Some? ==> r.value < 24
    ensures r.Some? ==> AllDigits(h) && 1 <= |h| <= 2 && r.value == DecimalValue(h)
  {
    if |h| == 1 && IsDigit(h[0]) then
      assert h[..0] == [];
      Some(DigitValue(h[0]))
    else if |h| == 2 && IsDigit(h[0]) && IsDigit(h[1]) && (h[0] <= '1' || (h[0] == '2' && h[1] <= '3')) then
      TwoDigitValue(h);
      Some(10 * DigitValue(h[0]) + DigitValue(h[1]))
    else None
  }

  lemma TwoDigitValue(s: string)
    requires |s| == 2 && AllDigits(s)
    ensures DecimalValue(s) == 10 * DigitValue(s[0]) + DigitValue(s[1])
  {
    var first := s[..1];
    assert first[..0] == [] && first[0] == s[0];
    assert DecimalValue(first) == DigitValue(s[0]);
    assert s[..|s| - 1] == first;
  }

  /** The `%M` directive of `strptime`: one digit, or two digits from 00 to 59. */
  function ParseMinute(m: string): (r: Option<nat>)
    ensures r.Some? ==> r.value < 60
    ensures r.Some? ==> AllDigits(m) && 1 <= |m| <= 2 && r.value == DecimalValue(m)
  {
    if |m| == 1 && IsDigit(m[0]) then
      assert m[..0] == [];
      Some(DigitValue(m[0]))
    else if |m| == 2 && '0' <= m[0] <= '5' && IsDigit(m[1]) then
      TwoDigitValue(m);
      Some(10 * DigitValue(m[0]) + DigitValue(m[1]))
    else None
  }

  /** `datetime.strptime(s, '%H:%M').time()`: the whole string must be an hour,
      a colon and a minute; `None` stands for the `ValueError`. */
  function ParseClock(s: string): (r: Option<TimeOfDay>)
    ensures r.Some? ==> r.value % MicrosPerMinute == 0
    ensures r.Some? ==> 3 <= |s| <= 5 && ':' in s
  {
    if |s| >= 2 && s[1] == ':' then Combine(ParseHour(s[..1]), ParseMinute(s[2..]))
    else if |s| >= 3 && s[2] == ':' then Combine(ParseHour(s[..2]), ParseMinute(s[3..]))
    else None
  }

  function Combine(hour: Option<nat>, minute: Option<nat>): Option<TimeOfDay>
    requires hour.Some? ==> hour.value < 24
    requires minute.Some? ==> minute.value < 60
  {
    if hour.Some? && minute.Some? then Some((hour.value * 60 + minute.value) * MicrosPerMinute)
    else None
  }

  function TwoDigits(n: nat): string
    requires n < 100
  {
    [DigitChar(n / 10), DigitChar(n % 10)]
  }

  /** The canonical zero-padded "HH:MM" spelling of a minute of the day. */
  function FormatClock(minute: nat): string
    requires minute < MinutesPerDay
  {
    TwoDigits(minute / 60) + ":" + TwoDigits(minute % 60)
  }

  /** The canonical spelling parses back to the same minute. */
  lemma ParseFormatted(minute: nat)
    requires minute < MinutesPerDay
    ensures ParseClock(FormatClock(minute)) == Some(minute * MicrosPerMinute)
  {
    var s := FormatClock(minute);
    assert s[2] == ':';
    assert s[..2] == TwoDigits(minute / 60);
    assert s[3..] == TwoDigits(minute % 60);
  }

  lemma SmallDecimal(n: nat)
    requires n < 100
    ensures DecimalString(n) == if n < 10 then [DigitChar(n)] else TwoDigits(n)
  {
    if n >= 10 {
      assert DecimalString(n / 10) == [DigitChar(n / 10)];
    }
  }

  /** A string made of an hour field, a colon and a minute field parses as
      those two fields. */
  lemma ParseClockFields(h: string, m: string)
    requires 1 <= |h| <= 2 && ':' !in h
    ensures ParseClock(h + ":" + m) == Combine(ParseHour(h), ParseMinute(m))
  {
    var s := h + ":" + m;
    if |h| == 1 {
      assert s[1] == ':' && s[..1] == h && s[2..] == m;
    } else {
      assert s[1] == h[1] && s[2] == ':' && s[..2] == h && s[3..] == m;
    }
  }

  /** Python's `str()` spelling without zero padding ("7:5") is accepted too. */
  lemma ParseUnpadded(hour: nat, minute: nat)
    requires hour < 24 && minute < 60
    ensures ParseClock(DecimalString(hour) + ":" + DecimalString(minute))
         == Some((hour * 60 + minute) * MicrosPerMinute)
  {
    HourOfDecimal(hour);
    MinuteOfDecimal(minute);
    ParseClockFields(DecimalString(hour), DecimalString(minute));
  }

  lemma HourOfDecimal(hour: nat)
    requires hour < 24
    ensures 1 <= |DecimalString(hour)| <= 2 && ':' !in DecimalString(hour)
    ensures ParseHour(DecimalString(hour)) == Some(hour)
  {
    SmallDecimal(hour);
    var h := DecimalString(hour);
    if hour < 10 {
      assert h == [DigitChar(hour)];
    } else {
      assert h == [DigitChar(hour / 10), DigitChar(hour % 10)];
      assert hour / 10 <= 1 || (hour / 10 == 2 && hour % 10 <= 3);
      assert h[0] <= '1' || (h[0] == '2' && h[1] <= '3');
    }
  }

  lemma MinuteOfDecimal(minute: nat)
    requires minute < 60
    ensures ParseMinute(DecimalString(minute)) == Some(minute)
  {
    SmallDecimal(minute);
    var m := DecimalString(minute);
    if minute < 10 {
      assert m == [DigitChar(minute)];
    } else {
      assert m == [DigitChar(minute / 10), DigitChar(minute % 10)];
      assert '0' <= m[0] <= '5';
    }
  }

  /** A five-character string that parses is exactly the canonical spelling
      of the minute it denotes: the padded form is unambiguous. */
  lemma ParsedPaddedIsCanonical(s: string)
    requires |s| == 5 && ParseClock(s).Some?
    ensures s == FormatClock(ParseClock(s).value / MicrosPerMinute)
  {
    assert s[1] != ':';
    var h, m := s[..2], s[3..];
    var hv, mv := ParseHour(h).value, ParseMinute(m).value;
    assert hv == 10 * DigitValue(s[0]) + DigitValue(s[1]) by { assert h[..1] == [s[0]]; assert h[..1][..0] == []; }
    assert mv == 10 * DigitValue(s[3]) + DigitValue(s[4]) by { assert m[..1] == [s[3]]; assert m[..1][..0] == []; }
    var minute := ParseClock(s).value / MicrosPerMinute;
    assert minute == hv * 60 + mv;
    assert minute / 60 == hv && minute % 60 == mv;
    var f := FormatClock(minute);
    assert f[0] == s[0] && f[1] == s[1] && f[2] == s[2] && f[3] == s[3] && f[4] == s[4];
  }

  /** `is_time_between(start, end)` evaluated at the time of day `now`. */
  predicate IsTimeBetween(startStr: string, endStr: string, now: TimeOfDay)
  {
    match (ParseClock(startStr), ParseClock(endStr))
    case (Some(start), Some(end)) =>
      if start <= end then start <= now <= end
      else now >= start || now <= end
    case _ => false
  }

  /** Reference definition: `now` lies on the clockwise arc of the 24-hour dial
      that runs from `start` to `end`, both ends included. */
  predicate OnArc(start: TimeOfDay, end: TimeOfDay, now: TimeOfDay)
  {
    (now - start) % MicrosPerDay <= (end - start) % MicrosPerDay
  }

  /** The two-case test of the source is the single arc of the dial, whether or
      not the window crosses midnight. */
  lemma ExclusionIsArc(startStr: string, endStr: string, now: TimeOfDay)
    ensures IsTimeBetween(startStr, endStr, now) <==>
      (ParseClock(startStr).Some? && ParseClock(endStr).Some? &&
       OnArc(ParseClock(startStr).value, ParseClock(endStr).value, now))
  {
    if ParseClock(startStr).Some? && ParseClock(endStr).Some? {
      var start, end := ParseClock(startStr).value, ParseClock(endStr).value;
      ArcCases(start, end, now);
    }
  }

  lemma ArcCases(start: TimeOfDay, end: TimeOfDay, now: TimeOfDay)
    ensures start <= end ==> (OnArc(start, end, now) <==> start <= now <= end)
    ensures start > end ==> (OnArc(start, end, now) <==> now >= start || now <= end)
  {
    var d := MicrosPerDay;
    var gap := if start <= end then end - start else end - start + d;
    assert (end - start) % d == gap;
    var off := if now >= start then now - start else now - start + d;
    assert (now - start) % d == off;
  }

  /** A window whose bounds do not both parse never excludes anything. */
  lemma MalformedNeverExcludes(startStr: string, endStr: string, now: TimeOfDay)
    requires ParseClock(startStr).None? || ParseClock(endStr).None?
    ensures !IsTimeBetween(startStr, endStr, now)
  {
  }

  /** start <= end: inside exactly when start <= now <= end, both ends included. */
  lemma SameDayWindow(startStr: string, endStr: string, now: TimeOfDay)
    requires ParseClock(startStr).Some? && ParseClock(endStr).Some?
    requires ParseClock(startStr).value <= ParseClock(endStr).value
    ensures IsTimeBetween(startStr, endStr, now) <==>
      ParseClock(startStr).value <= now <= ParseClock(endStr).value
  {
  }

  /** start > end: the window wraps past midnight, so it is the complement of
      the open gap (end, start). */
  lemma MidnightWindow(startStr: string, endStr: string, now: TimeOfDay)
    requires ParseClock(startStr).Some? && ParseClock(endStr).Some?
    requires ParseClock(startStr).value > ParseClock(endStr).value
    ensures IsTimeBetween(startStr, endStr, now) <==>
      (now >= ParseClock(startStr).value || now <= ParseClock(endStr).value)
    ensures IsTimeBetween(startStr, endStr, now) <==>
      !(ParseClock(endStr).value < now < ParseClock(startStr).value)
  {
  }
}
