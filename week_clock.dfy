/** The arithmetic of the clock tick (kiosk/js/kiosk.js:84-110): the calendar day, hour and
    minute become a minute of the kiosk's week, which starts on Friday at midnight, and the
    time is written as `<WEEKDAY> <H>:<MM>:<SS> <AM|PM>`. The day, hour, minute and second
    that `new Date()` supplies are parameters here. */
module WeekClock {
  import opened Wrappers
  import opened Digits

  /** cos_weekday, indexed like `Date.getDay()`: Sunday is 0. */
  const Weekdays: seq<string> :=
    ["SUNDAY", "MONDAY", "TUESDAY", "WEDNESDAY", "THURSDAY", "FRIDAY", "SATURDAY"]

  /** The calendar day on which the kiosk's week starts. */
  const Friday: nat := 5

  const MinutesPerDay: nat := 24 * 60

  const MinutesPerWeek: nat := 7 * MinutesPerDay

  /** `relDay`: the number of days since the last Friday. */
  function RelDay(day: nat): (r: nat)
    requires day < 7
    ensures r < 7
    ensures (r + Friday) % 7 == day
  {
    if day < 5 then day + 2 else day - 5
  }

  /** The minute of the kiosk's week: `((relDay * 24) + hour) * 60 + minute`. It stays inside
      one week, and its day, hour and minute can be read back from it. */
  function WeekMinute(day: nat, hour: nat, minute: nat): (w: nat)
    requires day < 7 && hour < 24 && minute < 60
    ensures w < MinutesPerWeek
    ensures w / MinutesPerDay == RelDay(day)
    ensures w % MinutesPerDay / 60 == hour && w % 60 == minute
  {
    ((RelDay(day) * 24) + hour) * 60 + minute
  }

  /** The calendar day, hour and minute of a minute of the kiosk's week. */
  datatype WeekTime = WeekTime(day: nat, hour: nat, minute: nat)

  function TimeOfWeekMinute(w: nat): (t: WeekTime)
    requires w < MinutesPerWeek
    ensures t.day < 7 && t.hour < 24 && t.minute < 60
  {
    WeekTime((w / MinutesPerDay + Friday) % 7, w % MinutesPerDay / 60, w % 60)
  }

  /** Every minute of the week is the week-minute of exactly one day, hour and minute:
      the mapping and its reading back are inverse both ways. */
  lemma WeekMinuteBijective(day: nat, hour: nat, minute: nat, w: nat)
    requires day < 7 && hour < 24 && minute < 60 && w < MinutesPerWeek
    ensures TimeOfWeekMinute(WeekMinute(day, hour, minute)) == WeekTime(day, hour, minute)
    ensures var t := TimeOfWeekMinute(w); WeekMinute(t.day, t.hour, t.minute) == w
  {
    TimeOfWeekMinuteInverts(day, hour, minute);
    WeekMinuteOfTime(w);
  }

  /** Reading a week-minute back gives the day, hour and minute it was made from. */
  lemma TimeOfWeekMinuteInverts(day: nat, hour: nat, minute: nat)
    requires day < 7 && hour < 24 && minute < 60
    ensures TimeOfWeekMinute(WeekMinute(day, hour, minute)) == WeekTime(day, hour, minute)
  {
    var w := WeekMinute(day, hour, minute);
    assert (w / MinutesPerDay + Friday) % 7 == day;
  }

  /** Every minute of the week is the week-minute of the time read back from it. */
  lemma WeekMinuteOfTime(w: nat)
    requires w < MinutesPerWeek
    ensures var t := TimeOfWeekMinute(w); WeekMinute(t.day, t.hour, t.minute) == w
  {
    var t := TimeOfWeekMinute(w);
    assert RelDay(t.day) == w / MinutesPerDay;
    assert w == (w / MinutesPerDay * 24 + w % MinutesPerDay / 60) * 60 + w % 60;
  }

  /** Later in the week means a larger week-minute: the mapping orders times by day since
      Friday, then hour, then minute. */
  lemma WeekMinuteOrdered(d1: nat, h1: nat, m1: nat, d2: nat, h2: nat, m2: nat)
    requires d1 < 7 && h1 < 24 && m1 < 60 && d2 < 7 && h2 < 24 && m2 < 60
    ensures WeekMinute(d1, h1, m1) < WeekMinute(d2, h2, m2) <==>
      RelDay(d1) < RelDay(d2) ||
      (RelDay(d1) == RelDay(d2) && (h1 < h2 || (h1 == h2 && m1 < m2)))
  {
    var a, b := RelDay(d1) * 24 + h1, RelDay(d2) * 24 + h2;
    assert WeekMinute(d1, h1, m1) == a * 60 + m1;
    assert WeekMinute(d2, h2, m2) == b * 60 + m2;
    assert a < b ==> a * 60 + m1 < b * 60 + m2 by {
      if a < b {
        assert (a + 1) * 60 <= b * 60;
      }
    }
    assert b < a ==> b * 60 + m2 < a * 60 + m1 by {
      if b < a {
        assert (b + 1) * 60 <= a * 60;
      }
    }
  }

  /** Friday at midnight starts the week and Sunday at midnight is two days in. */
  lemma WeekMinuteLandmarks()
    ensures WeekMinute(5, 0, 0) == 0
    ensures WeekMinute(0, 0, 0) == 2880
  {
  }

  /** Thursday 23:59 is the last minute of the week. */
  lemma WeekMinuteLastMinute()
    ensures WeekMinute(4, 23, 59) == MinutesPerWeek - 1
  {
  }

  /** `stringHour`'s number: midnight is 12, afternoon hours drop 12. */
  function Hour12(hour: nat): (h: nat)
    requires hour < 24
    ensures 1 <= h <= 12 && h % 12 == hour % 12
  {
    if hour == 0 then 12 else if hour > 12 then hour - 12 else hour
  }

  /** `timeOfDay`. */
  function Meridiem(hour: nat): (m: string)
    requires hour < 24
    ensures m == "AM" <==> hour < 12
    ensures m == "AM" || m == "PM"
  {
    if hour < 12 then "AM" else "PM"
  }

  /** The hour of a 12-hour clock reading, back on the 24-hour clock. */
  function Hour24(h: nat, pm: bool): (hour: nat)
    requires 1 <= h <= 12
    ensures hour < 24
  {
    (if h == 12 then 0 else h) + (if pm then 12 else 0)
  }

  /** The 12-hour reading names the hour unambiguously. */
  lemma Hour12RoundTrip(hour: nat)
    requires hour < 24
    ensures Hour24(Hour12(hour), Meridiem(hour) == "PM") == hour
  {
  }

  /** The displayed clock text, `currentTimeString`. */
  function ClockText(day: nat, hour: nat, minute: nat, second: nat): (t: string)
    requires day < 7 && hour < 24 && minute < 60 && second < 60
    ensures |Weekdays[day]| + 11 <= |t| <= |Weekdays[day]| + 12
    ensures t[..|Weekdays[day]|] == Weekdays[day]
    ensures t[|t| - 2..] == Meridiem(hour)
  {
    Weekdays[day] + " " + (Decimal(Hour12(hour)) + (":" + Pad2(minute) + ":" + Pad2(second)
      + " " + Meridiem(hour)))
  }

  /** A clock reading: the calendar day, the 24-hour hour, the minute and the second. */
  datatype ClockReading = ClockReading(day: nat, hour: nat, minute: nat, second: nat)

  /** The index of the first space in `s`, or `|s|` when there is none. */
  function SpaceIndex(s: string): (i: nat)
    ensures i <= |s|
    ensures forall j :: 0 <= j < i ==> s[j] != ' '
    ensures i < |s| ==> s[i] == ' '
  {
    if s == [] || s[0] == ' ' then 0 else 1 + SpaceIndex(s[1..])
  }

  /** The position of `name` in `names`, or `|names|` when it is not there. */
  function Position(names: seq<string>, name: string): (k: nat)
    ensures k <= |names|
    ensures forall j :: 0 <= j < k ==> names[j] != name
    ensures k < |names| ==> names[k] == name
  {
    if names == [] || names[0] == name then 0 else 1 + Position(names[1..], name)
  }

  /** A two-digit field below 60. */
  function Sexagesimal(s: string): Option<nat> {
    if |s| == 2 && IsDigits(s) && DigitsValue(s) < 60 then Some(DigitsValue(s)) else None
  }

  /** Reads a clock text back: the weekday name up to the first space, the hour up to the
      last nine characters, written as `'' + h` writes it (no leading zero), then `:MM:SS AM`
      or `:MM:SS PM`. */
  function ReadClock(t: string): Option<ClockReading> {
    var i := SpaceIndex(t);
    if |t| < i + 11 then None
    else
      var day := Position(Weekdays, t[..i]);
      var hourText := t[i + 1..|t| - 9];
      var tail := t[|t| - 9..];
      var minute := Sexagesimal(tail[1..3]);
      var second := Sexagesimal(tail[4..6]);
      var meridiem := tail[7..];
      if day < 7 && Canonical(hourText) && 1 <= DigitsValue(hourText) <= 12
        && tail[0] == ':' && tail[3] == ':' && tail[6] == ' '
        && minute.Some? && second.Some? && (meridiem == "AM" || meridiem == "PM")
      then Some(ClockReading(day, Hour24(DigitsValue(hourText), meridiem == "PM"),
                             minute.value, second.value))
      else None
  }

  /** No weekday name holds a space, and no two are equal. */
  lemma WeekdayNames()
    ensures forall d, j :: 0 <= d < 7 && 0 <= j < |Weekdays[d]| ==> Weekdays[d][j] != ' '
    ensures forall d, e :: 0 <= d < e < 7 ==> Weekdays[d] != Weekdays[e]
  {
    forall d, e | 0 <= d < e < 7 ensures Weekdays[d] != Weekdays[e] {
      assert Weekdays[d][0] != Weekdays[e][0] || Weekdays[d][1] != Weekdays[e][1];
    }
  }

  /** A weekday name holds no space. */
  lemma WeekdayHasNoSpace(day: nat)
    requires day < 7
    ensures forall j :: 0 <= j < |Weekdays[day]| ==> Weekdays[day][j] != ' '
  {
    WeekdayNames();
  }

  /** The first space after a word without spaces is the one that ends it. */
  lemma {:induction false} SpaceAfterWord(word: string, rest: string)
    requires forall j :: 0 <= j < |word| ==> word[j] != ' '
    ensures SpaceIndex(word + " " + rest) == |word|
  {
    if word != [] {
      assert (word + " " + rest)[1..] == word[1..] + " " + rest;
      SpaceAfterWord(word[1..], rest);
    }
  }

  /** Each weekday name is found at its own day. */
  lemma WeekdayPosition(day: nat)
    requires day < 7
    ensures Position(Weekdays, Weekdays[day]) == day
  {
    WeekdayNames();
  }

  /** A padded minute or second reads back as itself. */
  lemma SexagesimalPad2(n: nat)
    requires n < 60
    ensures Sexagesimal(Pad2(n)) == Some(n)
  {
  }

  /** Where the weekday, the space, the hour and the last nine characters sit in a text. */
  lemma TextParts(name: string, h: string, tail: string)
    requires |tail| == 9
    ensures var t := name + " " + (h + tail);
      && |t| == |name| + |h| + 10
      && t[..|name|] == name && t[|name|] == ' '
      && t[|name| + 1..|t| - 9] == h && t[|t| - 9..] == tail
  {
    var t := name + " " + (h + tail);
    assert t[|name| + 1..] == h + tail;
  }

  /** Where the minutes, the seconds and AM/PM sit in the last nine characters. */
  lemma TailParts(mm: string, ss: string, xm: string)
    requires |mm| == 2 && |ss| == 2 && |xm| == 2
    ensures var tail := ":" + mm + ":" + ss + " " + xm;
      && |tail| == 9 && tail[0] == ':' && tail[3] == ':' && tail[6] == ' '
      && tail[1..3] == mm && tail[4..6] == ss && tail[7..] == xm
  {
  }

  /** ReadClock accepts a text whose pieces are in place. */
  lemma ReadClockOfParts(t: string, i: nat, day: nat, hour: nat, minute: nat, second: nat)
    requires day < 7 && hour < 24 && minute < 60 && second < 60
    requires SpaceIndex(t) == i && |t| >= i + 11
    requires Position(Weekdays, t[..i]) == day
    requires Canonical(t[i + 1..|t| - 9])
    requires DigitsValue(t[i + 1..|t| - 9]) == Hour12(hour)
    requires var tail := t[|t| - 9..];
      && tail[0] == ':' && tail[3] == ':' && tail[6] == ' '
      && Sexagesimal(tail[1..3]) == Some(minute)
      && Sexagesimal(tail[4..6]) == Some(second)
      && tail[7..] == Meridiem(hour)
    ensures ReadClock(t) == Some(ClockReading(day, hour, minute, second))
  {
    Hour12RoundTrip(hour);
  }

  /** The pieces of a clock text, put together, read back as the time they were made from. */
  lemma ReadAssembled(day: nat, hour: nat, minute: nat, second: nat)
    requires day < 7 && hour < 24 && minute < 60 && second < 60
    ensures var tail := ":" + Pad2(minute) + ":" + Pad2(second) + " " + Meridiem(hour);
      ReadClock(Weekdays[day] + " " + (Decimal(Hour12(hour)) + tail))
        == Some(ClockReading(day, hour, minute, second))
  {
    var name, h := Weekdays[day], Decimal(Hour12(hour));
    var mm, ss, xm := Pad2(minute), Pad2(second), Meridiem(hour);
    var tail := ":" + mm + ":" + ss + " " + xm;
    TailParts(mm, ss, xm);
    TextParts(name, h, tail);
    var t := name + " " + (h + tail);
    WeekdayHasNoSpace(day);
    SpaceAfterWord(name, h + tail);
    WeekdayPosition(day);
    SexagesimalPad2(minute);
    SexagesimalPad2(second);
    DecimalRoundTrip(Hour12(hour));
    var i := |name|;
    assert SpaceIndex(t) == i && |t| >= i + 11;
    assert Position(Weekdays, t[..i]) == day;
    assert Canonical(t[i + 1..|t| - 9]);
    assert DigitsValue(t[i + 1..|t| - 9]) == Hour12(hour);
    assert t[|t| - 9..] == tail;
    assert tail[0] == ':' && tail[3] == ':' && tail[6] == ' ';
    assert Sexagesimal(tail[1..3]) == Some(minute);
    assert Sexagesimal(tail[4..6]) == Some(second);
    assert tail[7..] == Meridiem(hour);
    ReadClockOfParts(t, i, day, hour, minute, second);
  }

  /** The hour is not zero-padded: in every text that reads back, the hour does not start
      with `0`, so `FRIDAY 09:05:07 AM` is not a clock text. */
  lemma ReadHourUnpadded(t: string)
    requires ReadClock(t).Some?
    ensures t[SpaceIndex(t) + 1] != '0'
  {
    var i := SpaceIndex(t);
    var hourText := t[i + 1..|t| - 9];
    assert hourText[0] == t[i + 1];
    if |hourText| == 1 {
      assert hourText == [hourText[0]];
      assert DigitsValue(hourText) == DigitValue(hourText[0]);
    }
  }

  /** The clock text loses nothing: reading it back gives the day, hour, minute and second
      it was written from. */
  lemma ClockTextRoundTrip(day: nat, hour: nat, minute: nat, second: nat)
    requires day < 7 && hour < 24 && minute < 60 && second < 60
    ensures ReadClock(ClockText(day, hour, minute, second))
      == Some(ClockReading(day, hour, minute, second))
  {
    ReadAssembled(day, hour, minute, second);
  }
}
