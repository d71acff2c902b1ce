/** Timestamps with a fraction of a second and the offset of a zone, as the sketch reads them. */
module LocalTimes {
  import opened Base
  import opened Calendar
  import opened Text
  import opened Timestamps

  /** `+hh:mm` east of Greenwich, `-hh:mm` west of it. */
  function OffsetText(east: bool, hours: int, minutes: int): string {
    (if east then "+" else "-") + PadInt(hours, 2) + ":" + PadInt(minutes, 2)
  }

  /** How many seconds a zone's clocks are ahead of Greenwich. */
  function Ahead(east: bool, hours: int, minutes: int): int {
    if east then 60 * (60 * hours + minutes) else -(60 * (60 * hours + minutes))
  }

  /** Nothing, or a point and digits. */
  predicate IsFraction(s: string) {
    s == "" || (s[0] == '.' && AllDigits(s[1..]))
  }

  lemma {:induction false} SkipsDigits(s: string, at: nat, end: nat)
    requires at <= end <= |s| && (forall i :: at <= i < end ==> IsDigit(s[i])) && !IsDigit(At(s, end))
    ensures SkipDigits(s, at) == end
    decreases end - at
  {
    if at < end { SkipsDigits(s, at + 1, end); }
  }

  lemma OffsetIsTaken(s: string, p: nat, east: bool, hours: int, minutes: int, seconds: int)
    requires 0 <= hours <= 99 && 0 <= minutes <= 99 && |s| == p + 6 && s[p..] == OffsetText(east, hours, minutes)
    ensures WithOffset(s, p, seconds) == seconds - Ahead(east, hours, minutes)
  {
    Pad2(hours);
    Pad2(minutes);
    var text := s[p..];
    assert s[p] == text[0] && s[p + 1] == text[1] && s[p + 2] == text[2];
    assert s[p + 3] == text[3] && s[p + 4] == text[4] && s[p + 5] == text[5];
    DigitsOfTwo(s, p + 1, hours);
    DigitsOfTwo(s, p + 4, minutes);
  }

  lemma BehindFraction(head: string, fraction: string, east: bool, hours: int, minutes: int)
    requires |head| == 19 && IsFraction(fraction) && 0 <= hours <= 99 && 0 <= minutes <= 99
    ensures var s := head + fraction + OffsetText(east, hours, minutes);
      && |s| == 25 + |fraction| && s[19 + |fraction|..] == OffsetText(east, hours, minutes)
      && (if At(s, 19) == '.' then SkipDigits(s, 20) else 19) == 19 + |fraction|
  {
    Pad2(hours);
    Pad2(minutes);
    var s, p := head + fraction + OffsetText(east, hours, minutes), 19 + |fraction|;
    assert s[p] == (if east then '+' else '-');
    if fraction != "" {
      assert s[19] == '.';
      forall i | 20 <= i < p ensures IsDigit(s[i]) { assert s[i] == fraction[1..][i - 20]; }
      SkipsDigits(s, 20, p);
    }
  }

  lemma BeginsAlike(s: string, head: string, y: int, m: int, d: int, h: int, mi: int, sec: int)
    requires 0 <= y <= 9999 && 0 <= m <= 99 && 0 <= d <= 99 && 0 <= h <= 99 && 0 <= mi <= 99 && 0 <= sec <= 99
    requires Begins(head, y, m, d, h, mi, sec) && |s| >= 19 && s[..19] == head[..19]
    ensures Begins(s, y, m, d, h, mi, sec)
  {
    assert s[..4] == s[..19][..4] && head[..4] == head[..19][..4];
    assert s[5..7] == s[..19][5..7] && s[8..10] == s[..19][8..10] && s[11..13] == s[..19][11..13];
    assert s[14..16] == s[..19][14..16] && s[17..19] == s[..19][17..19];
    assert head[5..7] == head[..19][5..7] && head[8..10] == head[..19][8..10] && head[11..13] == head[..19][11..13];
    assert head[14..16] == head[..19][14..16] && head[17..19] == head[..19][17..19];
    assert forall i :: 0 <= i < 19 ==> s[i] == s[..19][i] && head[i] == head[..19][i];
  }

  /** The seconds of a date and time, as long as its year has four digits. */
  lemma LocalIsRead(t: int, iso: bool, fraction: string, east: bool, hours: int, minutes: int)
    requires FIRST_SECOND <= t < END_SECOND && IsFraction(fraction) && 0 <= hours <= 99 && 0 <= minutes <= 99
    ensures var local := FormatTimestamp(t, iso, BUFFER);
      && |local| >= 19
      && ParseTimestamp(local[..19] + fraction + OffsetText(east, hours, minutes))
         == t - Ahead(east, hours, minutes)
  {
    var days := DayOf(t);
    FloorDay(t);
    SecondsByDay(t);
    FieldsInRange(days);
    var date, rem := CivilFromDays(days), t - days * DAY;
    var h, mi, sec := rem / 3600, rem % 3600 / 60, rem % 60;
    TimeOfDay(rem);
    TextOf(t, iso, h, mi, sec);
    YearIsShort(days);
    DateIsRead(date, h, mi, sec, iso, FormatTimestamp(t, iso, BUFFER), fraction, east, hours, minutes);
    DayNumberIsDays(days);
  }

  lemma YearIsShort(days: int)
    requires -719528 <= days < 2932897
    ensures 0 <= CivilFromDays(days).year <= 9999
  {
    var wide := WideCivilFromDays(days);
    DaysOfWideDate(days);
    FourDigitYears(wide);
    NarrowingMovesFar(wide.year);
    NarrowedYear(days, wide.year);
  }

  lemma NarrowedYear(days: int, year: int)
    requires year == WideCivilFromDays(days).year
    ensures CivilFromDays(days).year == ToInt32(year)
  {
  }

  lemma DayNumberIsDays(days: int)
    requires -719528 <= days < 2932897
    ensures DayNumber(CivilFromDays(days)) == days
  {
    DaysOfWideDate(days);
    FourDigitYears(WideCivilFromDays(days));
    NarrowYear(days);
  }

  lemma DateIsRead(date: Date, h: int, mi: int, sec: int, iso: bool, local: string, fraction: string, east: bool, hours: int, minutes: int)
    requires 0 <= date.year <= 9999 && 1 <= date.month <= 12 && 1 <= date.day <= 31
    requires 0 <= h <= 99 && 0 <= mi <= 99 && 0 <= sec <= 99
    requires IsFraction(fraction) && 0 <= hours <= 99 && 0 <= minutes <= 99
    requires local == Clip(DateText(date, h, mi, sec, iso), BUFFER)
    ensures |local| >= 19
    ensures ParseTimestamp(local[..19] + fraction + OffsetText(east, hours, minutes)) ==
      DayNumber(date) * DAY + h * 3600 + mi * 60 + sec - Ahead(east, hours, minutes)
  {
    WriterShows(date.year, date.month, date.day, h, mi, sec, iso);
    FourDigitText(date, h, mi, sec, iso);
    assert Begins(local, date.year, date.month, date.day, h, mi, sec);
    TextIsRead(local, date.year, date.month, date.day, h, mi, sec, DaysFromCivil(date.year, date.month, date.day) * DAY,
               fraction, east, hours, minutes);
  }

  lemma TextIsRead(local: string, y: int, m: int, d: int, h: int, mi: int, sec: int, midnight: int,
                   fraction: string, east: bool, hours: int, minutes: int)
    requires 0 <= y <= 9999 && 1 <= m <= 12 && 1 <= d <= 31 && 0 <= h <= 99 && 0 <= mi <= 99 && 0 <= sec <= 99
    requires IsFraction(fraction) && 0 <= hours <= 99 && 0 <= minutes <= 99
    requires Begins(local, y, m, d, h, mi, sec) && midnight == DaysFromCivil(y, m, d) * DAY
    ensures ParseTimestamp(local[..19] + fraction + OffsetText(east, hours, minutes)) ==
      midnight + h * 3600 + mi * 60 + sec - Ahead(east, hours, minutes)
  {
    var s := local[..19] + fraction + OffsetText(east, hours, minutes);
    BehindFraction(local[..19], fraction, east, hours, minutes);
    assert s[..19] == local[..19];
    BeginsAlike(s, local, y, m, d, h, mi, sec);
    FieldsRead(s, y, m, d, h, mi, sec, midnight);
    assert ParseTimestamp(s) == WithOffset(s, 19 + |fraction|, midnight + h * 3600 + mi * 60 + sec);
    OffsetIsTaken(s, 19 + |fraction|, east, hours, minutes, midnight + h * 3600 + mi * 60 + sec);
  }

  /**
   * What a clock shows in a zone that many hours and minutes east or west of Greenwich, with any fraction of
   * a second and the zone's offset behind it, is read as the instant at which the clock shows it.
   */
  lemma OffsetTimeIsRead(t: int, shown: int, iso: bool, fraction: string, east: bool, hours: int, minutes: int)
    requires IsFraction(fraction) && 0 <= hours <= 99 && 0 <= minutes <= 99
    requires shown == t + Ahead(east, hours, minutes) && FIRST_SECOND <= shown < END_SECOND
    ensures |FormatTimestamp(shown, iso, BUFFER)| >= 19
    ensures ParseTimestamp(FormatTimestamp(shown, iso, BUFFER)[..19] + fraction + OffsetText(east, hours, minutes)) == t
  {
    LocalIsRead(shown, iso, fraction, east, hours, minutes);
  }
}
