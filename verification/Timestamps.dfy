/** The sketch's reader and writer of timestamps, over NUL-terminated text. */
module Timestamps {
  import opened Base
  import opened Calendar
  import opened Text

  const DAY: int := 86400
  /** 0000-01-01T00:00:00Z and 10000-01-01T00:00:00Z. */
  const FIRST_SECOND: int := -62167219200
  const END_SECOND: int := 253402300800
  /** The size of every caller's buffer. */
  const BUFFER: nat := 24

  /** What `s[i]` reads: the terminating NUL once the text is over. */
  function At(s: string, i: nat): char {
    if i < |s| then s[i] else '\0'
  }

  // ---- Reading ----

  /** The decimal value of `count` characters, continuing from the value read so far. */
  function DigitsFrom(s: string, at: nat, count: nat, value: int): Option<int>
    decreases count
  {
    if count == 0 then Some(value)
    else if !IsDigit(At(s, at)) then None
    else DigitsFrom(s, at + 1, count - 1, value * 10 + (At(s, at) as int - '0' as int))
  }

  /** That many digits stand at a place. */
  predicate DigitsAt(s: string, at: nat, count: nat) {
    count == 0 || (at + count <= |s| && AllDigits(s[at..at + count]))
  }

  /** What a reader that has read some digits is to answer for those that follow. */
  function Answer(s: string, at: nat, count: nat, before: string): Option<int> {
    if !DigitsAt(s, at, count) then None else Some(Value(if count == 0 then before else before + s[at..at + count]))
  }

  lemma {:induction false} AnswerMoves(s: string, at: nat, count: nat, before: string)
    requires count > 0 && at < |s| && IsDigit(s[at])
    ensures Answer(s, at, count, before) == Answer(s, at + 1, count - 1, before + [s[at]])
  {
    DigitsFollow(s, at, count);
    if DigitsAt(s, at, count) { SliceMoves(s, at, count, before); }
  }

  lemma {:induction false} AnswerIsNone(s: string, at: nat, count: nat, before: string)
    requires count > 0 && !IsDigit(At(s, at))
    ensures Answer(s, at, count, before) == None
  {
    if at + count <= |s| { assert s[at..at + count][0] == s[at]; }
  }

  lemma {:induction false} DigitsAreDecimal(s: string, at: nat, count: nat, before: string)
    ensures DigitsFrom(s, at, count, Value(before)) == Answer(s, at, count, before)
    decreases count
  {
    if count > 0 {
      if IsDigit(At(s, at)) {
        ValueMore(before, s[at]);
        DigitsAreDecimal(s, at + 1, count - 1, before + [s[at]]);
        AnswerMoves(s, at, count, before);
      } else {
        AnswerIsNone(s, at, count, before);
      }
    }
  }

  lemma {:induction false} ValueMore(before: string, digit: char)
    ensures Value(before + [digit]) == Value(before) * 10 + DigitValue(digit)
  {
    assert (before + [digit])[..|before|] == before;
  }

  lemma {:induction false} SliceMoves(s: string, at: nat, count: nat, before: string)
    requires count > 0 && at + count <= |s|
    ensures before + s[at..at + count] == if count == 1 then before + [s[at]] else before + [s[at]] + s[at + 1..at + count]
  {
    assert s[at..at + count] == [s[at]] + s[at + 1..at + count];
  }

  lemma {:induction false} DigitsFollow(s: string, at: nat, count: nat)
    requires count > 0 && at < |s| && IsDigit(s[at])
    ensures DigitsAt(s, at, count) <==> DigitsAt(s, at + 1, count - 1)
  {
    if count > 1 && at + count <= |s| {
      var all, rest := s[at..at + count], s[at + 1..at + count];
      assert all == [s[at]] + rest;
      assert forall i :: 0 <= i < |rest| ==> rest[i] == all[i + 1];
    } else if count == 1 {
      assert s[at..at + 1] == [s[at]];
    }
  }

  lemma {:induction false} WhatIsRead(s: string, at: nat, count: nat)
    ensures DigitsFrom(s, at, count, 0)
         == if !DigitsAt(s, at, count) then None else Some(if count == 0 then 0 else Value(s[at..at + count]))
  {
    DigitsAreDecimal(s, at, count, "");
    if count > 0 && DigitsAt(s, at, count) { assert "" + s[at..at + count] == s[at..at + count]; }
  }

  method ReadDigits(s: string, at: nat, count: nat) returns (ok: bool, out: int)
    ensures DigitsFrom(s, at, count, 0) == (if ok then Some(out) else None)
    ensures ok <==> DigitsAt(s, at, count)
    ensures ok ==> out == if count == 0 then 0 else Value(s[at..at + count])
  {
    var value := 0;
    for i := 0 to count
      invariant DigitsFrom(s, at, count, 0) == DigitsFrom(s, at + i, count - i, value)
    {
      if !IsDigit(At(s, at + i)) {
        WhatIsRead(s, at, count);
        return false, 0;
      }
      value := value * 10 + (At(s, at + i) as int - '0' as int);
    }
    WhatIsRead(s, at, count);
    return true, value;
  }

  function SkipDigits(s: string, at: nat): nat
    decreases |s| - at
  {
    if IsDigit(At(s, at)) then SkipDigits(s, at + 1) else at
  }

  /** Seconds for a date and time of day, less the offset written at `p`; 0 when the offset is malformed. */
  function WithOffset(s: string, p: nat, seconds: int): int {
    if At(s, p) == '+' || At(s, p) == '-' then
      if |s| < p + 6 || s[p + 3] != ':' then 0
      else
        match (DigitsFrom(s, p + 1, 2, 0), DigitsFrom(s, p + 4, 2, 0))
        case (Some(oh), Some(om)) =>
          seconds - (oh * 3600 + om * 60) * (if At(s, p) == '-' then -1 else 1)
        case _ => 0
    else seconds
  }

  function WithTime(s: string, midnight: int): int {
    if At(s, 10) == 'T' || At(s, 10) == ' ' then
      if |s| < 19 || s[13] != ':' || s[16] != ':' then 0
      else
        match (DigitsFrom(s, 11, 2, 0), DigitsFrom(s, 14, 2, 0), DigitsFrom(s, 17, 2, 0))
        case (Some(h), Some(mi), Some(sec)) =>
          var p := if At(s, 19) == '.' then SkipDigits(s, 20) else 19;
          WithOffset(s, p, midnight + h * 3600 + mi * 60 + sec)
        case _ => 0
    else WithOffset(s, 10, midnight)
  }

  /** Unix seconds of a timestamp, or 0 when it cannot be read. */
  function ParseTimestamp(s: string): int {
    if |s| < 10 || s[4] != '-' || s[7] != '-' then 0
    else
      match (DigitsFrom(s, 0, 4, 0), DigitsFrom(s, 5, 2, 0), DigitsFrom(s, 8, 2, 0))
      case (Some(y), Some(m), Some(d)) =>
        if m < 1 || m > 12 || d < 1 || d > 31 then 0
        else WithTime(s, DaysFromCivil(y, m, d) * DAY)
      case _ => 0
  }

  // ---- Writing ----

  function ZeroPad(s: string, width: nat): string
    decreases width - |s|
  {
    if |s| >= width then s else ZeroPad("0" + s, width)
  }

  /** `printf("%0<width>d")`. */
  function PadInt(n: int, width: nat): string {
    if n >= 0 then ZeroPad(Decimal(n), width)
    else "-" + ZeroPad(Decimal(-n), if width > 0 then width - 1 else 0)
  }

  function DayOf(t: int): int {
    if t >= 0 then TruncDiv(t, DAY) else TruncDiv(t - (DAY - 1), DAY)
  }

  function AfterYear(m: int, d: int, h: int, mi: int, sec: int, iso: bool): string {
    "-" + PadInt(m, 2) + "-" + PadInt(d, 2) + (if iso then "T" else " ")
    + PadInt(h, 2) + ":" + PadInt(mi, 2) + ":" + PadInt(sec, 2) + (if iso then "Z" else "")
  }

  function DateText(date: Date, h: int, mi: int, sec: int, iso: bool): string {
    PadInt(date.year, 4) + AfterYear(date.month, date.day, h, mi, sec, iso)
  }

  function FullText(t: int, iso: bool): string {
    var rem := t - DayOf(t) * DAY;
    DateText(CivilFromDays(DayOf(t)), rem / 3600, rem % 3600 / 60, rem % 60, iso)
  }

  /** `snprintf` keeps what fits before the terminating NUL. */
  function Clip(text: string, size: nat): string
    requires size > 0
  {
    if |text| < size then text else text[..size - 1]
  }

  function FormatTimestamp(t: int, iso: bool, size: nat): string
    requires size > 0
  {
    Clip(FullText(t, iso), size)
  }

  // ---- The round trip ----

  lemma FloorDay(t: int)
    ensures DayOf(t) * DAY <= t < DayOf(t) * DAY + DAY
  {
    if t < 0 {
      var q, r := t / DAY, t % DAY;
      assert -(t - 86399) == 86400 * (-q) + (86399 - r);
    }
  }

  lemma Pad2(n: int)
    requires 0 <= n <= 99
    ensures PadInt(n, 2) == [Digit(n / 10), Digit(n % 10)]
  {
    if n >= 10 {
      assert Decimal(n) == Decimal(n / 10) + [Digit(n % 10)];
    } else {
      assert Decimal(n) == [Digit(n)];
      assert ZeroPad("0" + [Digit(n)], 2) == "0" + [Digit(n)];
    }
  }

  lemma Pad4(n: int)
    requires 0 <= n <= 9999
    ensures PadInt(n, 4) == [Digit(n / 1000), Digit(n / 100 % 10), Digit(n / 10 % 10), Digit(n % 10)]
  {
    var a, b, c, d := Digit(n / 1000), Digit(n / 100 % 10), Digit(n / 10 % 10), Digit(n % 10);
    if n >= 1000 {
      assert Decimal(n / 1000) == [a];
      assert Decimal(n / 100) == [a] + [b];
      assert Decimal(n / 10) == [a] + [b] + [c];
      assert Decimal(n) == [a, b, c, d];
    } else if n >= 100 {
      assert Decimal(n / 100) == [b];
      assert Decimal(n / 10) == [b] + [c];
      assert Decimal(n) == [b, c, d];
      assert ZeroPad([b, c, d], 4) == "0" + [b, c, d];
    } else if n >= 10 {
      assert Decimal(n / 10) == [c];
      assert Decimal(n) == [c, d];
      assert ZeroPad([c, d], 4) == ZeroPad("0" + [c, d], 4) == "0" + ("0" + [c, d]);
    } else {
      assert Decimal(n) == [d];
      assert ZeroPad([d], 4) == ZeroPad("0" + [d], 4) == ZeroPad("0" + ("0" + [d]), 4) == "0" + ("0" + ("0" + [d]));
    }
  }

  lemma OneDigit(s: string, at: nat, count: nat, value: int, digit: int, next: int)
    requires at < |s| && count > 0 && 0 <= digit <= 9 && s[at] == Digit(digit) && next == value * 10 + digit
    ensures DigitsFrom(s, at, count, value) == DigitsFrom(s, at + 1, count - 1, next)
  {
  }

  lemma DigitsOfTwo(s: string, at: nat, n: int)
    requires 0 <= n <= 99 && at + 2 <= |s|
    requires s[at] == Digit(n / 10) && s[at + 1] == Digit(n % 10)
    ensures DigitsFrom(s, at, 2, 0) == Some(n)
  {
    OneDigit(s, at, 2, 0, n / 10, n / 10);
    OneDigit(s, at + 1, 1, n / 10, n % 10, n);
  }

  lemma DigitsOfFour(s: string, n: int)
    requires 0 <= n <= 9999 && 4 <= |s|
    requires s[0] == Digit(n / 1000) && s[1] == Digit(n / 100 % 10)
    requires s[2] == Digit(n / 10 % 10) && s[3] == Digit(n % 10)
    ensures DigitsFrom(s, 0, 4, 0) == Some(n)
  {
    OneDigit(s, 0, 4, 0, n / 1000, n / 1000);
    OneDigit(s, 1, 3, n / 1000, n / 100 % 10, n / 100);
    OneDigit(s, 2, 2, n / 100, n / 10 % 10, n / 10);
    OneDigit(s, 3, 1, n / 10, n % 10, n);
  }

  /** The fields of a written timestamp, at the places the reader looks. */
  predicate Begins(s: string, y: int, m: int, d: int, h: int, mi: int, sec: int)
    requires 0 <= y <= 9999 && 0 <= m <= 99 && 0 <= d <= 99 && 0 <= h <= 99 && 0 <= mi <= 99 && 0 <= sec <= 99
  {
    && |s| >= 19
    && s[..4] == PadInt(y, 4) && s[4] == '-' && s[5..7] == PadInt(m, 2) && s[7] == '-' && s[8..10] == PadInt(d, 2)
    && (s[10] == 'T' || s[10] == ' ')
    && s[11..13] == PadInt(h, 2) && s[13] == ':' && s[14..16] == PadInt(mi, 2) && s[16] == ':' && s[17..19] == PadInt(sec, 2)
  }

  predicate Shows(s: string, y: int, m: int, d: int, h: int, mi: int, sec: int)
    requires 0 <= y <= 9999 && 0 <= m <= 99 && 0 <= d <= 99 && 0 <= h <= 99 && 0 <= mi <= 99 && 0 <= sec <= 99
  {
    Begins(s, y, m, d, h, mi, sec) && (|s| == 19 || (|s| == 20 && s[19] == 'Z'))
  }

  lemma Slices(y: string, m: string, d: string, h: string, mi: string, sec: string, sep: char, end: string)
    requires |y| == 4 && |m| == |d| == |h| == |mi| == |sec| == 2
    ensures var s := y + ("-" + m + "-" + d + [sep] + h + ":" + mi + ":" + sec + end);
      && |s| == 19 + |end| && s[..4] == y && s[4] == '-' && s[5..7] == m && s[7] == '-' && s[8..10] == d && s[10] == sep
      && s[11..13] == h && s[13] == ':' && s[14..16] == mi && s[16] == ':' && s[17..19] == sec && s[19..] == end
  {
    var s := y + ("-" + m + "-" + d + [sep] + h + ":" + mi + ":" + sec + end);
    assert s[5] == m[0] && s[6] == m[1] && s[8] == d[0] && s[9] == d[1];
    assert s[11] == h[0] && s[12] == h[1] && s[14] == mi[0] && s[15] == mi[1];
    assert s[17] == sec[0] && s[18] == sec[1];
    assert s[5..7] == m && s[8..10] == d && s[11..13] == h;
    assert s[14..16] == mi && s[17..19] == sec;
  }

  lemma WriterShows(y: int, m: int, d: int, h: int, mi: int, sec: int, iso: bool)
    requires 0 <= y <= 9999 && 0 <= m <= 99 && 0 <= d <= 99 && 0 <= h <= 99 && 0 <= mi <= 99 && 0 <= sec <= 99
    ensures Shows(PadInt(y, 4) + AfterYear(m, d, h, mi, sec, iso), y, m, d, h, mi, sec)
  {
    Pad4(y); Pad2(m); Pad2(d); Pad2(h); Pad2(mi); Pad2(sec);
    Slices(PadInt(y, 4), PadInt(m, 2), PadInt(d, 2), PadInt(h, 2), PadInt(mi, 2), PadInt(sec, 2),
           if iso then 'T' else ' ', if iso then "Z" else "");
  }

  lemma ReaderReads(s: string, y: int, m: int, d: int, h: int, mi: int, sec: int)
    requires 0 <= y <= 9999 && 1 <= m <= 12 && 1 <= d <= 31 && 0 <= h <= 99 && 0 <= mi <= 99 && 0 <= sec <= 99
    requires Shows(s, y, m, d, h, mi, sec)
    ensures ParseTimestamp(s) == DaysFromCivil(y, m, d) * DAY + h * 3600 + mi * 60 + sec
  {
    FieldsRead(s, y, m, d, h, mi, sec, DaysFromCivil(y, m, d) * DAY);
  }

  lemma FieldsRead(s: string, y: int, m: int, d: int, h: int, mi: int, sec: int, midnight: int)
    requires 0 <= y <= 9999 && 1 <= m <= 12 && 1 <= d <= 31 && 0 <= h <= 99 && 0 <= mi <= 99 && 0 <= sec <= 99
    requires Begins(s, y, m, d, h, mi, sec) && midnight == DaysFromCivil(y, m, d) * DAY
    ensures ParseTimestamp(s) == WithOffset(s, if At(s, 19) == '.' then SkipDigits(s, 20) else 19, midnight + h * 3600 + mi * 60 + sec)
  {
    Pad4(y); Pad2(m); Pad2(d); Pad2(h); Pad2(mi); Pad2(sec);
    assert s[0] == s[..4][0] && s[1] == s[..4][1] && s[2] == s[..4][2] && s[3] == s[..4][3];
    assert s[5] == s[5..7][0] && s[6] == s[5..7][1] && s[8] == s[8..10][0] && s[9] == s[8..10][1];
    assert s[11] == s[11..13][0] && s[12] == s[11..13][1] && s[14] == s[14..16][0] && s[15] == s[14..16][1];
    assert s[17] == s[17..19][0] && s[18] == s[17..19][1];
    DigitsOfFour(s, y);
    DigitsOfTwo(s, 5, m);
    DigitsOfTwo(s, 8, d);
    DigitsOfTwo(s, 11, h);
    DigitsOfTwo(s, 14, mi);
    DigitsOfTwo(s, 17, sec);
  }

  /** A year that is not four digits leaves text the reader refuses. */
  lemma LongDecimal(n: nat)
    ensures |Decimal(n)| >= 1 && forall i :: 0 <= i < |Decimal(n)| ==> IsDigit(Decimal(n)[i])
    ensures n >= 10 ==> |Decimal(n)| == |Decimal(n / 10)| + 1
  {
  }

  lemma OtherYearsAreRefused(y: int, rest: string, keep: nat)
    requires !(0 <= y <= 9999) && keep >= 23
    ensures var s := PadInt(y, 4) + rest; ParseTimestamp(if |s| <= keep then s else s[..keep]) == 0
  {
    var s := PadInt(y, 4) + rest;
    if y < 0 {
      assert s[0] == '-';
      assert DigitsFrom(if |s| <= keep then s else s[..keep], 0, 4, 0) == None;
    } else {
      LongDecimal(y); LongDecimal(y / 10); LongDecimal(y / 100); LongDecimal(y / 1000); LongDecimal(y / 10000);
      assert PadInt(y, 4) == Decimal(y);
      assert s[4] == Decimal(y)[4];
    }
  }

  lemma SecondsByDay(t: int)
    ensures FIRST_SECOND <= t < END_SECOND <==> -719528 <= DayOf(t) < 2932897
  {
    FloorDay(t);
  }

  lemma FourDigitText(date: Date, h: int, mi: int, sec: int, iso: bool)
    requires 0 <= date.year <= 9999 && 1 <= date.month <= 12 && 1 <= date.day <= 31
    requires 0 <= h <= 99 && 0 <= mi <= 99 && 0 <= sec <= 99
    ensures |DateText(date, h, mi, sec, iso)| <= 20
    ensures ParseTimestamp(DateText(date, h, mi, sec, iso)) == DayNumber(date) * DAY + h * 3600 + mi * 60 + sec
  {
    WriterShows(date.year, date.month, date.day, h, mi, sec, iso);
    ReaderReads(DateText(date, h, mi, sec, iso), date.year, date.month, date.day, h, mi, sec);
  }

  lemma ReadClipped(date: Date, h: int, mi: int, sec: int, iso: bool)
    requires 1 <= date.month <= 12 && 1 <= date.day <= 31 && 0 <= h < 24 && 0 <= mi < 60 && 0 <= sec < 60
    ensures ParseTimestamp(Clip(DateText(date, h, mi, sec, iso), BUFFER))
         == if 0 <= date.year <= 9999 then DayNumber(date) * DAY + h * 3600 + mi * 60 + sec else 0
  {
    if 0 <= date.year <= 9999 {
      FourDigitText(date, h, mi, sec, iso);
    } else {
      OtherYearsAreRefused(date.year, AfterYear(date.month, date.day, h, mi, sec, iso), BUFFER - 1);
    }
  }

  lemma TimeOfDay(rem: int)
    requires 0 <= rem < DAY
    ensures rem == rem / 3600 * 3600 + rem % 3600 / 60 * 60 + rem % 60
    ensures 0 <= rem / 3600 < 24 && 0 <= rem % 3600 / 60 < 60 && 0 <= rem % 60 < 60
  {
  }

  lemma FieldsInRange(days: int)
    ensures 1 <= CivilFromDays(days).month <= 12 && 1 <= CivilFromDays(days).day <= 31
  {
    DaysOfWideDate(days);
  }

  lemma TextOf(t: int, iso: bool, h: int, mi: int, sec: int)
    requires var rem := t - DayOf(t) * DAY; h == rem / 3600 && mi == rem % 3600 / 60 && sec == rem % 60
    ensures FormatTimestamp(t, iso, BUFFER) == Clip(DateText(CivilFromDays(DayOf(t)), h, mi, sec, iso), BUFFER)
  {
  }

  /** What a reader makes of a written timestamp: the date as printed, or 0. */
  lemma ReadBack(t: int, iso: bool)
    ensures ParseTimestamp(FormatTimestamp(t, iso, BUFFER))
         == if 0 <= CivilFromDays(DayOf(t)).year <= 9999
            then DayNumber(CivilFromDays(DayOf(t))) * DAY + (t - DayOf(t) * DAY) else 0
  {
    FloorDay(t);
    var days := DayOf(t);
    FieldsInRange(days);
    var rem := t - days * DAY;
    var h, mi, sec := rem / 3600, rem % 3600 / 60, rem % 60;
    TimeOfDay(rem);
    TextOf(t, iso, h, mi, sec);
    ReadClipped(CivilFromDays(days), h, mi, sec, iso);
  }

  /** Reading back what was written gives the instant exactly for the years 0000 to 9999, in both layouts. */
  lemma RoundTrip(t: int, iso: bool)
    ensures ParseTimestamp(FormatTimestamp(t, iso, BUFFER)) == t <==> FIRST_SECOND <= t < END_SECOND
  {
    ReadBack(t, iso);
    SecondsByDay(t);
    var days := DayOf(t);
    DaysOfWideDate(days);
    var wide := WideCivilFromDays(days);
    FourDigitYears(wide);
    NarrowingMovesFar(wide.year);
    NarrowYear(days);
  }
}
