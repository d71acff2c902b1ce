/** Wall-clock times of a named time zone, resolved to instants by sampling the zone's offset twice. */
module Zone {
  import opened Base
  import opened Calendar
  import Text

  /** The offset from UTC that a zone has at an instant; both in milliseconds. */
  type Offset = int -> int

  datatype Wall = Wall(year: int, month: int, day: int, hour: int, minute: int, second: int, millisecond: int)

  const DAY_MS: int := 86400000

  // ---- The code ----

  /** A month beyond the year moves the year, a day beyond the month moves the month, and years 0 to 99 are of the 1900s. */
  function DateUtc(w: Wall): int {
    MillisOf(FirstDay(w.year, w.month), w)
  }

  function FirstDay(year: int, month: int): int {
    DayNumber(Date((if 0 <= year <= 99 then 1900 + year else year) + (month - 1) / 12, (month - 1) % 12 + 1, 1))
  }

  function MillisOf(first: int, w: Wall): int {
    (first + w.day - 1) * DAY_MS + w.hour * 3600000 + w.minute * 60000 + w.second * 1000 + w.millisecond
  }

  /** What a formatter for the zone shows at an instant, to the second. */
  function Formatted(z: Offset, instant: int): Wall {
    var seconds := (instant + z(instant)) / 1000;
    var date := WideCivilFromDays(seconds / 86400);
    var time := seconds % 86400;
    Wall(date.year, date.month, date.day, time / 3600, time / 60 % 60, time % 60, 0)
  }

  function ZoneOffset(z: Offset, instant: int): int {
    DateUtc(Formatted(z, instant)) - instant / 1000 * 1000
  }

  function WallTimeToInstant(z: Offset, w: Wall): int {
    var asIfUtc := DateUtc(w);
    InstantShowing(asIfUtc, ZoneOffset(z, InstantShowing(asIfUtc, ZoneOffset(z, asIfUtc))))
  }

  /** The instant at which a clock with this offset shows the value. */
  function InstantShowing(wall: int, offset: int): int {
    wall - offset
  }

  /** The same, with the offset itself. */
  function SampledTwice(sample: Offset, asIfUtc: int): int {
    InstantShowing(asIfUtc, sample(InstantShowing(asIfUtc, sample(asIfUtc))))
  }

  // ---- The formatter gives the zone's own offset ----

  lemma {:induction false} SecondsOfDay(time: int)
    requires 0 <= time < 86400
    ensures time / 3600 * 3600 + time / 60 % 60 * 60 + time % 60 == time
  {
    assert time / 60 / 60 == time / 3600;
  }

  lemma {:induction false} FirstOfMonth(date: Date)
    requires 1 <= date.month <= 12
    ensures DayNumber(Date(date.year, date.month, 1)) + date.day - 1 == DayNumber(date)
  {
  }

  lemma {:induction false} UtcOfDate(date: Date, hour: int, minute: int, second: int, ms: int)
    requires 1 <= date.month <= 12 && !(0 <= date.year <= 99)
    ensures DateUtc(Wall(date.year, date.month, date.day, hour, minute, second, ms))
            == DayNumber(date) * DAY_MS + hour * 3600000 + minute * 60000 + second * 1000 + ms
  {
    FirstOfMonth(date);
    assert (date.month - 1) / 12 == 0 && (date.month - 1) % 12 == date.month - 1;
  }

  /** Outside the years 0 to 99, what is shown determines the second that is shown. */
  lemma {:induction false} FormattedReadsBack(z: Offset, instant: int)
    requires !(0 <= Formatted(z, instant).year <= 99)
    ensures DateUtc(Formatted(z, instant)) == (instant + z(instant)) / 1000 * 1000
  {
    var seconds := (instant + z(instant)) / 1000;
    var days, time := seconds / 86400, seconds % 86400;
    var date := WideCivilFromDays(days);
    DaysOfWideDate(days);
    UtcOfDate(date, time / 3600, time / 60 % 60, time % 60, 0);
    SecondsOfDay(time);
  }

  lemma {:induction false} WholeSeconds(a: int, b: int)
    requires b % 1000 == 0
    ensures (a + b) / 1000 * 1000 - a / 1000 * 1000 == b
  {
    var k := b / 1000;
    assert a + b == 1000 * (a / 1000 + k) + a % 1000;
  }

  /** Every offset is a whole number of seconds. */
  ghost predicate IsZone(z: Offset) {
    forall t: int :: OffsetAt(z, t)
  }

  predicate OffsetAt(z: Offset, t: int) {
    z(t) % 1000 == 0
  }

  /** `Date.UTC` takes the year shown as it is. */
  predicate YearIsRead(z: Offset, instant: int) {
    !(0 <= Formatted(z, instant).year <= 99)
  }

  lemma {:induction false} SampleIsOffset(z: Offset, instant: int)
    requires IsZone(z) && YearIsRead(z, instant)
    ensures ZoneOffset(z, instant) == z(instant)
  {
    assert OffsetAt(z, instant);
    FormattedReadsBack(z, instant);
    SampleOf(instant, z(instant), DateUtc(Formatted(z, instant)));
  }

  lemma {:induction false} SampleOf(instant: int, offset: int, shown: int)
    requires shown == (instant + offset) / 1000 * 1000 && offset % 1000 == 0
    ensures shown - instant / 1000 * 1000 == offset
  {
    WholeSeconds(instant, offset);
  }

  // ---- Two samples are enough around one transition ----

  /** The instant shows the wall-clock value: as a number, the value is the instant moved by the offset there. */
  predicate Shows(z: Offset, instant: int, wall: int) {
    instant + z(instant) == wall
  }

  predicate InForce(z: Offset, t: int, transition: int, before: int, after: int) {
    z(t) == if t < transition then before else after
  }

  /** Within `b` of the value there is at most one transition, and no offset is larger than `b`. */
  ghost predicate OneTransition(z: Offset, wall: int, b: int, transition: int, before: int, after: int) {
    && (forall t: int :: wall - b <= t <= wall + b ==> InForce(z, t, transition, before, after))
    && (forall t: int :: Bounded(z, t, b))
  }

  predicate Bounded(z: Offset, t: int, b: int) {
    -b <= z(t) <= b
  }

  lemma {:induction false} Samples(z: Offset, wall: int, b: int, transition: int, before: int, after: int)
    requires OneTransition(z, wall, b, transition, before, after) && b >= 0
    ensures InForce(z, wall, transition, before, after)
    ensures InForce(z, wall - z(wall), transition, before, after)
    ensures InForce(z, SampledTwice(z, wall), transition, before, after)
  {
    assert Bounded(z, wall, b) && Bounded(z, wall - z(wall), b);
  }

  lemma {:induction false} ShownNearby(z: Offset, wall: int, b: int, transition: int, before: int, after: int, t: int)
    requires OneTransition(z, wall, b, transition, before, after) && Shows(z, t, wall)
    ensures InForce(z, t, transition, before, after)
  {
    assert Bounded(z, t, b);
  }

  /** The clock never shows the value: it is skipped when the offset grows. */
  predicate InGap(wall: int, transition: int, before: int, after: int) {
    wall - after < transition <= wall - before
  }

  /** If any instant shows the value the result shows it; otherwise it is in a gap, and the result misses by the size of the gap. */
  lemma {:induction false} TwoSamplesAreExact(z: Offset, wall: int, b: int, transition: int, before: int, after: int)
    requires OneTransition(z, wall, b, transition, before, after) && b >= 0
    ensures Shows(z, SampledTwice(z, wall), wall) <==> exists t: int :: Shows(z, t, wall)
    ensures (exists t: int :: Shows(z, t, wall)) <==> !InGap(wall, transition, before, after)
    ensures InGap(wall, transition, before, after) ==>
              var miss := SampledTwice(z, wall) + z(SampledTwice(z, wall)) - wall;
              miss == if wall < transition then before - after else after - before
  {
    Samples(z, wall, b, transition, before, after);
    if t: int :| Shows(z, t, wall) {
      ShownNearby(z, wall, b, transition, before, after, t);
    }
  }

  /** Of two instants that show one value, the earlier is found when the value, read as UTC, is before the transition. */
  lemma {:induction false} RepeatedTimes(z: Offset, wall: int, b: int, transition: int, before: int, after: int)
    requires OneTransition(z, wall, b, transition, before, after) && b >= 0
    requires wall - before < transition <= wall - after
    ensures SampledTwice(z, wall) == if wall < transition then wall - before else wall - after
  {
    Samples(z, wall, b, transition, before, after);
  }

  /** Where the years shown are read as they are, the formatter's two samples are those of the offset itself. */
  lemma {:induction false} SamplerIsExact(z: Offset, w: Wall, wall: int)
    requires IsZone(z) && wall == DateUtc(w) && YearIsRead(z, wall) && YearIsRead(z, InstantShowing(wall, z(wall)))
    ensures WallTimeToInstant(z, w) == SampledTwice(z, wall)
  {
    SampleIsOffset(z, wall);
    SampleIsOffset(z, InstantShowing(wall, z(wall)));
  }

  /** What is meant by resolving a wall-clock value: show it if any instant does, else miss by the size of the gap. */
  ghost predicate Resolves(z: Offset, wall: int, instant: int, transition: int, before: int, after: int) {
    && (Shows(z, instant, wall) <==> exists t: int :: Shows(z, t, wall))
    && (!Shows(z, instant, wall) ==>
          instant + z(instant) - wall == if wall < transition then before - after else after - before)
  }

  lemma {:induction false} SampledTwiceResolves(z: Offset, wall: int, b: int, transition: int, before: int, after: int)
    requires OneTransition(z, wall, b, transition, before, after) && b >= 0
    ensures Resolves(z, wall, SampledTwice(z, wall), transition, before, after)
  {
    TwoSamplesAreExact(z, wall, b, transition, before, after);
  }

  /**
   * The instant that the code computes for a wall-clock time shows that time whenever any instant does,
   * and in a gap is off by exactly the size of the gap.
   */
  lemma {:induction false} WallTimeIsExact(z: Offset, w: Wall, wall: int, b: int, transition: int, before: int, after: int)
    requires IsZone(z) && wall == DateUtc(w) && OneTransition(z, wall, b, transition, before, after) && b >= 0
    requires YearIsRead(z, wall) && YearIsRead(z, InstantShowing(wall, z(wall)))
    ensures Resolves(z, wall, WallTimeToInstant(z, w), transition, before, after)
  {
    SamplerIsExact(z, w, wall);
    SampledTwiceResolves(z, wall, b, transition, before, after);
  }

  /** A zone that goes back two hours, and an hour later one more. */
  function TwoTransitions(t: int): int {
    if t < -5400000 then 14400000 else if t < -1800000 then 7200000 else 3600000
  }

  /** One transition nearby is needed: midnight of 1970-01-01 is shown in this zone and not found. */
  lemma {:induction false} TwoTransitionsCanMiss()
    ensures IsZone(TwoTransitions)
    ensures var w := Wall(1970, 1, 1, 0, 0, 0, 0);
      && Shows(TwoTransitions, -14400000, DateUtc(w))
      && !Shows(TwoTransitions, WallTimeToInstant(TwoTransitions, w), DateUtc(w))
  {
    var z, w := TwoTransitions, Wall(1970, 1, 1, 0, 0, 0, 0);
    forall t: int ensures OffsetAt(z, t) {
    }
    EpochIsDayZero();
    UtcOfDate(Date(1970, 1, 1), 0, 0, 0, 0);
    assert DateUtc(w) == 0;
    ShownInFirstHour(z, 0);
    ShownInFirstHour(z, -3600000);
    assert z(0) == 3600000 && InstantShowing(0, z(0)) == -3600000;
    SamplerIsExact(z, w, 0);
    assert SampledTwice(z, 0) == -7200000;
  }

  lemma {:induction false} ShownInFirstHour(z: Offset, instant: int)
    requires instant + z(instant) == 3600000
    ensures YearIsRead(z, instant)
  {
    EpochIsDayZero();
    assert (instant + z(instant)) / 1000 / 86400 == 0;
  }

  // ---- What a submitted text stands for ----

  /** The captures of a text without an offset; the time and the fraction may be absent. */
  datatype Captured = Captured(year: nat, month: nat, day: nat, time: Option<Time>)

  datatype Time = Time(hour: nat, minute: nat, second: Option<nat>, fraction: Option<string>)

  datatype Boundary = Start | End

  /** The first three digits of the fraction, with zeros where it is shorter. */
  function Millis(fraction: string): int
    requires fraction != ""
  {
    Text.Value((fraction + "00")[..3])
  }

  function WallOf(c: Captured, boundary: Boundary): Wall
    requires c.time.Some? ==> c.time.value.fraction.Some? ==> |c.time.value.fraction.value| > 0
  {
    var last := boundary == End;
    if c.time.None? then
      Wall(c.year, c.month, c.day, if last then 23 else 0, if last then 59 else 0, if last then 59 else 0,
           if last then 999 else 0)
    else
      var t := c.time.value;
      Wall(c.year, c.month, c.day, t.hour, t.minute, if t.second.Some? then t.second.value else 0,
           Millis(if t.fraction.Some? then t.fraction.value else "0"))
  }

  function Pow10(n: nat): nat {
    if n == 0 then 1 else 10 * Pow10(n - 1)
  }

  lemma {:induction false} ValueOfJoin(a: string, b: string)
    ensures Text.Value(a + b) == Text.Value(a) * Pow10(|b|) + Text.Value(b)
    decreases |b|
  {
    if b == "" {
      assert a + b == a;
    } else {
      var n := |b| - 1;
      assert (a + b)[..|a| + n] == a + b[..n];
      ValueOfJoin(a, b[..n]);
      Distribute(Text.Value(a), Pow10(n));
    }
  }

  lemma {:induction false} Distribute(x: int, p: int)
    ensures x * p * 10 == x * (10 * p)
  {
  }

  lemma {:induction false} ValueIsBounded(s: string)
    requires Text.AllDigits(s)
    ensures 0 <= Text.Value(s) < Pow10(|s|)
    decreases |s|
  {
    if s != "" {
      ValueIsBounded(s[..|s| - 1]);
      assert Text.IsDigit(s[|s| - 1]);
    }
  }

  /** The fraction of a second is cut, not rounded, to whole milliseconds. */
  lemma {:induction false} FractionIsCut(fraction: string)
    requires Text.AllDigits(fraction) && fraction != ""
    ensures var ms, one := Millis(fraction), Pow10(|fraction|);
            0 <= ms < 1000 && ms * one <= Text.Value(fraction) * 1000 < (ms + 1) * one
  {
    var padded := fraction + "00";
    var kept, dropped := padded[..3], padded[3..];
    assert kept + dropped == padded;
    ValueOfJoin(fraction, "00");
    ValueOfJoin(kept, dropped);
    ValueOfDoubleZero();
    assert forall k :: 0 <= k < 3 ==> Text.IsDigit(padded[k]);
    ValueIsBounded(kept);
    assert forall k :: 0 <= k < |dropped| ==> dropped[k] == padded[k + 3];
    ValueIsBounded(dropped);
    CutBounds(Millis(fraction), Text.Value(fraction), Text.Value(dropped), |fraction|);
  }

  lemma {:induction false} ValueOfDoubleZero()
    ensures Text.Value("00") == 0 && Pow10(2) == 100 && Pow10(3) == 1000
  {
    assert "00"[..1] == "0" && "0"[..0] == "";
  }

  lemma {:induction false} CutBounds(ms: int, value: int, rest: int, n: nat)
    requires n > 0 && value * 100 == ms * Pow10(n - 1) + rest && 0 <= rest < Pow10(n - 1)
    ensures ms * Pow10(n) <= value * 1000 < (ms + 1) * Pow10(n)
  {
    var p := Pow10(n - 1);
    assert Pow10(n) == 10 * p;
    Distribute(ms, p);
    assert ms * Pow10(n) == ms * p * 10;
    assert (ms + 1) * Pow10(n) == ms * p * 10 + 10 * p;
  }

  /** A bare date stands for its whole day: the last millisecond is a day less one after the first. */
  lemma {:induction false} DayBoundaries(year: nat, month: nat, day: nat)
    ensures var c := Captured(year, month, day, None);
            DateUtc(WallOf(c, End)) == DateUtc(WallOf(c, Start)) + DAY_MS - 1
  {
  }

  // ---- What is submitted is what a clock in the zone shows ----

  /** A real date after the year 99 and a time of day. */
  predicate Real(c: Captured) {
    && c.year > 99 && ValidDate(Date(c.year, c.month, c.day))
    && (c.time.Some? ==>
          var t := c.time.value;
          && t.hour < 24 && t.minute < 60 && (t.second.Some? ==> t.second.value < 60)
          && (t.fraction.Some? ==> t.fraction.value != "" && Text.AllDigits(t.fraction.value)))
  }

  /** What was submitted, to the second: a date without a time stands for its first or last second. */
  function Submitted(c: Captured, boundary: Boundary): Wall {
    match (c.time, boundary)
    case (Some(t), _) => Wall(c.year, c.month, c.day, t.hour, t.minute, if t.second.Some? then t.second.value else 0, 0)
    case (None, Start) => Wall(c.year, c.month, c.day, 0, 0, 0, 0)
    case (None, End) => Wall(c.year, c.month, c.day, 23, 59, 59, 0)
  }

  lemma {:induction false} FieldsOfDay(days: int, hour: int, minute: int, second: int, ms: int)
    requires 0 <= hour < 24 && 0 <= minute < 60 && 0 <= second < 60 && 0 <= ms < 1000
    ensures var seconds := (days * DAY_MS + hour * 3600000 + minute * 60000 + second * 1000 + ms) / 1000;
      && seconds / 86400 == days
      && var time := seconds % 86400; time / 3600 == hour && time / 60 % 60 == minute && time % 60 == second
  {
    var time := hour * 3600 + minute * 60 + second;
    SecondsOfMillis(days, time, ms);
    DaysAndTime(days, time);
    assert time / 60 == hour * 60 + minute;
  }

  lemma {:induction false} SecondsOfMillis(days: int, time: int, ms: int)
    requires 0 <= ms < 1000
    ensures (days * DAY_MS + time * 1000 + ms) / 1000 == days * 86400 + time
  {
  }

  lemma {:induction false} DaysAndTime(days: int, time: int)
    requires 0 <= time < 86400
    ensures (days * 86400 + time) / 86400 == days && (days * 86400 + time) % 86400 == time
  {
  }

  /** A clock that shows a value shows its date and its time of day. */
  lemma {:induction false} ShowsFields(z: Offset, instant: int, date: Date, hour: int, minute: int, second: int, ms: int)
    requires ValidDate(date) && date.year > 99
    requires 0 <= hour < 24 && 0 <= minute < 60 && 0 <= second < 60 && 0 <= ms < 1000
    requires Shows(z, instant, DateUtc(Wall(date.year, date.month, date.day, hour, minute, second, ms)))
    ensures Formatted(z, instant) == Wall(date.year, date.month, date.day, hour, minute, second, 0)
  {
    UtcOfDate(date, hour, minute, second, ms);
    WideDateOfDays(date);
    ShowsDay(z, instant, DayNumber(date), hour, minute, second, ms);
  }

  lemma {:induction false} ShowsDay(z: Offset, instant: int, days: int, hour: int, minute: int, second: int, ms: int)
    requires 0 <= hour < 24 && 0 <= minute < 60 && 0 <= second < 60 && 0 <= ms < 1000
    requires instant + z(instant) == days * DAY_MS + hour * 3600000 + minute * 60000 + second * 1000 + ms
    ensures var date := WideCivilFromDays(days);
      Formatted(z, instant) == Wall(date.year, date.month, date.day, hour, minute, second, 0)
  {
    FieldsOfDay(days, hour, minute, second, ms);
  }

  /**
   * The instant that a submitted date or time is resolved to is one at which the zone's clock shows exactly
   * what was submitted, whenever there is such an instant.
   */
  lemma {:induction false} ShownAsSubmitted(z: Offset, c: Captured, boundary: Boundary, wall: int, b: int, transition: int, before: int, after: int)
    requires Real(c) && wall == DateUtc(WallOf(c, boundary))
    requires IsZone(z) && OneTransition(z, wall, b, transition, before, after) && b >= 0
    requires YearIsRead(z, wall) && YearIsRead(z, InstantShowing(wall, z(wall)))
    ensures var instant := WallTimeToInstant(z, WallOf(c, boundary));
      (exists t: int :: Shows(z, t, wall)) ==> Shows(z, instant, wall) && Formatted(z, instant) == Submitted(c, boundary)
  {
    var w := WallOf(c, boundary);
    WallTimeIsExact(z, w, wall, b, transition, before, after);
    if exists t: int :: Shows(z, t, wall) {
      WallIsReal(c, boundary);
      ShowsFields(z, WallTimeToInstant(z, w), Date(c.year, c.month, c.day), w.hour, w.minute, w.second, w.millisecond);
    }
  }

  lemma {:induction false} WallIsReal(c: Captured, boundary: Boundary)
    requires Real(c)
    ensures var w := WallOf(c, boundary);
      && 0 <= w.millisecond < 1000 && w.(millisecond := 0) == Submitted(c, boundary)
      && 0 <= w.hour < 24 && 0 <= w.minute < 60 && 0 <= w.second < 60
  {
    if c.time.Some? {
      FractionIsCut(if c.time.value.fraction.Some? then c.time.value.fraction.value else "0");
    }
  }

  /** Components out of range move the next larger one, as `Date.UTC` does, and it takes the years 0 to 99 for those of the 1900s. */
  lemma {:induction false} ComponentsMove(w: Wall)
    ensures w.year > 99 ==> DateUtc(w.(month := w.month + 12)) == DateUtc(w.(year := w.year + 1))
    ensures DateUtc(w.(day := w.day + 1)) == DateUtc(w) + 24 * 3600 * 1000
    ensures DateUtc(w.(hour := w.hour + 24)) == DateUtc(w.(day := w.day + 1))
    ensures 0 <= w.year <= 99 ==> DateUtc(w) == DateUtc(w.(year := 1900 + w.year))
  {
    if w.year > 99 { MonthMoves(w.year, w.month); }
    if 0 <= w.year <= 99 { YearMoves(w.year, w.month); }
  }

  lemma {:induction false} MonthMoves(year: int, month: int)
    requires year > 99
    ensures FirstDay(year, month + 12) == FirstDay(year + 1, month)
  {
    SameFirst(year + (month + 12 - 1) / 12, (month + 12 - 1) % 12 + 1, year + 1 + (month - 1) / 12, (month - 1) % 12 + 1);
  }

  lemma {:induction false} YearMoves(year: int, month: int)
    requires 0 <= year <= 99
    ensures FirstDay(year, month) == FirstDay(1900 + year, month)
  {
  }

  lemma {:induction false} SameFirst(year: int, month: int, year': int, month': int)
    requires year == year' && month == month'
    ensures DayNumber(Date(year, month, 1)) == DayNumber(Date(year', month', 1))
  {
  }
}
