/**
 * Slots of the content planner: the next weekly occurrence, the slot the picker opens on,
 * where a dropped card lands (components/content/shared.ts).
 */
module Slots {
  import opened CivilDates
  import opened Lists
  import opened Zones

  const LEAD: int := 5 * MINUTE
  const WEEK: int := 7 * DAY

  // ---------------------------------------------------------------- nextOccurrence

  /** The slot is on this weekday, from today on, and at least five minutes ahead. */
  predicate Offered(z: Zone, now: int, weekday: int, w: Zoned) {
    && Weekday(w.day) == weekday
    && UtcToZoned(z, now).day <= w.day
    && now + 300_000 <= ZonedToUtc(z, w)
  }

  /**
   * The first such day is returned. The search covers fifteen days and never falls through,
   * in any zone whose offsets stay under a day.
   */
  method NextOccurrence(weekday: int, hour: int, z: Zone, now: int) returns (r: Zoned)
    requires 0 <= weekday < 7 && 0 <= hour < 24 && Bounded(z)
    ensures r.minute == 60 * hour && Offered(z, now, weekday, r)
    ensures forall d :: d < r.day ==> !Offered(z, now, weekday, Zoned(d, 60 * hour))
    ensures r.day < UtcToZoned(z, now).day + 14
  {
    var today := UtcToZoned(z, now).day;
    ghost var enough := DayInWeek(today + 7, weekday);
    NextWeekIsAhead(z, now, enough, hour);
    var i := 0;
    while i < 15
      invariant 0 <= i && today + i <= enough
      invariant forall d :: d < today + i ==> !Offered(z, now, weekday, Zoned(d, 60 * hour))
    {
      var date := today + i;
      if Weekday(date) == weekday && ZonedToUtc(z, Zoned(date, 60 * hour)) >= now + LEAD {
        return Zoned(date, 60 * hour);
      }
      i := i + 1;
    }
    assert false;
    r := Zoned(today, 60 * hour);
  }

  lemma NextWeekIsAhead(z: Zone, now: int, date: int, hour: int)
    requires Bounded(z) && 0 <= hour < 24 && UtcToZoned(z, now).day + 7 <= date
    ensures now + LEAD <= ZonedToUtc(z, Zoned(date, 60 * hour))
  {
    var naive := Naive(Zoned(date, 60 * hour));
    assert -DAY < z(now) < DAY && -DAY < z(naive - z(naive)) < DAY;
    DayStart(Wall(z, now));
  }

  lemma DayStart(l: int)
    ensures l / DAY * DAY <= l < l / DAY * DAY + DAY
  {}

  /** Any seven days in a row hold every weekday. */
  lemma DayInWeek(start: int, weekday: int) returns (d: int)
    requires 0 <= weekday < 7
    ensures start <= d < start + 7 && Weekday(d) == weekday
  {
    var q := MondayForm(start);
    d := Monday(start) + weekday;
    if d < start {
      d := d + 7;
      WeekdayIs(d, weekday, q + 1);
    } else {
      WeekdayIs(d, weekday, q);
    }
  }

  /** The instant is hour:00 sharp on that weekday. */
  ghost predicate Occurs(z: Zone, weekday: int, hour: int, t: int) {
    exists d :: OccursOn(z, d, weekday, hour, t)
  }

  predicate OccursOn(z: Zone, d: int, weekday: int, hour: int, t: int) {
    Wall(z, t) == Naive(Zoned(d, 60 * hour)) && Weekday(d) == weekday
  }

  /** In a fixed zone the result is the one occurrence in the week that starts five minutes from now. */
  lemma OnlyOccurrenceOfTheWeek(z: Zone, offset: int, now: int, weekday: int, hour: int, r: Zoned, t: int)
    requires Fixed(z, offset) && -DAY < offset < DAY && 0 <= weekday < 7 && 0 <= hour < 24
    requires r.minute == 60 * hour && Offered(z, now, weekday, r)
    requires forall d :: d < r.day ==> !Offered(z, now, weekday, Zoned(d, 60 * hour))
    ensures now + LEAD <= t < now + LEAD + WEEK && Occurs(z, weekday, hour, t) <==> t == ZonedToUtc(z, r)
  {
    var i := ZonedToUtc(z, r);
    FixedZoneIsCalm(z, offset, Naive(r));
    assert OccursOn(z, r.day, weekday, hour, i);
    WeekBefore(z, offset, now, weekday, hour, r);
    if now + LEAD <= t < now + LEAD + WEEK && Occurs(z, weekday, hour, t) {
      var d :| OccursOn(z, d, weekday, hour, t);
      assert t - i == (d - r.day) * DAY;
      assert -7 < d - r.day < 7;
      var p := MondayForm(d);
      var q := MondayForm(r.day);
      assert d - r.day == 7 * (p - q);
    }
  }

  /** A week before the slot is less than five minutes ahead. */
  lemma WeekBefore(z: Zone, offset: int, now: int, weekday: int, hour: int, r: Zoned)
    requires Fixed(z, offset) && 0 <= hour < 24
    requires r.minute == 60 * hour && Offered(z, now, weekday, r)
    requires forall d :: d < r.day ==> !Offered(z, now, weekday, Zoned(d, 60 * hour))
    ensures ZonedToUtc(z, r) < now + LEAD + WEEK
  {
    var before := Zoned(r.day - 7, 60 * hour);
    var q := MondayForm(r.day);
    WeekdayIs(r.day - 7, weekday, q - 1);
    assert !Offered(z, now, weekday, before);
    FixedZoneIsCalm(z, offset, Naive(r));
    FixedZoneIsCalm(z, offset, Naive(before));
    DayStart(Wall(z, now));
  }

  // ---------------------------------------------------------------- defaultSlot

  const STEP: int := 5 * MINUTE

  /** `Math.ceil(t / step) * step`, the step being five minutes. */
  function RoundUp(t: int): int {
    (t + 299_999) / 300_000 * STEP
  }

  /** A clicked day is compared with today as ISO text, which orders days. */
  function DefaultSlot(initialDate: Option<int>, z: Zone, now: int): Zoned {
    var today := UtcToZoned(z, now).day;
    if initialDate.Some? && initialDate.value > today then Zoned(initialDate.value, 19 * 60)
    else UtcToZoned(z, RoundUp(now + 30 * MINUTE))
  }

  lemma Multiple(q: int)
    ensures 300_000 * q % 300_000 == 0 && 300_000 * q % 60_000 == 0
  {
    assert 300_000 * q == 60_000 * (5 * q);
  }

  lemma RoundedUp(t: int)
    ensures var u := RoundUp(t); t <= u < t + STEP && u % STEP == 0 && u % MINUTE == 0
  {
    var q := (t + 299_999) / 300_000;
    assert 300_000 * q <= t + 299_999 < 300_000 * q + 300_000;
    Multiple(q);
  }

  /**
   * The picker opens at least thirty minutes ahead: at 19:00 of a future day clicked, else
   * less than thirty-five minutes ahead, on a five-minute boundary.
   */
  lemma DefaultSlotIsSoon(initialDate: Option<int>, z: Zone, offset: int, now: int)
    requires Fixed(z, offset) && -DAY < offset < DAY && offset % MINUTE == 0
    ensures var t := ZonedToUtc(z, DefaultSlot(initialDate, z, now));
      var future := initialDate.Some? && initialDate.value > UtcToZoned(z, now).day;
      && now + 1_800_000 <= t
      && (!future ==> t < now + 2_100_000 && t % 300_000 == 0)
      && (future ==> UtcToZoned(z, t) == Zoned(initialDate.value, 1140))
  {
    var slot := DefaultSlot(initialDate, z, now);
    if initialDate.Some? && initialDate.value > UtcToZoned(z, now).day {
      FixedZoneIsCalm(z, offset, Naive(slot));
      DayStart(Wall(z, now));
      SplitNaive(slot, 0);
    } else {
      var u := RoundUp(now + 30 * MINUTE);
      RoundedUp(now + 30 * MINUTE);
      FixedRoundTrip(z, offset, u);
    }
  }

  // ---------------------------------------------------------------- dropInstant

  /** The wall time a card dropped on a day (hour None) or an hour cell asks for. */
  function DropTime(current: Option<int>, day: int, hour: Option<int>, z: Zone): Zoned {
    var was := if current.Some? then Some(UtcToZoned(z, current.value).minute) else None;
    var minutes := if was.Some? then was.value % 60 else 0;
    if hour.None? then Zoned(day, if was.Some? then was.value else 19 * 60)
    else Zoned(day, 60 * hour.value + minutes)
  }

  function DropInstant(current: Option<int>, day: int, hour: Option<int>, z: Zone): int {
    ZonedToUtc(z, DropTime(current, day, hour, z))
  }

  lemma DropTimeIsMinute(current: Option<int>, day: int, hour: Option<int>, z: Zone)
    requires hour.Some? ==> 0 <= hour.value < 24
    ensures MinuteOfDay(DropTime(current, day, hour, z).minute)
  {
    if current.Some? {
      SplitWall(Wall(z, current.value));
    }
  }

  /** The cell of the week view: day and hour. */
  function CellOf(z: Zone, t: int): (int, int) {
    var w := UtcToZoned(z, t);
    (w.day, w.minute / 60)
  }

  /**
   * Wherever offsets are whole minutes under a day and change at most once within a day of
   * the wall time asked for, as everywhere now: when that time exists, the
   * card is shown exactly there, a month drop keeps its time of day (19:00 for a card without
   * one) and a week drop its minutes, and dropping it there again changes nothing. When the time does not exist the
   * card is shown elsewhere.
   */
  lemma DropLandsIff(current: Option<int>, day: int, hour: Option<int>, z: Zone)
    requires hour.Some? ==> 0 <= hour.value < 24
    requires var naive := Naive(DropTime(current, day, hour, z));
      BoundedNear(z, naive) && WholeMinutesNear(z, naive) && OneChangeNear(z, naive)
    ensures var w, t := DropTime(current, day, hour, z), DropInstant(current, day, hour, z);
      UtcToZoned(z, t) == w <==> Exists(z, Naive(w))
    ensures var w, t := DropTime(current, day, hour, z), DropInstant(current, day, hour, z);
      UtcToZoned(z, t) == w ==>
        && UtcToZoned(z, t).day == day
        && (hour.Some? ==> CellOf(z, t) == (day, hour.value))
        && (hour.None? && current.Some? ==> UtcToZoned(z, t).minute == UtcToZoned(z, current.value).minute)
        && (hour.None? && current.None? ==> UtcToZoned(z, t).minute == 1140)
        && (hour.Some? && current.None? ==> UtcToZoned(z, t).minute % 60 == 0)
        && (hour.Some? && current.Some? ==> UtcToZoned(z, t).minute % 60 == UtcToZoned(z, current.value).minute % 60)
        && DropInstant(Some(t), day, hour, z) == t
  {
    DropTimeIsMinute(current, day, hour, z);
    ShownIff(z, DropTime(current, day, hour, z));
  }

  /** In a fixed zone every wall time exists, so every drop lands. */
  lemma DropLandsInFixedZone(current: Option<int>, day: int, hour: Option<int>, z: Zone, offset: int)
    requires hour.Some? ==> 0 <= hour.value < 24
    requires Fixed(z, offset) && -DAY < offset < DAY && offset % MINUTE == 0
    ensures var t := DropInstant(current, day, hour, z);
      && UtcToZoned(z, t) == DropTime(current, day, hour, z)
      && DropInstant(Some(t), day, hour, z) == t
  {
    var w := DropTime(current, day, hour, z);
    FixedZoneIsCalm(z, offset, Naive(w));
    assert Near(Naive(w), Naive(w) - offset) && Wall(z, Naive(w) - offset) == Naive(w);
    DropLandsIff(current, day, hour, z);
  }
}
