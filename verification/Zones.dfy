/**
 * Wall-clock time and instants (lib/content/time.ts). A zone gives the offset from UTC, in
 * milliseconds, that the formatter applies at each instant; offsets may change.
 */
module Zones {

  const MINUTE: int := 60_000
  const HOUR: int := 3_600_000
  const DAY: int := 86_400_000

  type Zone = int -> int

  /** `{ date, time }`: the day, and the minutes since its midnight. */
  datatype Zoned = Zoned(day: int, minute: int)

  /** Milliseconds on the wall clock, counted as if it were UTC. */
  function Wall(z: Zone, t: int): int { t + z(t) }

  function UtcToZoned(z: Zone, t: int): Zoned {
    Zoned(Wall(z, t) / DAY, Wall(z, t) % DAY / MINUTE)
  }

  function Naive(w: Zoned): int { w.day * DAY + w.minute * MINUTE }

  /** Two passes: the offset at the naive reading, then the offset at the first guess. */
  function InstantOf(z: Zone, naive: int): int {
    var guess := naive - z(naive);
    naive - z(guess)
  }

  function ZonedToUtc(z: Zone, w: Zoned): int { InstantOf(z, Naive(w)) }

  // ---------------------------------------------------------------- zones

  /** No offset reaches a whole day. */
  ghost predicate Bounded(z: Zone) {
    forall t :: -DAY < z(t) < DAY
  }

  predicate Near(naive: int, t: int) { naive - DAY <= t <= naive + DAY }

  /** No offset reaches a whole day within a day of this reading. */
  ghost predicate BoundedNear(z: Zone, naive: int) {
    forall t :: Near(naive, t) ==> -DAY < z(t) < DAY
  }

  /** Offsets are whole minutes there; local mean time of long ago had seconds. */
  ghost predicate WholeMinutesNear(z: Zone, naive: int) {
    forall t :: Near(naive, t) ==> z(t) % MINUTE == 0
  }

  /** Within a day of this reading the offset changes at most once. */
  ghost predicate OneChangeNear(z: Zone, naive: int) {
    exists c: int :: ChangesOnceAt(z, naive, c)
  }

  /** Some instant within a day shows the reading. */
  ghost predicate Exists(z: Zone, naive: int) {
    exists t :: Near(naive, t) && Wall(z, t) == naive
  }

  lemma BoundedIsBoundedNear(z: Zone, naive: int)
    requires Bounded(z)
    ensures BoundedNear(z, naive)
    ensures Exists(z, naive) <==> exists t :: Wall(z, t) == naive
  {
    if t :| Wall(z, t) == naive {
      assert -DAY < z(t) < DAY && Near(naive, t);
    }
  }

  ghost predicate ChangesOnceAt(z: Zone, naive: int, c: int) {
    && (forall t :: naive - DAY <= t <= naive + DAY && t < c ==> z(t) == z(naive - DAY))
    && (forall t :: naive - DAY <= t <= naive + DAY && c <= t ==> z(t) == z(naive + DAY))
  }

  ghost predicate Fixed(z: Zone, offset: int) {
    forall t :: z(t) == offset
  }

  /**
   * The two passes find an instant that shows the wall time exactly when there is one: the
   * only readings they miss are those a forward change skips.
   */
  lemma TwoPassesSufficeIff(z: Zone, naive: int)
    requires BoundedNear(z, naive) && OneChangeNear(z, naive)
    ensures Wall(z, InstantOf(z, naive)) == naive <==> Exists(z, naive)
  {
    var c :| ChangesOnceAt(z, naive, c);
    var guess, r := naive - z(naive), InstantOf(z, naive);
    assert Near(naive, naive) && -DAY < z(naive) < DAY;
    assert Near(naive, guess) && -DAY < z(guess) < DAY;
    assert Near(naive, r);
    if t :| Near(naive, t) && Wall(z, t) == naive {
      assert t == naive - z(t);
      assert z(r) == z(naive - DAY) || z(r) == z(naive + DAY);
    }
  }

  /** An instant is found again from its wall time whenever no other instant within a day shows that time. */
  lemma UnambiguousRoundTrip(z: Zone, t: int)
    requires BoundedNear(z, Wall(z, t)) && OneChangeNear(z, Wall(z, t)) && Near(Wall(z, t), t)
    requires forall u :: Near(Wall(z, t), u) && Wall(z, u) == Wall(z, t) ==> u == t
    ensures InstantOf(z, Wall(z, t)) == t
  {
    var naive := Wall(z, t);
    TwoPassesSufficeIff(z, naive);
    StaysNear(z, naive);
  }

  lemma StaysNear(z: Zone, naive: int)
    requires BoundedNear(z, naive)
    ensures Near(naive, naive - z(naive)) && Near(naive, InstantOf(z, naive))
  {
    assert Near(naive, naive) && -DAY < z(naive) < DAY;
    var guess := naive - z(naive);
    assert Near(naive, guess) && -DAY < z(guess) < DAY;
  }

  lemma FixedZoneIsCalm(z: Zone, offset: int, naive: int)
    requires Fixed(z, offset)
    ensures OneChangeNear(z, naive) && InstantOf(z, naive) == naive - offset && Wall(z, naive - offset) == naive
  {
    assert ChangesOnceAt(z, naive, naive);
  }

  // ---------------------------------------------------------------- minutes

  predicate MinuteOfDay(m: int) { 0 <= m < 1440 }

  /** Splitting a reading into day and minute loses only what is under a minute. */
  lemma SplitWall(l: int)
    ensures MinuteOfDay(l % DAY / MINUTE)
    ensures Naive(Zoned(l / DAY, l % DAY / MINUTE)) == l - l % MINUTE
  {
    var d, s := l / DAY, l % DAY;
    assert l == d * DAY + s;
    var m, r := s / MINUTE, s % MINUTE;
    assert s == m * MINUTE + r;
    MinuteRemainder(l, d, m, r);
  }

  lemma MinuteRemainder(l: int, d: int, m: int, r: int)
    requires l == d * DAY + m * MINUTE + r && 0 <= r < MINUTE
    ensures l % MINUTE == r
  {
    assert l == MINUTE * (1440 * d + m) + r;
  }

  lemma SplitNaive(w: Zoned, rest: int)
    requires MinuteOfDay(w.minute) && 0 <= rest < MINUTE
    ensures Zoned((Naive(w) + rest) / DAY, (Naive(w) + rest) % DAY / MINUTE) == w
  {
    var s := w.minute * MINUTE + rest;
    DayQuotient(Naive(w) + rest, w.day, s);
    assert s / MINUTE == w.minute;
  }

  lemma DayQuotient(l: int, d: int, s: int)
    requires l == d * DAY + s && 0 <= s < DAY
    ensures l / DAY == d && l % DAY == s
  {}

  /** A wall time that exists is shown by the instant computed for it, and only then. */
  lemma ShownIff(z: Zone, w: Zoned)
    requires BoundedNear(z, Naive(w)) && WholeMinutesNear(z, Naive(w)) && OneChangeNear(z, Naive(w)) && MinuteOfDay(w.minute)
    ensures UtcToZoned(z, ZonedToUtc(z, w)) == w <==> Exists(z, Naive(w))
  {
    var r := ZonedToUtc(z, w);
    TwoPassesSufficeIff(z, Naive(w));
    StaysNear(z, Naive(w));
    if Wall(z, r) == Naive(w) {
      SplitNaive(w, 0);
    }
    if UtcToZoned(z, r) == w {
      SplitWall(Wall(z, r));
      var guess := Naive(w) - z(Naive(w));
      assert z(guess) % MINUTE == 0 && z(r) % MINUTE == 0;
      WholeMinutes(w.day, w.minute, z(guess), z(r));
    }
  }

  lemma WholeMinutes(day: int, minute: int, a: int, b: int)
    requires a % MINUTE == 0 && b % MINUTE == 0
    ensures (day * DAY + minute * MINUTE - a + b) % MINUTE == 0
  {
    var p, q := a / MINUTE, b / MINUTE;
    assert day * DAY + minute * MINUTE - a + b == MINUTE * (1440 * day + minute - p + q);
  }

  /** In a zone of one whole-minute offset the two conversions undo each other, to the minute. */
  lemma FixedRoundTrip(z: Zone, offset: int, t: int)
    requires Fixed(z, offset) && offset % MINUTE == 0
    ensures ZonedToUtc(z, UtcToZoned(z, t)) == t - t % MINUTE
  {
    SplitWall(t + offset);
    FixedZoneIsCalm(z, offset, Naive(UtcToZoned(z, t)));
    SameRemainder(t, offset);
  }

  lemma SameRemainder(t: int, offset: int)
    requires offset % MINUTE == 0
    ensures (t + offset) % MINUTE == t % MINUTE
  {
    var p := offset / MINUTE;
    assert t + offset == MINUTE * (t / MINUTE + p) + t % MINUTE;
  }
}
