/** The weekly clock of pkg/scheduler/window.go.

  An instant is an integer number of half nanoseconds in a fixed-offset zone, so that there is one between any two
  that Go can name.  Instant 0 is the zero `time.Time`, 1 January of year 1, a Monday at 00:00.  Daylight saving is
  not modelled.
*/
module WeekTime {

  type Instant = int

  const NANOSECOND := 2
  const SECOND := 2_000_000_000
  const HOUR := 7_200_000_000_000
  const DAY := 172_800_000_000_000
  const WEEK := 1_209_600_000_000_000

  /** Go numbers the days 0 (Sunday) to 6 (Saturday); 7 is the marker EachDay. */
  type Weekday = d: nat | d <= 7

  const EACH_DAY: Weekday := 7

  datatype WeekdayTime = WeekdayTime(weekday: Weekday, time: nat)

  /** The weekday of the midnight that starts day number `d`. */
  function WeekdayOf(d: int): Weekday {
    (d + 1) % 7
  }

  /** WeekdayTime.Next, branch by branch: midnight of today, the number of days to add, the date. */
  function Next(i: WeekdayTime, now: Instant): Instant {
    var t := now - now % DAY;
    var w := i.weekday - WeekdayOf(t / DAY);
    var days := if w < 0 || (w == 0 && now - t > i.time) then w + 7 else w;
    t + days * DAY + i.time
  }

  /** The place of a weekday time on the circle of one week that starts on Monday 00:00. */
  function Pos(i: WeekdayTime): int
    requires i.weekday < 7
  {
    ((i.weekday + 6) % 7) * DAY + i.time
  }

  ghost predicate Congruent(x: int, y: int) {
    (x - y) % WEEK == 0
  }

  /** The least instant at or after `x` that lies at place `p` of the week. */
  function NextAt(p: int, x: Instant): Instant {
    x + (p - x) % WEEK
  }

  /** A time of day on a proper day of the week. */
  predicate Proper(i: WeekdayTime) {
    i.weekday < 7 && i.time < DAY
  }

  predicate WholeSecond(i: WeekdayTime) {
    i.time % SECOND == 0
  }

  /** A whole number of nanoseconds, as every time of Go is. */
  predicate GoTime(i: WeekdayTime) {
    i.time % 2 == 0
  }

  lemma NextAtLeast(p: int, x: Instant)
    ensures x <= NextAt(p, x) < x + WEEK
    ensures Congruent(NextAt(p, x), p)
    ensures forall y | x <= y && Congruent(y, p) :: NextAt(p, x) <= y
  {
    forall y | x <= y && Congruent(y, p)
      ensures NextAt(p, x) <= y
    {
      NextAtUnique(p, x, NextAt(p, x));
    }
  }

  lemma NextAtUnique(p: int, x: Instant, y: Instant)
    requires x <= y < x + WEEK && Congruent(y, p)
    ensures NextAt(p, x) == y
  {
  }

  lemma PosInWeek(i: WeekdayTime)
    requires Proper(i)
    ensures 0 <= Pos(i) < WEEK
  {
  }

  /** `Next` answers with the least instant at or after `now` on that weekday at that time. */
  lemma NextIsLeast(i: WeekdayTime, now: Instant)
    requires Proper(i)
    ensures Next(i, now) == NextAt(Pos(i), now)
  {
    var d := now / DAY;
    var t := now - now % DAY;
    assert t == d * DAY;
    assert t / DAY == d;
    var w := i.weekday - WeekdayOf(d);
    var days := if w < 0 || (w == 0 && now - t > i.time) then w + 7 else w;
    var y := Next(i, now);
    assert y == (d + days) * DAY + i.time;
    assert (d + days - (i.weekday + 6) % 7) % 7 == 0;
    NextAtUnique(Pos(i), now, y);
  }
}
