/** Slots of a maintenance window: validation, expansion of each-day slots, and which instants they open. */
module Slots {
  import opened WeekTime

  datatype Slot = Slot(begin: WeekdayTime, end: WeekdayTime)

  type Window = seq<Slot>

  datatype SlotError = EachDayMismatch | TimeTooLarge | Equal

  datatype Validity = Fine | Bad(error: SlotError)

  /** slot.validate */
  function Validate(s: Slot): Validity {
    if (s.begin.weekday == EACH_DAY || s.end.weekday == EACH_DAY) && s.begin.weekday != s.end.weekday then
      Bad(EachDayMismatch)
    else if s.begin.time >= DAY then Bad(TimeTooLarge)
    else if s.end.time >= DAY then Bad(TimeTooLarge)
    else if s.begin == s.end then Bad(Equal)
    else Fine
  }

  /** A slot on days of the week, not empty, or a time of day from one time to another. */
  predicate Accepted(begin: WeekdayTime, end: WeekdayTime) {
    || (begin.weekday < 7 && end.weekday < 7 && begin.time < DAY && end.time < DAY && begin != end)
    || (begin.weekday == end.weekday == EACH_DAY && begin.time < DAY && end.time < DAY && begin.time != end.time)
  }

  /** Which slots are refused, and with which error: an each-day time with a weekday, a time of a day or more, no
      length at all; the end may have the lesser time of day. */
  lemma ValidateExact(s: Slot)
    ensures Validate(s).Fine? <==> Accepted(s.begin, s.end)
    ensures Validate(s) == Bad(EachDayMismatch) <==> (s.begin.weekday == EACH_DAY) != (s.end.weekday == EACH_DAY)
    ensures Validate(s) == Bad(TimeTooLarge) <==>
              (s.begin.weekday == EACH_DAY <==> s.end.weekday == EACH_DAY) && (s.begin.time >= DAY || s.end.time >= DAY)
    ensures Validate(s) == Bad(Equal) <==> s.begin == s.end && s.begin.time < DAY
  {
  }

  /** The slot of day `d` that a loop turn of slot.expand writes. */
  function DaySlot(s: Slot, d: nat): Slot
    requires d < 7
  {
    Slot(WeekdayTime(d, s.begin.time),
         WeekdayTime(if s.begin.time > s.end.time then (d + 1) % 7 else d, s.end.time))
  }

  function Expand(s: Slot): seq<Slot> {
    if s.begin.weekday != EACH_DAY then [s] else seq(7, d requires 0 <= d < 7 => DaySlot(s, d))
  }

  /** A slot on proper days, not empty. */
  predicate ProperSlot(s: Slot) {
    Proper(s.begin) && Proper(s.end) && s.begin != s.end
  }

  predicate ProperWindow(w: Window) {
    forall k :: 0 <= k < |w| ==> ProperSlot(w[k])
  }

  predicate WholeSecondSlot(s: Slot) {
    WholeSecond(s.begin) && WholeSecond(s.end)
  }

  predicate WholeSeconds(w: Window) {
    forall k :: 0 <= k < |w| ==> WholeSecondSlot(w[k])
  }

  predicate GoSlot(s: Slot) {
    GoTime(s.begin) && GoTime(s.end)
  }

  predicate GoSlots(w: Window) {
    forall k :: 0 <= k < |w| ==> GoSlot(w[k])
  }

  lemma SecondsAreGo(w: Window)
    requires WholeSeconds(w)
    ensures GoSlots(w)
  {
    forall k | 0 <= k < |w| ensures GoSlot(w[k]) {
      assert WholeSecondSlot(w[k]);
      SecondIsEven(w[k].begin.time);
      SecondIsEven(w[k].end.time);
    }
  }

  lemma SecondIsEven(t: nat)
    requires t % SECOND == 0
    ensures t % 2 == 0
  {
    assert t == 2 * (t / SECOND * (SECOND / 2));
  }

  // ---------- The slot on the line: it opens at B and closes at E, less than a week later ----------

  function B(s: Slot): int
    requires ProperSlot(s)
  {
    Pos(s.begin)
  }

  function E(s: Slot): int
    requires ProperSlot(s)
  {
    B(s) + (Pos(s.end) - Pos(s.begin)) % WEEK
  }

  lemma SlotOnLine(s: Slot)
    requires ProperSlot(s)
    ensures 0 <= B(s) < WEEK && B(s) < E(s) < B(s) + WEEK
    ensures E(s) == Pos(s.end) || E(s) == Pos(s.end) + WEEK
  {
    PosInWeek(s.begin);
    PosInWeek(s.end);
    CloseOnLine(s);
  }

  lemma SecondsOnLine(s: Slot)
    requires ProperSlot(s) && WholeSecondSlot(s)
    ensures B(s) % SECOND == 0 && E(s) % SECOND == 0
  {
    CloseOnLine(s);
    PosInSeconds(s.begin);
    PosInSeconds(s.end);
  }

  lemma NanosApart(a: int, b: int)
    requires a % 2 == 0 && b % 2 == 0 && a < b
    ensures a + 1 < b
  {
  }

  /** Between a close and a later begin there is an instant. */
  lemma GapBetween(c: Slot, s: Slot)
    requires ProperSlot(c) && ProperSlot(s) && GoSlot(c) && GoSlot(s)
    ensures E(c) < B(s) ==> E(c) + 1 < B(s)
    ensures E(c) < B(s) + WEEK ==> E(c) + 1 < B(s) + WEEK
  {
    GoOnLine(c);
    GoOnLine(s);
    WeekIsEven(B(s));
    if E(c) < B(s) {
      NanosApart(E(c), B(s));
    }
    if E(c) < B(s) + WEEK {
      NanosApart(E(c), B(s) + WEEK);
    }
  }

  lemma WeekIsEven(a: int)
    requires a % 2 == 0
    ensures (a + WEEK) % 2 == 0
  {
  }

  /** And between the close and the next begin of one slot, and before Monday. */
  lemma GapInWeek(s: Slot)
    requires ProperSlot(s) && GoSlot(s)
    ensures E(s) + 1 < B(s) + WEEK
    ensures E(s) < WEEK ==> E(s) + 1 < WEEK
  {
    SlotOnLine(s);
    GapBetween(s, s);
    GoOnLine(s);
    WeekIsEven(0);
    if E(s) < WEEK {
      NanosApart(E(s), WEEK);
    }
  }

  lemma GoOnLine(s: Slot)
    requires ProperSlot(s) && GoSlot(s)
    ensures B(s) % 2 == 0 && E(s) % 2 == 0
  {
    CloseOnLine(s);
    PosIsGo(s.begin);
    PosIsGo(s.end);
  }

  lemma CloseOnLine(s: Slot)
    requires ProperSlot(s)
    ensures B(s) < E(s) < B(s) + WEEK
    ensures E(s) == if Pos(s.begin) < Pos(s.end) then Pos(s.end) else Pos(s.end) + WEEK
  {
    PosInWeek(s.begin);
    PosInWeek(s.end);
    assert Pos(s.begin) != Pos(s.end);
  }

  lemma PosInSeconds(i: WeekdayTime)
    requires Proper(i) && WholeSecond(i)
    ensures Pos(i) % SECOND == 0 && (Pos(i) + WEEK) % SECOND == 0
  {
  }

  lemma PosIsGo(i: WeekdayTime)
    requires Proper(i) && GoTime(i)
    ensures Pos(i) % 2 == 0 && (Pos(i) + WEEK) % 2 == 0
  {
  }

  // ---------- Which instants are open ----------

  /** Instant `x` lies in the slot in some week; the slot contains both its ends. */
  predicate OpenAt(s: Slot, x: Instant)
    requires ProperSlot(s)
  {
    (x - Pos(s.begin)) % WEEK <= (Pos(s.end) - Pos(s.begin)) % WEEK
  }

  ghost predicate Open(w: Window, x: Instant)
    requires ProperWindow(w)
  {
    exists k :: 0 <= k < |w| && OpenAt(w[k], x)
  }

  /** What the user asked for: an each-day slot goes by the time of day alone. */
  predicate UserOpen(s: Slot, x: Instant)
    requires Validate(s).Fine?
  {
    if s.begin.weekday == EACH_DAY then
      (x - s.begin.time) % DAY <= (s.end.time - s.begin.time) % DAY
    else
      OpenAt(s, x)
  }

  lemma ExpandProper(s: Slot)
    requires Validate(s).Fine?
    ensures ProperWindow(Expand(s))
    ensures WholeSecondSlot(s) ==> WholeSeconds(Expand(s))
    ensures GoSlot(s) ==> GoSlots(Expand(s))
  {
    if s.begin.weekday != EACH_DAY {
      assert s.end.weekday != EACH_DAY;
    } else {
      assert s.begin.time != s.end.time;
      forall d | 0 <= d < 7
        ensures ProperSlot(Expand(s)[d])
      {
        assert Expand(s)[d] == DaySlot(s, d);
      }
    }
  }

  /** The seven slots of an each-day slot open exactly the instants whose time of day is in range. */
  lemma ExpandOpensTheSame(s: Slot, x: Instant)
    requires Validate(s).Fine?
    ensures ProperWindow(Expand(s))
    ensures UserOpen(s, x) <==> Open(Expand(s), x)
  {
    ExpandProper(s);
    var e := Expand(s);
    if s.begin.weekday != EACH_DAY {
      assert e[0] == s;
    } else {
      forall d | 0 <= d < 7 && OpenAt(e[d], x)
        ensures UserOpen(s, x)
      {
        DayOpenIsEachDayOpen(s, d, x);
      }
      if UserOpen(s, x) {
        var d := EachDayOpenOnSomeDay(s, x);
        assert OpenAt(e[d], x);
      }
    }
  }

  lemma DayLength(s: Slot, d: nat)
    requires Validate(s).Fine? && s.begin.weekday == EACH_DAY && d < 7
    ensures ProperSlot(DaySlot(s, d))
    ensures (Pos(DaySlot(s, d).end) - Pos(DaySlot(s, d).begin)) % WEEK == (s.end.time - s.begin.time) % DAY
  {
    var p, q := Pos(DaySlot(s, d).begin), Pos(DaySlot(s, d).end);
    assert p == (d + 6) % 7 * DAY + s.begin.time;
    if s.begin.time > s.end.time {
      assert q == ((d + 1) % 7 + 6) % 7 * DAY + s.end.time;
      assert q - p == DAY + s.end.time - s.begin.time || q - p == DAY + s.end.time - s.begin.time - WEEK;
    } else {
      assert q - p == s.end.time - s.begin.time;
    }
  }

  lemma DayOpenIsEachDayOpen(s: Slot, d: nat, x: Instant)
    requires Validate(s).Fine? && s.begin.weekday == EACH_DAY && d < 7
    requires ProperSlot(DaySlot(s, d)) && OpenAt(DaySlot(s, d), x)
    ensures UserOpen(s, x)
  {
    DayLength(s, d);
    var p := Pos(DaySlot(s, d).begin);
    var r := (x - p) % WEEK;
    var n := (x - p) / WEEK;
    assert x - p == n * WEEK + r;
    assert r < DAY;
    assert x - s.begin.time == (7 * n + (d + 6) % 7) * DAY + r;
    assert (x - s.begin.time) % DAY == r;
  }

  lemma EachDayOpenOnSomeDay(s: Slot, x: Instant) returns (d: nat)
    requires Validate(s).Fine? && s.begin.weekday == EACH_DAY && UserOpen(s, x)
    ensures d < 7 && ProperSlot(DaySlot(s, d)) && OpenAt(DaySlot(s, d), x)
  {
    var n := (x - s.begin.time) / DAY;
    var r := (x - s.begin.time) % DAY;
    d := (n + 1) % 7;
    DayLength(s, d);
    var p := Pos(DaySlot(s, d).begin);
    assert p == (d + 6) % 7 * DAY + s.begin.time;
    assert (d + 6) % 7 == n % 7;
    assert x - p == (n - n % 7) * DAY + r;
    assert n - n % 7 == 7 * (n / 7);
    RestOfWeek(x - p, n / 7, r);
  }

  lemma RestOfWeek(y: int, k: int, r: int)
    requires y == 7 * k * DAY + r && 0 <= r < DAY
    ensures y % WEEK == r
  {
    assert y == k * WEEK + r;
  }
}
