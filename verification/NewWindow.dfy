/** NewWindow, and what the window it builds answers to its user. */
module NewWindow {
  import opened WeekTime
  import opened Slots
  import opened JoinSlots
  import opened WindowNext
  import opened WindowExact

  datatype WindowError = Empty | OddPoints | InvalidSlot(index: nat, error: SlotError)

  datatype Result = Ok(window: Window) | Err(error: WindowError)

  function UserSlot(points: seq<WeekdayTime>, i: nat): Slot
    requires 2 * i + 1 < |points|
  {
    Slot(points[2 * i], points[2 * i + 1])
  }

  predicate ValidUpTo(points: seq<WeekdayTime>, n: nat)
    requires 2 * n <= |points|
  {
    forall i :: 0 <= i < n ==> Validate(UserSlot(points, i)).Fine?
  }

  predicate ValidPoints(points: seq<WeekdayTime>) {
    |points| > 0 && |points| % 2 == 0 && ValidUpTo(points, |points| / 2)
  }

  /** The slots of the first `n` pairs, each expanded. */
  function ExpandAll(points: seq<WeekdayTime>, n: nat): Window
    requires 2 * n <= |points|
  {
    if n == 0 then [] else ExpandAll(points, n - 1) + Expand(UserSlot(points, n - 1))
  }

  /** Some user slot is open. */
  ghost predicate UserOpenAt(points: seq<WeekdayTime>, n: nat, x: Instant)
    requires 2 * n <= |points| && ValidUpTo(points, n)
  {
    exists i :: 0 <= i < n && UserOpen(UserSlot(points, i), x)
  }

  predicate GoPoints(points: seq<WeekdayTime>) {
    forall i :: 0 <= i < |points| ==> GoTime(points[i])
  }

  predicate WholeSecondPoints(points: seq<WeekdayTime>) {
    forall i :: 0 <= i < |points| ==> WholeSecond(points[i])
  }

  /** An order that sort.Slice may leave the expanded slots in; slots with one begin may come either way. */
  ghost predicate SortedOrder(v: Window, w: Window) {
    ProperWindow(v) && Sorted(v) && multiset(v) == multiset(w)
  }

  // ---------- The code ----------

  /** sort.Slice by the first begin after the zero time, as a straight insertion. */
  method SortByBegin(w: Window) returns (r: Window)
    requires ProperWindow(w)
    ensures SortedOrder(r, w)
  {
    r := [];
    for i := 0 to |w|
      invariant SortedOrder(r, w[..i])
    {
      assert w[..i+1] == w[..i] + [w[i]];
      r := InsertByBegin(r, w[i]);
    }
    assert w[..|w|] == w;
  }

  method InsertByBegin(r: Window, s: Slot) returns (q: Window)
    requires ProperWindow(r) && Sorted(r) && ProperSlot(s)
    ensures SortedOrder(q, r + [s])
  {
    BeginIndex(s);
    var k := |r|;
    while k > 0 && Next(r[k-1].begin, 0) > Next(s.begin, 0)
      invariant 0 <= k <= |r|
      invariant forall j :: k <= j < |r| ==> B(s) < B(r[j])
    {
      BeginIndex(r[k-1]);
      k := k - 1;
    }
    if k > 0 {
      BeginIndex(r[k-1]);
    }
    InsertSorted(r, s, k);
    assert r == r[..k] + r[k..];
    q := r[..k] + [s] + r[k..];
  }

  /** The slot at fault, as NewWindow reports it. */
  predicate FirstFault(points: seq<WeekdayTime>, e: WindowError) {
    && e.InvalidSlot? && 2 * e.index < |points| && |points| % 2 == 0
    && ValidUpTo(points, e.index) && Validate(UserSlot(points, e.index)) == Bad(e.error)
  }

  /** The first `n` pairs are slots on days of the week or each day, with a begin and another end. */
  predicate AcceptedUpTo(points: seq<WeekdayTime>, n: nat)
    requires 2 * n <= |points|
  {
    forall i :: 0 <= i < n ==> Accepted(points[2 * i], points[2 * i + 1])
  }

  /** Pair `i` is the first at fault, and `e` is what is wrong with it. */
  predicate Faulty(points: seq<WeekdayTime>, i: nat, e: SlotError) {
    && 2 * i + 1 < |points| && AcceptedUpTo(points, i)
    && var begin, end := points[2 * i], points[2 * i + 1];
       match e
       case EachDayMismatch => (begin.weekday == EACH_DAY) != (end.weekday == EACH_DAY)
       case TimeTooLarge =>
         && (begin.weekday == EACH_DAY <==> end.weekday == EACH_DAY)
         && (begin.time >= DAY || end.time >= DAY)
       case Equal => begin == end && begin.time < DAY
  }

  lemma AcceptedIsValid(points: seq<WeekdayTime>, n: nat)
    requires 2 * n <= |points|
    ensures ValidUpTo(points, n) <==> AcceptedUpTo(points, n)
  {
    forall i | 0 <= i < n ensures Validate(UserSlot(points, i)).Fine? <==> Accepted(points[2 * i], points[2 * i + 1]) {
      ValidateExact(UserSlot(points, i));
    }
    assert AcceptedUpTo(points, n) ==> forall i :: 0 <= i < n ==> Validate(UserSlot(points, i)).Fine?;
  }

  lemma FaultIsFirst(points: seq<WeekdayTime>, e: WindowError)
    requires FirstFault(points, e)
    ensures Faulty(points, e.index, e.error)
  {
    AcceptedIsValid(points, e.index);
    ValidateExact(UserSlot(points, e.index));
  }

  method Create(points: seq<WeekdayTime>) returns (r: Result)
    ensures points == [] ==> r == Err(Empty)
    ensures |points| % 2 != 0 ==> r == Err(OddPoints)
    ensures r.Ok? <==> points != [] && |points| % 2 == 0 && AcceptedUpTo(points, |points| / 2)
    ensures points != [] && |points| % 2 == 0 && r.Err? ==> r.error.InvalidSlot? && Faulty(points, r.error.index, r.error.error)
    ensures r.Ok? ==>
              && ValidPoints(points)
              && exists v :: |v| > 0 && SortedOrder(v, ExpandAll(points, |points| / 2)) && r.window == Joined(v)
  {
    if |points| == 0 {
      return Err(Empty);
    }
    if |points| % 2 != 0 {
      return Err(OddPoints);
    }
    r := ExpandPoints(points);
    AcceptedIsValid(points, |points| / 2);
    if r.Err? {
      FaultIsFirst(points, r.error);
    } else {
      ghost var w := r.window;
      var sorted := SortByBegin(r.window);
      SortedSize(sorted, w);
      var joined := Join(sorted);
      r := Ok(joined);
    }
  }

  lemma SortedSize(v: Window, w: Window)
    requires multiset(v) == multiset(w)
    ensures |v| == |w|
  {
    assert |multiset(v)| == |v| && |multiset(w)| == |w|;
  }

  /** The loop that validates and expands the slots. */
  method ExpandPoints(points: seq<WeekdayTime>) returns (r: Result)
    requires points != [] && |points| % 2 == 0
    ensures r.Ok? <==> ValidPoints(points)
    ensures r.Ok? ==> r.window == ExpandAll(points, |points| / 2) && ProperWindow(r.window) && |r.window| > 0
    ensures r.Err? ==> FirstFault(points, r.error)
  {
    var l := |points| / 2;
    var w: Window := [];
    var i := 0;
    while i < l
      invariant 0 <= i <= l
      invariant ValidUpTo(points, i) && w == ExpandAll(points, i) && ProperWindow(w)
      invariant |w| >= i
    {
      var s := UserSlot(points, i);
      var v := Validate(s);
      if v.Bad? {
        return Err(InvalidSlot(i, v.error));
      }
      ExpandProper(s);
      w := w + Expand(s);
      i := i + 1;
    }
    r := Ok(w);
  }

  lemma BeginIndex(s: Slot)
    requires ProperSlot(s)
    ensures Next(s.begin, 0) == B(s)
  {
    SlotOnLine(s);
    BeginOnLine(s, 0);
  }

  lemma InsertSorted(r: Window, s: Slot, k: nat)
    requires ProperWindow(r) && Sorted(r) && ProperSlot(s) && k <= |r|
    requires k > 0 ==> B(r[k-1]) <= B(s)
    requires forall j :: k <= j < |r| ==> B(s) < B(r[j])
    ensures ProperWindow(r[..k] + [s] + r[k..]) && Sorted(r[..k] + [s] + r[k..])
  {
  }

  // ---------- The user's slots and the sorted ones open the same instants ----------

  lemma {:induction false} ExpandAllProper(points: seq<WeekdayTime>, n: nat)
    requires 2 * n <= |points| && ValidUpTo(points, n)
    ensures ProperWindow(ExpandAll(points, n)) && |ExpandAll(points, n)| >= n
    ensures GoPoints(points) ==> GoSlots(ExpandAll(points, n))
    ensures WholeSecondPoints(points) ==> WholeSeconds(ExpandAll(points, n))
  {
    if n > 0 {
      ExpandAllProper(points, n - 1);
      ExpandProper(UserSlot(points, n - 1));
    }
  }

  lemma OpenConcat(v: Window, w: Window, x: Instant)
    requires ProperWindow(v) && ProperWindow(w)
    ensures ProperWindow(v + w) && (Open(v + w, x) <==> Open(v, x) || Open(w, x))
  {
    var u := v + w;
    if Open(v, x) {
      var k :| 0 <= k < |v| && OpenAt(v[k], x);
      assert OpenAt(u[k], x);
    }
    if Open(w, x) {
      var k :| 0 <= k < |w| && OpenAt(w[k], x);
      assert OpenAt(u[|v|+k], x);
    }
  }

  lemma {:induction false} ExpandAllOpens(points: seq<WeekdayTime>, n: nat, x: Instant)
    requires 2 * n <= |points| && ValidUpTo(points, n)
    ensures ProperWindow(ExpandAll(points, n))
    ensures UserOpenAt(points, n, x) <==> Open(ExpandAll(points, n), x)
  {
    if n > 0 {
      var s := UserSlot(points, n - 1);
      ExpandAllOpens(points, n - 1, x);
      ExpandOpensTheSame(s, x);
      OpenConcat(ExpandAll(points, n - 1), Expand(s), x);
      assert UserOpenAt(points, n, x) <==> UserOpenAt(points, n - 1, x) || UserOpen(s, x);
    }
  }

  lemma SortedOpens(v: Window, w: Window, x: Instant)
    requires ProperWindow(w) && SortedOrder(v, w)
    ensures Open(v, x) <==> Open(w, x)
  {
    if Open(v, x) {
      var k :| 0 <= k < |v| && OpenAt(v[k], x);
      assert v[k] in multiset(w);
    }
    if Open(w, x) {
      var k :| 0 <= k < |w| && OpenAt(w[k], x);
      assert w[k] in multiset(v);
    }
  }

  /** Whatever order the sort leaves: the sorted slots open exactly what the user asked for. */
  lemma UserSees(points: seq<WeekdayTime>, v: Window, x: Instant)
    requires ValidPoints(points) && SortedOrder(v, ExpandAll(points, |points| / 2))
    ensures Open(v, x) <==> UserOpenAt(points, |points| / 2, x)
  {
    ExpandAllOpens(points, |points| / 2, x);
    SortedOpens(v, ExpandAll(points, |points| / 2), x);
  }

  lemma SortedTimes(points: seq<WeekdayTime>, v: Window)
    requires ValidPoints(points) && SortedOrder(v, ExpandAll(points, |points| / 2))
    ensures |v| > 0
    ensures GoPoints(points) ==> GoSlots(v)
    ensures WholeSecondPoints(points) ==> WholeSeconds(v)
  {
    var w := ExpandAll(points, |points| / 2);
    ExpandAllProper(points, |points| / 2);
    assert |multiset(v)| == |multiset(w)|;
    forall k | 0 <= k < |v|
      ensures GoPoints(points) ==> GoSlot(v[k])
      ensures WholeSecondPoints(points) ==> WholeSecondSlot(v[k])
    {
      assert v[k] in multiset(w);
    }
  }

  // ---------- The main result ----------

  /** The answer that the user wants at `now`: the least instant from `now` on in any of the slots given,
      and the instant at which the stretch of open instants around it ends. */
  ghost predicate UserRight(points: seq<WeekdayTime>, now: Instant, begin: Instant, end: Instant)
    requires ValidPoints(points)
  {
    var n := |points| / 2;
    && now <= begin <= end
    && (forall y :: now <= y < begin ==> !UserOpenAt(points, n, y))
    && (forall y :: begin <= y <= end ==> UserOpenAt(points, n, y))
    && !UserOpenAt(points, n, end + 1)
  }

  /** The answers of the window that NewWindow builds are what the user wants at every instant. */
  ghost predicate AnswersUser(points: seq<WeekdayTime>, v: Window)
    requires ValidPoints(points) && |v| > 0
  {
    forall now :: now % 2 == 0 ==> UserRight(points, now, NextOpen(Joined(v), now).0, NextOpen(Joined(v), now).1)
  }

  /** The window answers right at every instant if and only if its sorted slots are one alone, or satisfy G and H
      and close, when joined, in seconds that tell, or cross Monday 00:00 harmlessly. */
  lemma NewWindowNext(points: seq<WeekdayTime>, v: Window)
    requires ValidPoints(points) && GoPoints(points)
    requires SortedOrder(v, ExpandAll(points, |points| / 2))
    ensures |v| > 0
    ensures AnswersUser(points, v) <==>
              || |v| == 1
              || (ClosedBeforeMonday(v) && FirstNotSwallowed(v) && JoinedTells(v))
              || HarmlessCrossing(v)
  {
    SortedTimes(points, v);
    NextExact(v);
    forall now ensures RightAt(v, now) <==>
        UserRight(points, now, NextOpen(Joined(v), now).0, NextOpen(Joined(v), now).1)
    {
      RightForUser(points, v, now, NextOpen(Joined(v), now).0, NextOpen(Joined(v), now).1);
    }
  }

  /** For points in whole seconds, as all points read from text are, the seconds always tell. */
  lemma NewWindowNextInSeconds(points: seq<WeekdayTime>, v: Window)
    requires ValidPoints(points) && WholeSecondPoints(points)
    requires SortedOrder(v, ExpandAll(points, |points| / 2))
    ensures |v| > 0
    ensures AnswersUser(points, v) <==>
              || |v| == 1
              || (ClosedBeforeMonday(v) && FirstNotSwallowed(v))
              || HarmlessCrossing(v)
  {
    assert GoPoints(points) by {
      assert forall i :: 0 <= i < |points| ==> WholeSecond(points[i]) && GoTime(points[i]);
    }
    SortedTimes(points, v);
    NewWindowNext(points, v);
    if ClosedBeforeMonday(v) && FirstNotSwallowed(v) {
      SecondsAlwaysTell(v);
    }
  }

  lemma RightForUser(points: seq<WeekdayTime>, v: Window, now: Instant, begin: Instant, end: Instant)
    requires ValidPoints(points) && SortedOrder(v, ExpandAll(points, |points| / 2))
    ensures LeastOpen(v, now, begin) && Closes(v, begin, end) <==> UserRight(points, now, begin, end)
  {
    forall x ensures Open(v, x) <==> UserOpenAt(points, |points| / 2, x) {
      UserSees(points, v, x);
    }
  }

  // ---------- Windows that need no condition ----------

  /** No slot crosses Monday 00:00. */
  predicate InsideOneWeek(v: Window)
    requires ProperWindow(v)
  {
    forall k :: 0 <= k < |v| ==> E(v[k]) < WEEK
  }

  lemma ClosedAtWeekEnd(s: Slot)
    requires ProperSlot(s) && GoSlot(s) && E(s) < WEEK
    ensures E(s) < WEEK - 1 && B(s) < WEEK - 1 && !OpenAt(s, WEEK - 1)
  {
    SlotOnLine(s);
    GapInWeek(s);
    OpenOnLine(s, WEEK - 1);
  }

  /** Slots that all lie strictly inside one week from Monday to Monday satisfy G and H. */
  lemma InsideOneWeekIsFine(v: Window)
    requires ProperWindow(v) && GoSlots(v) && |v| > 0 && InsideOneWeek(v)
    ensures ClosedBeforeMonday(v) && FirstNotSwallowed(v)
  {
    LatestAtMost(v, WEEK - 1);
    assert 0 <= B(v[0]) by { SlotOnLine(v[0]); }
    forall k | 0 <= k < |v| ensures B(v[k]) < WEEK - 1 && !OpenAt(v[k], WEEK - 1) {
      ClosedAtWeekEnd(v[k]);
    }
    assert !Open(v, WEEK - 1);
  }

  /** The line of the slot of day `d`. */
  lemma DayOnLine(s: Slot, d: nat)
    requires Validate(s).Fine? && s.begin.weekday == EACH_DAY && d < 7
    ensures ProperSlot(DaySlot(s, d))
    ensures B(DaySlot(s, d)) == ((d + 6) % 7) * DAY + s.begin.time
    ensures E(DaySlot(s, d)) == B(DaySlot(s, d)) + (s.end.time - s.begin.time) % DAY
  {
    DayLength(s, d);
  }

  /** A slot of the sorted seven is that of some day. */
  lemma SomeDay(s: Slot, v: Window, k: nat) returns (d: nat)
    requires Validate(s).Fine? && s.begin.weekday == EACH_DAY && SortedOrder(v, Expand(s)) && k < |v|
    ensures d < 7 && v[k] == DaySlot(s, d)
  {
    assert v[k] in multiset(v);
    assert v[k] in Expand(s);
    d :| 0 <= d < 7 && v[k] == Expand(s)[d];
  }

  /** And that of every day is among them. */
  lemma DayIsThere(s: Slot, v: Window, d: nat) returns (k: nat)
    requires Validate(s).Fine? && s.begin.weekday == EACH_DAY && SortedOrder(v, Expand(s)) && d < 7
    ensures k < |v| && v[k] == DaySlot(s, d)
  {
    assert Expand(s)[d] in multiset(Expand(s));
    assert DaySlot(s, d) in v;
    k :| 0 <= k < |v| && v[k] == DaySlot(s, d);
  }

  lemma DayBounds(s: Slot, v: Window, k: nat)
    requires Validate(s).Fine? && s.begin.weekday == EACH_DAY && SortedOrder(v, Expand(s)) && k < |v|
    ensures s.begin.time <= B(v[k])
    ensures E(v[k]) <= 6 * DAY + s.begin.time + (s.end.time - s.begin.time) % DAY
  {
    var d := SomeDay(s, v, k);
    DayOnLine(s, d);
  }

  lemma EachDaySlots(s: Slot, v: Window)
    requires Validate(s).Fine? && s.begin.weekday == EACH_DAY
    requires SortedOrder(v, Expand(s))
    ensures |v| == 7 && B(v[0]) == s.begin.time
    ensures forall k :: 0 <= k < 7 ==> E(v[k]) <= 6 * DAY + s.begin.time + (s.end.time - s.begin.time) % DAY
  {
    SortedSize(v, Expand(s));
    forall k: nat | k < 7 ensures E(v[k]) <= 6 * DAY + s.begin.time + (s.end.time - s.begin.time) % DAY {
      DayBounds(s, v, k);
    }
    FirstDay(s, v);
  }

  lemma FirstDay(s: Slot, v: Window)
    requires Validate(s).Fine? && s.begin.weekday == EACH_DAY && SortedOrder(v, Expand(s)) && |v| > 0
    ensures B(v[0]) == s.begin.time
  {
    DayBounds(s, v, 0);
    var k := DayIsThere(s, v, 1);
    DayOnLine(s, 1);
    assert B(v[0]) <= B(v[k]);
  }

  lemma EachDayGap(s: Slot) returns (x: Instant)
    requires Validate(s).Fine? && s.begin.weekday == EACH_DAY && GoSlot(s)
    ensures s.begin.time < x < WEEK && !UserOpen(s, x)
  {
    var l := (s.end.time - s.begin.time) % DAY;
    assert l % 2 == 0;
    NanosApart(l, DAY);
    x := s.begin.time + l + 1;
    assert (x - s.begin.time) % DAY == l + 1;
  }

  /** Any single each-day slot satisfies G and H, in whatever order its seven days are sorted. */
  lemma EachDayIsFine(s: Slot, v: Window)
    requires Validate(s).Fine? && s.begin.weekday == EACH_DAY && GoSlot(s)
    requires SortedOrder(v, Expand(s))
    ensures |v| == 7 && ClosedBeforeMonday(v) && FirstNotSwallowed(v)
  {
    EachDaySlots(s, v);
    LatestAtMost(v, 6 * DAY + s.begin.time + (s.end.time - s.begin.time) % DAY);
    var x := EachDayGap(s);
    ExpandOpensTheSame(s, x);
    SortedOpens(v, Expand(s), x);
  }

  // ---------- Windows that go wrong ----------

  function At(day: Weekday, hours: nat): WeekdayTime {
    WeekdayTime(day, hours * HOUR)
  }

  /** Tuesday to Thursday with Wednesday to Monday noon: everything after Thursday is lost. */
  lemma LosesTheWeekend()
    ensures
      var v := [Slot(At(2, 0), At(4, 0)), Slot(At(3, 0), At(1, 12))];
      ProperWindow(v) && Sorted(v) && Joined(v) == [Slot(At(2, 0), At(4, 0))] && Open(v, 4 * DAY) && !AlwaysRight(v)
  {
    var s, t := Slot(At(2, 0), At(4, 0)), Slot(At(3, 0), At(1, 12));
    var v := [s, t];
    LosesJoin(s, t);
    LosesThursday(s, t);
    assert OpenAt(v[1], 4 * DAY);
    assert !Open([s], 4 * DAY);
    LostIsWrong(v, 4 * DAY);
  }

  lemma LosesThursday(s: Slot, t: Slot)
    requires s == Slot(At(2, 0), At(4, 0)) && t == Slot(At(3, 0), At(1, 12))
    ensures ProperWindow([s, t]) && Sorted([s, t]) && ProperWindow([s])
    ensures OpenAt(t, 4 * DAY) && !OpenAt(s, 4 * DAY)
  {
  }

  lemma LosesJoin(s: Slot, t: Slot)
    requires s == Slot(At(2, 0), At(4, 0)) && t == Slot(At(3, 0), At(1, 12))
    ensures Joined([s, t]) == [s]
  {
    var v := [s, t];
    assert v[..1] == [s];
    assert JoinFirst(v) == JoinOne(Joining([s], 0), t);
    assert JoinOne(Joining([s], 0), t) == Joining([s], 0) by {
      assert Next(t.begin, 0) == 2 * DAY;
      assert Next(s.end, 0) == 3 * DAY;
      assert Next(t.end, 0) == 12 * HOUR;
    }
  }

  /** Monday 0:00 to 6:00 with Sunday 0:00 to Tuesday 0:00: asked on Sunday noon the answer is Monday 0:00. */
  lemma AnswersLate()
    ensures
      var v := [Slot(At(1, 0), At(1, 6)), Slot(At(0, 0), At(2, 0))];
      var noon := 6 * DAY + 12 * HOUR;
      && ProperWindow(v) && Sorted(v) && Joined(v) == v
      && Open(v, noon) && NextOpen(v, noon).0 == WEEK
  {
    var s, t := Slot(At(1, 0), At(1, 6)), Slot(At(0, 0), At(2, 0));
    var v := [s, t];
    AnswersLateJoin(s, t);
    AnswersLateSearch(s, t);
    AnswersLateSlots(s, t);
    assert OpenAt(v[1], 6 * DAY + 12 * HOUR);
  }

  lemma AnswersLateSlots(s: Slot, t: Slot)
    requires s == Slot(At(1, 0), At(1, 6)) && t == Slot(At(0, 0), At(2, 0))
    ensures ProperWindow([s, t]) && Sorted([s, t]) && OpenAt(t, 6 * DAY + 12 * HOUR)
  {
  }

  lemma AnswersLateJoin(s: Slot, t: Slot)
    requires s == Slot(At(1, 0), At(1, 6)) && t == Slot(At(0, 0), At(2, 0))
    ensures Joined([s, t]) == [s, t]
  {
    var v := [s, t];
    assert v[..1] == [s];
    assert JoinFirst(v) == JoinOne(Joining([s], 0), t);
    assert JoinOne(Joining([s], 0), t) == Joining(v, 6 * DAY) by {
      assert Next(t.begin, 0) == 6 * DAY;
      assert Next(s.end, 0) == 6 * HOUR;
    }
    assert Next(s.begin, 6 * DAY) == WEEK;
    assert Next(t.end, 6 * DAY) == 8 * DAY;
    assert Next(s.end, 6 * DAY) == WEEK + 6 * HOUR;
  }

  lemma AnswersLateSearch(s: Slot, t: Slot)
    requires s == Slot(At(1, 0), At(1, 6)) && t == Slot(At(0, 0), At(2, 0))
    ensures NextOpen([s, t], 6 * DAY + 12 * HOUR).0 == WEEK
  {
    var noon := 6 * DAY + 12 * HOUR;
    SearchOutcome([s, t], noon);
    assert Next(s.end, noon) == WEEK + 6 * HOUR;
    assert Next(t.end, noon) == 8 * DAY;
    assert Next(s.begin, noon) == WEEK;
  }

  /** Why whole seconds are asked for: the search compares seconds.  Two slots that close in the same second
      of Monday, the later one in the list first: asked inside the one, the answer is the begin of the other. */
  lemma SameSecondAnswersLate()
    ensures
      var v := [Slot(WeekdayTime(1, 500), WeekdayTime(1, 700)), Slot(At(0, 0), WeekdayTime(1, 200))];
      && ProperWindow(v) && Normal(v)
      && Open(v, 100) && NextOpen(v, 100).0 == 500
  {
    var s, c := Slot(WeekdayTime(1, 500), WeekdayTime(1, 700)), Slot(At(0, 0), WeekdayTime(1, 200));
    var v := [s, c];
    SameSecondPoints(s, c);
    assert v[0] == s && v[1] == c;
    assert OpenAt(v[1], 100);
    SearchOutcome(v, 100);
    NextOpenAt(v, 0, 100);
  }

  lemma SameSecondPoints(s: Slot, c: Slot)
    requires s == Slot(WeekdayTime(1, 500), WeekdayTime(1, 700)) && c == Slot(At(0, 0), WeekdayTime(1, 200))
    ensures ProperSlot(s) && ProperSlot(c) && B(s) == 500 && E(s) == 700 && E(c) == WEEK + 200 && OpenAt(c, 100)
    ensures B(c) > 700
    ensures Next(s.begin, 100) == 500 && Next(s.end, 100) == 700 && Next(c.end, 100) == 200
  {
  }
}
