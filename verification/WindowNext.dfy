/** Window.Next: the binary search over the rotated closes, and what its answer means. */
module WindowNext {
  import opened WeekTime
  import opened Slots
  import opened JoinSlots

  /** Whole seconds, as Time.Unix gives them up to a constant. */
  function Unix(t: Instant): int {
    t / SECOND
  }

  /** The indicator that sort.Search is run on. */
  predicate Before(w: Window, now: Instant, i: nat)
    requires 0 <= i < |w|
  {
    Unix(Next(w[i].end, now)) < Unix(Next(w[0].end, now))
  }

  /** sort.Search on the indices from `i` to `j`, whether the indicator is sorted or not. */
  function Search(w: Window, now: Instant, i: nat, j: nat): (k: nat)
    requires i <= j <= |w|
    ensures i <= k <= j
    ensures k == i || !Before(w, now, k - 1)
    ensures k == j || Before(w, now, k)
    decreases j - i
  {
    if i == j then i else
      var h := (i + j) / 2;
      if Before(w, now, h) then Search(w, now, i, h) else Search(w, now, h + 1, j)
  }

  function Found(w: Window, now: Instant): (i: nat)
    requires |w| > 0
    ensures i < |w|
  {
    var i := Search(w, now, 0, |w|);
    if i == |w| then 0 else i
  }

  /** Begin and end of the next open stretch; the end of a nil window is the zero time. */
  function NextOpen(w: Window, now: Instant): (Instant, Instant) {
    if w == [] then (now, 0) else
      var i := Found(w, now);
      var b, e := Next(w[i].begin, now), Next(w[i].end, now);
      (if b > e then now else b, e)
  }

  /** sort.Search on the closes in whole seconds. */
  method SearchCloses(w: Window, now: Instant) returns (i: nat)
    requires |w| > 0
    ensures i == Search(w, now, 0, |w|)
  {
    var u0 := Unix(Next(w[0].end, now));
    var j := |w|;
    i := 0;
    while i < j
      invariant 0 <= i <= j <= |w|
      invariant Search(w, now, i, j) == Search(w, now, 0, |w|)
    {
      var h := (i + j) / 2;
      var u := Unix(Next(w[h].end, now));
      if u < u0 {
        j := h;
      } else {
        i := h + 1;
      }
    }
  }

  method ComputeNext(w: Window, now: Instant) returns (begin: Instant, end: Instant)
    ensures (begin, end) == NextOpen(w, now)
  {
    if w == [] {
      return now, 0;
    }
    var i := SearchCloses(w, now);
    if i == |w| {
      i := 0;
    }
    begin := Next(w[i].begin, now);
    end := Next(w[i].end, now);
    if begin > end {
      begin := now;
    }
  }

  // ---------- What the answer has to be ----------

  ghost predicate LeastOpen(w: Window, now: Instant, begin: Instant)
    requires ProperWindow(w)
  {
    now <= begin && Open(w, begin) && forall y :: now <= y < begin ==> !Open(w, y)
  }

  /** Open from `begin` through `end`, and closed just after. */
  ghost predicate Closes(w: Window, begin: Instant, end: Instant)
    requires ProperWindow(w)
  {
    begin <= end && (forall y :: begin <= y <= end ==> Open(w, y)) && !Open(w, end + 1)
  }

  // ---------- The window as stretches of the line ----------

  datatype Stretch = Stretch(b: int, e: int)

  predicate Apart(l: seq<Stretch>) {
    && |l| > 0
    && (forall i :: 0 <= i < |l| ==> l[i].b < l[i].e)
    && (forall i :: 0 <= i < |l| - 1 ==> l[i].e < l[i+1].b)
    && l[|l|-1].e < l[0].b + WEEK
  }

  function Line(w: Window): (l: seq<Stretch>)
    requires ProperWindow(w)
    ensures |l| == |w|
    ensures forall i :: 0 <= i < |w| ==> l[i] == Stretch(B(w[i]), E(w[i]))
  {
    seq(|w|, i requires 0 <= i < |w| => Stretch(B(w[i]), E(w[i])))
  }

  lemma LineApart(w: Window)
    requires ProperWindow(w) && Normal(w)
    ensures Apart(Line(w))
  {
    forall i | 0 <= i < |w| ensures B(w[i]) < E(w[i]) {
      SlotOnLine(w[i]);
    }
  }

  lemma {:induction false} Increasing(l: seq<Stretch>, i: nat, m: nat)
    requires Apart(l) && i < m < |l|
    ensures l[i].e < l[m].b
    decreases m - i
  {
    if i + 1 < m {
      Increasing(l, i + 1, m);
    }
  }

  /** The close before stretch `i`: of the one before it, or of the last one a week earlier. */
  function CloseBefore(l: seq<Stretch>, i: nat): int
    requires i < |l|
  {
    if i == 0 then l[|l|-1].e - WEEK else l[i-1].e
  }

  /** Where stretch `m` lies seen from the gap before stretch `i`. */
  lemma Order(l: seq<Stretch>, m: nat, i: nat)
    requires Apart(l) && i < |l| && m < |l|
    ensures l[0].e <= l[m].e <= l[|l|-1].e && l[0].b <= l[m].b
    ensures i <= m ==> l[i].b <= l[m].b
    ensures m < i ==> l[m].e <= CloseBefore(l, i)
    ensures l[i].b - WEEK < CloseBefore(l, i) < l[i].b
  {
    if 0 < m { Increasing(l, 0, m); }
    if 0 < i { Increasing(l, 0, i); }
    if m < |l| - 1 { Increasing(l, m, |l| - 1); }
    if i < |l| - 1 { Increasing(l, i, |l| - 1); }
    if i < m { Increasing(l, i, m); }
    if m < i - 1 { Increasing(l, m, i - 1); }
    if 1 < i { Increasing(l, 0, i - 1); }
  }

  /** The week of an instant that falls in the gap before stretch `i` or in the stretch. */
  lemma WeekOfStretch(l: seq<Stretch>, i: nat, k: int, now: int)
    requires Apart(l) && i < |l|
    requires CloseBefore(l, i) + k * WEEK < now <= l[i].e + k * WEEK
    ensures l[i].b < l[i].e < l[i].b + WEEK
    ensures l[i].e + k * WEEK < now + WEEK
    ensures if now <= l[i].b + k * WEEK then l[i].b + k * WEEK < now + WEEK
            else now <= l[i].b + (k + 1) * WEEK < now + WEEK
  {
    Order(l, i, i);
    Order(l, 0, i);
  }

  // ---------- Slots and the line, any week ----------

  lemma NextHits(i: WeekdayTime, k: int, now: Instant)
    requires Proper(i) && now <= Pos(i) + k * WEEK < now + WEEK
    ensures Next(i, now) == Pos(i) + k * WEEK
  {
    NextIsLeast(i, now);
    WeeksAreCongruent(Pos(i), k);
    NextAtUnique(Pos(i), now, Pos(i) + k * WEEK);
  }

  lemma WeeksAreCongruent(p: int, k: int)
    ensures Congruent(p + k * WEEK, p)
  {
    assert p + k * WEEK - p == k * WEEK;
  }

  lemma EndAt(s: Slot, k: int, now: Instant)
    requires ProperSlot(s) && now <= E(s) + k * WEEK < now + WEEK
    ensures Next(s.end, now) == E(s) + k * WEEK
  {
    SlotOnLine(s);
    NextHits(s.end, if E(s) == Pos(s.end) then k else k + 1, now);
  }

  lemma BeginAt(s: Slot, k: int, now: Instant)
    requires ProperSlot(s) && now <= B(s) + k * WEEK < now + WEEK
    ensures Next(s.begin, now) == B(s) + k * WEEK
  {
    NextHits(s.begin, k, now);
  }

  /** Openness of one slot within a week around its begin. */
  lemma OpenNear(s: Slot, k: int, y: Instant)
    requires ProperSlot(s) && B(s) - WEEK <= y < B(s) + WEEK
    ensures OpenAt(s, y + k * WEEK) <==> (if B(s) <= y then y <= E(s) else y <= E(s) - WEEK)
  {
    SlotOnLine(s);
    var d := y - B(s);
    var r := if d >= 0 then d else d + WEEK;
    var n := if d >= 0 then k else k - 1;
    assert y + k * WEEK - B(s) == n * WEEK + r;
    assert (y + k * WEEK - B(s)) % WEEK == r;
  }

  lemma GapIsClosed(w: Window, i: nat, k: int, y: Instant)
    requires ProperWindow(w) && Normal(w) && i < |w|
    requires CloseBefore(Line(w), i) < y < B(w[i])
    ensures !Open(w, y + k * WEEK)
  {
    var l := Line(w);
    LineApart(w);
    forall m | 0 <= m < |w| ensures !OpenAt(w[m], y + k * WEEK) {
      ClosedInGap(l, i, m, y);
      OpenNear(w[m], k, y);
    }
  }

  lemma ClosedInGap(l: seq<Stretch>, i: nat, m: nat, y: int)
    requires Apart(l) && i < |l| && m < |l|
    requires CloseBefore(l, i) < y < l[i].b
    ensures l[m].b - WEEK <= y < l[m].b + WEEK
    ensures if l[m].b <= y then l[m].e < y else l[m].e - WEEK < y
  {
    Order(l, m, i);
    Order(l, i, m);
    Order(l, 0, i);
  }

  /** The answer from the slot whose stretch is the first not closed before `now`. */
  lemma AnswerFrom(w: Window, i: nat, k: int, now: Instant)
    requires ProperWindow(w) && Normal(w) && i < |w|
    requires CloseBefore(Line(w), i) + k * WEEK < now <= E(w[i]) + k * WEEK
    ensures Next(w[i].end, now) == E(w[i]) + k * WEEK
    ensures Next(w[i].begin, now) == B(w[i]) + (if now <= B(w[i]) + k * WEEK then k else k + 1) * WEEK
    ensures B(w[i]) < E(w[i]) < B(w[i]) + WEEK
  {
    var l := Line(w);
    LineApart(w);
    WeekOfStretch(l, i, k, now);
    EndAt(w[i], k, now);
    BeginFrom(w[i], k, now);
  }

  lemma BeginFrom(s: Slot, k: int, now: Instant)
    requires ProperSlot(s)
    requires if now <= B(s) + k * WEEK then B(s) + k * WEEK < now + WEEK
             else now <= B(s) + (k + 1) * WEEK < now + WEEK
    ensures Next(s.begin, now) == B(s) + (if now <= B(s) + k * WEEK then k else k + 1) * WEEK
  {
    BeginAt(s, if now <= B(s) + k * WEEK then k else k + 1, now);
  }

  lemma AnswerIsLeast(w: Window, i: nat, k: int, now: Instant, begin: Instant)
    requires ProperWindow(w) && Normal(w) && i < |w|
    requires CloseBefore(Line(w), i) + k * WEEK < now <= E(w[i]) + k * WEEK
    requires begin == (if now <= B(w[i]) + k * WEEK then B(w[i]) + k * WEEK else now)
    ensures LeastOpen(w, now, begin)
  {
    StretchIsOpen(w, i, k, begin);
    forall y | now <= y < begin ensures !Open(w, y) {
      GapIsClosed(w, i, k, y - k * WEEK);
    }
  }

  lemma StretchIsOpen(w: Window, i: nat, k: int, y: Instant)
    requires ProperWindow(w) && i < |w|
    requires B(w[i]) + k * WEEK <= y <= E(w[i]) + k * WEEK
    ensures Open(w, y)
  {
    SlotOnLine(w[i]);
    OpenNear(w[i], k, y - k * WEEK);
    assert OpenAt(w[i], y);
  }

  lemma AnswerCloses(w: Window, i: nat, k: int, begin: Instant)
    requires ProperWindow(w) && Normal(w) && GoSlots(w) && i < |w|
    requires B(w[i]) + k * WEEK <= begin <= E(w[i]) + k * WEEK
    ensures Closes(w, begin, E(w[i]) + k * WEEK)
  {
    forall y | begin <= y <= E(w[i]) + k * WEEK ensures Open(w, y) {
      StretchIsOpen(w, i, k, y);
    }
    JustAfterClose(w, i, k);
  }

  lemma JustAfterClose(w: Window, i: nat, k: int)
    requires ProperWindow(w) && Normal(w) && GoSlots(w) && i < |w|
    ensures !Open(w, E(w[i]) + k * WEEK + 1)
  {
    if i + 1 < |w| {
      GapBetween(w[i], w[i+1]);
      GapIsClosed(w, i + 1, k, E(w[i]) + 1);
    } else {
      GapBetween(w[i], w[0]);
      GapIsClosed(w, 0, k + 1, E(w[i]) + 1 - WEEK);
    }
  }

  // ---------- The search ----------

  /** The week in which a slot closes next. */
  lemma WeekOfClose(s: Slot, now: Instant) returns (k: int)
    requires ProperSlot(s)
    ensures now <= E(s) + k * WEEK < now + WEEK
  {
    k := -((E(s) - now) / WEEK);
  }

  /** The close of slot `i` next to `now`, told from the week `k` in which the first slot closes. */
  lemma NextClose(w: Window, now: Instant, k: int, i: nat)
    requires ProperWindow(w) && Normal(w) && i < |w|
    requires now <= E(w[0]) + k * WEEK < now + WEEK
    ensures Next(w[i].end, now) == E(w[i]) + (if now <= E(w[i]) + (k - 1) * WEEK then k - 1 else k) * WEEK
    ensures Next(w[i].end, now) < Next(w[0].end, now) <==> now <= E(w[i]) + (k - 1) * WEEK
    ensures Next(w[0].end, now) == E(w[0]) + k * WEEK
  {
    LineApart(w);
    Order(Line(w), i, 0);
    EndAt(w[0], k, now);
    EndAt(w[i], if now <= E(w[i]) + (k - 1) * WEEK then k - 1 else k, now);
  }

  /** The last close of a week falls in an earlier second than the first close of the next week. */
  predicate SecondsTell(w: Window)
    requires ProperWindow(w) && |w| > 0
  {
    |w| == 1 || Unix(E(w[|w|-1])) < Unix(E(w[0]) + WEEK)
  }

  lemma UnixMonotone(a: Instant, b: Instant)
    requires a <= b
    ensures Unix(a) <= Unix(b)
  {
  }

  lemma UnixOfWeeks(a: Instant, k: int)
    ensures Unix(a + k * WEEK) == Unix(a) + k * (WEEK / SECOND)
  {
    assert k * WEEK == k * (WEEK / SECOND) * SECOND;
    assert a + k * WEEK == (Unix(a) + k * (WEEK / SECOND)) * SECOND + a % SECOND;
  }

  /** The indicator says whether slot `i` still closes in the week before. */
  lemma IndicatorMeaning(w: Window, now: Instant, k: int, i: nat)
    requires ProperWindow(w) && Normal(w) && SecondsTell(w) && i < |w|
    requires now <= E(w[0]) + k * WEEK < now + WEEK
    ensures Before(w, now, i) <==> now <= E(w[i]) + (k - 1) * WEEK
  {
    NextClose(w, now, k, i);
    if now <= E(w[i]) + (k - 1) * WEEK {
      LineApart(w);
      Order(Line(w), i, 0);
      UnixMonotone(E(w[i]), E(w[|w|-1]));
      UnixOfWeeks(E(w[i]), k - 1);
      UnixOfWeeks(E(w[0]), k);
      UnixOfWeeks(E(w[0]), 1);
    } else {
      UnixMonotone(Next(w[0].end, now), Next(w[i].end, now));
    }
  }

  lemma SearchOutcome(w: Window, now: Instant)
    requires |w| > 0
    ensures var i := Found(w, now);
      if i > 0 then Before(w, now, i) && !Before(w, now, i - 1) else !Before(w, now, |w| - 1)
  {
  }

  lemma FoundInWeek(w: Window, now: Instant, n: int, i: nat)
    requires ProperWindow(w) && Normal(w) && SecondsTell(w) && i == Found(w, now)
    requires now <= E(w[0]) + n * WEEK < now + WEEK
    ensures if i > 0 then E(w[i-1]) + (n - 1) * WEEK < now <= E(w[i]) + (n - 1) * WEEK
            else E(w[|w|-1]) + (n - 1) * WEEK < now
  {
    SearchOutcome(w, now);
    if i > 0 {
      IndicatorMeaning(w, now, n, i);
      IndicatorMeaning(w, now, n, i - 1);
    } else {
      IndicatorMeaning(w, now, n, |w| - 1);
    }
  }

  /** The search stops at the slot whose stretch is the first not closed before `now`. */
  lemma FoundStretch(w: Window, now: Instant) returns (i: nat, k: int)
    requires ProperWindow(w) && Normal(w) && SecondsTell(w)
    ensures i == Found(w, now)
    ensures CloseBefore(Line(w), i) + k * WEEK < now <= E(w[i]) + k * WEEK
  {
    i := Found(w, now);
    var n := WeekOfClose(w[0], now);
    FoundInWeek(w, now, n, i);
    k := if i > 0 then n - 1 else n;
    CloseBeforeOnLine(w, i);
  }

  lemma CloseBeforeOnLine(w: Window, i: nat)
    requires ProperWindow(w) && i < |w|
    ensures CloseBefore(Line(w), i) == if i == 0 then E(w[|w|-1]) - WEEK else E(w[i-1])
  {
  }

  /** The binary search over the rotated closes finds the slot that closes first after `now`. */
  lemma FoundClosesFirst(w: Window, now: Instant, m: nat)
    requires ProperWindow(w) && Normal(w) && SecondsTell(w) && m < |w|
    ensures Next(w[Found(w, now)].end, now) <= Next(w[m].end, now)
  {
    var i, k := FoundStretch(w, now);
    AnswerFrom(w, i, k, now);
    LineApart(w);
    Order(Line(w), m, i);
    var n := WeekOfClose(w[0], now);
    NextClose(w, now, n, m);
    NextClose(w, now, n, i);
    if m < i {
      assert E(w[m]) + k * WEEK < now;
    } else if m > i {
      Increasing(Line(w), i, m);
    }
  }

  lemma NextOpenAt(w: Window, i: nat, now: Instant)
    requires |w| > 0 && i == Found(w, now)
    ensures var b, e := Next(w[i].begin, now), Next(w[i].end, now);
      NextOpen(w, now) == (if b > e then now else b, e)
  {
  }

  /** The answer from the slot of a stretch from `b` to `e` in week `k`. */
  lemma AnswerFromNumbers(
    b: int, e: int, k: int, now: Instant, nextBegin: Instant, nextEnd: Instant, begin: Instant, end: Instant)
    requires b < e && now <= e + k * WEEK && e < b + WEEK
    requires nextEnd == e + k * WEEK && nextBegin == b + (if now <= b + k * WEEK then k else k + 1) * WEEK
    requires begin == (if nextBegin > nextEnd then now else nextBegin) && end == nextEnd
    ensures begin == (if now <= b + k * WEEK then b + k * WEEK else now) && end == e + k * WEEK
  {
    assert (k + 1) * WEEK == k * WEEK + WEEK;
  }

  lemma AnswerValue(w: Window, i: nat, k: int, now: Instant, begin: Instant, end: Instant)
    requires ProperWindow(w) && i < |w| && i == Found(w, now) && (begin, end) == NextOpen(w, now)
    requires B(w[i]) < E(w[i]) < B(w[i]) + WEEK && now <= E(w[i]) + k * WEEK
    requires Next(w[i].end, now) == E(w[i]) + k * WEEK
    requires Next(w[i].begin, now) == B(w[i]) + (if now <= B(w[i]) + k * WEEK then k else k + 1) * WEEK
    ensures begin == (if now <= B(w[i]) + k * WEEK then B(w[i]) + k * WEEK else now)
    ensures end == E(w[i]) + k * WEEK
  {
    NextOpenAt(w, i, now);
    AnswerFromNumbers(B(w[i]), E(w[i]), k, now, Next(w[i].begin, now), Next(w[i].end, now), begin, end);
  }

  /** On a window in normal form, Next gives the least open instant from `now` on, and the close of the
      stretch that it lies in. */
  lemma NextIsLeastOpen(w: Window, now: Instant)
    requires ProperWindow(w) && Normal(w) && GoSlots(w) && SecondsTell(w)
    ensures LeastOpen(w, now, NextOpen(w, now).0)
    ensures Closes(w, NextOpen(w, now).0, NextOpen(w, now).1)
  {
    var i, k := FoundStretch(w, now);
    var begin, end := AnswerOf(w, i, k, now);
    RightAnswer(w, i, k, now, begin);
  }

  lemma AnswerOf(w: Window, i: nat, k: int, now: Instant) returns (begin: Instant, end: Instant)
    requires ProperWindow(w) && Normal(w) && i < |w| && i == Found(w, now)
    requires CloseBefore(Line(w), i) + k * WEEK < now <= E(w[i]) + k * WEEK
    ensures (begin, end) == NextOpen(w, now)
    ensures begin == (if now <= B(w[i]) + k * WEEK then B(w[i]) + k * WEEK else now)
    ensures end == E(w[i]) + k * WEEK
  {
    begin, end := NextOpen(w, now).0, NextOpen(w, now).1;
    AnswerFrom(w, i, k, now);
    AnswerValue(w, i, k, now, begin, end);
  }

  lemma RightAnswer(w: Window, i: nat, k: int, now: Instant, begin: Instant)
    requires ProperWindow(w) && Normal(w) && GoSlots(w) && i < |w|
    requires CloseBefore(Line(w), i) + k * WEEK < now <= E(w[i]) + k * WEEK
    requires begin == (if now <= B(w[i]) + k * WEEK then B(w[i]) + k * WEEK else now)
    ensures LeastOpen(w, now, begin) && Closes(w, begin, E(w[i]) + k * WEEK)
  {
    SlotOnLine(w[i]);
    AnswerIsLeast(w, i, k, now, begin);
    AnswerCloses(w, i, k, begin);
  }

  /** The end is never before `now`, and it is `now` exactly when `now` is a closing instant. */
  lemma EndOfAnswer(w: Window, now: Instant)
    requires ProperWindow(w) && Normal(w) && GoSlots(w) && SecondsTell(w)
    ensures now <= NextOpen(w, now).1
    ensures now == NextOpen(w, now).1 <==> Open(w, now) && !Open(w, now + 1)
  {
    NextIsLeastOpen(w, now);
    var (begin, end) := NextOpen(w, now);
    assert now < end ==> (now == begin ==> Open(w, now + 1));
  }

  // ---------- Closes within one second ----------

  /** Closes in whole seconds tell. */
  lemma WholeSecondsTell(w: Window)
    requires ProperWindow(w) && Normal(w) && WholeSeconds(w)
    ensures SecondsTell(w) && GoSlots(w)
  {
    SecondsAreGo(w);
    SecondsOnLine(w[0]);
    SecondsOnLine(w[|w|-1]);
    UnixOfSeconds(E(w[|w|-1]), E(w[0]) + WEEK);
  }

  lemma UnixOfSeconds(a: Instant, b: Instant)
    requires a % SECOND == 0 && (b - WEEK) % SECOND == 0 && a < b
    ensures Unix(a) < Unix(b)
  {
  }

  /** When the last close and the first close of the next week share a second, the answer at the last close is not
      that instant, though it is open. */
  lemma SameSecondIsLate(w: Window)
    requires ProperWindow(w) && Normal(w) && !SecondsTell(w)
    ensures Open(w, E(w[|w|-1])) && NextOpen(w, E(w[|w|-1])).0 > E(w[|w|-1])
    ensures Next(w[Found(w, E(w[|w|-1]))].end, E(w[|w|-1])) > E(w[|w|-1])
  {
    var last, now := |w| - 1, E(w[|w|-1]);
    LineApart(w);
    Order(Line(w), 0, last);
    SlotOnLine(w[0]);
    SlotOnLine(w[last]);
    Increasing(Line(w), 0, last);
    forall i: nat | i < |w| ensures !Before(w, now, i) {
      NoneBefore(w, now, i);
    }
    SearchOutcome(w, now);
    assert Found(w, now) == 0;
    EndAt(w[0], 1, now);
    BeginAt(w[0], 1, now);
    OpenNear(w[last], 0, now - WEEK);
    OpenOnLineAt(w[last]);
  }

  lemma OpenOnLineAt(s: Slot)
    requires ProperSlot(s)
    ensures OpenAt(s, E(s))
  {
    SlotOnLine(s);
  }

  lemma NoneBefore(w: Window, now: Instant, i: nat)
    requires ProperWindow(w) && Normal(w) && !SecondsTell(w) && now == E(w[|w|-1]) && i < |w|
    ensures !Before(w, now, i)
  {
    LineApart(w);
    Order(Line(w), i, 0);
    SlotOnLine(w[0]);
    NextClose(w, now, 1, i);
    if i == |w| - 1 {
      UnixMonotone(now, E(w[0]) + WEEK);
    } else {
      Increasing(Line(w), i, |w| - 1);
      SlotOnLine(w[|w|-1]);
      UnixMonotone(Next(w[0].end, now), Next(w[i].end, now));
    }
  }

  /** On a window in normal form, the binary search finds the slot that closes first after every instant if and only
      if the seconds tell. */
  lemma FoundExact(w: Window)
    requires ProperWindow(w) && Normal(w)
    ensures SecondsTell(w) <==>
              forall now, m: nat :: m < |w| ==> Next(w[Found(w, now)].end, now) <= Next(w[m].end, now)
  {
    if SecondsTell(w) {
      forall now, m: nat | m < |w| ensures Next(w[Found(w, now)].end, now) <= Next(w[m].end, now) {
        FoundClosesFirst(w, now, m);
      }
    } else {
      var now := E(w[|w|-1]);
      SameSecondIsLate(w);
      SlotOnLine(w[|w|-1]);
      EndAt(w[|w|-1], 0, now);
      assert Next(w[Found(w, now)].end, now) > Next(w[|w|-1].end, now);
    }
  }

  /** On a window in normal form, Next is right at every instant if and only if the seconds tell. */
  lemma SearchExact(w: Window)
    requires ProperWindow(w) && Normal(w) && GoSlots(w)
    ensures SecondsTell(w) <==>
              forall now :: now % 2 == 0 ==>
                LeastOpen(w, now, NextOpen(w, now).0) && Closes(w, NextOpen(w, now).0, NextOpen(w, now).1)
  {
    if SecondsTell(w) {
      forall now ensures LeastOpen(w, now, NextOpen(w, now).0) && Closes(w, NextOpen(w, now).0, NextOpen(w, now).1) {
        NextIsLeastOpen(w, now);
      }
    } else {
      SameSecondIsLate(w);
      GoOnLine(w[|w|-1]);
      assert !LeastOpen(w, E(w[|w|-1]), NextOpen(w, E(w[|w|-1])).0);
    }
  }
}
