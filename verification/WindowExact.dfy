/** Exactly when the window that joinSlots builds answers Window.Next right. */
module WindowExact {
  import opened WeekTime
  import opened Slots
  import opened JoinSlots
  import opened JoinCorrect
  import opened JoinExact
  import opened WindowNext

  /** The answer at `now` from the joined window: least open instant of `w`, close of its stretch. */
  ghost predicate RightAt(w: Window, now: Instant)
    requires ProperWindow(w) && |w| > 0
  {
    var answer := NextOpen(Joined(w), now);
    LeastOpen(w, now, answer.0) && Closes(w, answer.0, answer.1)
  }

  ghost predicate AlwaysRight(w: Window)
    requires ProperWindow(w) && |w| > 0
  {
    forall now :: now % 2 == 0 ==> RightAt(w, now)
  }

  /** The first slot crosses Monday 00:00 and the rest is one stretch that closes no later: in the same second, or
      having opened with it. */
  predicate HarmlessCrossing(w: Window)
    requires ProperWindow(w) && |w| > 1
  {
    && E(w[0]) >= WEEK
    && FirstClose(w[1..]) == LatestEnd(w[1..]) <= E(w[0])
    && (Unix(LatestEnd(w[1..])) == Unix(E(w[0])) || B(w[1]) == B(w[0]))
  }

  /** After joining, the closes fall in seconds that the search can tell apart. */
  predicate JoinedTells(w: Window)
    requires |w| > 0
  {
    ProperWindow(Joined(w)) && |Joined(w)| > 0 && SecondsTell(Joined(w))
  }

  // ---------- Right in normal form ----------

  lemma {:induction false} JoinFirstGo(w: Window)
    requires |w| > 0 && GoSlots(w)
    ensures GoSlots(JoinFirst(w).out)
  {
    if |w| > 1 {
      JoinFirstGo(w[..|w|-1]);
    }
  }

  lemma JoinedGo(w: Window)
    requires |w| > 0 && GoSlots(w)
    ensures GoSlots(Joined(w))
  {
    JoinFirstGo(w);
  }

  /** A window that is joined well answers right if and only if the seconds tell. */
  lemma WellJoinedIsRight(w: Window)
    requires ProperWindow(w) && GoSlots(w) && |w| > 0 && WellJoined(w)
    ensures AlwaysRight(w) <==> JoinedTells(w)
  {
    JoinedGo(w);
    var r := Joined(w);
    SearchExact(r);
    forall now
      ensures RightAt(w, now) <==>
                LeastOpen(r, now, NextOpen(r, now).0) && Closes(r, NextOpen(r, now).0, NextOpen(r, now).1)
    {
      SameOpenSameRight(r, w, now, NextOpen(r, now).0, NextOpen(r, now).1);
    }
  }

  lemma SameOpenSameRight(v: Window, w: Window, now: Instant, begin: Instant, end: Instant)
    requires ProperWindow(v) && ProperWindow(w) && SameOpen(v, w)
    ensures LeastOpen(v, now, begin) && Closes(v, begin, end) <==> LeastOpen(w, now, begin) && Closes(w, begin, end)
  {
  }

  // ---------- Wrong when an open instant is lost ----------

  /** The slot is open from the answer's begin to its end. */
  lemma SlotStaysOpen(s: Slot, now: Instant, z: Instant)
    requires ProperSlot(s) && now <= z <= Next(s.end, now)
    requires Next(s.begin, now) > Next(s.end, now) || Next(s.begin, now) <= z
    ensures OpenAt(s, z)
  {
    SlotOnLine(s);
    var k := WeekOfClose(s, now);
    EndAt(s, k, now);
    if now <= B(s) + k * WEEK {
      BeginAt(s, k, now);
    }
    OpenNear(s, k, z - k * WEEK);
  }

  lemma AnswerStaysOpen(r: Window, now: Instant, z: Instant)
    requires ProperWindow(r) && |r| > 0 && NextOpen(r, now).0 <= z <= NextOpen(r, now).1
    ensures Open(r, z)
  {
    var i := Found(r, now);
    NextNotBefore(r[i], now);
    SlotStaysOpen(r[i], now, z);
  }

  lemma NextNotBefore(s: Slot, now: Instant)
    requires ProperSlot(s)
    ensures now <= Next(s.begin, now) && now <= Next(s.end, now)
  {
    NextIsLeast(s.begin, now);
    NextIsLeast(s.end, now);
    NextAtLeast(Pos(s.begin), now);
    NextAtLeast(Pos(s.end), now);
  }

  /** Around an instant that Go cannot name, slots are open on both sides. */
  lemma OpenBefore(w: Window, y: Instant)
    requires ProperWindow(w) && GoSlots(w) && Open(w, y) && y % 2 == 1
    ensures Open(w, y - 1)
  {
    var k :| 0 <= k < |w| && OpenAt(w[k], y);
    var s := w[k];
    SlotOnLine(s);
    var n, r := (y - B(s)) / WEEK, (y - B(s)) % WEEK;
    GoOnLine(s);
    OddRest(y, B(s));
    RestOf(y - 1 - B(s), n, r - 1);
    assert OpenAt(s, y - 1);
  }

  lemma OddRest(y: Instant, b: int)
    requires y % 2 == 1 && b % 2 == 0
    ensures (y - b) % WEEK >= 1
  {
    var n, r := (y - b) / WEEK, (y - b) % WEEK;
    assert y - b == 2 * (n * (WEEK / 2)) + r;
  }

  lemma RestOf(y: int, n: int, r: int)
    requires y == n * WEEK + r && 0 <= r < WEEK
    ensures y % WEEK == r
  {
  }

  /** When an open instant is lost, the answer is wrong at it or just before. */
  lemma LostIsWrong(w: Window, y: Instant)
    requires ProperWindow(w) && |w| > 0 && GoSlots(w) && Open(w, y)
    requires ProperWindow(Joined(w)) && !Open(Joined(w), y)
    ensures !AlwaysRight(w)
  {
    JoinedNotEmpty(w);
    if y % 2 == 0 {
      LostAt(w, y, y);
      WrongOnce(w, y);
    } else {
      LostBetween(w, y);
    }
  }

  lemma LostBetween(w: Window, y: Instant)
    requires ProperWindow(w) && |w| > 0 && GoSlots(w) && Open(w, y) && y % 2 == 1
    requires ProperWindow(Joined(w)) && |Joined(w)| > 0 && !Open(Joined(w), y)
    ensures !AlwaysRight(w)
  {
    OpenBefore(w, y);
    LostAt(w, y - 1, y);
    BeforeOdd(y);
    WrongOnce(w, y - 1);
  }

  lemma BeforeOdd(y: int)
    requires y % 2 == 1
    ensures (y - 1) % 2 == 0
  {
  }

  lemma JoinedNotEmpty(w: Window)
    requires |w| > 0
    ensures |Joined(w)| > 0
  {
  }

  lemma WrongOnce(w: Window, now: Instant)
    requires ProperWindow(w) && |w| > 0 && now % 2 == 0 && !RightAt(w, now)
    ensures !AlwaysRight(w)
  {
  }

  lemma LostAt(w: Window, now: Instant, y: Instant)
    requires ProperWindow(w) && |w| > 0 && Open(w, now) && Open(w, y) && now <= y <= now + 1
    requires ProperWindow(Joined(w)) && |Joined(w)| > 0 && !Open(Joined(w), y)
    ensures !RightAt(w, now)
  {
    var answer := NextOpen(Joined(w), now);
    if answer.0 <= y <= answer.1 {
      AnswerStaysOpen(Joined(w), now, y);
    } else {
      WrongAnswer(w, now, y, answer.0, answer.1);
    }
  }

  lemma WrongAnswer(w: Window, now: Instant, y: Instant, begin: Instant, end: Instant)
    requires ProperWindow(w) && Open(w, now) && Open(w, y) && now <= y <= now + 1 && !(begin <= y <= end)
    ensures !(LeastOpen(w, now, begin) && Closes(w, begin, end))
  {
  }

  // ---------- Wrong when the last slot swallows the first ----------

  /** Asked at the begin of the last slot, the search stays at the first. */
  lemma SwallowedStaysAtFirst(out: Window, now: Instant, i: nat)
    requires ProperWindow(out) && |out| > 1 && i < |out|
    requires forall k :: 0 <= k < |out| - 1 ==> E(out[k]) < B(out[k+1])
    requires E(out[0]) + WEEK <= E(out[|out|-1])
    requires now == B(out[|out|-1])
    ensures Next(out[0].end, now) == E(out[0]) + WEEK
    ensures !Before(out, now, i)
  {
    var last := |out| - 1;
    SlotOnLine(out[0]);
    SlotOnLine(out[last]);
    FirstEndsBeforeLast(out);
    EndNextWeek(out[0], now);
    if i == last {
      EndOnLine(out[i], now);
    } else {
      EndsGrow(out[..i+1], 0);
      EndsGrow(out[..last], i);
      assert E(out[last-1]) < B(out[last]);
      SlotOnLine(out[i]);
      EndNextWeek(out[i], now);
    }
    UnixMonotone(Next(out[0].end, now), Next(out[i].end, now));
  }

  lemma SwallowedAnswersLate(out: Window, now: Instant)
    requires ProperWindow(out) && |out| > 1
    requires forall k :: 0 <= k < |out| - 1 ==> E(out[k]) < B(out[k+1])
    requires E(out[0]) + WEEK <= E(out[|out|-1])
    requires now == B(out[|out|-1])
    ensures NextOpen(out, now).0 > now
  {
    SearchOutcome(out, now);
    SwallowedStaysAtFirst(out, now, Found(out, now));
    assert Found(out, now) == 0;
    FirstEndsBeforeLast(out);
    SlotOnLine(out[0]);
    BeginNextWeek(out[0], now);
  }

  lemma BeginIsOpen(w: Window, i: nat)
    requires ProperWindow(w) && i < |w|
    ensures Open(w, B(w[i]))
  {
    SlotOnLine(w[i]);
    assert OpenAt(w[i], B(w[i]));
  }

  lemma SwallowedIsWrong(w: Window, x: Instant)
    requires ProperWindow(w) && Sorted(w) && GoSlots(w) && |w| > 0
    requires B(w[0]) < x < WEEK && !Open(w, x) && !FirstNotSwallowed(w)
    ensures !AlwaysRight(w)
  {
    var j := JoinLoopKeepsInv(w, |w|, x);
    assert w[..|w|] == w;
    WrapKeepsOpen(w, j);
    var out := j.out;
    NotSwallowedAlone(w, j);
    WrapOnLine(w, j);
    assert Joined(w) == out;
    var now := B(out[|out|-1]);
    SwallowedAnswersLate(out, now);
    BeginIsOpen(out, |out| - 1);
    assert Open(w, now);
    assert !RightAt(w, now);
    JoinFirstGo(w);
    GoOnLine(out[|out|-1]);
  }

  lemma NotSwallowedAlone(w: Window, j: Joining)
    requires ProperWindow(w) && |w| > 0 && JoinInv(w, j, 0) && !FirstNotSwallowed(w)
    ensures |j.out| > 1 && E(j.out[0]) + WEEK <= E(j.out[|j.out|-1])
  {
    SlotOnLine(j.out[0]);
  }

  // ---------- When the first slot crosses Monday ----------

  /** Asked at the first begin, a right answer closes no earlier than the first slot. */
  lemma AnswerAtFirstBegin(w: Window)
    requires ProperWindow(w) && |w| > 0 && RightAt(w, B(w[0]))
    ensures NextOpen(Joined(w), B(w[0])).1 >= E(w[0])
  {
    var now, answer := B(w[0]), NextOpen(Joined(w), B(w[0]));
    BeginIsOpen(w, 0);
    assert answer.0 == now;
    if answer.1 < E(w[0]) {
      WithinIsOpen(w, 0, answer.1 + 1);
    }
  }

  lemma WithinIsOpen(w: Window, i: nat, y: Instant)
    requires ProperWindow(w) && i < |w| && B(w[i]) <= y <= E(w[i])
    ensures Open(w, y)
  {
    SlotOnLine(w[i]);
    OpenNear(w[i], 0, y);
    assert OpenAt(w[i], y + 0 * WEEK);
  }

  /** A slot that closes before Monday closes before the first slot does. */
  lemma ClosesBeforeHead(w: Window, j: Joining, h: nat)
    requires ProperWindow(w) && Sorted(w) && |w| > 1 && E(w[0]) >= WEEK && HeadInv(w, j)
    requires 1 <= h < |j.out| - 1
    ensures Next(j.out[h].end, B(w[0])) < E(w[0]) && Before(j.out, B(w[0]), h)
  {
    var now, s := B(w[0]), j.out[h];
    SlotOnLine(w[0]);
    SlotOnLine(s);
    SlotOnLine(j.out[h+1]);
    assert E(s) < B(j.out[h+1]);
    MiddleOrder(j.out, h);
    EndOnLine(s, now);
    EndOnLine(w[0], now);
    UnixAroundMonday(E(s), E(w[0]));
  }

  lemma UnixAroundMonday(a: Instant, b: Instant)
    requires a < WEEK <= b
    ensures Unix(a) < Unix(b)
  {
  }

  lemma {:induction false} MiddleOrder(out: Window, h: nat)
    requires ProperWindow(out) && 1 <= h < |out|
    requires forall i :: 1 <= i < |out| - 1 ==> E(out[i]) < B(out[i+1])
    ensures B(out[1]) <= B(out[h])
  {
    if h > 1 {
      MiddleOrder(out, h - 1);
      SlotOnLine(out[h-1]);
    }
  }

  /** With two or more slots behind the head, the search falls among those that close before Monday. */
  lemma LongTailIsWrong(w: Window, j: Joining)
    requires ProperWindow(w) && Sorted(w) && |w| > 1 && E(w[0]) >= WEEK
    requires j == JoinFirst(w) && HeadInv(w, j) && Joined(w) == j.out && |j.out| > 2
    ensures !RightAt(w, B(w[0]))
  {
    var out, now, n := j.out, B(w[0]), |j.out|;
    var h := n / 2;
    ClosesBeforeHead(w, j, h);
    assert Search(out, now, 0, n) == Search(out, now, 0, h);
    var i := Search(out, now, 0, h);
    assert i > 0 && Found(out, now) == i;
    ClosesBeforeHead(w, j, i);
    if RightAt(w, now) {
      AnswerAtFirstBegin(w);
    }
  }

  /** With one slot behind the head, a right answer at the first begin comes from the head. */
  lemma HeadAnswers(w: Window, j: Joining)
    requires ProperWindow(w) && |w| > 1 && E(w[0]) >= WEEK
    requires HeadInv(w, j) && Joined(w) == j.out && |j.out| == 2
    requires RightAt(w, B(w[0]))
    ensures !Before(j.out, B(w[0]), 1)
    ensures !Open(w, E(w[0]) + 1)
  {
    AnswerAtFirstBegin(w);
    FirstEnd(w);
    HeadFound(j.out, B(w[0]));
    ClosedAfterAnswer(w, B(w[0]));
  }

  lemma FirstEnd(w: Window)
    requires ProperWindow(w) && |w| > 0
    ensures Next(w[0].end, B(w[0])) == E(w[0])
  {
    SlotOnLine(w[0]);
    EndOnLine(w[0], B(w[0]));
  }

  /** Of two slots, an answer that closes no earlier than the first is the close of the first. */
  lemma HeadFound(out: Window, now: Instant)
    requires |out| == 2 && NextOpen(out, now).1 >= Next(out[0].end, now)
    ensures !Before(out, now, 1) && NextOpen(out, now).1 == Next(out[0].end, now)
  {
    SearchOfTwo(out, now);
    BeforeIsEarlier(out, now, 1);
  }

  lemma ClosedAfterAnswer(w: Window, now: Instant)
    requires ProperWindow(w) && |w| > 0 && RightAt(w, now)
    ensures !Open(w, NextOpen(Joined(w), now).1 + 1)
  {
  }

  lemma SearchOfTwo(out: Window, now: Instant)
    requires |out| == 2
    ensures Found(out, now) == if Before(out, now, 1) then 1 else 0
    ensures NextOpen(out, now).1 == Next(out[Found(out, now)].end, now)
  {
    SearchOutcome(out, now);
  }

  lemma NoneClosesLater(w: Window)
    requires ProperWindow(w) && Sorted(w) && |w| > 0 && E(w[0]) >= WEEK
    requires !Open(w, E(w[0]) + 1)
    ensures forall i :: 1 <= i < |w| ==> E(w[i]) <= E(w[0])
  {
    forall i | 1 <= i < |w| ensures E(w[i]) <= E(w[0]) {
      if E(w[i]) > E(w[0]) {
        assert B(w[i]) < WEEK by { SlotOnLine(w[i]); }
        WithinIsOpen(w, i, E(w[0]) + 1);
      }
    }
  }

  lemma SecondCloses(w: Window, s: Slot)
    requires ProperWindow(w) && |w| > 1 && ProperSlot(s)
    requires B(w[0]) <= B(s) && E(s) <= E(w[0])
    requires !Before([w[0], s], B(w[0]), 1)
    ensures Unix(E(s)) == Unix(E(w[0]))
  {
    var now := B(w[0]);
    SlotOnLine(w[0]);
    SlotOnLine(s);
    EndOnLine(w[0], now);
    EndOnLine(s, now);
    UnixMonotone(E(s), E(w[0]));
  }

  /** With one slot behind the head, the answers are right only if it closes with the head. */
  lemma ShortTail(w: Window, j: Joining)
    requires ProperWindow(w) && Sorted(w) && |w| > 1 && E(w[0]) >= WEEK
    requires j == JoinFirst(w) && HeadInv(w, j) && Joined(w) == j.out && |j.out| == 2
    requires RightAt(w, B(w[0]))
    ensures HarmlessCrossing(w)
  {
    HeadAnswers(w, j);
    NoneClosesLater(w);
    OneBehindHead(w, j);
  }

  lemma OneBehindHead(w: Window, j: Joining)
    requires ProperWindow(w) && Sorted(w) && |w| > 1 && E(w[0]) >= WEEK
    requires j == JoinFirst(w) && |j.out| == 2
    requires forall i :: 1 <= i < |w| ==> E(w[i]) <= E(w[0])
    requires !Before(j.out, B(w[0]), 1)
    ensures HarmlessCrossing(w)
  {
    var s := OneInTail(w, j);
    LatestInTail(w);
    SecondCloses(w, s);
  }

  /** The one slot behind the head is the whole tail. */
  lemma OneInTail(w: Window, j: Joining) returns (s: Slot)
    requires ProperWindow(w) && Sorted(w) && |w| > 1 && E(w[0]) >= WEEK
    requires j == JoinFirst(w) && |j.out| == 2
    requires forall i :: 1 <= i < |w| ==> E(w[i]) <= E(w[0])
    ensures ProperSlot(s) && j.out == [w[0], s] && B(w[0]) <= B(s) && E(s) == FirstClose(w[1..]) == LatestEnd(w[1..])
  {
    SlotOnLine(w[0]);
    var k := TailInvLoop(w, |w|);
    assert w[..|w|] == w && w[1..|w|] == w[1..];
    s := k.out[0];
  }

  lemma LatestInTail(w: Window)
    requires ProperWindow(w) && |w| > 1
    requires forall i :: 1 <= i < |w| ==> E(w[i]) <= E(w[0])
    ensures LatestEnd(w[1..]) <= E(w[0])
  {
    LatestAtMost(w[1..], E(w[0]));
  }

  lemma {:induction false} LatestAtMost(w: Window, m: int)
    requires ProperWindow(w) && |w| > 0
    requires forall i :: 0 <= i < |w| ==> E(w[i]) <= m
    ensures LatestEnd(w) <= m
  {
    if |w| > 1 {
      LatestAtMost(w[..|w|-1], m);
    }
  }

  lemma BeforeIsEarlier(out: Window, now: Instant, i: nat)
    requires i < |out|
    ensures Before(out, now, i) ==> Next(out[i].end, now) < Next(out[0].end, now)
  {
  }

  lemma CrossingRight(w: Window)
    requires ProperWindow(w) && Sorted(w) && GoSlots(w) && |w| > 1
    requires E(w[0]) >= WEEK && AlwaysRight(w)
    ensures HarmlessCrossing(w)
  {
    var j := HeadInvLoop(w, |w|);
    assert w[..|w|] == w;
    WrapBehindHead(w, j);
    GoOnLine(w[0]);
    assert RightAt(w, B(w[0]));
    if WrapAround(j) != j.out {
      var c := IngestedSlot(w, j);
      forall i | 1 <= i < |w| ensures E(w[i]) <= E(w[0]) {
        if E(w[i]) > E(w[0]) {
          var x := LaterEndIsLost(w, [c], i);
          LostIsWrong(w, x);
        }
      }
      LuckyTieNeeded(w, j);
    } else if |j.out| > 2 {
      LongTailIsWrong(w, j);
    } else {
      ShortTail(w, j);
    }
  }

  // ---------- Harmless crossings ----------

  /** A second slot that lies in the first and closes in the same second never changes the answer. */
  lemma SameSecondSameAnswer(f: Slot, s: Slot, now: Instant)
    requires ProperSlot(f) && ProperSlot(s) && B(f) <= B(s) && E(s) <= E(f) && Unix(E(s)) == Unix(E(f))
    ensures NextOpen([f, s], now) == NextOpen([f], now)
  {
    var n := WeekOfClose(f, now);
    SlotOnLine(f);
    SlotOnLine(s);
    EndAt(f, n, now);
    EndAt(s, if now <= E(s) + n * WEEK then n else n + 1, now);
    UnixOfWeeks(E(s), n);
    UnixOfWeeks(E(f), n);
    UnixMonotone(Next(f.end, now), Next(f.end, now));
    if now > E(s) + n * WEEK {
      UnixMonotone(Next(f.end, now), Next(s.end, now));
    }
    assert !Before([f, s], now, 1);
    SearchOutcome([f, s], now);
  }

  lemma HarmlessIsRight(w: Window)
    requires ProperWindow(w) && Sorted(w) && GoSlots(w) && |w| > 1 && HarmlessCrossing(w)
    ensures AlwaysRight(w)
  {
    if LuckyTie(w) {
      LuckyTieSuffices(w);
      WellJoinedIsRight(w);
    } else {
      var s := HeadAndTail(w);
      SlotOnLine(w[0]);
      TailEndsBefore(w, E(w[0]));
      FirstSlotOpensAll(w, [w[0]]);
      forall now ensures RightAt(w, now) {
        SameSecondSameAnswer(w[0], s, now);
        NextIsLeastOpen([w[0]], now);
        SameOpenSameRight([w[0]], w, now, NextOpen([w[0]], now).0, NextOpen([w[0]], now).1);
      }
    }
  }

  /** Without a tie the head stays before the one slot of the tail. */
  lemma HeadAndTail(w: Window) returns (s: Slot)
    requires ProperWindow(w) && Sorted(w) && |w| > 1 && HarmlessCrossing(w) && !LuckyTie(w)
    ensures Joined(w) == [w[0], s] && ProperSlot(s)
    ensures B(w[0]) <= B(s) && E(s) <= E(w[0]) && Unix(E(s)) == Unix(E(w[0]))
  {
    SlotOnLine(w[0]);
    TailEndsBefore(w, E(w[0]));
    var j := TailInvLoop(w, |w|);
    assert w[..|w|] == w && w[1..|w|] == w[1..];
    SlotOnLine(j.out[|j.out|-1]);
    if |j.out| > 1 {
      FirstEndsBeforeLast(j.out);
    }
    s := j.out[0];
    assert [w[0]] + j.out == [w[0], s];
    NoWrapBehindHead(w, s, j.clock);
  }

  lemma NoWrapBehindHead(w: Window, s: Slot, clock: Instant)
    requires ProperWindow(w) && |w| > 1 && ProperSlot(s) && clock == B(w[1]) == B(s) && B(w[0]) <= B(s)
    requires E(s) <= E(w[0]) && (B(w[1]) == B(w[0]) ==> E(s) == E(w[0]))
    ensures WrapAround(Joining([w[0], s], clock)) == [w[0], s]
  {
    SlotOnLine(w[0]);
    SlotOnLine(s);
    EndOnLine(s, clock);
    if B(w[1]) == B(w[0]) {
      EndOnLine(w[0], clock);
    } else {
      BeginAt(w[0], 1, clock);
    }
  }

  // ---------- The exact condition ----------

  /** The joined window answers right at every instant if and only if there is one slot, or G and H hold and the
      seconds of the joined closes tell, or the first slot crosses Monday 00:00 harmlessly. */
  lemma NextExact(w: Window)
    requires ProperWindow(w) && Sorted(w) && GoSlots(w) && |w| > 0
    ensures AlwaysRight(w) <==>
              || |w| == 1
              || (ClosedBeforeMonday(w) && FirstNotSwallowed(w) && JoinedTells(w))
              || HarmlessCrossing(w)
  {
    if |w| == 1 {
      JoinedSingle(w);
      WellJoinedIsRight(w);
    } else if ClosedBeforeMonday(w) {
      ClosedMeansNoCrossing(w);
      JoinedUnderG(w);
      if FirstNotSwallowed(w) {
        WellJoinedIsRight(w);
      } else {
        var x :| B(w[0]) < x < WEEK && !Open(w, x);
        SwallowedIsWrong(w, x);
      }
    } else if E(w[0]) < WEEK {
      var y := OpenTillMondayIsLost(w);
      LostIsWrong(w, y);
    } else if HarmlessCrossing(w) {
      HarmlessIsRight(w);
    } else if AlwaysRight(w) {
      CrossingRight(w);
    }
  }

  /** For slots in whole seconds they always tell. */
  lemma SecondsAlwaysTell(w: Window)
    requires ProperWindow(w) && Sorted(w) && WholeSeconds(w) && |w| > 0
    requires ClosedBeforeMonday(w) && FirstNotSwallowed(w)
    ensures JoinedTells(w)
  {
    JoinedUnderG(w);
    JoinFirstSeconds(w);
    WholeSecondsTell(Joined(w));
  }

  lemma {:induction false} JoinFirstSeconds(w: Window)
    requires |w| > 0 && WholeSeconds(w)
    ensures WholeSeconds(JoinFirst(w).out)
  {
    if |w| > 1 {
      JoinFirstSeconds(w[..|w|-1]);
    }
  }
}
