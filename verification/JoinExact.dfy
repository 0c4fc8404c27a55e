/** Exactly which begin-sorted windows joinSlots brings into normal form. */
module JoinExact {
  import opened WeekTime
  import opened Slots
  import opened JoinSlots
  import opened JoinCorrect

  /** What joinSlots is for: the same open instants, in pairwise disjoint slots. */
  ghost predicate WellJoined(w: Window)
    requires ProperWindow(w) && |w| > 0
  {
    var r := Joined(w);
    ProperWindow(r) && Normal(r) && SameOpen(r, w)
  }

  /** The one lucky case outside of G: the first slot crosses Monday 00:00 and the rest, which opens
      at the same instant, is one stretch that closes before it. */
  predicate LuckyTie(w: Window)
    requires ProperWindow(w) && |w| > 1
  {
    && E(w[0]) >= WEEK
    && B(w[1]) == B(w[0])
    && FirstClose(w[1..]) == LatestEnd(w[1..]) < E(w[0])
  }

  // ---------- Under G ----------

  lemma JoinedUnderG(w: Window)
    requires ProperWindow(w) && Sorted(w) && |w| > 0
    requires ClosedBeforeMonday(w)
    ensures ProperWindow(Joined(w)) && SameOpen(Joined(w), w)
    ensures Normal(Joined(w)) <==> FirstNotSwallowed(w)
  {
    var x :| B(w[0]) < x < WEEK && !Open(w, x);
    var j := JoinLoopKeepsInv(w, |w|, x);
    assert w[..|w|] == w;
    WrapKeepsOpen(w, j);
    WrapNormal(w, j);
  }

  lemma JoinedSingle(w: Window)
    requires ProperWindow(w) && |w| == 1
    ensures WellJoined(w)
  {
    SlotOnLine(w[0]);
    assert Joined(w) == w;
  }

  // ---------- Without G, when the first slot closes before Monday ----------

  /** What the loop keeps on any slots whatever, if the first closes before Monday 00:00. */
  ghost predicate WeakInv(w: Window, j: Joining)
    requires ProperWindow(w) && |w| > 0
  {
    var out := j.out;
    && |out| > 0
    && ProperWindow(out)
    && GoSlots(out)
    && B(out[0]) == B(w[0])
    && E(out[0]) < WEEK
    && (forall i :: 0 <= i < |out| - 1 ==> E(out[i]) < B(out[i+1]))
    && j.clock == (if |out| == 1 then 0 else B(out[|out|-1]))
    && j.clock <= B(w[|w|-1])
  }

  lemma WeakInvStep(w: Window, j: Joining, s: Slot)
    requires |w| > 0 && ProperWindow(w) && ProperSlot(s) && GoSlot(s) && WeakInv(w, j)
    requires B(w[0]) <= B(w[|w|-1]) <= B(s)
    ensures ProperWindow(w + [s]) && WeakInv(w + [s], JoinOne(j, s))
  {
    var t, c := j.clock, j.out[|j.out|-1];
    SlotOnLine(s);
    SlotOnLine(c);
    BeginOnLine(s, t);
    EndOnLine(c, t);
    TurnMovesClose(c, s, t);
    WeakInvFrom(w, j, s, Next(s.end, t) > E(c), JoinOne(j, s));
  }

  lemma WeakInvFrom(w: Window, j: Joining, s: Slot, moves: bool, r: Joining)
    requires |w| > 0 && ProperWindow(w) && ProperSlot(s) && GoSlot(s) && WeakInv(w, j)
    requires B(w[0]) <= B(w[|w|-1]) <= B(s)
    requires
      var last := |j.out| - 1; var c := j.out[last];
      && r == (if B(s) > E(c) then Joining(j.out + [s], B(s))
               else if moves then Joining(j.out[last := c.(end := s.end)], j.clock) else j)
      && (moves ==> ProperSlot(c.(end := s.end)) && (j.clock == 0 ==> E(c.(end := s.end)) < WEEK))
    ensures ProperWindow(w + [s]) && WeakInv(w + [s], r)
  {
    SlotOnLine(s);
    SlotOnLine(w[0]);
  }

  lemma TurnMovesClose(c: Slot, s: Slot, t: Instant)
    requires ProperSlot(c) && ProperSlot(s) && (t == B(c) || (t == 0 && B(c) <= E(c) < WEEK))
    ensures Next(s.end, t) > Next(c.end, t) ==> ProperSlot(c.(end := s.end)) && (t == 0 ==> E(c.(end := s.end)) < WEEK)
  {
    SlotOnLine(c);
    EndOnLine(c, t);
    NextIsLeast(s.end, t);
    NextAtLeast(Pos(s.end), t);
    if Next(s.end, t) > Next(c.end, t) {
      EndReplaced(c, s, t);
    }
  }

  /** The last output slot takes the close of `s`, which comes later after the clock. */
  lemma EndReplaced(c: Slot, s: Slot, t: Instant)
    requires ProperSlot(c) && ProperSlot(s)
    requires t == B(c) || (t == 0 && B(c) < NextAt(Pos(s.end), 0))
    requires NextAt(Pos(s.end), t) > t
    ensures ProperSlot(c.(end := s.end))
    ensures t == 0 && B(c) < NextAt(Pos(s.end), 0) ==> E(c.(end := s.end)) < WEEK
  {
    PosInWeek(s.end);
    PosInWeek(c.begin);
  }

  lemma WeakInvBase(w: Window) returns (j: Joining)
    requires ProperWindow(w) && |w| > 0 && GoSlots(w) && E(w[0]) < WEEK
    ensures j == JoinFirst(w[..1]) && WeakInv(w[..1], j)
  {
    SlotOnLine(w[0]);
    j := Joining(w[..1], 0);
  }

  lemma WeakInvTurn(w: Window, n: nat, j: Joining)
    requires ProperWindow(w) && Sorted(w) && GoSlots(w) && 0 < n < |w|
    requires WeakInv(w[..n], j)
    ensures ProperWindow(w[..n] + [w[n]]) && WeakInv(w[..n] + [w[n]], JoinOne(j, w[n]))
  {
    assert w[..n][n-1] == w[n-1];
    WeakInvStep(w[..n], j, w[n]);
  }

  lemma {:induction false} WeakInvLoop(w: Window, n: nat) returns (j: Joining)
    requires ProperWindow(w) && Sorted(w) && GoSlots(w) && 0 < n <= |w|
    requires E(w[0]) < WEEK
    ensures j == JoinFirst(w[..n]) && WeakInv(w[..n], j)
  {
    if n == 1 {
      j := WeakInvBase(w);
    } else {
      var i := WeakInvLoop(w, n - 1);
      WeakInvTurn(w, n - 1, i);
      j := JoinOne(i, w[n-1]);
      JoinFirstUnfolds(w, n);
    }
  }

  /** The instant just before the last output slot, or just after the only one, is closed. */
  function LastGap(j: Joining): Instant
    requires |j.out| > 0 && ProperWindow(j.out)
  {
    if |j.out| == 1 then E(j.out[0]) + 1 else B(j.out[|j.out|-1]) - 1
  }

  lemma EndsBeforeLastGap(out: Window, i: nat)
    requires ProperWindow(out) && GoSlots(out) && i < |out| - 1
    requires forall k :: 0 <= k < |out| - 1 ==> E(out[k]) < B(out[k+1])
    ensures E(out[i]) < B(out[|out|-1]) - 1
  {
    var n := |out| - 2;
    EndsGrow(out[..n+1], i);
    GapBetween(out[n], out[n+1]);
  }

  lemma LastGapInWeek(w: Window, j: Joining)
    requires |w| > 0 && ProperWindow(w) && WeakInv(w, j)
    ensures B(w[0]) < LastGap(j) < WEEK
    ensures forall i :: 0 <= i < |j.out| - 1 ==> E(j.out[i]) < LastGap(j)
    ensures LastGap(j) + WEEK > E(j.out[|j.out|-1])
    ensures |j.out| == 1 ==> E(j.out[0]) < LastGap(j)
  {
    var out, last := j.out, |j.out| - 1;
    SlotOnLine(out[0]);
    if last == 0 {
      GapInWeek(out[0]);
    } else {
      BeforeBegin(out[last]);
      forall i | 0 <= i < last ensures E(out[i]) < LastGap(j) {
        EndsBeforeLastGap(out, i);
      }
    }
  }

  lemma BeforeBegin(s: Slot)
    requires ProperSlot(s) && GoSlot(s)
    ensures B(s) - 1 < WEEK && B(s) - 1 + WEEK > E(s)
  {
    SlotOnLine(s);
    GapInWeek(s);
  }

  lemma LastGapClosed(w: Window, j: Joining)
    requires |w| > 0 && ProperWindow(w) && WeakInv(w, j)
    ensures !Open(j.out, LastGap(j))
  {
    var out, y := j.out, LastGap(j);
    LastGapInWeek(w, j);
    EndsGrowAll(out);
    forall i | 0 <= i < |out| ensures !OpenAt(out[i], y) {
      OpenOnLine(out[i], y);
    }
  }

  lemma EndsGrowAll(out: Window)
    requires ProperWindow(out) && |out| > 0
    requires forall i :: 0 <= i < |out| - 1 ==> E(out[i]) < B(out[i+1])
    ensures forall i :: 0 <= i < |out| ==> E(out[i]) <= E(out[|out|-1])
  {
    forall i | 0 <= i < |out| ensures E(out[i]) <= E(out[|out|-1]) {
      EndsGrow(out, i);
    }
  }

  /** It stays closed as well when the last slot takes the close of the first. */
  lemma LastGapStaysClosed(w: Window, j: Joining)
    requires |w| > 0 && ProperWindow(w) && WeakInv(w, j)
    ensures ProperWindow(WrapAround(j)) && !Open(WrapAround(j), LastGap(j))
  {
    var out, last, y := j.out, |j.out| - 1, LastGap(j);
    LastGapClosed(w, j);
    var r := WrapAround(j);
    if r != out {
      var c := out[last].(end := out[0].end);
      assert r == out[last := c][1..];
      FirstEndsBeforeLast(out);
      SlotOnLine(out[0]);
      EndMovedWeek(out[last], out[0]);
      LastGapInWeek(w, j);
      forall i | 0 <= i < |r| ensures ProperSlot(r[i]) && !OpenAt(r[i], y) {
        if i == last - 1 {
          OpenOnLine(c, y);
        } else {
          assert r[i] == out[i+1];
        }
      }
    }
  }

  /** When all instants from the first begin to Monday are open and yet the first slot does not cross
      Monday, joinSlots closes some of them. */
  lemma OpenTillMondayIsLost(w: Window) returns (y: Instant)
    requires ProperWindow(w) && Sorted(w) && GoSlots(w) && |w| > 0
    requires E(w[0]) < WEEK && !ClosedBeforeMonday(w)
    ensures Open(w, y) && ProperWindow(Joined(w)) && !Open(Joined(w), y)
  {
    var j := WeakInvLoop(w, |w|);
    assert w[..|w|] == w;
    y := LastGap(j);
    LastGapInWeek(w, j);
    LastGapStaysClosed(w, j);
  }

  // ---------- Without G, when the first slot crosses Monday ----------

  /** The first slot then stays alone at the head of the output. */
  ghost predicate HeadInv(w: Window, j: Joining)
    requires ProperWindow(w) && |w| > 1
  {
    var out, last := j.out, |j.out| - 1;
    && last >= 1
    && ProperWindow(out)
    && out[0] == w[0]
    && B(out[1]) == B(w[1])
    && j.clock == B(out[last])
    && B(w[1]) <= j.clock <= B(w[|w|-1])
    && (last > 1 ==> B(w[1]) < j.clock)
    && (forall i :: 1 <= i < last ==> E(out[i]) < B(out[i+1]))
  }

  lemma HeadInvStep(w: Window, j: Joining, s: Slot)
    requires |w| > 1 && ProperWindow(w) && ProperSlot(s) && HeadInv(w, j)
    requires B(w[|w|-1]) <= B(s)
    ensures ProperWindow(w + [s]) && HeadInv(w + [s], JoinOne(j, s))
  {
    var c, t := j.out[|j.out|-1], j.clock;
    TurnBehindHead(c, s, t);
    HeadInvFrom(w, j, s, Next(s.end, t) > E(c), JoinOne(j, s));
  }

  /** The turn told by what it compares. */
  lemma HeadInvFrom(w: Window, j: Joining, s: Slot, moves: bool, r: Joining)
    requires |w| > 1 && ProperWindow(w) && ProperSlot(s) && HeadInv(w, j) && B(w[|w|-1]) <= B(s)
    requires
      var last := |j.out| - 1; var c := j.out[last];
      && r == (if B(s) > E(c) then Joining(j.out + [s], B(s))
               else if moves then Joining(j.out[last := c.(end := s.end)], j.clock) else j)
      && (B(s) <= E(c) && moves ==> ProperSlot(c.(end := s.end)))
    ensures ProperWindow(w + [s]) && HeadInv(w + [s], r)
  {
    SlotOnLine(s);
    SlotOnLine(j.out[|j.out|-1]);
  }

  /** The code of a turn when the clock stands at the begin of the last output slot. */
  lemma TurnBehindHead(c: Slot, s: Slot, t: Instant)
    requires ProperSlot(c) && ProperSlot(s) && t == B(c) <= B(s)
    ensures Next(s.begin, t) == B(s) && Next(c.end, t) == E(c)
    ensures B(s) <= E(c) && Next(s.end, t) > E(c) ==> ProperSlot(c.(end := s.end))
  {
    SlotOnLine(s);
    SlotOnLine(c);
    BeginOnLine(s, t);
    EndOnLine(c, t);
    NextIsLeast(s.end, t);
    NextAtLeast(Pos(s.end), t);
    if B(s) <= E(c) && Next(s.end, t) > E(c) {
      EndReplaced(c, s, t);
    }
  }

  lemma SecondAppended(w: Window)
    requires ProperWindow(w) && Sorted(w) && |w| > 1 && E(w[0]) >= WEEK
    ensures JoinFirst(w[..2]) == Joining(w[..2], B(w[1]))
  {
    JoinFirstUnfolds(w, 2);
    assert JoinFirst(w[..1]) == Joining(w[..1], 0);
    SlotOnLine(w[0]);
    SlotOnLine(w[1]);
    BeginOnLine(w[1], 0);
    NextIsLeast(w[0].end, 0);
    NextAtUnique(Pos(w[0].end), 0, E(w[0]) - WEEK);
  }

  lemma HeadInvBase(w: Window) returns (j: Joining)
    requires ProperWindow(w) && Sorted(w) && |w| > 1 && E(w[0]) >= WEEK
    ensures j == JoinFirst(w[..2]) && HeadInv(w[..2], j)
  {
    j := Joining(w[..2], B(w[1]));
    SecondAppended(w);
  }

  lemma {:induction false} HeadInvLoop(w: Window, n: nat) returns (j: Joining)
    requires ProperWindow(w) && Sorted(w) && 1 < n <= |w|
    requires E(w[0]) >= WEEK
    ensures j == JoinFirst(w[..n]) && HeadInv(w[..n], j)
  {
    if n == 2 {
      j := HeadInvBase(w);
    } else {
      var i := HeadInvLoop(w, n - 1);
      HeadInvTurn(w, n - 1, i);
      j := JoinOne(i, w[n-1]);
      JoinFirstUnfolds(w, n);
    }
  }

  lemma HeadInvTurn(w: Window, n: nat, j: Joining)
    requires ProperWindow(w) && Sorted(w) && 1 < n < |w|
    requires HeadInv(w[..n], j)
    ensures ProperWindow(w[..n] + [w[n]]) && HeadInv(w[..n] + [w[n]], JoinOne(j, w[n]))
  {
    assert w[..n][n-1] == w[n-1];
    HeadInvStep(w[..n], j, w[n]);
  }

  /** The slots after the first are joined on their own, with the clock at the second begin. */
  lemma {:induction false} TailInvLoop(w: Window, n: nat) returns (j: Joining)
    requires ProperWindow(w) && Sorted(w) && 1 < n <= |w|
    requires E(w[0]) >= WEEK
    requires forall i :: 1 <= i < |w| ==> E(w[i]) < B(w[1]) + WEEK
    ensures JoinInv(w[1..n], j, B(w[1]))
    ensures JoinFirst(w[..n]) == Joining([w[0]] + j.out, j.clock)
  {
    if n == 2 {
      j := TailInvBase(w);
    } else {
      var i := TailInvLoop(w, n - 1);
      TailInvTurn(w, n - 1, i);
      j := JoinOne(i, w[n-1]);
      JoinFirstUnfolds(w, n);
      JoinOneBehind(w[0], i, w[n-1]);
      assert w[1..n] == w[1..n-1] + [w[n-1]];
    }
  }

  lemma TailInvBase(w: Window) returns (j: Joining)
    requires ProperWindow(w) && Sorted(w) && |w| > 1 && E(w[0]) >= WEEK
    ensures JoinInv(w[1..2], j, B(w[1]))
    ensures JoinFirst(w[..2]) == Joining([w[0]] + j.out, j.clock)
  {
    SecondAppended(w);
    SlotOnLine(w[1]);
    JoinInvFirst(w[1..2], B(w[1]));
    j := Joining(w[1..2], B(w[1]));
    assert w[..2] == [w[0]] + w[1..2];
  }

  lemma TailInvTurn(w: Window, n: nat, j: Joining)
    requires ProperWindow(w) && Sorted(w) && 1 < n < |w|
    requires forall i :: 1 <= i < |w| ==> E(w[i]) < B(w[1]) + WEEK
    requires JoinInv(w[1..n], j, B(w[1]))
    ensures ProperWindow(w[1..n] + [w[n]]) && JoinInv(w[1..n] + [w[n]], JoinOne(j, w[n]), B(w[1]))
  {
    var v := w[1..n];
    assert v[|v|-1] == w[n-1];
    FirstBeginLeast(j.out);
    JoinOneInv(v, j, w[n], B(w[1]));
  }

  lemma FirstBeginLeast(out: Window)
    requires ProperWindow(out) && |out| > 0
    requires forall i :: 0 <= i < |out| - 1 ==> E(out[i]) < B(out[i+1])
    ensures B(out[0]) <= B(out[|out|-1])
  {
    if |out| > 1 {
      FirstEndsBeforeLast(out);
      SlotOnLine(out[0]);
    }
  }

  /** A slot in front does not change what one turn does. */
  lemma JoinOneBehind(f: Slot, j: Joining, s: Slot)
    requires |j.out| > 0
    ensures JoinOne(Joining([f] + j.out, j.clock), s) == Joining([f] + JoinOne(j, s).out, JoinOne(j, s).clock)
  {
    var c := j.out[|j.out|-1].(end := s.end);
    assert [f] + (j.out + [s]) == ([f] + j.out) + [s];
    assert [f] + j.out[|j.out|-1 := c] == ([f] + j.out)[|j.out| := c];
  }

  /** The wrap-around step on an output headed by a first slot that crosses Monday. */
  lemma WrapBehindHead(w: Window, j: Joining)
    requires ProperWindow(w) && |w| > 1 && B(w[0]) <= B(w[1]) && E(w[0]) >= WEEK && HeadInv(w, j)
    ensures
      || WrapAround(j) == j.out
      || (&& |j.out| == 2 && j.clock == B(w[0]) == B(w[1])
          && Next(j.out[1].end, j.clock) < E(w[0])
          && WrapAround(j) == [j.out[1].(end := w[0].end)])
  {
    var out, t, cur := j.out, j.clock, |j.out| - 1;
    SlotOnLine(w[0]);
    SlotOnLine(w[1]);
    EndOnLine(w[0], t);
    NextIsLeast(out[cur].end, t);
    NextAtLeast(Pos(out[cur].end), t);
    if B(w[0]) < t {
      BeginNextWeek(w[0], t);
    } else if WrapAround(j) != out {
      assert out[1 := out[1].(end := w[0].end)][1..] == [out[1].(end := w[0].end)];
    }
  }

  /** With the first slot crossing Monday, the output as it is has slots that overlap. */
  lemma HeadOverlaps(w: Window, j: Joining)
    requires ProperWindow(w) && |w| > 1 && E(w[0]) >= WEEK && HeadInv(w, j)
    ensures !Normal(j.out)
  {
    SlotOnLine(j.out[1]);
    assert !(E(j.out[0]) < B(j.out[1]));
  }

  /** An output of the first slot alone opens too little when some slot closes after it. */
  lemma LaterEndIsLost(w: Window, r: Window, i: nat) returns (x: Instant)
    requires ProperWindow(w) && GoSlots(w) && 0 < i < |w| && B(w[0]) <= B(w[i])
    requires ProperWindow(r) && |r| == 1 && B(r[0]) == B(w[0]) && E(r[0]) == E(w[0])
    requires WEEK <= E(w[0]) < E(w[i])
    ensures Open(w, x) && !Open(r, x)
  {
    x := JustAfter(w[0], w[i]);
    AtSamePlaces(r[0], w[0], x);
  }

  lemma JustAfter(f: Slot, s: Slot) returns (x: Instant)
    requires ProperSlot(f) && ProperSlot(s) && GoSlot(f)
    requires B(f) <= B(s) && WEEK <= E(f) < E(s)
    ensures 0 <= x < WEEK && OpenAt(s, x) && !OpenAt(f, x)
  {
    x := E(f) + 1 - WEEK;
    ClosedJustAfter(f);
    OpenAfter(s, E(f) + 1);
  }

  lemma ClosedJustAfter(f: Slot)
    requires ProperSlot(f) && GoSlot(f) && WEEK <= E(f)
    ensures 0 <= E(f) + 1 - WEEK < B(f) && !OpenAt(f, E(f) + 1 - WEEK)
  {
    SlotOnLine(f);
    GapInWeek(f);
    OpenOnLine(f, E(f) + 1 - WEEK);
  }

  lemma OpenAfter(s: Slot, y: Instant)
    requires ProperSlot(s) && WEEK < y <= E(s)
    ensures OpenAt(s, y - WEEK)
  {
    SlotOnLine(s);
    OpenOnLine(s, y - WEEK);
  }

  lemma AtSamePlaces(r: Slot, s: Slot, x: Instant)
    requires ProperSlot(r) && ProperSlot(s) && 0 <= x < WEEK
    requires B(r) == B(s) && E(r) == E(s)
    ensures OpenAt(r, x) <==> OpenAt(s, x)
  {
    OpenOnLine(r, x);
    OpenOnLine(s, x);
  }

  /** The first slot alone opens all that the others open, when they close before it. */
  lemma FirstSlotOpensAll(w: Window, r: Window)
    requires ProperWindow(w) && Sorted(w) && |w| > 0
    requires ProperWindow(r) && |r| == 1 && B(r[0]) == B(w[0]) && E(r[0]) == E(w[0])
    requires forall i :: 0 <= i < |w| ==> E(w[i]) <= E(w[0])
    ensures SameOpen(r, w)
  {
    forall y ensures Covered(r, y) <==> Covered(w, y) {
      if Covered(r, y) {
        assert Covers(w[0], y);
      }
      if Covered(w, y) {
        var k :| 0 <= k < |w| && Covers(w[k], y);
        assert B(w[0]) <= B(w[k]);
        assert Covers(r[0], y);
      }
    }
    SameOpenFromLine(r, w);
  }

  lemma {:induction false} LatestEndIsMost(w: Window, i: nat)
    requires ProperWindow(w) && i < |w|
    ensures E(w[i]) <= LatestEnd(w)
  {
    if i < |w| - 1 {
      LatestEndIsMost(w[..|w|-1], i);
    }
  }

  lemma TailEndsBefore(w: Window, m: int)
    requires ProperWindow(w) && |w| > 1 && LatestEnd(w[1..]) <= m
    ensures forall i :: 1 <= i < |w| ==> E(w[i]) <= m
  {
    forall i | 1 <= i < |w| ensures E(w[i]) <= m {
      LatestEndIsMost(w[1..], i - 1);
      assert w[1..][i-1] == w[i];
    }
  }

  lemma LuckyTieSuffices(w: Window)
    requires ProperWindow(w) && Sorted(w) && |w| > 1 && LuckyTie(w)
    ensures WellJoined(w)
    ensures |Joined(w)| == 1
  {
    SlotOnLine(w[0]);
    TailEndsBefore(w, LatestEnd(w[1..]));
    var j := TailInvLoop(w, |w|);
    assert w[..|w|] == w && w[1..|w|] == w[1..];
    LuckyWrap(w, j);
    FirstSlotOpensAll(w, Joined(w));
  }

  lemma LuckyWrap(w: Window, j: Joining)
    requires ProperWindow(w) && |w| > 1 && LuckyTie(w)
    requires JoinInv(w[1..], j, B(w[1]))
    ensures
      var r := WrapAround(Joining([w[0]] + j.out, j.clock));
      ProperWindow(r) && Normal(r) && |r| == 1 && B(r[0]) == B(w[0]) && E(r[0]) == E(w[0])
  {
    SlotOnLine(j.out[|j.out|-1]);
    if |j.out| > 1 {
      FirstEndsBeforeLast(j.out);
    }
    assert j.out == [j.out[0]];
    WrapTied(w[0], j.out[0], j.clock);
  }

  /** A tail slot that opens with the head and closes before it takes the close of the head. */
  lemma WrapTied(f: Slot, s: Slot, t: Instant)
    requires ProperSlot(f) && ProperSlot(s) && t == B(f) == B(s) && E(s) < E(f)
    ensures
      var r := WrapAround(Joining([f] + [s], t));
      ProperWindow(r) && Normal(r) && |r| == 1 && B(r[0]) == B(f) && E(r[0]) == E(f)
  {
    var out, c := [f] + [s], s.(end := f.end);
    SlotOnLine(f);
    SlotOnLine(s);
    BeginOnLine(f, t);
    EndOnLine(s, t);
    EndOnLine(f, t);
    EndMoved(s, f);
    assert out[1 := c][1..] == [c];
    SlotOnLine(c);
  }

  /** If the last output slot took the close of the first and no slot closes later, the tie was lucky. */
  lemma LuckyTieNeeded(w: Window, j: Joining)
    requires ProperWindow(w) && Sorted(w) && |w| > 1 && E(w[0]) >= WEEK
    requires j == JoinFirst(w) && HeadInv(w, j)
    requires |j.out| == 2 && j.clock == B(w[0]) == B(w[1]) && Next(j.out[1].end, j.clock) < E(w[0])
    requires forall i :: 1 <= i < |w| ==> E(w[i]) <= E(w[0])
    ensures LuckyTie(w)
  {
    SlotOnLine(w[0]);
    var k := TailInvLoop(w, |w|);
    assert w[..|w|] == w && w[1..|w|] == w[1..];
    assert j.out[1] == k.out[0];
    SlotOnLine(k.out[0]);
    EndOnLine(k.out[0], j.clock);
  }

  lemma IngestedSlot(w: Window, j: Joining) returns (c: Slot)
    requires ProperWindow(w) && |w| > 1 && E(w[0]) >= WEEK && HeadInv(w, j)
    requires |j.out| == 2 && j.clock == B(w[0]) == B(w[1])
    ensures c == j.out[1].(end := w[0].end) && ProperSlot(c) && B(c) == B(w[0]) && E(c) == E(w[0])
  {
    SlotOnLine(w[0]);
    EndMoved(j.out[1], w[0]);
    c := j.out[1].(end := w[0].end);
  }

  lemma CrossingWellJoined(w: Window)
    requires ProperWindow(w) && Sorted(w) && GoSlots(w) && |w| > 1
    requires E(w[0]) >= WEEK && WellJoined(w)
    ensures LuckyTie(w)
  {
    var j := HeadInvLoop(w, |w|);
    assert w[..|w|] == w;
    WrapBehindHead(w, j);
    HeadOverlaps(w, j);
    var c := IngestedSlot(w, j);
    forall i | 1 <= i < |w| ensures E(w[i]) <= E(w[0]) {
      if E(w[i]) > E(w[0]) {
        var _ := LaterEndIsLost(w, [c], i);
      }
    }
    LuckyTieNeeded(w, j);
  }

  // ---------- The exact condition ----------

  /** joinSlots gives a pairwise disjoint window with the same open instants if and only if there is one
      slot, or G and H hold, or the tie at the first begin is a lucky one. */
  lemma JoinExact(w: Window)
    requires ProperWindow(w) && Sorted(w) && GoSlots(w) && |w| > 0
    ensures WellJoined(w) <==>
              || |w| == 1
              || (ClosedBeforeMonday(w) && FirstNotSwallowed(w))
              || LuckyTie(w)
  {
    if |w| == 1 {
      JoinedSingle(w);
    } else if ClosedBeforeMonday(w) {
      JoinedUnderG(w);
      ClosedMeansNoCrossing(w);
    } else if E(w[0]) < WEEK {
      var _ := OpenTillMondayIsLost(w);
    } else if LuckyTie(w) {
      LuckyTieSuffices(w);
    } else if WellJoined(w) {
      CrossingWellJoined(w);
    }
  }

  lemma ClosedMeansNoCrossing(w: Window)
    requires ProperWindow(w) && |w| > 0 && ClosedBeforeMonday(w)
    ensures E(w[0]) < WEEK
  {
    SlotOnLine(w[0]);
    var x :| B(w[0]) < x < WEEK && !Open(w, x);
    ClosedNotCovered(w, x, x, 0);
  }
}
