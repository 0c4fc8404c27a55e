/** joinSlots: merging begin-sorted slots with a rolling clock, and the wrap-around step. */
module JoinSlots {
  import opened WeekTime
  import opened Slots

  // ---------- The function that the loop computes ----------

  datatype Joining = Joining(out: Window, clock: Instant)

  /** One turn of the loop of joinSlots on the slot `s`. */
  function JoinOne(j: Joining, s: Slot): Joining
    requires |j.out| > 0
  {
    var cur := |j.out| - 1;
    var b := Next(s.begin, j.clock);
    var e := Next(j.out[cur].end, j.clock);
    if b > e then Joining(j.out + [s], b)
    else if Next(s.end, j.clock) > e then Joining(j.out[cur := j.out[cur].(end := s.end)], j.clock)
    else j
  }

  function JoinFirst(w: Window): (j: Joining)
    requires |w| > 0
    ensures |j.out| > 0
  {
    if |w| == 1 then Joining(w, 0) else JoinOne(JoinFirst(w[..|w|-1]), w[|w|-1])
  }

  /** Wrap around and let the last element ingest the first. */
  function WrapAround(j: Joining): Window
    requires |j.out| > 0
  {
    var out, cur := j.out, |j.out| - 1;
    if cur == 0 then out else
      var b := Next(out[0].begin, j.clock);
      var e := Next(out[cur].end, j.clock);
      if b <= e && Next(out[0].end, j.clock) > e then
        out[cur := out[cur].(end := out[0].end)][1..]
      else out
  }

  function Joined(w: Window): Window
    requires |w| > 0
  {
    WrapAround(JoinFirst(w))
  }

  // ---------- joinSlots itself ----------

  lemma JoinTurn(w: Window, i: nat)
    requires 0 < i < |w|
    ensures JoinFirst(w[..i+1]) == JoinOne(JoinFirst(w[..i]), w[i])
  {
    assert w[..i+1][..i] == w[..i];
  }

  method Join(w: Window) returns (r: Window)
    requires |w| > 0
    ensures r == Joined(w)
  {
    var out := [w[0]];
    var t := 0;
    assert w[..1] == [w[0]];
    var i := 1;
    while i < |w|
      invariant 1 <= i <= |w|
      invariant JoinFirst(w[..i]) == Joining(out, t)
    {
      JoinTurn(w, i);
      var cur := |out| - 1;
      var b := Next(w[i].begin, t);
      var e := Next(out[cur].end, t);
      if b > e {
        out := out + [w[i]];
        t := b;
      } else {
        var ew := Next(w[i].end, t);
        if ew > e {
          out := out[cur := out[cur].(end := w[i].end)];
        }
      }
      i := i + 1;
    }
    assert w[..i] == w;
    if |out| > 1 {
      var cur := |out| - 1;
      var b := Next(out[0].begin, t);
      var e := Next(out[cur].end, t);
      if b <= e {
        var ew := Next(out[0].end, t);
        if ew > e {
          out := out[cur := out[cur].(end := out[0].end)];
          out := out[1..];
        }
      }
    }
    r := out;
  }

  // ---------- What a window has to look like ----------

  predicate Sorted(w: Window)
    requires ProperWindow(w)
  {
    forall i, j :: 0 <= i < j < |w| ==> B(w[i]) <= B(w[j])
  }

  /** Pairwise disjoint, with begins and ends strictly increasing around the circle. */
  predicate Normal(w: Window)
    requires ProperWindow(w)
  {
    && |w| > 0
    && (forall i :: 0 <= i < |w| - 1 ==> E(w[i]) < B(w[i+1]))
    && E(w[|w|-1]) < B(w[0]) + WEEK
  }

  ghost predicate SameOpen(v: Window, w: Window)
    requires ProperWindow(v) && ProperWindow(w)
  {
    forall x :: Open(v, x) <==> Open(w, x)
  }

  /** G: some instant strictly between the first begin and the next Monday 00:00 is closed. */
  ghost predicate ClosedBeforeMonday(w: Window)
    requires ProperWindow(w) && |w| > 0
  {
    exists x :: B(w[0]) < x < WEEK && !Open(w, x)
  }

  /** The latest close of any slot, which is past WEEK when some slot crosses Monday 00:00. */
  function LatestEnd(w: Window): int
    requires ProperWindow(w) && |w| > 0
  {
    if |w| == 1 then E(w[0]) else
      var m := LatestEnd(w[..|w|-1]);
      if m < E(w[|w|-1]) then E(w[|w|-1]) else m
  }

  /** The close of the stretch of touching slots that opens with the first slot. */
  function FirstClose(w: Window): int
    requires ProperWindow(w) && |w| > 0
  {
    if |w| == 1 then E(w[0]) else
      var m := FirstClose(w[..|w|-1]);
      var s := w[|w|-1];
      if B(s) <= m && m < E(s) then E(s) else m
  }

  /** H: what crosses Monday 00:00 does not reach the close of the stretch of the first slot. */
  predicate FirstNotSwallowed(w: Window)
    requires ProperWindow(w) && |w| > 0
  {
    LatestEnd(w) - WEEK < B(w[0]) || LatestEnd(w) - WEEK < FirstClose(w)
  }

  // ---------- Coverage on the line ----------

  predicate Covers(s: Slot, y: int)
    requires ProperSlot(s)
  {
    B(s) <= y <= E(s)
  }

  ghost predicate Covered(w: Window, y: int)
    requires ProperWindow(w)
  {
    exists k :: 0 <= k < |w| && Covers(w[k], y)
  }

  lemma OpenOnLine(s: Slot, x: Instant)
    requires ProperSlot(s) && 0 <= x < WEEK
    ensures OpenAt(s, x) <==> Covers(s, x) || Covers(s, x + WEEK)
  {
    SlotOnLine(s);
  }

  lemma OpenIsCovered(w: Window, x: Instant)
    requires ProperWindow(w) && 0 <= x < WEEK
    ensures Open(w, x) <==> Covered(w, x) || Covered(w, x + WEEK)
  {
    forall k | 0 <= k < |w|
      ensures OpenAt(w[k], x) <==> Covers(w[k], x) || Covers(w[k], x + WEEK)
    {
      OpenOnLine(w[k], x);
    }
  }

  lemma WeeksCancel(x: Instant, p: int)
    ensures (x - p) % WEEK == (x % WEEK - p) % WEEK
  {
    var n, y := x / WEEK, x % WEEK;
    var m, r := (y - p) / WEEK, (y - p) % WEEK;
    assert x - p == (n + m) * WEEK + r;
  }

  lemma OpenIsWeekly(w: Window, x: Instant)
    requires ProperWindow(w)
    ensures Open(w, x) <==> Open(w, x % WEEK)
  {
    forall k | 0 <= k < |w|
      ensures OpenAt(w[k], x) <==> OpenAt(w[k], x % WEEK)
    {
      WeeksCancel(x, Pos(w[k].begin));
    }
  }

  // ---------- The invariant of the loop ----------

  /** After the loop has read the slots `w`: the output is strictly apart on the line, it covers what
      `w` covers, the clock runs from the begin of the last output slot, or from `start` for the first. */
  ghost predicate JoinInv(w: Window, j: Joining, start: Instant)
    requires ProperWindow(w) && |w| > 0
  {
    var out := j.out;
    && |out| > 0
    && ProperWindow(out)
    && (forall i :: 0 <= i < |out| - 1 ==> E(out[i]) < B(out[i+1]))
    && B(out[0]) == B(w[0])
    && B(out[|out|-1]) <= B(w[|w|-1])
    && 0 <= start <= B(w[0])
    && j.clock == (if |out| == 1 then start else B(out[|out|-1]))
    && E(out[|out|-1]) < j.clock + WEEK
    && (forall y :: Covered(out, y) <==> Covered(w, y))
    && E(out[|out|-1]) == LatestEnd(w)
    && E(out[0]) == FirstClose(w)
  }

  lemma CoveredBySnoc(w: Window, s: Slot, y: int)
    requires ProperWindow(w) && ProperSlot(s)
    ensures ProperWindow(w + [s])
    ensures Covered(w + [s], y) <==> Covered(w, y) || Covers(s, y)
  {
    var v := w + [s];
    if Covers(s, y) { assert Covers(v[|w|], y); }
    if Covered(w, y) {
      var k :| 0 <= k < |w| && Covers(w[k], y);
      assert Covers(v[k], y);
    }
  }

  lemma JoinInvFirst(w: Window, start: Instant)
    requires |w| == 1 && ProperWindow(w)
    requires 0 <= start <= B(w[0]) && E(w[0]) < start + WEEK
    ensures JoinInv(w, Joining(w, start), start)
  {
  }

  /** The code of one turn, in terms of the line, when the slot does not run round to the clock. */
  lemma JoinOneOnLine(j: Joining, s: Slot)
    requires |j.out| > 0 && ProperWindow(j.out) && ProperSlot(s)
    requires 0 <= j.clock <= B(s)
    requires var c := j.out[|j.out|-1]; j.clock <= E(c) < j.clock + WEEK && B(c) <= B(s)
    requires B(s) <= E(j.out[|j.out|-1]) ==> E(s) < j.clock + WEEK && E(s) < B(j.out[|j.out|-1]) + WEEK
    ensures
      var front, c := j.out[..|j.out|-1], j.out[|j.out|-1];
      var longer := c.(end := s.end);
      && (B(s) > E(c) ==> JoinOne(j, s) == Joining(j.out + [s], B(s)))
      && (B(s) <= E(c) < E(s) ==>
            ProperSlot(longer) && E(longer) == E(s) && JoinOne(j, s) == Joining(front + [longer], j.clock))
      && (E(s) <= E(c) && B(s) <= E(c) ==> JoinOne(j, s) == j)
  {
    var t, c := j.clock, j.out[|j.out|-1];
    BeginOnLine(s, t);
    EndOnLine(c, t);
    if B(s) <= E(c) {
      SlotOnLine(s);
      EndOnLine(s, t);
      if E(c) < E(s) {
        EndMoved(c, s);
      }
    }
  }

  lemma BeginOnLine(s: Slot, t: Instant)
    requires ProperSlot(s) && t <= B(s) < t + WEEK
    ensures Next(s.begin, t) == B(s)
  {
    NextIsLeast(s.begin, t);
    NextAtUnique(Pos(s.begin), t, B(s));
  }

  lemma EndOnLine(s: Slot, t: Instant)
    requires ProperSlot(s) && t <= E(s) < t + WEEK
    ensures Next(s.end, t) == E(s)
  {
    SlotOnLine(s);
    NextIsLeast(s.end, t);
    NextAtUnique(Pos(s.end), t, E(s));
  }

  /** A slot whose close is moved to the close of `s`. */
  lemma EndMoved(c: Slot, s: Slot)
    requires ProperSlot(c) && ProperSlot(s)
    requires B(c) < E(s) < B(c) + WEEK
    ensures ProperSlot(c.(end := s.end)) && E(c.(end := s.end)) == E(s)
  {
    var d := c.(end := s.end);
    SlotOnLine(s);
    assert d.begin != d.end;
    SlotOnLine(d);
  }

  /** Appending a slot that opens after the last close. */
  lemma InvAppend(w: Window, j: Joining, s: Slot, start: Instant)
    requires |w| > 0 && ProperWindow(w) && ProperSlot(s) && JoinInv(w, j, start)
    requires B(w[|w|-1]) <= B(s)
    requires E(j.out[|j.out|-1]) < B(s)
    ensures ProperWindow(w + [s]) && JoinInv(w + [s], Joining(j.out + [s], B(s)), start)
  {
    var v, out := w + [s], j.out;
    assert v[..|v|-1] == w;
    SlotOnLine(s);
    EndsGrow(out, 0);
    forall y ensures Covered(out + [s], y) <==> Covered(v, y) {
      CoveredBySnoc(out, s, y);
      CoveredBySnoc(w, s, y);
    }
  }

  lemma {:induction false} EndsGrow(out: Window, i: nat)
    requires ProperWindow(out) && i < |out|
    requires forall i :: 0 <= i < |out| - 1 ==> E(out[i]) < B(out[i+1])
    ensures E(out[i]) <= E(out[|out|-1])
    decreases |out| - i
  {
    if i < |out| - 1 {
      SlotOnLine(out[i+1]);
      EndsGrow(out, i + 1);
    }
  }

  /** Replacing the last output slot by one that covers the slot as well. */
  lemma InvExtend(w: Window, j: Joining, s: Slot, c: Slot, start: Instant)
    requires |w| > 0 && ProperWindow(w) && ProperSlot(s) && ProperSlot(c) && JoinInv(w, j, start)
    requires B(w[|w|-1]) <= B(s)
    requires
      var last := j.out[|j.out|-1];
      B(s) <= E(last) && B(c) == B(last) && E(c) == (if E(last) < E(s) then E(s) else E(last)) && E(c) < j.clock + WEEK
    ensures ProperWindow(w + [s]) && JoinInv(w + [s], Joining(j.out[..|j.out|-1] + [c], j.clock), start)
  {
    var v, out, front := w + [s], j.out, j.out[..|j.out|-1];
    assert v[..|v|-1] == w;
    var last := out[|out|-1];
    assert front + [last] == out;
    EndsGrow(out, 0);
    if |out| > 1 {
      assert E(out[|out|-2]) < B(out[|out|-1]);
      EndsGrow(front, 0);
    }
    forall y ensures Covered(front + [c], y) <==> Covered(v, y) {
      ExtendCovers(w, front, last, s, c, y);
    }
  }

  lemma ExtendCovers(w: Window, front: Window, last: Slot, s: Slot, c: Slot, y: int)
    requires ProperWindow(w) && ProperWindow(front) && ProperSlot(last) && ProperSlot(s) && ProperSlot(c)
    requires B(last) <= B(s) <= E(last) && B(c) == B(last) && E(c) == (if E(last) < E(s) then E(s) else E(last))
    requires Covered(front + [last], y) <==> Covered(w, y)
    ensures Covered(front + [c], y) <==> Covered(w + [s], y)
  {
    CoveredBySnoc(front, c, y);
    CoveredBySnoc(front, last, y);
    CoveredBySnoc(w, s, y);
  }

  /** One turn keeps the invariant when the slot does not run round to the clock. */
  lemma JoinOneInv(w: Window, j: Joining, s: Slot, start: Instant)
    requires |w| > 0 && ProperWindow(w) && ProperSlot(s) && JoinInv(w, j, start)
    requires B(w[|w|-1]) <= B(s)
    requires B(s) <= E(j.out[|j.out|-1]) ==> E(s) < j.clock + WEEK
    ensures ProperWindow(w + [s]) && JoinInv(w + [s], JoinOne(j, s), start)
  {
    var last := j.out[|j.out|-1];
    SlotOnLine(last);
    SlotOnLine(j.out[0]);
    JoinOneOnLine(j, s);
    if B(s) > E(last) {
      InvAppend(w, j, s, start);
    } else if E(s) > E(last) {
      InvExtend(w, j, s, last.(end := s.end), start);
    } else {
      InvExtend(w, j, s, last, start);
      assert j.out[..|j.out|-1] + [last] == j.out;
    }
  }
}
