/** When joinSlots gives a window that opens the same instants and is pairwise disjoint. */
module JoinCorrect {
  import opened WeekTime
  import opened Slots
  import opened JoinSlots

  /** A closed instant of the week is covered by no slot on the line, in this week or the next. */
  lemma ClosedNotCovered(w: Window, x: Instant, y: int, k: nat)
    requires ProperWindow(w) && 0 <= x < WEEK && !Open(w, x)
    requires y == x || y == x + WEEK
    requires k < |w|
    ensures !Covers(w[k], y)
  {
    OpenOnLine(w[k], x);
  }

  lemma ClosedNotInOutput(w: Window, v: Window, out: Window, x: Instant, y: int, i: nat)
    requires ProperWindow(w) && ProperWindow(v) && ProperWindow(out) && 0 <= x < WEEK && !Open(w, x)
    requires |v| <= |w| && v == w[..|v|]
    requires y == x || y == x + WEEK
    requires i < |out| && (Covered(out, y) <==> Covered(v, y))
    ensures !Covers(out[i], y)
  {
    if Covers(out[i], y) {
      var k :| 0 <= k < |v| && Covers(v[k], y);
      assert v[k] == w[k];
      ClosedNotCovered(w, x, y, k);
    }
  }

  /** While some instant between the first begin and Monday stays closed, no slot runs round to the clock. */
  lemma NoRunRound(w: Window, n: nat, j: Joining, x: Instant)
    requires ProperWindow(w) && 0 < n < |w| && Sorted(w)
    requires JoinInv(w[..n], j, 0)
    requires B(w[0]) < x < WEEK && !Open(w, x)
    requires B(w[n]) <= E(j.out[|j.out|-1])
    ensures E(w[n]) < j.clock + WEEK
  {
    var out, last := j.out, |j.out| - 1;
    SlotOnLine(w[0]);
    SlotOnLine(w[n]);
    SlotOnLine(out[last]);
    if E(w[n]) >= j.clock + WEEK {
      var y := if x < j.clock then x + WEEK else x;
      ClosedNotCovered(w, x, y, n);
      ClosedNotInOutput(w, w[..n], out, x, y, last);
    }
  }

  /** The loop invariant holds for every prefix of the slots. */
  lemma {:induction false} JoinLoopKeepsInv(w: Window, n: nat, x: Instant) returns (j: Joining)
    requires ProperWindow(w) && Sorted(w) && 0 < n <= |w|
    requires B(w[0]) < x < WEEK && !Open(w, x)
    ensures j == JoinFirst(w[..n]) && JoinInv(w[..n], j, 0)
  {
    if n == 1 {
      j := JoinInvBase(w, x);
    } else {
      var i := JoinLoopKeepsInv(w, n - 1, x);
      JoinLoopStep(w, n - 1, x, i);
      j := JoinOne(i, w[n-1]);
      JoinFirstUnfolds(w, n);
    }
  }

  lemma JoinFirstUnfolds(w: Window, n: nat)
    requires 1 < n <= |w|
    ensures JoinFirst(w[..n]) == JoinOne(JoinFirst(w[..n-1]), w[n-1])
    ensures w[..n] == w[..n-1] + [w[n-1]]
  {
    assert w[..n][..n-1] == w[..n-1];
  }

  lemma JoinInvBase(w: Window, x: Instant) returns (j: Joining)
    requires ProperWindow(w) && |w| > 0
    requires B(w[0]) < x < WEEK && !Open(w, x)
    ensures j == JoinFirst(w[..1]) && JoinInv(w[..1], j, 0)
  {
    SlotOnLine(w[0]);
    ClosedNotCovered(w, x, x, 0);
    JoinInvFirst(w[..1], 0);
    j := JoinFirst(w[..1]);
  }

  lemma JoinLoopStep(w: Window, n: nat, x: Instant, j: Joining)
    requires ProperWindow(w) && Sorted(w) && 0 < n < |w|
    requires B(w[0]) < x < WEEK && !Open(w, x)
    requires JoinInv(w[..n], j, 0)
    ensures ProperWindow(w[..n] + [w[n]]) && JoinInv(w[..n] + [w[n]], JoinOne(j, w[n]), 0)
  {
    var v, s := w[..n], w[n];
    if B(s) <= E(j.out[|j.out|-1]) {
      NoRunRound(w, n, j, x);
    }
    assert B(v[|v|-1]) <= B(s);
    JoinOneInv(v, j, s, 0);
  }

  // ---------- The wrap-around step ----------

  lemma BeginNextWeek(s: Slot, t: Instant)
    requires ProperSlot(s) && B(s) < t <= B(s) + WEEK
    ensures Next(s.begin, t) == B(s) + WEEK
  {
    NextIsLeast(s.begin, t);
    NextAtUnique(Pos(s.begin), t, B(s) + WEEK);
  }

  lemma EndNextWeek(s: Slot, t: Instant)
    requires ProperSlot(s) && E(s) < t <= E(s) + WEEK
    ensures Next(s.end, t) == E(s) + WEEK
  {
    SlotOnLine(s);
    NextIsLeast(s.end, t);
    NextAtUnique(Pos(s.end), t, E(s) + WEEK);
  }

  /** A slot whose close is moved to the close of `s` one week later. */
  lemma EndMovedWeek(c: Slot, s: Slot)
    requires ProperSlot(c) && ProperSlot(s)
    requires B(c) < E(s) + WEEK < B(c) + WEEK
    ensures ProperSlot(c.(end := s.end)) && E(c.(end := s.end)) == E(s) + WEEK
  {
    var d := c.(end := s.end);
    SlotOnLine(s);
    assert d.begin != d.end;
    SlotOnLine(d);
  }

  /** The code of the wrap-around step, in terms of the line. */
  lemma WrapOnLine(w: Window, j: Joining)
    requires ProperWindow(w) && |w| > 0 && JoinInv(w, j, 0) && |j.out| > 1
    ensures
      var out, cur := j.out, |j.out| - 1;
      var c := out[cur].(end := out[0].end);
      && E(out[0]) < B(out[1])
      && E(out[0]) < B(out[cur])
      && if B(out[0]) + WEEK <= E(out[cur]) < E(out[0]) + WEEK then
           && ProperSlot(c) && E(c) == E(out[0]) + WEEK
           && WrapAround(j) == out[1..cur] + [c]
         else WrapAround(j) == out
  {
    var out, cur := j.out, |j.out| - 1;
    FirstEndsBeforeLast(out);
    WrapPoints(out[0], out[cur], j.clock);
    WrapByEnds(j);
    if B(out[0]) + WEEK <= E(out[cur]) < E(out[0]) + WEEK {
      SlotOnLine(out[cur]);
      EndMovedWeek(out[cur], out[0]);
    }
  }

  /** The three points that the wrap-around step compares. */
  lemma WrapPoints(first: Slot, last: Slot, t: Instant)
    requires ProperSlot(first) && ProperSlot(last) && t == B(last) && E(first) < B(last)
    ensures Next(first.begin, t) == B(first) + WEEK
    ensures Next(first.end, t) == E(first) + WEEK
    ensures Next(last.end, t) == E(last)
  {
    SlotOnLine(first);
    SlotOnLine(last);
    BeginNextWeek(first, t);
    EndOnLine(last, t);
    EndNextWeek(first, t);
  }

  lemma WrapByEnds(j: Joining)
    requires |j.out| > 1
    ensures
      var out, cur, t := j.out, |j.out| - 1, j.clock;
      WrapAround(j) ==
        if Next(out[0].begin, t) <= Next(out[cur].end, t) < Next(out[0].end, t) then
          out[1..cur] + [out[cur].(end := out[0].end)]
        else out
  {
    var out, cur := j.out, |j.out| - 1;
    assert out[cur := out[cur].(end := out[0].end)][1..] == out[1..cur] + [out[cur].(end := out[0].end)];
  }

  lemma FirstEndsBeforeLast(out: Window)
    requires ProperWindow(out) && |out| > 1
    requires forall i :: 0 <= i < |out| - 1 ==> E(out[i]) < B(out[i+1])
    ensures E(out[0]) < B(out[1]) && E(out[0]) < B(out[|out|-1])
  {
    var v := out[..|out|-1];
    EndsGrow(v, 0);
    assert E(out[|out|-2]) < B(out[|out|-1]);
  }

  lemma SameOpenFromLine(v: Window, w: Window)
    requires ProperWindow(v) && ProperWindow(w)
    requires forall y :: 0 <= y < WEEK ==>
      (Covered(v, y) || Covered(v, y + WEEK) <==> Covered(w, y) || Covered(w, y + WEEK))
    ensures SameOpen(v, w)
  {
    forall x ensures Open(v, x) <==> Open(w, x) {
      OpenIsWeekly(v, x);
      OpenIsWeekly(w, x);
      OpenIsCovered(v, x % WEEK);
      OpenIsCovered(w, x % WEEK);
    }
  }

  /** Ingesting the first slot into the last keeps what is covered, modulo the week. */
  lemma IngestKeepsCover(out: Window, c: Slot, y: int)
    requires ProperWindow(out) && |out| > 1 && ProperSlot(c)
    requires
      var last := out[|out|-1];
      && E(out[0]) < B(last) == B(c)
      && B(out[0]) + WEEK <= E(last) < E(out[0]) + WEEK == E(c)
    requires 0 <= y < WEEK
    ensures ProperWindow(out[1..|out|-1] + [c])
    ensures
      var v := out[1..|out|-1] + [c];
      Covered(v, y) || Covered(v, y + WEEK) <==> Covered(out, y) || Covered(out, y + WEEK)
  {
    var mid, last := out[1..|out|-1], out[|out|-1];
    assert out == [out[0]] + mid + [last];
    SlotOnLine(out[0]);
    CoveredBySnoc(mid, c, y);
    CoveredBySnoc(mid, c, y + WEEK);
    CoveredByAll(out, mid, y);
    CoveredByAll(out, mid, y + WEEK);
  }

  lemma CoveredByAll(out: Window, mid: Window, y: int)
    requires ProperWindow(out) && |out| > 1 && mid == out[1..|out|-1]
    ensures Covered(out, y) <==> Covers(out[0], y) || Covered(mid, y) || Covers(out[|out|-1], y)
  {
    if Covered(mid, y) {
      var k :| 0 <= k < |mid| && Covers(mid[k], y);
      assert Covers(out[k+1], y);
    }
    if Covered(out, y) {
      var k :| 0 <= k < |out| && Covers(out[k], y);
      if 0 < k < |out| - 1 {
        assert Covers(mid[k-1], y);
      }
    }
  }

  lemma WrapKeepsOpen(w: Window, j: Joining)
    requires ProperWindow(w) && |w| > 0 && JoinInv(w, j, 0)
    ensures ProperWindow(WrapAround(j)) && SameOpen(WrapAround(j), w)
  {
    var out, cur := j.out, |j.out| - 1;
    if cur > 0 {
      WrapOnLine(w, j);
      if WrapAround(j) != out {
        var c := out[cur].(end := out[0].end);
        forall y | 0 <= y < WEEK
          ensures Covered(WrapAround(j), y) || Covered(WrapAround(j), y + WEEK) <==>
                  Covered(w, y) || Covered(w, y + WEEK)
        {
          IngestKeepsCover(out, c, y);
        }
      }
    }
    SameOpenFromLine(WrapAround(j), w);
  }

  lemma WrapNormal(w: Window, j: Joining)
    requires ProperWindow(w) && |w| > 0 && JoinInv(w, j, 0)
    ensures ProperWindow(WrapAround(j))
    ensures Normal(WrapAround(j)) <==> FirstNotSwallowed(w)
  {
    var out, cur := j.out, |j.out| - 1;
    SlotOnLine(out[0]);
    if cur > 0 {
      WrapOnLine(w, j);
      if B(out[0]) + WEEK <= E(out[cur]) < E(out[0]) + WEEK {
        var c := out[cur].(end := out[0].end);
        var v := out[1..cur] + [c];
        SlotOnLine(c);
        assert B(v[0]) == B(out[1]);
        assert Normal(v);
      }
    }
  }
}
