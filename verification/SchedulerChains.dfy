/** Task execution sequences: a first run followed by window continuations and retries. */
module SchedulerChains {
  import opened Wrappers
  import opened WeekTime
  import opened Slots
  import opened WindowNext
  import opened Activations
  import opened SchedulerSpec
  import opened SchedulerInv
  import opened SchedulerWindows

  /** Of a sequence under way: when its first run was activated, and how many retries were taken. */
  datatype Sequence = Sequence(first: Instant, retries: nat)

  /** The scheduler with a history of the sequence that every key is in. */
  datatype History<!K> = History(s: State<K>, sequences: map<K, Sequence>)

  /** The sequence goes on, goes on with a retry, or a new one starts. */
  function After<K>(h: History<K>, e: Event<K>, s': State<K>): map<K, Sequence> {
    var s, q := h.s, h.sequences;
    match e
    case Schedule(key, d, now) =>
      if key !in s.running && key in s'.queue then q[key := Sequence(s'.queue[key].time, 0)] else q
    case Trigger(key, now) =>
      if key !in s.running && key in s.details then q[key := Sequence(now, 0)] else q
    case RunEnds(id, err, delay, now) =>
      if id !in s.runs || s.runs[id].key !in s'.queue then q else
        var r := Cancel(s.runs[id], Rescheduled);
        if Continues(r) then q
        else if Retries(r, err) && delay.Some? && r.key in q then
          q[r.key := Sequence(q[r.key].first, q[r.key].retries + 1)]
        else q[r.key := Sequence(s'.queue[r.key].time, 0)]
    case _ => q
  }

  /** Windows come from NewWindow, the clock is past the zero time, and all times are times of Go. */
  ghost predicate Sane<K>(e: Event<K>) {
    match e
    case Schedule(key, d, now) => GoDetails(d)
    case Trigger(key, now) => now != 0 && WholeNanos(now)
    case RunEnds(id, err, delay, now) => WholeNanos(now) && (delay.Some? ==> WholeNanos(delay.value))
    case _ => true
  }

  predicate WholeNanos(t: Instant) {
    t % 2 == 0
  }

  ghost predicate GoDetails(d: Details) {
    ProperWindow(d.window) && GoSlots(d.window) && forall t :: WholeNanos(d.trigger(t))
  }

  ghost predicate HistoryStep<K>(h: History<K>, e: Event<K>, wake: bool, h': History<K>) {
    Sane(e) && Step(h.s, e, wake, h'.s) && h'.sequences == After(h, e, h'.s)
  }

  ghost predicate InSequence<K>(q: map<K, Sequence>, k: K, initial: Instant, retry: int) {
    && k in q
    && q[k].first == initial != 0 && WholeNanos(initial)
    && retry == Int8(q[k].retries)
  }

  ghost predicate QueuedKept<K>(q: map<K, Sequence>, queue: map<K, Activation<K>>) {
    forall k :: k in queue ==> InSequence(q, k, InitialActivation(queue[k]), queue[k].retry)
  }

  ghost predicate RunsKept<K>(q: map<K, Sequence>, runs: map<RunId, Run<K>>) {
    forall id :: id in runs ==> InSequence(q, runs[id].key, runs[id].initial, runs[id].retry)
  }

  ghost predicate AllGo<K>(details: map<K, Details>) {
    forall k :: k in details ==> GoDetails(details[k])
  }

  ghost predicate SequencesKept<K>(h: History<K>) {
    QueuedKept(h.sequences, h.s.queue) && RunsKept(h.sequences, h.s.runs) && AllGo(h.s.details)
  }

  lemma NextNotBefore(w: Window, now: Instant)
    requires ProperWindow(w) && GoSlots(w) && WholeNanos(now)
    ensures now <= NextOpen(w, now).0 && WholeNanos(NextOpen(w, now).0)
  {
    if w != [] {
      var i := Found(w, now);
      assert GoSlot(w[i]);
      NextIsLeast(w[i].begin, now);
      NextAtLeast(Pos(w[i].begin), now);
      NextIsGo(w[i].begin, now);
    }
  }

  lemma NextIsGo(i: WeekdayTime, now: Instant)
    requires Proper(i) && GoTime(i) && WholeNanos(now)
    ensures WholeNanos(NextAt(Pos(i), now))
  {
    PosIsGo(i);
    EvenNext(Pos(i), now);
  }

  lemma EvenNext(p: int, x: int)
    requires p % 2 == 0 && x % 2 == 0
    ensures NextAt(p, x) % 2 == 0
  {
    var y, n := p - x, (p - x) / WEEK;
    assert y == n * WEEK + y % WEEK;
    assert NextAt(p, x) == p - n * WEEK;
    EvenWeeks(n);
  }

  lemma EvenWeeks(n: int)
    ensures n * WEEK == 2 * (n * (WEEK / 2))
  {
  }

  lemma PlannedFresh<K>(key: K, d: Details, t: Instant)
    requires GoDetails(d) && d.trigger(t) != 0
    ensures Planned(key, Plan(d.trigger(t), 0, None, 0), d.window).time > 0
    ensures WholeNanos(Planned(key, Plan(d.trigger(t), 0, None, 0), d.window).time)
  {
    NextNotBefore(d.window, d.trigger(t));
  }

  /** Sequences of keys other than `key` stay. */
  ghost predicate SameBut<K>(q: map<K, Sequence>, q': map<K, Sequence>, key: K) {
    forall k :: k != key && k in q ==> k in q' && q'[k] == q[k]
  }

  ghost predicate QueueBut<K>(queue: map<K, Activation<K>>, queue': map<K, Activation<K>>, key: K) {
    forall k :: k != key && k in queue' ==> k in queue && queue'[k] == queue[k]
  }

  ghost predicate RunsBut<K>(runs: map<RunId, Run<K>>, runs': map<RunId, Run<K>>, key: K) {
    forall id :: id in runs' && runs'[id].key != key ==>
      && id in runs
      && runs'[id].key == runs[id].key && runs'[id].initial == runs[id].initial && runs'[id].retry == runs[id].retry
  }

  lemma OtherQueued<K>(
    q: map<K, Sequence>, queue: map<K, Activation<K>>, q': map<K, Sequence>, queue': map<K, Activation<K>>, key: K)
    requires QueuedKept(q, queue) && SameBut(q, q', key) && QueueBut(queue, queue', key)
    requires key in queue' ==> InSequence(q', key, InitialActivation(queue'[key]), queue'[key].retry)
    ensures QueuedKept(q', queue')
  {
  }

  lemma OtherRuns<K>(
    q: map<K, Sequence>, runs: map<RunId, Run<K>>, q': map<K, Sequence>, runs': map<RunId, Run<K>>, key: K)
    requires RunsKept(q, runs) && SameBut(q, q', key) && RunsBut(runs, runs', key)
    requires forall id :: id in runs' && runs'[id].key == key ==> InSequence(q', key, runs'[id].initial, runs'[id].retry)
    ensures RunsKept(q', runs')
  {
  }

  lemma NotRunning<K>(s: State<K>, key: K)
    requires Inv(s) && key !in s.running
    ensures forall id :: id in s.runs ==> s.runs[id].key != key
  {
  }

  lemma Scheduled<K>(s: State<K>, key: K, d: Details, now: Instant, wake: bool, s': State<K>)
    requires ScheduleStep(s, key, d, now, wake, s') && key !in s.running
    ensures QueueBut(s.queue, s'.queue, key) && s'.runs == s.runs
    ensures key in s'.queue ==>
      d.trigger(now) != 0 && s'.queue[key] == Planned(key, Plan(d.trigger(now), 0, None, 0), d.window)
  {
  }

  lemma ScheduledDetails<K>(s: State<K>, key: K, d: Details, now: Instant, wake: bool, s': State<K>)
    requires ScheduleStep(s, key, d, now, wake, s') && AllGo(s.details) && GoDetails(d)
    ensures AllGo(s'.details)
  {
  }

  lemma ScheduleSequences<K>(h: History<K>, key: K, d: Details, now: Instant, wake: bool, h': History<K>)
    requires Inv(h.s) && SequencesKept(h) && HistoryStep(h, Schedule(key, d, now), wake, h')
    ensures SequencesKept(h')
  {
    ScheduledDetails(h.s, key, d, now, wake, h'.s);
    if key !in h.s.running {
      Scheduled(h.s, key, d, now, wake, h'.s);
      NotRunning(h.s, key);
      if d.trigger(now) != 0 {
        PlannedFresh(key, d, now);
      }
      OtherQueued(h.sequences, h.s.queue, h'.sequences, h'.s.queue, key);
      OtherRuns(h.sequences, h.s.runs, h'.sequences, h'.s.runs, key);
    }
  }

  lemma Int8Succ(x: int)
    ensures Int8(Int8(x) + 1) == Int8(x + 1)
  {
  }

  /** The state in which the key of an ended run is rescheduled. */
  function Ended<K>(s: State<K>, id: RunId): State<K>
    requires id in s.runs
  {
    var c := CancelKey(s, s.runs[id].key, Rescheduled);
    c.(running := s.running - {s.runs[id].key}, runs := c.runs - {id})
  }

  lemma EndedIs<K>(s: State<K>, id: RunId)
    requires Inv(s) && id in s.runs
    ensures CancelKey(s, s.runs[id].key, Rescheduled).runs[id] == Cancel(s.runs[id], Rescheduled)
    ensures Ended(s, id) == s.(running := s.running - {s.runs[id].key}, runs := s.runs - {id})
    ensures s.runs[id].key !in s.queue
  {
    var key := s.runs[id].key;
    assert key in s.running && s.running[key] == id;
    assert CancelKey(s, key, Rescheduled).runs - {id} == s.runs - {id};
  }

  lemma ScheduledLocked<K>(s: State<K>, key: K, p: Plan, w: Window, wake: bool, s': State<K>)
    requires ScheduleLocked(s, key, p, w, wake, s') && key !in s.queue
    ensures s'.runs == s.runs && s'.queue == if p.next != 0 then s.queue[key := Planned(key, p, w)] else s.queue
    ensures s'.details == if p.next != 0 then s.details else s.details - {key}
  {
  }

  lemma RunEndsQueue<K>(s: State<K>, id: RunId, err: RunError, delay: Option<nat>, now: Instant, wake: bool, s': State<K>)
    requires Inv(s) && RunEndsStep(s, id, err, delay, now, wake, s')
    ensures
      var r := Cancel(s.runs[id], Rescheduled);
      && s'.runs == s.runs - {id}
      && (forall k :: k in s'.details ==> k in s.details && s'.details[k] == s.details[k])
      && (if !s.closed && r.key in s.details && RescheduleP(r, err, delay, s.details[r.key], now).next != 0 then
            var d := s.details[r.key];
            s'.queue == s.queue[r.key := Planned(r.key, RescheduleP(r, err, delay, d, now), d.window)]
          else
            s'.queue == s.queue)
  {
    EndedIs(s, id);
    var r := Cancel(s.runs[id], Rescheduled);
    if !s.closed && r.key in s.details {
      var d := s.details[r.key];
      ScheduledLocked(Ended(s, id), r.key, RescheduleP(r, err, delay, d, now), d.window, wake, s');
    }
  }

  lemma RunEndsSequences<K>(
    h: History<K>, id: RunId, err: RunError, delay: Option<nat>, now: Instant, wake: bool, h': History<K>)
    requires Inv(h.s) && SequencesKept(h) && HistoryStep(h, RunEnds(id, err, delay, now), wake, h')
    ensures SequencesKept(h')
  {
    var key := h.s.runs[id].key;
    RunEndsQueue(h.s, id, err, delay, now, wake, h'.s);
    EndedIs(h.s, id);
    if key in h'.s.queue {
      RescheduledSequence(h, id, err, delay, now, wake, h');
    }
    OtherQueued(h.sequences, h.s.queue, h'.sequences, h'.s.queue, key);
    OneRun(h.s, id);
    OtherRuns(h.sequences, h.s.runs, h'.sequences, h'.s.runs, key);
  }

  lemma OneRun<K>(s: State<K>, id: RunId)
    requires Inv(s) && id in s.runs
    ensures forall i :: i in s.runs && i != id ==> s.runs[i].key != s.runs[id].key
  {
  }

  /** The plan goes on with the sequence, or begins the next one. */
  lemma RescheduledSequence<K>(
    h: History<K>, id: RunId, err: RunError, delay: Option<nat>, now: Instant, wake: bool, h': History<K>)
    requires Inv(h.s) && SequencesKept(h) && HistoryStep(h, RunEnds(id, err, delay, now), wake, h')
    requires h.s.runs[id].key in h'.s.queue
    ensures
      var key := h.s.runs[id].key;
      InSequence(h'.sequences, key, InitialActivation(h'.s.queue[key]), h'.s.queue[key].retry)
  {
    var s, r := h.s, Cancel(h.s.runs[id], Rescheduled);
    RunEndsQueue(s, id, err, delay, now, wake, h'.s);
    EndedIs(s, id);
    assert InSequence(h.sequences, r.key, r.initial, r.retry);
    PlannedSequence(h.sequences, r, err, delay, s.details[r.key], now, h'.sequences);
  }

  lemma PlannedSequence<K>(
    q: map<K, Sequence>, r: Run<K>, err: RunError, delay: Option<nat>, d: Details, now: Instant, q': map<K, Sequence>)
    requires InSequence(q, r.key, r.initial, r.retry) && GoDetails(d)
    requires WholeNanos(now) && (delay.Some? ==> WholeNanos(delay.value))
    requires RescheduleP(r, err, delay, d, now).next != 0
    requires
      var a := Planned(r.key, RescheduleP(r, err, delay, d, now), d.window);
      q' == if Continues(r) then q
            else if Retries(r, err) && delay.Some? then
              q[r.key := Sequence(q[r.key].first, q[r.key].retries + 1)]
            else q[r.key := Sequence(a.time, 0)]
    ensures
      var a := Planned(r.key, RescheduleP(r, err, delay, d, now), d.window);
      InSequence(q', r.key, InitialActivation(a), a.retry)
  {
    var p := RescheduleP(r, err, delay, d, now);
    if Continues(r) || (Retries(r, err) && delay.Some?) {
      Int8Succ(q[r.key].retries);
    } else {
      PlanBegins(r, err, delay, d, now);
      NewSequence(r.key, p, d.window);
    }
  }

  /** A plan that is neither continuation nor retry is for a tick. */
  lemma PlanBegins<K>(r: Run<K>, err: RunError, delay: Option<nat>, d: Details, now: Instant)
    requires GoDetails(d) && !Continues(r) && !(Retries(r, err) && delay.Some?)
    ensures var p := RescheduleP(r, err, delay, d, now);
      p.next >= 0 && WholeNanos(p.next) && p.retry == p.preReschedule == 0
  {
  }

  lemma NewSequence<K>(key: K, p: Plan, w: Window)
    requires ProperWindow(w) && GoSlots(w) && p.next > 0 && WholeNanos(p.next) && p.preReschedule == 0
    ensures Planned(key, p, w).time > 0 && WholeNanos(Planned(key, p, w).time)
    ensures InitialActivation(Planned(key, p, w)) == Planned(key, p, w).time && Planned(key, p, w).retry == p.retry
  {
    NextNotBefore(w, p.next);
  }

  lemma PopSequences<K>(h: History<K>, wake: bool, h': History<K>)
    requires Inv(h.s) && SequencesKept(h) && HistoryStep(h, PopHead, wake, h')
    ensures SequencesKept(h')
  {
    var s := h.s;
    if s.queue != map[] {
      var k :| k in s.queue && Earliest(s.queue, s.queue[k].time) && PoppedStep(s, s.queue[k], h'.s);
      PoppedSequences(h, k, h');
    }
  }

  lemma RunAdded<K>(q: map<K, Sequence>, runs: map<RunId, Run<K>>, q': map<K, Sequence>, id: RunId, r: Run<K>)
    requires RunsKept(q, runs) && SameBut(q, q', r.key) && forall i :: i in runs ==> runs[i].key != r.key
    requires InSequence(q', r.key, r.initial, r.retry)
    ensures RunsKept(q', runs[id := r])
  {
  }

  lemma QueueWithout<K>(q: map<K, Sequence>, queue: map<K, Activation<K>>, q': map<K, Sequence>, key: K)
    requires QueuedKept(q, queue) && SameBut(q, q', key)
    ensures QueuedKept(q', queue - {key})
  {
  }

  /** A run is started for a key that had none; what it takes from the queue is its own key. */
  lemma StartedSequences<K>(h: History<K>, a: Activation<K>, initial: Instant, s': State<K>, q': map<K, Sequence>)
    requires Inv(h.s) && SequencesKept(h) && a.key !in h.s.running && s'.details == h.s.details
    requires s'.queue == h.s.queue - {a.key}
    requires s'.runs == h.s.runs[h.s.nextId := Run(a.key, a.retry, RunProperties(h.s.details, a), a.stop, NotCancelled, initial)]
    requires SameBut(h.sequences, q', a.key) && InSequence(q', a.key, initial, a.retry)
    ensures SequencesKept(History(s', q'))
  {
    NotRunning(h.s, a.key);
    QueueWithout(h.sequences, h.s.queue, q', a.key);
    RunAdded(h.sequences, h.s.runs, q', h.s.nextId,
      Run(a.key, a.retry, RunProperties(h.s.details, a), a.stop, NotCancelled, initial));
  }

  lemma PoppedSequences<K>(h: History<K>, k: K, h': History<K>)
    requires Inv(h.s) && SequencesKept(h) && h.s.phase.TimerFired? && k in h.s.queue
    requires PoppedStep(h.s, h.s.queue[k], h'.s) && h'.sequences == h.sequences
    ensures SequencesKept(h')
  {
    var a := h.s.queue[k];
    if k == h.s.phase.key {
      assert InSequence(h.sequences, k, InitialActivation(a), a.retry);
      StartedSequences(h, a, InitialActivation(a), h'.s, h.sequences);
    }
  }

  lemma TriggerSequences<K>(h: History<K>, key: K, now: Instant, wake: bool, h': History<K>)
    requires Inv(h.s) && SequencesKept(h) && HistoryStep(h, Trigger(key, now), wake, h')
    ensures SequencesKept(h')
  {
    if key !in h.s.running {
      TriggeredRun(h.s, key, now, wake, h'.s);
      if key in h.s.details {
        StartedSequences(h, Activation(0, key, 0, None, 0, 0), now, h'.s, h'.sequences);
      } else {
        QueueWithout(h.sequences, h.s.queue, h.sequences, key);
      }
    }
  }

  lemma SequencesStep<K>(h: History<K>, e: Event<K>, wake: bool, h': History<K>)
    requires Inv(h.s) && SequencesKept(h) && HistoryStep(h, e, wake, h')
    ensures SequencesKept(h')
  {
    match e
    case Schedule(key, d, now) => ScheduleSequences(h, key, d, now, wake, h');
    case Trigger(key, now) => TriggerSequences(h, key, now, wake, h');
    case RunEnds(id, err, delay, now) => RunEndsSequences(h, id, err, delay, now, wake, h');
    case PopHead => PopSequences(h, wake, h');
    case _ =>
  }

  ghost predicate HistoryExecution<K>(hs: seq<History<K>>, moves: seq<Move<K>>) {
    && |hs| == |moves| + 1
    && Init(hs[0].s) && hs[0].sequences == map[]
    && forall i :: 0 <= i < |moves| ==> HistoryStep(hs[i], moves[i].event, moves[i].wake, hs[i+1])
  }

  /** Along every execution: the initial activation of whatever is queued or running for a key stays that of
      the first run of its sequence, and its retry number is the number of retries taken, as an int8. */
  lemma {:induction false} SequencesAlways<K>(hs: seq<History<K>>, moves: seq<Move<K>>, n: nat)
    requires HistoryExecution(hs, moves) && n < |hs|
    ensures Inv(hs[n].s) && SequencesKept(hs[n])
  {
    if n > 0 {
      SequencesAlways(hs, moves, n - 1);
      StepKeeps(hs[n-1].s, moves[n-1].event, moves[n-1].wake, hs[n].s);
      SequencesStep(hs[n-1], moves[n-1].event, moves[n-1].wake, hs[n]);
    }
  }

  // ---------- No tick is skipped ----------

  predicate IsTick(d: Details, x: Instant) {
    x > 0 && WholeNanos(x) && d.trigger(x) == x
  }

  /** The trigger gives the least tick at or after an instant, and 0 after the last tick. */
  ghost predicate GivesLeastTick(d: Details) {
    && (forall t :: d.trigger(t) != 0 ==> t <= d.trigger(t) && IsTick(d, d.trigger(t)))
    && (forall t, x :: t <= x && IsTick(d, x) ==> d.trigger(t) != 0 && d.trigger(t) <= x)
  }

  /** The very next tick after `t`. */
  ghost predicate NextTick(d: Details, t: Instant, y: Instant) {
    && t < y && IsTick(d, y)
    && forall x :: t < x && IsTick(d, x) ==> y <= x
  }

  /** What the end of the run leads to: neither the next window nor a retry, whether the run succeeded, was stopped or
      failed for good. */
  predicate EndsSequence<K>(r: Run<K>, err: RunError) {
    r.cause != OutOfWindow && (err != Failure || r.cause == Stopped)
  }

  /** The step ends run `id` of a key that is still scheduled. */
  ghost predicate EndsRun<K>(h: History<K>, id: RunId, key: K) {
    && id in h.s.runs && !h.s.closed && h.s.runs[id].key == key
    && key in h.s.details && GivesLeastTick(h.s.details[key])
  }

  /** The first activation of the sequence that the run belongs to. */
  lemma FirstOfRun<K>(hs: seq<History<K>>, moves: seq<Move<K>>, n: nat, id: RunId, key: K)
    requires HistoryExecution(hs, moves) && n < |moves| && id in hs[n].s.runs && hs[n].s.runs[id].key == key
    ensures Inv(hs[n].s) && key in hs[n].sequences && hs[n].sequences[key].first == hs[n].s.runs[id].initial
    ensures WholeNanos(hs[n].s.runs[id].initial)
    ensures HistoryStep(hs[n], moves[n].event, moves[n].wake, hs[n+1])
  {
    SequencesAlways(hs, moves, n);
    assert InSequence(hs[n].sequences, key, hs[n].s.runs[id].initial, hs[n].s.runs[id].retry);
  }

  /** A sequence that ends is followed by the very next tick after its first activation, however long it took and
      whatever continuations and retries it had: the key is queued for it, at once or in its window. */
  lemma NoTickSkipped<K>(
    hs: seq<History<K>>, moves: seq<Move<K>>, n: nat, id: RunId, err: RunError, delay: Option<nat>, now: Instant, key: K,
    later: Instant)
    returns (tick: Instant)
    requires HistoryExecution(hs, moves) && n < |moves|
    requires moves[n].event == RunEnds(id, err, delay, now) && EndsRun(hs[n], id, key)
    requires EndsSequence(hs[n].s.runs[id], err)
    requires IsTick(hs[n].s.details[key], later) && later > hs[n].s.runs[id].initial
    ensures key in hs[n].sequences && NextTick(hs[n].s.details[key], hs[n].sequences[key].first, tick)
    ensures QueuedFrom(hs[n+1].s.queue, key, hs[n].s.details[key].window, tick) && hs[n+1].s.queue[key].retry == 0
  {
    FirstOfRun(hs, moves, n, id, key);
    var s := hs[n].s;
    RunEndsInWindow(s, id, err, delay, now, moves[n].wake, hs[n+1].s);
    NextTickAfter(s.details[key], s.runs[id].initial, now, later);
    tick := TickAfter(s.details[key], s.runs[id].initial, now);
  }

  lemma NextTickAfter(d: Details, initial: Instant, now: Instant, later: Instant)
    requires GivesLeastTick(d) && WholeNanos(initial) && IsTick(d, later) && later > initial
    ensures TickAfter(d, initial, now) != 0 && NextTick(d, initial, TickAfter(d, initial, now))
  {
    assert initial + NANOSECOND <= later;
    forall x | initial < x && IsTick(d, x) ensures d.trigger(initial + NANOSECOND) <= x {
      assert initial + NANOSECOND <= x;
    }
  }

  /** When the backoff gives up, the sequence is followed by the first tick from now on; that is the very next tick
      after its first activation if and only if no tick has passed in between. */
  lemma GivingUpExact<K>(
    hs: seq<History<K>>, moves: seq<Move<K>>, n: nat, id: RunId, now: Instant, key: K, later: Instant)
    requires HistoryExecution(hs, moves) && n < |moves|
    requires moves[n].event == RunEnds(id, Failure, None, now) && EndsRun(hs[n], id, key)
    requires hs[n].s.runs[id].cause != OutOfWindow && hs[n].s.runs[id].cause != Stopped
    requires IsTick(hs[n].s.details[key], later) && later >= now
    ensures key in hs[n].sequences
    ensures
      var d, first := hs[n].s.details[key], hs[n].sequences[key].first;
      && QueuedFrom(hs[n+1].s.queue, key, d.window, d.trigger(now)) && hs[n+1].s.queue[key].retry == 0
      && (NextTick(d, first, d.trigger(now)) <==> first < d.trigger(now) && forall x :: first < x < now ==> !IsTick(d, x))
  {
    FirstOfRun(hs, moves, n, id, key);
    var s := hs[n].s;
    RunEndsInWindow(s, id, Failure, None, now, moves[n].wake, hs[n+1].s);
    TicksInBetween(s.details[key], hs[n].sequences[key].first, now);
  }

  lemma TicksInBetween(d: Details, first: Instant, now: Instant)
    requires GivesLeastTick(d) && d.trigger(now) != 0
    ensures NextTick(d, first, d.trigger(now)) <==> first < d.trigger(now) && forall x :: first < x < now ==> !IsTick(d, x)
  {
    if first < d.trigger(now) && forall x :: first < x < now ==> !IsTick(d, x) {
      forall x | first < x && IsTick(d, x) ensures d.trigger(now) <= x {
        assert now <= x;
      }
    }
  }

  /** A trigger with a tick every ten, from 10 on. */
  function EveryTen(t: Instant): nat {
    if t <= 10 then 10 else (t + 9) / 10 * 10
  }

  /** A run activated at 10 whose last retry fails at 36 is followed by 40, so that 20 and 30 are skipped. */
  lemma GivingUpSkips<K>(key: K)
    ensures
      var d, r := Details(None, EveryTen, []), Run(key, 3, None, 0, NotCancelled, 10);
      && GoDetails(d) && GivesLeastTick(d)
      && (forall queue: map<K, Activation<K>> ::
            Follows(r, Failure, None, 36, d, queue) ==> key in queue && queue[key].time == 40)
      && NextTick(d, 10, 20) && IsTick(d, 30)
  {
    var d := Details(None, EveryTen, []);
    TensGiveTicks(d);
    forall t ensures WholeNanos(d.trigger(t)) {
      TensRoundUp(t);
    }
    forall x | 10 < x && IsTick(d, x) ensures 20 <= x {
      TensAreLeast(11, x);
    }
  }

  lemma TensGiveTicks(d: Details)
    requires d == Details(None, EveryTen, [])
    ensures GivesLeastTick(d)
  {
    forall t ensures t <= d.trigger(t) && IsTick(d, d.trigger(t)) {
      TensRoundUp(t);
    }
    forall t, x | t <= x && IsTick(d, x) ensures d.trigger(t) <= x {
      TensAreLeast(t, x);
    }
  }

  lemma TensRoundUp(t: Instant)
    ensures t <= EveryTen(t) && EveryTen(EveryTen(t)) == EveryTen(t) > 0 && WholeNanos(EveryTen(t))
  {
  }

  lemma TensAreLeast(t: Instant, x: Instant)
    requires t <= x && EveryTen(x) == x
    ensures EveryTen(t) <= x
  {
  }
}
