/** Activations and runs in the maintenance windows that their keys were scheduled with. */
module SchedulerWindows {
  import opened Wrappers
  import opened WeekTime
  import opened Slots
  import opened JoinSlots
  import opened WindowNext
  import opened Activations
  import opened SchedulerSpec
  import opened SchedulerInv

  /** A window as NewWindow builds it, on which the search is right. */
  predicate WellMade(w: Window) {
    ProperWindow(w) && Normal(w) && GoSlots(w) && SecondsTell(w)
  }

  /** Asked at `from`: without a window at once and without an end; in a window at the least open instant from then on,
      until the open stretch closes. */
  ghost predicate InWindow(w: Window, from: Instant, time: Instant, stop: Instant) {
    && (w == [] ==> time == from && stop == 0)
    && (WellMade(w) ==> LeastOpen(w, from, time) && Closes(w, time, stop))
  }

  /** The key is queued, asked for at `from`. */
  ghost predicate QueuedFrom<K>(queue: map<K, Activation<K>>, key: K, w: Window, from: Instant) {
    key in queue && queue[key].key == key && InWindow(w, from, queue[key].time, queue[key].stop)
  }

  lemma PlannedInWindow<K>(key: K, p: Plan, w: Window)
    ensures
      var a := Planned(key, p, w);
      && InWindow(w, p.next, a.time, a.stop)
      && a == Activation(a.time, key, p.retry, p.properties, a.stop, p.preReschedule)
  {
    if WellMade(w) {
      NextIsLeastOpen(w, p.next);
    }
  }

  // ---------- Scheduling a key ----------

  /** A new sequence waits for the tick `t`; without one nothing is queued. */
  ghost predicate StartsAt<K>(key: K, d: Details, t: Instant, queue: map<K, Activation<K>>) {
    if t == 0 then key !in queue
    else
      && QueuedFrom(queue, key, d.window, t)
      && queue[key].retry == 0 && queue[key].properties == None && queue[key].preReschedule == 0
  }

  /** The key is queued by the plan, or not queued. */
  ghost predicate QueuedAs<K>(queue: map<K, Activation<K>>, key: K, p: Plan, w: Window) {
    if p.next == 0 then key !in queue
    else
      && QueuedFrom(queue, key, w, p.next)
      && queue[key].retry == p.retry && queue[key].properties == p.properties
      && queue[key].preReschedule == p.preReschedule
  }

  lemma LockedInWindow<K>(s: State<K>, key: K, p: Plan, w: Window, wake: bool, s': State<K>)
    requires ScheduleLocked(s, key, p, w, wake, s')
    ensures QueuedAs(s'.queue, key, p, w)
  {
    PlannedInWindow(key, p, w);
  }

  lemma ScheduleInWindow<K>(s: State<K>, key: K, d: Details, now: Instant, wake: bool, s': State<K>)
    requires ScheduleStep(s, key, d, now, wake, s')
    ensures key in s.running ==> s'.queue == s.queue
    ensures key !in s.running ==> StartsAt(key, d, d.trigger(now), s'.queue)
  {
    if key !in s.running {
      LockedInWindow(s.(details := s.details[key := d]), key, Plan(d.trigger(now), 0, None, 0), d.window, wake, s');
    }
  }

  // ---------- What follows a run ----------

  /** A run out of its window goes on at the next open instant from now, with its retry number, properties and initial
      activation. */
  ghost predicate GoesOn<K>(r: Run<K>, d: Details, from: Instant, retry: int, queue: map<K, Activation<K>>) {
    && QueuedFrom(queue, r.key, d.window, from)
    && queue[r.key].retry == retry && queue[r.key].properties == r.properties
    && queue[r.key].preReschedule == r.initial
  }

  /** The tick after a sequence that began at `initial` and ended. */
  function TickAfter(d: Details, initial: Instant, now: Instant): Instant {
    if d.trigger(initial + NANOSECOND) > initial then d.trigger(initial + NANOSECOND) else d.trigger(now)
  }

  /** What follows the end of run `r` with `err`: out of its window, it goes on; after a failure other than by stop it is
      tried again when the backoff says so, and otherwise waits for the first tick from now on; in all other cases, also
      when it was stopped, it waits for the tick after its initial activation. */
  ghost predicate Follows<K>(
    r: Run<K>, err: RunError, delay: Option<nat>, now: Instant, d: Details, queue: map<K, Activation<K>>)
  {
    && (r.cause == OutOfWindow && now != 0 ==> GoesOn(r, d, now, r.retry, queue))
    && (r.cause != OutOfWindow && r.cause != Stopped && err == Failure && delay.Some? && now + delay.value != 0 ==>
          GoesOn(r, d, now + delay.value, Int8(r.retry + 1), queue))
    && (r.cause != OutOfWindow && r.cause != Stopped && err == Failure && delay.None? ==>
          StartsAt(r.key, d, d.trigger(now), queue))
    && (r.cause != OutOfWindow && (r.cause == Stopped || err != Failure) ==>
          StartsAt(r.key, d, TickAfter(d, r.initial, now), queue))
  }

  lemma CancelledRun<K>(s: State<K>, id: RunId)
    requires Inv(s) && id in s.runs
    ensures CancelKey(s, s.runs[id].key, Rescheduled).runs[id] == Cancel(s.runs[id], Rescheduled)
  {
    assert s.runs[id].key in s.running && s.running[s.runs[id].key] == id;
  }

  lemma PlanFollows<K>(
    r: Run<K>, err: RunError, delay: Option<nat>, now: Instant, d: Details, queue: map<K, Activation<K>>)
    requires QueuedAs(queue, r.key, RescheduleP(Cancel(r, Rescheduled), err, delay, d, now), d.window)
    ensures Follows(r, err, delay, now, d, queue)
  {
  }

  lemma RunEndsInWindow<K>(
    s: State<K>, id: RunId, err: RunError, delay: Option<nat>, now: Instant, wake: bool, s': State<K>)
    requires Inv(s) && RunEndsStep(s, id, err, delay, now, wake, s')
    requires !s.closed && s.runs[id].key in s.details
    ensures Follows(s.runs[id], err, delay, now, s.details[s.runs[id].key], s'.queue)
  {
    var r, key := s.runs[id], s.runs[id].key;
    var c := CancelKey(s, key, Rescheduled);
    var t := c.(running := s.running - {key}, runs := c.runs - {id});
    CancelledRun(s, id);
    var p := RescheduleP(c.runs[id], err, delay, s.details[key], now);
    LockedInWindow(t, key, p, s.details[key].window, wake, s');
    PlanFollows(r, err, delay, now, s.details[key], s'.queue);
  }

  // ---------- Single steps ----------

  ghost predicate IsSchedule<K>(e: Event<K>, k: K, w: Window) {
    e.Schedule? && e.key == k && e.d.window == w
  }

  ghost predicate NewDetails<K>(s: State<K>, e: Event<K>, s': State<K>) {
    forall k :: k in s'.details ==>
      (k in s.details && s'.details[k] == s.details[k]) || IsSchedule(e, k, s'.details[k].window)
  }

  /** What is newly queued is queued in the window that its key has now. */
  ghost predicate NewInWindow<K>(s: State<K>, s': State<K>) {
    forall k :: k in s'.queue ==>
      || (k in s.queue && s'.queue[k] == s.queue[k])
      || (k in s'.details && exists from :: QueuedFrom(s'.queue, k, s'.details[k].window, from))
  }

  /** A new run was triggered, and has no end, or was popped, and ends when its activation says. */
  ghost predicate NewRunsStop<K>(s: State<K>, e: Event<K>, s': State<K>) {
    forall id :: id in s'.runs ==>
      var r := s'.runs[id];
      || (id in s.runs && r.key == s.runs[id].key && r.stop == s.runs[id].stop)
      || (e.Trigger? && r.key == e.key && r.stop == 0)
      || (e.PopHead? && r.key in s.queue && r.key !in s'.queue && r.stop == s.queue[r.key].stop)
  }

  ghost predicate StepInWindows<K>(s: State<K>, e: Event<K>, s': State<K>) {
    NewDetails(s, e, s') && NewInWindow(s, s') && NewRunsStop(s, e, s')
  }

  lemma ScheduleStepWindows<K>(s: State<K>, key: K, d: Details, now: Instant, wake: bool, s': State<K>)
    requires ScheduleStep(s, key, d, now, wake, s')
    ensures StepInWindows(s, Event.Schedule(key, d, now), s')
  {
    ScheduleStepDetails(s, key, d, now, wake, s');
    if key !in s.running {
      ScheduleStepQueue(s, key, d, now, wake, s');
    }
  }

  lemma ScheduleStepQueue<K>(s: State<K>, key: K, d: Details, now: Instant, wake: bool, s': State<K>)
    requires ScheduleStep(s, key, d, now, wake, s') && key !in s.running
    ensures NewInWindow(s, s')
  {
    var t, p := s.(details := s.details[key := d]), Plan(d.trigger(now), 0, None, 0);
    LockedInWindow(t, key, p, d.window, wake, s');
    LockedElsewhere(t, key, p, d.window, wake, s');
    OnlyKeyNew(s, s', key, p, d.window);
  }

  lemma ScheduleStepDetails<K>(s: State<K>, key: K, d: Details, now: Instant, wake: bool, s': State<K>)
    requires ScheduleStep(s, key, d, now, wake, s')
    ensures s'.runs == s.runs && (key in s.running ==> s'.queue == s.queue)
    ensures key in s'.details ==> s'.details[key] == d
    ensures forall k :: k in s'.details && k != key ==> k in s.details && s'.details[k] == s.details[k]
  {
  }

  /** Only the key is newly queued, in its window. */
  lemma OnlyKeyNew<K>(s: State<K>, s': State<K>, key: K, p: Plan, w: Window)
    requires QueuedAs(s'.queue, key, p, w) && (p.next != 0 ==> key in s'.details && s'.details[key].window == w)
    requires forall k :: k in s'.queue && k != key ==> k in s.queue && s'.queue[k] == s.queue[k]
    ensures NewInWindow(s, s')
  {
  }

  lemma UnscheduleStepWindows<K>(s: State<K>, key: K, wake: bool, s': State<K>)
    requires UnscheduleLocked(s, key, wake, s')
    ensures StepInWindows(s, Event.Unschedule(key), s')
  {
  }

  lemma TriggerStepWindows<K>(s: State<K>, key: K, now: Instant, wake: bool, s': State<K>)
    requires TriggerStep(s, key, now, wake, s')
    ensures StepInWindows(s, Event.Trigger(key, now), s')
  {
    TriggeredRun(s, key, now, wake, s');
  }

  /** A triggered run has no end, the properties of its key, and begins a sequence now. */
  lemma TriggeredRun<K>(s: State<K>, key: K, now: Instant, wake: bool, s': State<K>)
    requires TriggerStep(s, key, now, wake, s')
    ensures s'.details == s.details
    ensures s'.queue == if key in s.running then s.queue else s.queue - {key}
    ensures s'.runs ==
      if key in s.running || key !in s.details then s.runs
      else s.runs[s.nextId := Run(key, 0, s.details[key].properties, 0, NotCancelled, now)]
  {
  }

  lemma RunEndsStepWindows<K>(
    s: State<K>, id: RunId, err: RunError, delay: Option<nat>, now: Instant, wake: bool, s': State<K>)
    requires Inv(s) && RunEndsStep(s, id, err, delay, now, wake, s')
    ensures StepInWindows(s, RunEnds(id, err, delay, now), s')
  {
    var key := s.runs[id].key;
    var c := CancelKey(s, key, Rescheduled);
    var t := c.(running := s.running - {key}, runs := c.runs - {id});
    if !s.closed && key in s.details {
      var p := RescheduleP(c.runs[id], err, delay, s.details[key], now);
      LockedInWindow(t, key, p, s.details[key].window, wake, s');
      LockedElsewhere(t, key, p, s.details[key].window, wake, s');
      OnlyKeyNew(s, s', key, p, s.details[key].window);
    }
  }

  lemma LockedElsewhere<K>(s: State<K>, key: K, p: Plan, w: Window, wake: bool, s': State<K>)
    requires ScheduleLocked(s, key, p, w, wake, s')
    ensures s'.runs == s.runs
    ensures forall k :: k in s'.details ==> k in s.details && s'.details[k] == s.details[k]
    ensures p.next != 0 ==> s'.details == s.details
    ensures forall k :: k in s'.queue && k != key ==> k in s.queue && s'.queue[k] == s.queue[k]
    ensures p.next == 0 ==> key !in s'.queue
  {
  }

  lemma PopStepWindows<K>(s: State<K>, s': State<K>)
    requires Inv(s) && PopStep(s, s')
    ensures StepInWindows(s, PopHead, s')
  {
    PoppedDetails(s, s');
    if s'.runs != s.runs {
      PoppedRun(s, s');
      NewRunStops(s, s', s.nextId, s.phase.key);
    } else {
      NothingPopped(s, s');
    }
  }

  lemma NewRunStops<K>(s: State<K>, s': State<K>, id: RunId, k: K)
    requires k in s.queue && s'.queue == s.queue - {k} && id in s'.runs && s'.runs == s.runs[id := s'.runs[id]]
    requires s'.runs[id].key == k && s'.runs[id].stop == s.queue[k].stop
    ensures NewInWindow(s, s') && NewRunsStop(s, PopHead, s')
  {
  }

  lemma PoppedDetails<K>(s: State<K>, s': State<K>)
    requires PopStep(s, s')
    ensures s'.details == s.details
  {
  }

  lemma NothingPopped<K>(s: State<K>, s': State<K>)
    requires Inv(s) && PopStep(s, s') && s'.runs == s.runs
    ensures s'.queue == s.queue
  {
    assert s.nextId !in s.runs;
  }

  lemma OtherStepWindows<K>(s: State<K>, e: Event<K>, wake: bool, s': State<K>)
    requires Step(s, e, wake, s') && (e.Stop? || Quiet(e))
    ensures StepInWindows(s, e, s')
  {
  }

  lemma StepWindows<K>(s: State<K>, e: Event<K>, wake: bool, s': State<K>)
    requires Inv(s) && Step(s, e, wake, s')
    ensures StepInWindows(s, e, s')
  {
    match e
    case Schedule(key, d, now) => ScheduleStepWindows(s, key, d, now, wake, s');
    case Unschedule(key) => UnscheduleStepWindows(s, key, wake, s');
    case Trigger(key, now) => TriggerStepWindows(s, key, now, wake, s');
    case RunEnds(id, err, delay, now) => RunEndsStepWindows(s, id, err, delay, now, wake, s');
    case PopHead => PopStepWindows(s, s');
    case _ => OtherStepWindows(s, e, wake, s');
  }

  // ---------- Whole executions ----------

  ghost predicate ScheduledWith<K>(moves: seq<Move<K>>, n: nat, k: K, w: Window)
    requires n <= |moves|
  {
    exists i :: 0 <= i < n && IsSchedule(moves[i].event, k, w)
  }

  ghost predicate Triggered<K>(moves: seq<Move<K>>, n: nat, k: K)
    requires n <= |moves|
  {
    exists i :: 0 <= i < n && moves[i].event.Trigger? && moves[i].event.key == k
  }

  /** From `time` to `stop` is an answer of a window that the key was scheduled with. */
  ghost predicate HasWindow<K>(moves: seq<Move<K>>, n: nat, k: K, time: Instant, stop: Instant)
    requires n <= |moves|
  {
    exists w, from :: ScheduledWith(moves, n, k, w) && InWindow(w, from, time, stop)
  }

  /** The run was triggered, without an end, or opened in a window of its key and has its end. */
  ghost predicate RunHasWindow<K>(moves: seq<Move<K>>, n: nat, r: Run<K>)
    requires n <= |moves|
  {
    (r.stop == 0 && Triggered(moves, n, r.key)) || exists time :: HasWindow(moves, n, r.key, time, r.stop)
  }

  ghost predicate AllInWindows<K>(moves: seq<Move<K>>, n: nat, s: State<K>)
    requires n <= |moves|
  {
    && (forall k :: k in s.details ==> ScheduledWith(moves, n, k, s.details[k].window))
    && (forall k :: k in s.queue ==> HasWindow(moves, n, k, s.queue[k].time, s.queue[k].stop))
    && (forall id :: id in s.runs ==> RunHasWindow(moves, n, s.runs[id]))
  }

  lemma StillScheduled<K>(moves: seq<Move<K>>, n: nat, k: K)
    requires n < |moves|
    ensures forall w :: ScheduledWith(moves, n, k, w) ==> ScheduledWith(moves, n + 1, k, w)
    ensures Triggered(moves, n, k) ==> Triggered(moves, n + 1, k)
    ensures forall time, stop :: HasWindow(moves, n, k, time, stop) ==> HasWindow(moves, n + 1, k, time, stop)
  {
    forall w | ScheduledWith(moves, n, k, w) ensures ScheduledWith(moves, n + 1, k, w) {
      var i :| 0 <= i < n && IsSchedule(moves[i].event, k, w);
      assert IsSchedule(moves[i].event, k, w);
    }
    forall time, stop | HasWindow(moves, n, k, time, stop) ensures HasWindow(moves, n + 1, k, time, stop) {
      var w, from :| ScheduledWith(moves, n, k, w) && InWindow(w, from, time, stop);
      assert ScheduledWith(moves, n + 1, k, w) && InWindow(w, from, time, stop);
    }
  }

  lemma DetailsAfter<K>(moves: seq<Move<K>>, n: nat, s: State<K>, s': State<K>)
    requires n < |moves| && AllInWindows(moves, n, s) && NewDetails(s, moves[n].event, s')
    ensures forall k :: k in s'.details ==> ScheduledWith(moves, n + 1, k, s'.details[k].window)
  {
    forall k | k in s'.details ensures ScheduledWith(moves, n + 1, k, s'.details[k].window) {
      StillScheduled(moves, n, k);
      assert IsSchedule(moves[n].event, k, s'.details[k].window) ==> ScheduledWith(moves, n + 1, k, s'.details[k].window);
    }
  }

  lemma QueuedAfter<K>(moves: seq<Move<K>>, n: nat, s: State<K>, s': State<K>)
    requires n < |moves| && AllInWindows(moves, n, s) && NewInWindow(s, s')
    requires forall k :: k in s'.details ==> ScheduledWith(moves, n + 1, k, s'.details[k].window)
    ensures forall k :: k in s'.queue ==> HasWindow(moves, n + 1, k, s'.queue[k].time, s'.queue[k].stop)
  {
    forall k | k in s'.queue ensures HasWindow(moves, n + 1, k, s'.queue[k].time, s'.queue[k].stop) {
      StillScheduled(moves, n, k);
      if !(k in s.queue && s'.queue[k] == s.queue[k]) {
        var from :| QueuedFrom(s'.queue, k, s'.details[k].window, from);
        assert InWindow(s'.details[k].window, from, s'.queue[k].time, s'.queue[k].stop);
      }
    }
  }

  lemma RunsAfter<K>(moves: seq<Move<K>>, n: nat, s: State<K>, s': State<K>)
    requires n < |moves| && AllInWindows(moves, n, s) && NewRunsStop(s, moves[n].event, s')
    ensures forall id :: id in s'.runs ==> RunHasWindow(moves, n + 1, s'.runs[id])
  {
    forall id | id in s'.runs ensures RunHasWindow(moves, n + 1, s'.runs[id]) {
      OneRunAfter(moves, n, s, s', id);
    }
  }

  lemma OneRunAfter<K>(moves: seq<Move<K>>, n: nat, s: State<K>, s': State<K>, id: RunId)
    requires n < |moves| && AllInWindows(moves, n, s) && NewRunsStop(s, moves[n].event, s') && id in s'.runs
    ensures RunHasWindow(moves, n + 1, s'.runs[id])
  {
    var r, e := s'.runs[id], moves[n].event;
    StillScheduled(moves, n, r.key);
    if id in s.runs && r.key == s.runs[id].key && r.stop == s.runs[id].stop {
      assert RunHasWindow(moves, n, s.runs[id]);
    } else if e.Trigger? {
      assert Triggered(moves, n + 1, r.key);
    } else {
      assert HasWindow(moves, n, r.key, s.queue[r.key].time, r.stop);
    }
  }

  /** Along every execution each queued activation opens and closes in a window that its key was scheduled with, and each
      run that was not triggered by hand stops at the close that its activation had. */
  lemma {:induction false} WindowsAlways<K>(states: seq<State<K>>, moves: seq<Move<K>>, n: nat)
    requires Execution(states, moves) && n < |states|
    ensures AllInWindows(moves, n, states[n])
    decreases n
  {
    if n > 0 {
      WindowsAlways(states, moves, n - 1);
      WindowsNext(states, moves, n - 1);
    }
  }

  lemma WindowsNext<K>(states: seq<State<K>>, moves: seq<Move<K>>, n: nat)
    requires Execution(states, moves) && n < |moves| && AllInWindows(moves, n, states[n])
    ensures AllInWindows(moves, n + 1, states[n+1])
  {
    Reachable(states, moves, n);
    StepWindows(states[n], moves[n].event, moves[n].wake, states[n+1]);
    AllAfter(moves, n, states[n], states[n+1]);
  }

  lemma AllAfter<K>(moves: seq<Move<K>>, n: nat, s: State<K>, s': State<K>)
    requires n < |moves| && AllInWindows(moves, n, s) && StepInWindows(s, moves[n].event, s')
    ensures AllInWindows(moves, n + 1, s')
  {
    DetailsAfter(moves, n, s, s');
    QueuedAfter(moves, n, s, s');
    RunsAfter(moves, n, s, s');
  }

  // ---------- Runs ----------

  /** The run that a pop starts takes its key, retry number, initial activation and end from the activation popped, which is
      one of the earliest and queued no more. */
  lemma PoppedRun<K>(s: State<K>, s': State<K>)
    requires Inv(s) && PopStep(s, s') && s'.runs != s.runs
    ensures s.phase.key in s.queue && Earliest(s.queue, s.queue[s.phase.key].time)
    ensures s'.queue == s.queue - {s.phase.key} && s.nextId in s'.runs && s'.runs == s.runs[s.nextId := s'.runs[s.nextId]]
    ensures FromActivation(s.queue[s.phase.key], s.details, s'.runs[s.nextId])
  {
    var k :| k in s.queue && Earliest(s.queue, s.queue[k].time) && PoppedStep(s, s.queue[k], s');
    assert s.queue[k].key == k == s.phase.key;
    StartedFrom(s, s.queue[k], s');
  }

  ghost predicate FromActivation<K>(a: Activation<K>, details: map<K, Details>, r: Run<K>) {
    && r.key == a.key && r.stop == a.stop && r.retry == a.retry && r.cause == NotCancelled
    && r.initial == (if a.preReschedule != 0 then a.preReschedule else a.time)
    && (a.properties.Some? ==> r.properties == a.properties)
    && (a.properties.None? && r.key in details ==> r.properties == details[r.key].properties)
  }

  lemma StartedFrom<K>(s: State<K>, a: Activation<K>, s': State<K>)
    requires s' == StartRun(s.(queue := s.queue - {a.key}, phase := AtTop), a, InitialActivation(a))
    ensures s'.queue == s.queue - {a.key} && s.nextId in s'.runs && s'.runs == s.runs[s.nextId := s'.runs[s.nextId]]
    ensures FromActivation(a, s.details, s'.runs[s.nextId])
  {
  }

  /** Cancelling a key cancels its run, unless it is cancelled already, and no other. */
  lemma CancelledKey<K>(s: State<K>, key: K, c: Cause)
    requires Inv(s)
    ensures var runs := CancelKey(s, key, c).runs;
      && runs.Keys == s.runs.Keys
      && forall id :: id in runs ==>
           runs[id] == if s.runs[id].key == key && s.runs[id].cause == NotCancelled then s.runs[id].(cause := c)
                       else s.runs[id]
  {
  }

  /** A run can be stopped as one out of its window exactly from its end on, and then is, unless it is cancelled already;
      the other runs go on. */
  lemma StopsAtWindowEnd<K>(s: State<K>, id: RunId, now: Instant)
    requires id in s.runs
    ensures (exists s' :: Step(s, WindowEnds(id, now), false, s')) <==> s.runs[id].stop != 0 && s.runs[id].stop <= now
    ensures forall s' :: Step(s, WindowEnds(id, now), false, s') ==>
              && s'.runs.Keys == s.runs.Keys && (forall i :: i in s.runs && i != id ==> s'.runs[i] == s.runs[i])
              && s'.runs[id] ==
                   if s.runs[id].cause == NotCancelled then s.runs[id].(cause := OutOfWindow) else s.runs[id]
  {
    if s.runs[id].stop != 0 && s.runs[id].stop <= now {
      assert Step(s, WindowEnds(id, now), false, s.(runs := s.runs[id := Cancel(s.runs[id], OutOfWindow)]));
    }
  }
}
