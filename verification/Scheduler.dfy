/** The scheduler object: every method that holds the mutex does one step of the state machine. */
module Schedulers {
  import opened Wrappers
  import opened WeekTime
  import opened Slots
  import opened WindowNext
  import opened Activations
  import opened SchedulerSpec
  import opened SchedulerInv
  import opened SchedulerWindows

  class Scheduler<K(==)> {
    const queue: ActivationQueue<K>
    var details: map<K, Details>
    var running: map<K, RunId>
    var closed: bool
    /** The buffer of the wake-up channel, which holds one token. */
    var token: bool
    /** Where the goroutine of Start is, with its local variables. */
    var phase: Phase<K>
    /** The contexts of the goroutines started by asyncRun. */
    var runs: map<RunId, Run<K>>
    var nextId: RunId

    ghost predicate Valid()
      reads this, queue
    {
      queue.Valid() && Inv(View())
    }

    ghost function View(): State<K>
      reads this, queue
      requires queue.Valid()
    {
      State(queue.Queued(), details, running, runs, nextId, closed, token, phase)
    }

    constructor ()
      ensures Valid() && Init(View()) && fresh(queue)
    {
      queue := new ActivationQueue<K>();
      details := map[];
      running := map[];
      closed := false;
      token := false;
      phase := AtTop;
      runs := map[];
      nextId := 0;
    }

    method Wakeup()
      requires queue.Valid()
      modifies this`token
      ensures queue.Valid() && View() == old(View()).(token := true)
    {
      token := true;
    }

    method UnscheduleLocked(key: K) returns (ghost wake: bool)
      requires queue.Valid()
      modifies this, queue
      ensures queue.Valid() && SchedulerSpec.UnscheduleLocked(old(View()), key, wake, View())
    {
      details := details - {key};
      HeadIsEarliestKey(queue);
      var head := queue.Remove(key);
      wake := head;
      if head {
        Wakeup();
      }
    }

    method ScheduleLocked(key: K, p: Plan, w: Window) returns (ghost wake: bool)
      requires queue.Valid()
      modifies this, queue
      ensures queue.Valid() && SchedulerSpec.ScheduleLocked(old(View()), key, p, w, wake, View())
    {
      if p.next == 0 {
        wake := UnscheduleLocked(key);
        return;
      }
      var begin, end := ComputeNext(w, p.next);
      var a := Activation(begin, key, p.retry, p.properties, end, p.preReschedule);
      assert a == Planned(key, p, w);
      var head := queue.Push(a);
      wake := head;
      if head {
        Wakeup();
      }
    }

    method RunProps(a: Activation<K>) returns (p: Option<Properties>)
      ensures p == RunProperties(details, a)
    {
      if a.properties.Some? {
        p := a.properties;
      } else if a.key in details {
        p := details[a.key].properties;
      } else {
        p := None;
      }
    }

    method NewRun(a: Activation<K>, initial: Instant)
      requires queue.Valid()
      modifies this`running, this`runs, this`nextId
      ensures queue.Valid() && View() == StartRun(old(View()), a, initial)
    {
      ghost var s := View();
      var p := RunProps(a);
      running := running[a.key := nextId];
      runs := runs[nextId := Run(a.key, a.retry, p, a.stop, NotCancelled, initial)];
      nextId := nextId + 1;
      assert View() == s.(running := running, runs := runs, nextId := nextId);
    }

    method CancelRun(key: K, c: Cause)
      requires queue.Valid()
      modifies this`runs
      ensures queue.Valid() && View() == CancelKey(old(View()), key, c)
    {
      if key in running && running[key] in runs {
        runs := runs[running[key] := Cancel(runs[running[key]], c)];
      }
    }

    method Schedule(key: K, d: Details, now: Instant) returns (ghost wake: bool)
      requires Valid()
      modifies this, queue
      ensures Valid() && Step(old(View()), Event.Schedule(key, d, now), wake, View())
      ensures key in old(running) ==> queue.Queued() == old(queue.Queued())
      ensures key !in old(running) ==> StartsAt(key, d, d.trigger(now), queue.Queued())
      ensures key in old(running) || d.trigger(now) != 0 ==> details == old(details)[key := d]
    {
      ghost var s := View();
      details := details[key := d];
      assert View() == s.(details := s.details[key := d]);
      if key in running {
        wake := false;
      } else {
        wake := ScheduleLocked(key, Plan(d.trigger(now), 0, None, 0), d.window);
      }
      StepKeeps(s, Event.Schedule(key, d, now), wake, View());
      ScheduleInWindow(s, key, d, now, wake, View());
    }

    method Unschedule(key: K) returns (ghost wake: bool)
      requires Valid()
      modifies this, queue
      ensures Valid() && Step(old(View()), Event.Unschedule(key), wake, View())
      ensures details == old(details) - {key} && queue.Queued() == old(queue.Queued()) - {key} && runs == old(runs)
    {
      wake := UnscheduleLocked(key);
      StepKeeps(old(View()), Event.Unschedule(key), wake, View());
    }

    /** True iff the key was running or scheduled. */
    method Trigger(key: K, now: Instant) returns (ok: bool, ghost wake: bool)
      requires Valid()
      modifies this, queue
      ensures Valid() && Step(old(View()), Event.Trigger(key, now), wake, View())
      ensures ok <==> old(key in running || key in details)
      ensures ok <==> key in running
      ensures key in old(running) ==> runs == old(runs)
      ensures queue.Queued() == if key in old(running) then old(queue.Queued()) else old(queue.Queued()) - {key}
      ensures ok && key !in old(running) ==> running[key] == old(nextId)
      ensures ok && key !in old(running) ==>
                runs == old(runs)[old(nextId) := Run(key, 0, old(details)[key].properties, 0, NotCancelled, now)]
    {
      if key in running {
        return true, false;
      }
      HeadIsEarliestKey(queue);
      var head := queue.Remove(key);
      wake := head;
      if head {
        Wakeup();
      }
      ok := key in details;
      if ok {
        NewRun(Activation(0, key, 0, None, 0, 0), now);
      }
      StepKeeps(old(View()), Event.Trigger(key, now), wake, View());
    }

    method Stop(key: K)
      requires Valid()
      modifies this`runs
      ensures Valid() && Step(old(View()), Event.Stop(key), false, View())
      ensures runs.Keys == old(runs.Keys)
      ensures forall id :: id in runs ==>
                runs[id] == if old(runs)[id].key == key && old(runs)[id].cause == NotCancelled
                            then old(runs)[id].(cause := Stopped) else old(runs)[id]
    {
      ghost var s := View();
      CancelRun(key, Stopped);
      StepKeeps(s, Event.Stop(key), false, View());
      CancelledKey(s, key, Stopped);
    }

    /** The queued keys with their activation times, each key once. */
    method Pending() returns (pending: seq<K>, next: seq<Instant>)
      requires queue.Valid()
      ensures |pending| == |next|
      ensures forall i :: 0 <= i < |pending| ==>
                pending[i] in queue.Queued() && queue.Queued()[pending[i]].time == next[i]
      ensures forall k :: k in queue.Queued() ==> k in pending
      ensures forall i, j :: 0 <= i < j < |pending| ==> pending[i] != pending[j]
    {
      pending, next := [], [];
      for i := 0 to |queue.h|
        invariant |pending| == |next| == i
        invariant forall j :: 0 <= j < i ==> pending[j] == queue.h[j].key && next[j] == queue.h[j].time
      {
        pending := pending + [queue.h[i].key];
        next := next + [queue.h[i].time];
      }
      forall k | k in queue.Queued() ensures k in pending {
        var i := IndexOf(queue.h, k);
        assert pending[i] == k;
      }
    }

    /** The running keys, and the pending keys with their next activations. */
    method Close() returns (active: set<K>, pending: seq<K>, next: seq<Instant>)
      requires Valid()
      modifies this
      ensures Valid() && Step(old(View()), Event.Close, false, View())
      ensures closed && active == running.Keys && runs.Keys == old(runs.Keys)
      ensures forall id :: id in runs ==>
                runs[id] == if old(runs)[id].cause == NotCancelled then old(runs)[id].(cause := SchedulerStopped)
                            else old(runs)[id]
      ensures |pending| == |next|
      ensures forall i :: 0 <= i < |pending| ==>
                pending[i] in queue.Queued() && queue.Queued()[pending[i]].time == next[i]
      ensures forall k :: k in queue.Queued() ==> k in pending
      ensures forall i, j :: 0 <= i < j < |pending| ==> pending[i] != pending[j]
    {
      closed := true;
      Wakeup();
      active := running.Keys;
      runs := CancelAll(running, runs, SchedulerStopped);
      StepKeeps(old(View()), Event.Close, false, View());
      pending, next := Pending();
    }

    /** The switch of reschedule. */
    method NextPlan(r: Run<K>, err: RunError, delay: Option<nat>, d: Details, now: Instant) returns (plan: Plan)
      ensures plan == RescheduleP(r, err, delay, d, now)
    {
      var next: Instant := d.trigger(now);
      var retno, p, pre := 0, None, 0;
      if r.cause == OutOfWindow {
        next, retno, p, pre := now, r.retry, r.properties, r.initial;
      } else if err == Failure && r.cause != Stopped {
        if delay.Some? {
          next, retno, p, pre := now + delay.value, Int8(r.retry + 1), r.properties, r.initial;
        }
      } else {
        var a := d.trigger(r.initial + NANOSECOND);
        if a > r.initial {
          next := a;
        }
      }
      plan := Plan(next, retno, p, pre);
    }

    method RescheduleLocked(id: RunId, err: RunError, delay: Option<nat>, now: Instant) returns (ghost wake: bool)
      requires queue.Valid() && id in runs
      modifies this, queue
      ensures queue.Valid() && RunEndsStep(old(View()), id, err, delay, now, wake, View())
    {
      wake := false;
      var key := runs[id].key;
      CancelRun(key, Rescheduled);
      var r := runs[id];
      running := running - {key};
      runs := runs - {id};
      if !closed && key in details {
        var plan := NextPlan(r, err, delay, details[key], now);
        wake := ScheduleLocked(key, plan, details[key].window);
      }
    }

    /** The end of a run's goroutine. */
    method Reschedule(id: RunId, err: RunError, delay: Option<nat>, now: Instant) returns (ghost wake: bool)
      requires Valid() && id in runs
      modifies this, queue
      ensures Valid() && Step(old(View()), RunEnds(id, err, delay, now), wake, View())
      ensures var r := old(runs)[id];
        if !old(closed) && r.key in old(details) then
          Follows(r, err, delay, now, old(details)[r.key], queue.Queued())
        else
          queue.Queued() == old(queue.Queued())
    {
      ghost var s := View();
      wake := RescheduleLocked(id, err, delay, now);
      StepKeeps(s, RunEnds(id, err, delay, now), wake, View());
      if !s.closed && s.runs[id].key in s.details {
        RunEndsInWindow(s, id, err, delay, now, wake, View());
      }
    }

    // ---------- The main loop ----------

    method Peek()
      requires Valid() && phase == AtTop
      modifies this`phase
      ensures Valid() && Step(old(View()), Event.Peek, false, View())
    {
      if closed {
        phase := Exited;
      } else {
        var top := queue.Top();
        phase := Asleep(top);
      }
      StepKeeps(old(View()), Event.Peek, false, View());
    }

    /** The three ways out of sleep: the timer, the wake-up channel, the context. */
    method TimerFires(now: Instant)
      requires Valid() && phase.Asleep? && phase.top.Some? && now >= phase.top.value.time
      modifies this`phase
      ensures Valid() && Step(old(View()), Timer(now), false, View())
    {
      phase := TimerFired(phase.top.value.key);
      StepKeeps(old(View()), Timer(now), false, View());
    }

    method WakesUp()
      requires Valid() && phase.Asleep? && token
      modifies this`phase, this`token
      ensures Valid() && Step(old(View()), Event.Wake, false, View())
    {
      ghost var s := View();
      token := false;
      phase := AtTop;
      assert View() == s.(token := false, phase := AtTop);
      StepKeeps(s, Event.Wake, false, View());
    }

    method ContextEnds()
      requires Valid() && phase.Asleep?
      modifies this`phase
      ensures Valid() && Step(old(View()), Event.ContextDone, false, View())
    {
      phase := Exited;
      StepKeeps(old(View()), Event.ContextDone, false, View());
    }

    /** Pops the head and pushes it back if it is not the key that was peeked at. */
    method TakeHead(key: K) returns (r: Option<Activation<K>>)
      requires queue.Valid()
      modifies queue
      ensures queue.Valid()
      ensures r.Some? ==>
                && key in old(queue.Queued()) && old(queue.Queued())[key] == r.value && r.value.key == key
                && Earliest(old(queue.Queued()), r.value.time)
                && queue.Queued() == old(queue.Queued()) - {key}
      ensures r.None? ==>
                && queue.Queued() == old(queue.Queued())
                && (queue.Queued() == map[] ||
                    exists k :: k in queue.Queued() && k != key && queue.Queued()[k].key == k
                                && Earliest(queue.Queued(), queue.Queued()[k].time))
    {
      r := queue.Pop();
      if r.Some? && r.value.key != key {
        ghost var k := r.value.key;
        var _ := queue.Push(r.value);
        PutBack(old(queue.Queued()), k);
        r := None;
      }
    }

    method PopLocked()
      requires queue.Valid() && phase.TimerFired?
      modifies this, queue
      ensures queue.Valid() && PopStep(old(View()), View())
    {
      ghost var s := View();
      var r := TakeHead(phase.key);
      phase := AtTop;
      ghost var t := View();
      assert t == s.(queue := t.queue, phase := AtTop);
      if r.None? {
        PoppedBack(s);
      } else {
        NewRun(r.value, InitialActivation(r.value));
        PoppedHead(s, r.value, View());
      }
    }

    /** Runs the head, if it is the key that was peeked at. */
    method PopAndRun()
      requires Valid() && phase.TimerFired?
      modifies this, queue
      ensures Valid() && Step(old(View()), Event.PopHead, false, View())
      ensures runs != old(runs) ==>
                && old(phase).key in old(queue.Queued())
                && queue.Queued() == old(queue.Queued()) - {old(phase).key}
                && old(nextId) in runs && runs == old(runs)[old(nextId) := runs[old(nextId)]]
                && FromActivation(old(queue.Queued())[old(phase).key], old(details), runs[old(nextId)])
    {
      ghost var s := View();
      PopLocked();
      StepKeeps(s, Event.PopHead, false, View());
      if runs != s.runs {
        PoppedRun(s, View());
      }
    }
  }

  lemma PoppedBack<K>(s: State<K>)
    requires s.phase.TimerFired?
    requires s.queue == map[] ||
             exists k :: k in s.queue && k != s.phase.key && s.queue[k].key == k && Earliest(s.queue, s.queue[k].time)
    ensures PopStep(s, s.(phase := AtTop))
  {
    if s.queue != map[] {
      var k :| k in s.queue && k != s.phase.key && s.queue[k].key == k && Earliest(s.queue, s.queue[k].time);
      assert PoppedStep(s, s.queue[k], s.(phase := AtTop));
    }
  }

  lemma PutBack<K>(q: map<K, Activation<K>>, k: K)
    requires k in q
    ensures (q - {k})[k := q[k]] == q
  {
  }

  lemma PoppedHead<K>(s: State<K>, a: Activation<K>, s': State<K>)
    requires s.phase.TimerFired? && a.key == s.phase.key
    requires a.key in s.queue && s.queue[a.key] == a && Earliest(s.queue, a.time)
    requires s' == StartRun(s.(queue := s.queue - {a.key}, phase := AtTop), a, InitialActivation(a))
    ensures PopStep(s, s')
  {
    assert PoppedStep(s, s.queue[a.key], s');
  }

  lemma HeadIsEarliestKey<K>(q: ActivationQueue<K>)
    requires q.Valid()
    ensures |q.h| > 0 ==> q.h[0].key in q.Queued() && Earliest(q.Queued(), q.Queued()[q.h[0].key].time)
  {
    if |q.h| > 0 {
      HeadBeforeAll(q.h);
    }
  }
}
