/** What every reachable state of the scheduler keeps. */
module SchedulerInv {
  import opened Wrappers
  import opened WeekTime
  import opened Slots
  import opened Activations
  import opened SchedulerSpec

  /** Runs and `running` name each other, one run for a key. */
  ghost predicate OneRunPerKey<K>(s: State<K>) {
    && (forall id :: id in s.runs ==> id < s.nextId)
    && (forall id :: id in s.runs ==> s.runs[id].key in s.running && s.running[s.runs[id].key] == id)
    && (forall k :: k in s.running ==> s.running[k] in s.runs && s.runs[s.running[k]].key == k)
  }

  ghost predicate KeysInPlace<K>(s: State<K>) {
    && (forall k :: k in s.queue ==> s.queue[k].key == k)
    && s.queue.Keys !! s.running.Keys
    && s.queue.Keys <= s.details.Keys
  }

  /** No scheduled key is lost. */
  ghost predicate NothingLost<K>(s: State<K>) {
    !s.closed ==> s.details.Keys <= s.queue.Keys + s.running.Keys
  }

  /** Nothing queued is due before the main loop wakes by itself. */
  ghost predicate NothingBefore<K>(q: map<K, Activation<K>>, top: Option<Activation<K>>) {
    match top
    case None => q == map[]
    case Some(a) => Earliest(q, a.time)
  }

  ghost predicate NoLostWakeup<K>(s: State<K>) {
    s.phase.Asleep? ==> s.token || (!s.closed && NothingBefore(s.queue, s.phase.top))
  }

  ghost predicate Inv<K>(s: State<K>) {
    OneRunPerKey(s) && KeysInPlace(s) && NothingLost(s) && NoLostWakeup(s)
  }

  lemma InitInv<K>(s: State<K>)
    requires Init(s)
    ensures Inv(s)
  {
  }

  // ---------- Step by step ----------

  lemma PushKeepsNothingBefore<K>(s: State<K>, a: Activation<K>, q': map<K, Activation<K>>, wake: bool)
    requires NoLostWakeup(s) && Pushed(s.queue, a, q', wake)
    ensures NoLostWakeup(s.(queue := q', token := s.token || wake))
  {
    if s.phase.Asleep? && !s.token && !wake {
      var k :| k in s.queue && k != a.key && s.queue[k].time <= a.time;
      assert s.phase.top.Some?;
    }
  }

  /** The state just before scheduleLocked: all in place but for one key, which is neither queued nor running. */
  ghost predicate Ready<K>(s: State<K>, key: K) {
    && OneRunPerKey(s) && KeysInPlace(s) && NoLostWakeup(s)
    && key !in s.running
    && (!s.closed ==> s.details.Keys <= s.queue.Keys + s.running.Keys + {key})
  }

  lemma UnscheduleKeeps<K>(s: State<K>, key: K, wake: bool, s': State<K>)
    requires OneRunPerKey(s) && KeysInPlace(s) && NoLostWakeup(s)
    requires !s.closed ==> s.details.Keys <= s.queue.Keys + s.running.Keys + {key}
    requires UnscheduleLocked(s, key, wake, s')
    ensures Inv(s')
  {
  }

  lemma ScheduleLockedKeeps<K>(s: State<K>, key: K, p: Plan, w: Window, wake: bool, s': State<K>)
    requires Ready(s, key) && key in s.details
    requires ScheduleLocked(s, key, p, w, wake, s')
    ensures Inv(s')
  {
    if p.next == 0 {
      UnscheduleKeeps(s, key, wake, s');
    } else {
      PushKeepsNothingBefore(s, Planned(key, p, w), s'.queue, wake);
    }
  }

  lemma StartRunKeeps<K>(s: State<K>, a: Activation<K>, initial: Instant)
    requires OneRunPerKey(s) && KeysInPlace(s) && NoLostWakeup(s)
    requires a.key !in s.running && a.key !in s.queue
    requires !s.closed ==> s.details.Keys <= s.queue.Keys + s.running.Keys + {a.key}
    ensures Inv(StartRun(s, a, initial))
  {
  }

  lemma CancelKeeps<K>(s: State<K>, k: K, c: Cause)
    requires Inv(s)
    ensures Inv(CancelKey(s, k, c))
  {
  }

  lemma RunEndsKeeps<K>(
    s: State<K>, id: RunId, err: RunError, delay: Option<nat>, now: Instant, wake: bool, s': State<K>)
    requires Inv(s) && RunEndsStep(s, id, err, delay, now, wake, s')
    ensures Inv(s')
  {
    var key := s.runs[id].key;
    var c := CancelKey(s, key, Rescheduled);
    var t := c.(running := s.running - {key}, runs := c.runs - {id});
    EndedRun(s, id);
    if !(s.closed || key !in s.details) {
      var d := s.details[key];
      ScheduleLockedKeeps(t, key, RescheduleP(c.runs[id], err, delay, d, now), d.window, wake, s');
    }
  }

  lemma EndedRun<K>(s: State<K>, id: RunId)
    requires Inv(s) && id in s.runs
    ensures
      var key := s.runs[id].key;
      var c := CancelKey(s, key, Rescheduled);
      Ready(c.(running := s.running - {key}, runs := c.runs - {id}), key)
  {
  }

  lemma ScheduleKeeps<K>(s: State<K>, key: K, d: Details, now: Instant, wake: bool, s': State<K>)
    requires Inv(s) && ScheduleStep(s, key, d, now, wake, s')
    ensures Inv(s')
  {
    if key !in s.running {
      ScheduleLockedKeeps(s.(details := s.details[key := d]), key, Plan(d.trigger(now), 0, None, 0), d.window, wake, s');
    }
  }

  lemma TriggerKeeps<K>(s: State<K>, key: K, now: Instant, wake: bool, s': State<K>)
    requires Inv(s) && TriggerStep(s, key, now, wake, s')
    ensures Inv(s')
  {
    if key !in s.running {
      var t := s.(queue := s'.queue, token := s.token || wake);
      if key in s.details {
        StartRunKeeps(t, Activation(0, key, 0, None, 0, 0), now);
      }
    }
  }

  lemma PopKeeps<K>(s: State<K>, s': State<K>)
    requires Inv(s) && PopStep(s, s')
    ensures Inv(s')
  {
    if s.queue != map[] {
      var k :| k in s.queue && Earliest(s.queue, s.queue[k].time) && PoppedStep(s, s.queue[k], s');
      PoppedKeeps(s, k, s');
    }
  }

  lemma PoppedKeeps<K>(s: State<K>, k: K, s': State<K>)
    requires Inv(s) && s.phase.TimerFired? && k in s.queue && PoppedStep(s, s.queue[k], s')
    ensures Inv(s')
  {
    if k == s.phase.key {
      StartRunKeeps(s.(queue := s.queue - {k}, phase := AtTop), s.queue[k], InitialActivation(s.queue[k]));
    }
  }

  /** Every step keeps the invariant. */
  lemma StepKeeps<K>(s: State<K>, e: Event<K>, wake: bool, s': State<K>)
    requires Inv(s) && Step(s, e, wake, s')
    ensures Inv(s')
  {
    match e
    case Schedule(key, d, now) => ScheduleKeeps(s, key, d, now, wake, s');
    case Unschedule(key) => UnscheduleKeeps(s, key, wake, s');
    case Trigger(key, now) => TriggerKeeps(s, key, now, wake, s');
    case Stop(key) => CancelKeeps(s, key, Stopped);
    case RunEnds(id, err, delay, now) => RunEndsKeeps(s, id, err, delay, now, wake, s');
    case PopHead => PopKeeps(s, s');
    case _ => QuietKeeps(s, e, wake, s');
  }

  /** The steps that leave queue, details and running keys alone. */
  predicate Quiet<K>(e: Event<K>) {
    e.Close? || e.WindowEnds? || e.Peek? || e.Timer? || e.Wake? || e.ContextDone?
  }

  lemma QuietKeeps<K>(s: State<K>, e: Event<K>, wake: bool, s': State<K>)
    requires Inv(s) && Step(s, e, wake, s') && Quiet(e)
    ensures Inv(s')
  {
    QuietWakeup(s, e, wake, s');
    SameKeysKeep(s, s');
  }

  lemma QuietWakeup<K>(s: State<K>, e: Event<K>, wake: bool, s': State<K>)
    requires NoLostWakeup(s) && Step(s, e, wake, s') && Quiet(e)
    ensures NoLostWakeup(s') && SameKeys(s, s')
  {
  }

  /** The same keys are queued, running and scheduled, and each run is one of the same key. */
  ghost predicate SameKeys<K>(s: State<K>, s': State<K>) {
    && s'.queue == s.queue && s'.details == s.details && s'.running == s.running && s'.nextId == s.nextId
    && (s.closed ==> s'.closed)
    && s'.runs.Keys == s.runs.Keys && forall id :: id in s.runs ==> s'.runs[id].key == s.runs[id].key
  }

  lemma SameKeysKeep<K>(s: State<K>, s': State<K>)
    requires Inv(s) && SameKeys(s, s') && NoLostWakeup(s')
    ensures Inv(s')
  {
  }

  // ---------- Whole runs of the scheduler ----------

  datatype Move<K> = Move(event: Event<K>, wake: bool)

  /** `states` starts in an initial state and each state follows from the one before by its move. */
  ghost predicate Execution<K>(states: seq<State<K>>, moves: seq<Move<K>>) {
    && |states| == |moves| + 1
    && Init(states[0])
    && forall i :: 0 <= i < |moves| ==> Step(states[i], moves[i].event, moves[i].wake, states[i+1])
  }

  lemma {:induction false} Reachable<K>(states: seq<State<K>>, moves: seq<Move<K>>, n: nat)
    requires Execution(states, moves) && n < |states|
    ensures Inv(states[n])
  {
    if n == 0 {
      InitInv(states[0]);
    } else {
      Reachable(states, moves, n - 1);
      StepKeeps(states[n-1], moves[n-1].event, moves[n-1].wake, states[n]);
    }
  }

  /** In every reachable state: one run at most for a key, and one exactly for the keys in `running`; no key
      both queued and running; queued keys have details; until Close no key with details is lost. */
  lemma AtMostOneRun<K>(states: seq<State<K>>, moves: seq<Move<K>>, n: nat)
    requires Execution(states, moves) && n < |states|
    ensures var s := states[n];
      && (forall i, j :: i in s.runs && j in s.runs && s.runs[i].key == s.runs[j].key ==> i == j)
      && (forall k :: k in s.running <==> exists i :: i in s.runs && s.runs[i].key == k)
      && (forall k :: k in s.queue ==> k !in s.running && k in s.details)
      && (!s.closed ==> forall k :: k in s.details ==> k in s.queue || k in s.running)
  {
    Reachable(states, moves, n);
    var s := states[n];
    forall k | k in s.running ensures exists i :: i in s.runs && s.runs[i].key == k {
      assert s.running[k] in s.runs;
    }
  }

  /** A queued activation that is due finds the main loop awake, or able to wake without any further call:
      a token is buffered, or the timer set at the peek has run out. */
  lemma DueIsServed<K>(states: seq<State<K>>, moves: seq<Move<K>>, n: nat, k: K, now: Instant)
    requires Execution(states, moves) && n < |states|
    requires k in states[n].queue && states[n].queue[k].time <= now && states[n].phase.Asleep?
    ensures exists s' :: Step(states[n], Wake, false, s') || Step(states[n], Timer(now), false, s')
  {
    Reachable(states, moves, n);
    var s := states[n];
    if s.token {
      assert Step(s, Wake, false, s.(token := false, phase := AtTop));
    } else {
      assert Step(s, Timer(now), false, s.(phase := TimerFired(s.phase.top.value.key)));
    }
  }

  /** After Close a sleeping main loop has a token to wake on, and the peek that follows ends the loop. */
  lemma CloseEndsLoop<K>(states: seq<State<K>>, moves: seq<Move<K>>, n: nat)
    requires Execution(states, moves) && n < |states| && states[n].closed
    ensures states[n].phase.Asleep? ==> states[n].token
    ensures forall s' :: Step(states[n], Peek, false, s') ==> s'.phase == Exited
  {
    Reachable(states, moves, n);
  }
}
