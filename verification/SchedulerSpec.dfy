/** The scheduler of pkg/scheduler/scheduler.go as a state machine.

  One step is what one holder of the mutex does, or one event of a run or of the main loop.  In the
  main loop peek, sleep and pop are steps of their own.
*/
module SchedulerSpec {
  import opened Wrappers
  import opened WeekTime
  import opened Slots
  import opened WindowNext
  import opened Activations

  /** Why the context of a run was cancelled; the first cause stays. */
  datatype Cause = NotCancelled | Stopped | OutOfWindow | Rescheduled | SchedulerStopped

  datatype RunError = Success | Failure | PermanentFailure

  /** A trigger gives the next activation time, 0 when there is none. */
  datatype Details = Details(properties: Option<Properties>, trigger: Instant -> nat, window: Window)

  /** A run in flight, from the making of its context to the end of `reschedule`. */
  datatype Run<K> = Run(
    key: K, retry: int, properties: Option<Properties>, stop: Instant, cause: Cause, initial: Instant)

  /** Where the main loop is.  `Asleep` lasts from the peek to the end of the sleep. */
  datatype Phase<K> = AtTop | Asleep(top: Option<Activation<K>>) | TimerFired(key: K) | Exited

  type RunId = nat

  datatype State<!K> = State(
    queue: map<K, Activation<K>>,
    details: map<K, Details>,
    running: map<K, RunId>,
    runs: map<RunId, Run<K>>,
    nextId: RunId,
    closed: bool,
    token: bool,
    phase: Phase<K>
  )

  /** The conversion of an int to int8. */
  function Int8(x: int): int {
    (x + 128) % 256 - 128
  }

  lemma Int8Wraps(x: int)
    ensures -128 <= Int8(x) < 128 && (Int8(x) - x) % 256 == 0
  {
    var n, r := (x + 128) / 256, (x + 128) % 256;
    assert Int8(x) - x == -256 * n;
  }

  function Cancel<K>(r: Run<K>, c: Cause): Run<K> {
    if r.cause == NotCancelled then r.(cause := c) else r
  }

  /** Cancels the run that `running` holds for the key. */
  function CancelKey<K>(s: State<K>, k: K, c: Cause): State<K> {
    if k in s.running && s.running[k] in s.runs then
      s.(runs := s.runs[s.running[k] := Cancel(s.runs[s.running[k]], c)])
    else s
  }

  // ---------- The queue, by what its methods promise ----------

  ghost predicate Earliest<K>(q: map<K, Activation<K>>, t: Instant) {
    forall k :: k in q ==> t <= q[k].time
  }

  /** Push of `a`; `wake` is its answer. */
  ghost predicate Pushed<K>(q: map<K, Activation<K>>, a: Activation<K>, q': map<K, Activation<K>>, wake: bool) {
    && q' == q[a.key := a]
    && (wake ==> Earliest(q', a.time))
    && (!wake ==> exists k :: k in q && k != a.key && q[k].time <= a.time)
  }

  /** Remove of `key`; `wake` is its answer. */
  ghost predicate Removed<K>(q: map<K, Activation<K>>, key: K, q': map<K, Activation<K>>, wake: bool) {
    && q' == q - {key}
    && (wake ==> key in q && Earliest(q, q[key].time))
  }

  // ---------- The parts of the steps ----------

  ghost predicate UnscheduleLocked<K>(s: State<K>, key: K, wake: bool, s': State<K>) {
    && Removed(s.queue, key, s'.queue, wake)
    && s' == s.(details := s.details - {key}, queue := s'.queue, token := s.token || wake)
  }

  /** What scheduleLocked is called with. */
  datatype Plan = Plan(next: Instant, retry: int, properties: Option<Properties>, preReschedule: Instant)

  function Planned<K>(key: K, p: Plan, w: Window): Activation<K> {
    var (begin, end) := NextOpen(w, p.next);
    Activation(begin, key, p.retry, p.properties, end, p.preReschedule)
  }

  ghost predicate ScheduleLocked<K>(s: State<K>, key: K, p: Plan, w: Window, wake: bool, s': State<K>) {
    if p.next == 0 then UnscheduleLocked(s, key, wake, s')
    else
      && Pushed(s.queue, Planned(key, p, w), s'.queue, wake)
      && s' == s.(queue := s'.queue, token := s.token || wake)
  }

  function RunProperties<K>(details: map<K, Details>, a: Activation<K>): Option<Properties> {
    if a.properties.Some? then a.properties
    else if a.key in details then details[a.key].properties else None
  }

  /** newRunContextLocked, and the goroutine that asyncRun starts from it. */
  function StartRun<K>(s: State<K>, a: Activation<K>, initial: Instant): State<K> {
    var p := RunProperties(s.details, a);
    s.(running := s.running[a.key := s.nextId],
       runs := s.runs[s.nextId := Run(a.key, a.retry, p, a.stop, NotCancelled, initial)],
       nextId := s.nextId + 1)
  }

  predicate Continues<K>(r: Run<K>) {
    r.cause == OutOfWindow
  }

  predicate Retries<K>(r: Run<K>, err: RunError) {
    !Continues(r) && err == Failure && r.cause != Stopped
  }

  /** The switch of reschedule, on a run already cancelled.  `delay` is what the backoff yields: None for
      no backoff and for Stop. */
  function RescheduleP<K>(r: Run<K>, err: RunError, delay: Option<nat>, d: Details, now: Instant): Plan {
    var cron := Plan(d.trigger(now), 0, None, 0);
    if Continues(r) then Plan(now, r.retry, r.properties, r.initial)
    else if Retries(r, err) then
      if delay.Some? then Plan(now + delay.value, Int8(r.retry + 1), r.properties, r.initial) else cron
    else
      var a := d.trigger(r.initial + NANOSECOND);
      if a > r.initial then cron.(next := a) else cron
  }

  // ---------- The steps ----------

  datatype Event<K> =
    | Schedule(key: K, d: Details, now: Instant)
    | Unschedule(key: K)
    | Trigger(key: K, now: Instant)
    | Stop(key: K)
    | Close
    | WindowEnds(id: RunId, now: Instant)
    | RunEnds(id: RunId, err: RunError, delay: Option<nat>, now: Instant)
    | Peek
    | Timer(now: Instant)
    | Wake
    | ContextDone
    | PopHead

  ghost predicate ScheduleStep<K>(s: State<K>, key: K, d: Details, now: Instant, wake: bool, s': State<K>) {
    var t := s.(details := s.details[key := d]);
    if key in s.running then s' == t
    else ScheduleLocked(t, key, Plan(d.trigger(now), 0, None, 0), d.window, wake, s')
  }

  ghost predicate TriggerStep<K>(s: State<K>, key: K, now: Instant, wake: bool, s': State<K>) {
    if key in s.running then s' == s
    else
      && Removed(s.queue, key, s'.queue, wake)
      && var t := s.(queue := s'.queue, token := s.token || wake);
         s' == if key in s.details then StartRun(t, Activation(0, key, 0, None, 0, 0), now) else t
  }

  /** Cancels every run that `running` holds. */
  function CancelAll<K(==)>(running: map<K, RunId>, runs: map<RunId, Run<K>>, c: Cause): map<RunId, Run<K>> {
    map id | id in runs ::
      if runs[id].key in running && running[runs[id].key] == id then Cancel(runs[id], c) else runs[id]
  }

  ghost predicate RunEndsStep<K>(
    s: State<K>, id: RunId, err: RunError, delay: Option<nat>, now: Instant, wake: bool, s': State<K>)
  {
    && id in s.runs
    && var key := s.runs[id].key;
       var c := CancelKey(s, key, Rescheduled);
       var t := c.(running := s.running - {key}, runs := c.runs - {id});
       if s.closed || key !in s.details then s' == t
       else
         var d := s.details[key];
         ScheduleLocked(t, key, RescheduleP(c.runs[id], err, delay, d, now), d.window, wake, s')
  }

  /** An activation that Top or Pop may give. */
  ghost predicate IsHead<K>(q: map<K, Activation<K>>, a: Activation<K>) {
    a.key in q && q[a.key] == a && Earliest(q, a.time)
  }

  ghost predicate PeekStep<K>(s: State<K>, s': State<K>) {
    && s.phase == AtTop
    && s' == s.(phase := s'.phase)
    && if s.closed then s'.phase == Exited
       else
         && s'.phase.Asleep?
         && if s.queue == map[] then s'.phase.top == None
            else s'.phase.top.Some? && IsHead(s.queue, s'.phase.top.value)
  }

  ghost predicate PopStep<K>(s: State<K>, s': State<K>) {
    && s.phase.TimerFired?
    && if s.queue == map[] then s' == s.(phase := AtTop)
       else exists k :: k in s.queue && Earliest(s.queue, s.queue[k].time) && PoppedStep(s, s.queue[k], s')
  }

  ghost predicate PoppedStep<K>(s: State<K>, a: Activation<K>, s': State<K>)
    requires s.phase.TimerFired?
  {
    s' == if a.key != s.phase.key then s.(phase := AtTop)
          else StartRun(s.(queue := s.queue - {a.key}, phase := AtTop), a, InitialActivation(a))
  }

  /** The step of the event; `wake` is the answer of the queue where the step asks it. */
  ghost predicate Step<K>(s: State<K>, e: Event<K>, wake: bool, s': State<K>) {
    match e
    case Schedule(key, d, now) => ScheduleStep(s, key, d, now, wake, s')
    case Unschedule(key) => UnscheduleLocked(s, key, wake, s')
    case Trigger(key, now) => TriggerStep(s, key, now, wake, s')
    case Stop(key) => s' == CancelKey(s, key, Stopped)
    case Close => s' == s.(closed := true, token := true, runs := CancelAll(s.running, s.runs, SchedulerStopped))
    case WindowEnds(id, now) =>
      && id in s.runs && s.runs[id].stop != 0 && now >= s.runs[id].stop
      && s' == s.(runs := s.runs[id := Cancel(s.runs[id], OutOfWindow)])
    case RunEnds(id, err, delay, now) => RunEndsStep(s, id, err, delay, now, wake, s')
    case Peek => PeekStep(s, s')
    case Timer(now) =>
      && s.phase.Asleep? && s.phase.top.Some? && now >= s.phase.top.value.time
      && s' == s.(phase := TimerFired(s.phase.top.value.key))
    case Wake => s.phase.Asleep? && s.token && s' == s.(token := false, phase := AtTop)
    case ContextDone => s.phase.Asleep? && s' == s.(phase := Exited)
    case PopHead => PopStep(s, s')
  }

  predicate Init<K>(s: State<K>) {
    s.queue == map[] && s.details == map[] && s.running == map[] && s.runs == map[]
    && !s.closed && !s.token && s.phase == AtTop
  }
}
