/** Which snapshot tags a purge picks: retention policies, protection, and the oldest tag kept. */
module Retention {
  import opened Wrappers
  import opened Tags
  import opened BackupStore
  import opened BackupRuns

  /** Values that are not positive switch a policy off. */
  datatype RetentionPolicy = RetentionPolicy(retentionDays: int, retention: int)

  const DELETED_TASK_POLICY := RetentionPolicy(30, 0)

  function GetRetention(task: string, policies: map<string, RetentionPolicy>): RetentionPolicy {
    if task in policies then policies[task] else DELETED_TASK_POLICY
  }

  /** The retention map, and for a number of days the first tag time that is not before now less those days. */
  datatype Rules = Rules(policies: map<string, RetentionPolicy>, cutoff: int -> nat) {
    function Policy(task: string): RetentionPolicy {
      GetRetention(task, policies)
    }

    predicate TooOld(m: ManifestId) {
      Policy(m.task).retentionDays > 0 && Time(m.tag) < cutoff(Policy(m.task).retentionDays)
    }

    /** The case of a manifest in which its tag is stale at once. */
    predicate StaleAtOnce(m: ManifestId) {
      m.temporary || TooOld(m)
    }
  }

  predicate TagsValid(ms: seq<ManifestId>) {
    forall m :: m in ms ==> SnapshotTagTime(m.tag).Some?
  }

  /** The tags of a task that its count-based policy decides on. */
  function TaskTags(ms: seq<ManifestId>, rules: Rules, task: string): (s: set<string>)
    ensures forall t :: t in s <==>
              exists m :: m in ms && m.task == task && !rules.StaleAtOnce(m) && m.tag == t
  {
    set m | m in ms && m.task == task && !rules.StaleAtOnce(m) :: m.tag
  }

  function Newer(ts: set<string>, t: string): set<string> {
    set u | u in ts && Time(u) > Time(t)
  }

  /** The `r` newest tags of a set, or all of them if there are fewer. */
  function Newest(ts: set<string>, r: int): set<string> {
    set t | t in ts && |Newer(ts, t)| < r
  }

  /** The tag is cut by the count-based policy of the task. */
  ghost predicate CutIn(ms: seq<ManifestId>, rules: Rules, task: string, t: string) {
    var ts, r := TaskTags(ms, rules, task), rules.Policy(task).retention;
    r > 0 && t in ts && t !in Newest(ts, r)
  }

  ghost predicate IsStale(ms: seq<ManifestId>, rules: Rules, t: string) {
    || (exists m :: m in ms && m.tag == t && rules.StaleAtOnce(m))
    || (exists m :: m in ms && CutIn(ms, rules, m.task, t))
  }

  // ---------- Sorted tags ----------

  ghost predicate Ascending(l: seq<string>) {
    forall i, j :: 0 <= i < j < |l| ==> Time(l[i]) < Time(l[j])
  }

  ghost predicate AllValid(ts: set<string>) {
    forall t :: t in ts ==> SnapshotTagTime(t).Some?
  }

  lemma LessByTime(a: string, b: string)
    requires SnapshotTagTime(a).Some? && SnapshotTagTime(b).Some?
    ensures Less(a, b) <==> Time(a) < Time(b)
    ensures Time(a) == Time(b) ==> a == b
  {
    TagOrder(a, b);
  }

  /** sort.Strings on the list of a set of tags. */
  method SortTags(ts: set<string>) returns (l: seq<string>)
    requires AllValid(ts)
    ensures Ascending(l) && (forall t :: t in l <==> t in ts) && |l| == |ts|
  {
    l := [];
    var todo := ts;
    while todo != {}
      invariant todo <= ts && Ascending(l) && |l| + |todo| == |ts|
      invariant forall t :: t in l <==> t in ts && t !in todo
      invariant forall t, u :: t in l && u in todo ==> Time(t) < Time(u)
      decreases |todo|
    {
      var t := EarliestTag(todo);
      todo := todo - {t};
      l := l + [t];
    }
  }

  method EarliestTag(ts: set<string>) returns (t: string)
    requires ts != {} && AllValid(ts)
    ensures t in ts && forall u :: u in ts && u != t ==> Time(t) < Time(u)
  {
    t :| t in ts;
    var todo := ts - {t};
    while todo != {}
      invariant todo < ts && t in ts && t !in todo
      invariant forall u :: u in ts && u !in todo && u != t ==> Time(t) < Time(u)
      decreases |todo|
    {
      var u :| u in todo;
      todo := todo - {u};
      LessByTime(u, t);
      if Less(u, t) {
        t := u;
      }
    }
  }

  /** In ascending order, the newer tags are those further on. */
  lemma NewerIsBehind(ts: set<string>, l: seq<string>, i: nat)
    requires Ascending(l) && (forall t :: t in l <==> t in ts) && i < |l|
    ensures |Newer(ts, l[i])| == |l| - 1 - i
  {
    var tail := l[i+1..];
    assert Newer(ts, l[i]) == set t | t in tail;
    AscendingSize(tail);
  }

  lemma {:induction false} AscendingSize(l: seq<string>)
    requires Ascending(l)
    ensures |set t | t in l| == |l|
  {
    if l != [] {
      var n := |l| - 1;
      AscendingSize(l[..n]);
      MembersSnoc(l[..n], l[n], l);
    }
  }

  lemma MembersSnoc(front: seq<string>, last: string, l: seq<string>)
    requires l == front + [last]
    ensures (set t | t in l) == (set t | t in front) + {last}
  {
  }

  /** The newest are the last ones in ascending order. */
  lemma NewestIsLast(ts: set<string>, l: seq<string>, r: int)
    requires Ascending(l) && (forall t :: t in l <==> t in ts)
    ensures forall i :: 0 <= i < |l| ==> (l[i] in Newest(ts, r) <==> i >= |l| - r)
  {
    forall i | 0 <= i < |l| ensures l[i] in Newest(ts, r) <==> i >= |l| - r {
      NewerIsBehind(ts, l, i);
    }
  }

  // ---------- staleTags ----------

  ghost predicate GroupedByTask(ms: seq<ManifestId>, v: map<string, seq<ManifestId>>) {
    && (forall task :: task in v <==> exists m :: m in ms && m.task == task)
    && (forall task, m :: task in v ==> (m in v[task] <==> m in ms && m.task == task))
  }

  method GroupByTask(ms: seq<ManifestId>) returns (v: map<string, seq<ManifestId>>)
    ensures GroupedByTask(ms, v)
  {
    v := map[];
    for i := 0 to |ms|
      invariant forall task :: task in v <==> exists m :: m in ms[..i] && m.task == task
      invariant forall task, m :: task in v ==> (m in v[task] <==> m in ms[..i] && m.task == task)
    {
      assert ms[..i+1] == ms[..i] + [ms[i]];
      var task := ms[i].task;
      v := v[task := (if task in v then v[task] else []) + [ms[i]]];
    }
    assert ms[..|ms|] == ms;
  }

  /** One turn of the outer loop: the tags that the manifests of one task make stale. */
  method StaleTagsOfTask(group: seq<ManifestId>, task: string, rules: Rules) returns (r: Result<set<string>>)
    requires forall m :: m in group ==> m.task == task
    ensures r.Ok? <==> TagsValid(group)
    ensures r.Ok? ==> forall t :: t in r.value <==>
              (exists m :: m in group && m.tag == t && rules.StaleAtOnce(m)) || CutIn(group, rules, task, t)
  {
    var policy := rules.Policy(task);
    var tags, taskTags := {}, {};
    for i := 0 to |group|
      invariant TagsValid(group[..i])
      invariant forall t :: t in tags <==> exists m :: m in group[..i] && m.tag == t && rules.StaleAtOnce(m)
      invariant taskTags == if policy.retention > 0 then TaskTags(group[..i], rules, task) else {}
    {
      var m := group[i];
      assert group[..i+1] == group[..i] + [m];
      if SnapshotTagTime(m.tag).None? {
        assert m in group;
        return Err;
      }
      if m.temporary {
        tags := tags + {m.tag};
      } else if policy.retentionDays > 0 && Time(m.tag) < rules.cutoff(policy.retentionDays) {
        tags := tags + {m.tag};
      } else if policy.retention > 0 {
        taskTags := taskTags + {m.tag};
      }
    }
    assert group[..|group|] == group;
    if policy.retention > 0 {
      var cut := CutTags(taskTags, policy.retention);
      tags := tags + cut;
    }
    r := Ok(tags);
  }

  /** All but the newest `retention` tags. */
  method CutTags(ts: set<string>, retention: int) returns (cut: set<string>)
    requires retention > 0 && AllValid(ts)
    ensures cut == ts - Newest(ts, retention)
  {
    cut := {};
    if |ts| - retention > 0 {
      var l := SortTags(ts);
      NewestIsLast(ts, l, retention);
      var front := l[..|l| - retention];
      cut := set t | t in front;
    } else {
      AllNewest(ts, retention);
    }
  }

  lemma AllNewest(ts: set<string>, r: int)
    requires |ts| <= r
    ensures Newest(ts, r) == ts
  {
    forall t | t in ts ensures |Newer(ts, t)| < r {
      assert Newer(ts, t) < ts;
      SmallerSubset(Newer(ts, t), ts);
    }
  }

  lemma SmallerSubset<T>(a: set<T>, b: set<T>)
    requires a < b
    ensures |a| < |b|
  {
    assert b == a + (b - a);
  }

  /** One of the tasks makes the tag stale. */
  ghost predicate StaleAmong(ms: seq<ManifestId>, rules: Rules, tasks: set<string>, t: string) {
    exists task :: task in tasks && StaleIn(ms, rules, task, t)
  }

  method StaleTags(ms: seq<ManifestId>, rules: Rules) returns (r: Result<set<string>>)
    ensures r.Ok? <==> TagsValid(ms)
    ensures r.Ok? ==> forall t :: t in r.value <==> IsStale(ms, rules, t)
  {
    var groups := GroupByTask(ms);
    var tags: set<string> := {};
    var todo := groups.Keys;
    ghost var done: set<string> := {};
    NoneStale(ms, rules, groups);
    while todo != {}
      invariant todo + done == groups.Keys && StaleSoFar(ms, rules, groups, done, tags)
      decreases |todo|
    {
      var task :| task in todo;
      Moved(todo, done, task);
      todo := todo - {task};
      var more;
      more, done := StaleOfGroup(ms, rules, groups, task, done, tags);
      if more.Err? {
        return Err;
      }
      tags := more.value;
    }
    StaleOfAll(ms, rules, groups, done, tags);
    r := Ok(tags);
  }

  lemma Moved(todo: set<string>, done: set<string>, task: string)
    requires task in todo
    ensures todo - {task} + (done + {task}) == todo + done
  {
  }

  /** The groups done are valid, and the tags are those that they make stale. */
  ghost predicate StaleSoFar(
    ms: seq<ManifestId>, rules: Rules, groups: map<string, seq<ManifestId>>, done: set<string>, tags: set<string>)
  {
    && (forall task :: task in done ==> task in groups && TagsValid(groups[task]))
    && (forall t :: t in tags <==> StaleAmong(ms, rules, done, t))
  }

  method StaleOfGroup(
    ghost ms: seq<ManifestId>, rules: Rules, groups: map<string, seq<ManifestId>>, task: string, ghost done: set<string>,
    tags: set<string>)
    returns (more: Result<set<string>>, ghost done': set<string>)
    requires GroupedByTask(ms, groups) && task in groups && StaleSoFar(ms, rules, groups, done, tags)
    ensures more.Err? ==> !TagsValid(ms)
    ensures more.Ok? ==> done' == done + {task} && StaleSoFar(ms, rules, groups, done', more.value)
  {
    done' := done + {task};
    more := StaleTagsOfTask(groups[task], task, rules);
    if more.Err? {
      GroupInvalid(ms, groups, task);
    } else {
      StaleOfOneMore(ms, rules, groups, done, task, tags, more.value);
      more := Ok(tags + more.value);
    }
  }

  lemma NoneStale(ms: seq<ManifestId>, rules: Rules, groups: map<string, seq<ManifestId>>)
    ensures StaleSoFar(ms, rules, groups, {}, {})
  {
  }

  lemma StaleOfAll(
    ms: seq<ManifestId>, rules: Rules, groups: map<string, seq<ManifestId>>, done: set<string>, tags: set<string>)
    requires GroupedByTask(ms, groups) && done == groups.Keys && StaleSoFar(ms, rules, groups, done, tags)
    ensures TagsValid(ms) && forall t :: t in tags <==> IsStale(ms, rules, t)
  {
    GroupsValid(ms, groups, done);
    StaleSomewhere(ms, rules, done);
  }

  /** The stale tags of one more task come in. */
  lemma StaleOfOneMore(
    ms: seq<ManifestId>, rules: Rules, groups: map<string, seq<ManifestId>>, done: set<string>, task: string,
    tags: set<string>, more: set<string>)
    requires GroupedByTask(ms, groups) && task in groups && TagsValid(groups[task])
    requires StaleSoFar(ms, rules, groups, done, tags)
    requires forall t :: t in more <==>
               (exists m :: m in groups[task] && m.tag == t && rules.StaleAtOnce(m)) || CutIn(groups[task], rules, task, t)
    ensures StaleSoFar(ms, rules, groups, done + {task}, tags + more)
  {
    GroupDecides(ms, rules, task, groups[task]);
    StaleAmongMore(ms, rules, done, task);
  }

  lemma StaleAmongMore(ms: seq<ManifestId>, rules: Rules, tasks: set<string>, task: string)
    ensures forall t :: StaleAmong(ms, rules, tasks + {task}, t) <==>
              StaleAmong(ms, rules, tasks, t) || StaleIn(ms, rules, task, t)
  {
    assert task in tasks + {task};
  }

  lemma GroupsValid(ms: seq<ManifestId>, groups: map<string, seq<ManifestId>>, done: set<string>)
    requires GroupedByTask(ms, groups) && done == groups.Keys && forall task :: task in done ==> TagsValid(groups[task])
    ensures TagsValid(ms)
  {
    forall m | m in ms ensures SnapshotTagTime(m.tag).Some? {
      assert m in groups[m.task];
    }
  }

  lemma GroupInvalid(ms: seq<ManifestId>, groups: map<string, seq<ManifestId>>, task: string)
    requires GroupedByTask(ms, groups) && task in groups && !TagsValid(groups[task])
    ensures !TagsValid(ms)
  {
  }

  /** The part that the manifests of one task have in the stale tags. */
  ghost predicate StaleIn(ms: seq<ManifestId>, rules: Rules, task: string, t: string) {
    || (exists m :: m in ms && m.task == task && m.tag == t && rules.StaleAtOnce(m))
    || CutIn(ms, rules, task, t)
  }

  lemma GroupDecides(ms: seq<ManifestId>, rules: Rules, task: string, group: seq<ManifestId>)
    requires forall m :: m in group <==> m in ms && m.task == task
    ensures forall t :: StaleIn(ms, rules, task, t) <==>
              (exists m :: m in group && m.tag == t && rules.StaleAtOnce(m)) || CutIn(group, rules, task, t)
  {
    assert TaskTags(group, rules, task) == TaskTags(ms, rules, task);
  }

  lemma StaleSomewhere(ms: seq<ManifestId>, rules: Rules, tasks: set<string>)
    requires forall task :: task in tasks <==> exists m :: m in ms && m.task == task
    ensures forall t :: IsStale(ms, rules, t) <==> StaleAmong(ms, rules, tasks, t)
  {
    forall t | IsStale(ms, rules, t) ensures StaleAmong(ms, rules, tasks, t) {
      if exists m :: m in ms && m.tag == t && rules.StaleAtOnce(m) {
        var m :| m in ms && m.tag == t && rules.StaleAtOnce(m);
        assert StaleIn(ms, rules, m.task, t);
      } else {
        var m :| m in ms && CutIn(ms, rules, m.task, t);
        assert StaleIn(ms, rules, m.task, t);
      }
    }
    forall t | StaleAmong(ms, rules, tasks, t) ensures IsStale(ms, rules, t) {
      var task :| task in tasks && StaleIn(ms, rules, task, t);
      var m :| m in ms && m.task == task;
      assert CutIn(ms, rules, task, t) ==> CutIn(ms, rules, m.task, t);
    }
  }

  // ---------- What the policies leave ----------

  /** The tags of the task's complete, not too old manifests that are not stale. */
  ghost predicate Survives(ms: seq<ManifestId>, rules: Rules, task: string, t: string) {
    t in TaskTags(ms, rules, task) && !IsStale(ms, rules, t)
  }

  /** What the policy of its own task says of a manifest: it is kept, neither stale at once nor cut. */
  ghost predicate KeptByOwnPolicy(ms: seq<ManifestId>, rules: Rules, m: ManifestId) {
    !rules.StaleAtOnce(m) && !CutIn(ms, rules, m.task, m.tag)
  }

  /** The count-based policy keeps as many tags as it says, and they are newer than all it cuts. */
  lemma NewestAreNewest(ts: set<string>, r: nat)
    requires AllValid(ts)
    ensures |Newest(ts, r)| == if |ts| < r then |ts| else r
    ensures forall t, u :: t in Newest(ts, r) && u in ts - Newest(ts, r) ==> Time(u) < Time(t)
  {
    var l := SortedTags(ts);
    NewestIsLast(ts, l, r);
    NewestInOrder(ts, l, Newest(ts, r), if |l| < r then 0 else |l| - r);
  }

  lemma NewestInOrder(ts: set<string>, l: seq<string>, newest: set<string>, cut: nat)
    requires Ascending(l) && (forall t :: t in l <==> t in ts) && cut <= |l|
    requires newest <= ts && forall i :: 0 <= i < |l| ==> (l[i] in newest <==> i >= cut)
    ensures |newest| == |ts| - cut && |l| == |ts|
    ensures forall t, u :: t in newest && u in ts - newest ==> Time(u) < Time(t)
  {
    AscendingSize(l[cut..]);
    AscendingSize(l);
    assert newest == set t | t in l[cut..];
    assert ts == set t | t in l;
  }

  lemma {:induction false} SortedTags(ts: set<string>) returns (l: seq<string>)
    requires AllValid(ts)
    ensures Ascending(l) && forall t :: t in l <==> t in ts
    decreases |ts|
  {
    if ts == {} {
      l := [];
    } else {
      var t := LatestTag(ts);
      var front := SortedTags(ts - {t});
      l := front + [t];
      AscendingSnoc(front, t);
      assert forall u :: u in l <==> u in front || u == t;
    }
  }

  lemma AscendingSnoc(l: seq<string>, t: string)
    requires Ascending(l) && forall u :: u in l ==> Time(u) < Time(t)
    ensures Ascending(l + [t])
  {
  }

  lemma {:induction false} LatestTag(ts: set<string>) returns (t: string)
    requires ts != {} && AllValid(ts)
    ensures t in ts && forall u :: u in ts && u != t ==> Time(u) < Time(t)
    decreases |ts|
  {
    t :| t in ts;
    if ts != {t} {
      var u := LatestTag(ts - {t});
      LessByTime(u, t);
      if Time(t) < Time(u) {
        t := u;
      }
    }
  }

  /** A tag survives if and only if every manifest that has it, of whatever task, is kept by the policy of its own
      task. */
  lemma SurvivorsAgree(ms: seq<ManifestId>, rules: Rules, t: string)
    ensures !IsStale(ms, rules, t) <==> forall m :: m in ms && m.tag == t ==> KeptByOwnPolicy(ms, rules, m)
  {
    if IsStale(ms, rules, t) {
      if m :| m in ms && m.tag == t && rules.StaleAtOnce(m) {
        assert !KeptByOwnPolicy(ms, rules, m);
      } else {
        var i :| i in ms && CutIn(ms, rules, i.task, t);
        var m :| m in ms && m.task == i.task && !rules.StaleAtOnce(m) && m.tag == t;
        assert !KeptByOwnPolicy(ms, rules, m);
      }
    }
  }

  /** For a task with a count-based policy no tag but its newest ones survives, and all of these do if and only if
      every manifest with one of them, of whatever task, is kept by the policy of its own task. */
  lemma RetentionExact(ms: seq<ManifestId>, rules: Rules, task: string)
    requires TagsValid(ms) && rules.Policy(task).retention > 0
    ensures
      var newest := Newest(TaskTags(ms, rules, task), rules.Policy(task).retention);
      && (forall t :: Survives(ms, rules, task, t) ==> t in newest)
      && ((forall t :: Survives(ms, rules, task, t) <==> t in newest) <==>
            forall m :: m in ms && m.tag in newest ==> KeptByOwnPolicy(ms, rules, m))
  {
    var newest := Newest(TaskTags(ms, rules, task), rules.Policy(task).retention);
    forall t
      ensures Survives(ms, rules, task, t) <==>
                t in newest && forall m :: m in ms && m.tag == t ==> KeptByOwnPolicy(ms, rules, m)
    {
      SurvivorsAgree(ms, rules, t);
      SurvivesOnlyNewest(ms, rules, task, t);
    }
  }

  lemma SurvivesOnlyNewest(ms: seq<ManifestId>, rules: Rules, task: string, t: string)
    requires rules.Policy(task).retention > 0
    ensures Survives(ms, rules, task, t) ==> t in Newest(TaskTags(ms, rules, task), rules.Policy(task).retention)
  {
    if Survives(ms, rules, task, t) {
      var m :| m in ms && m.task == task && !rules.StaleAtOnce(m) && m.tag == t;
      assert CutIn(ms, rules, m.task, t) ==> IsStale(ms, rules, t);
    }
  }

  /** No tag is shared between tasks, or between a temporary and a complete manifest of a task. */
  predicate TagsNotShared(ms: seq<ManifestId>) {
    forall i, j :: i in ms && j in ms && i.tag == j.tag ==> i.task == j.task && i.temporary == j.temporary
  }

  /** Then every task keeps exactly its newest tags, as many as its policy says. */
  lemma RetentionOfUnsharedTags(ms: seq<ManifestId>, rules: Rules, task: string)
    requires TagsValid(ms) && TagsNotShared(ms) && rules.Policy(task).retention > 0
    ensures
      var ts, r := TaskTags(ms, rules, task), rules.Policy(task).retention;
      && (forall t :: Survives(ms, rules, task, t) <==> t in Newest(ts, r))
      && |Newest(ts, r)| == (if |ts| < r then |ts| else r)
      && forall t, u :: t in Newest(ts, r) && u in ts - Newest(ts, r) ==> Time(u) < Time(t)
  {
    RetentionExact(ms, rules, task);
    NewestAreNewest(TaskTags(ms, rules, task), rules.Policy(task).retention);
    forall m | m in ms && m.tag in Newest(TaskTags(ms, rules, task), rules.Policy(task).retention)
      ensures KeptByOwnPolicy(ms, rules, m)
    {
      var i :| i in ms && i.task == task && !rules.StaleAtOnce(i) && i.tag == m.tag;
      assert m.task == task;
    }
  }

  /** The tags of the task's complete manifests that are newer than `t`. */
  function NewerComplete(ms: seq<ManifestId>, task: string, t: string): set<string> {
    set m | m in ms && m.task == task && !m.temporary && Time(m.tag) > Time(t) :: m.tag
  }

  /** By dates and numbers alone: a tag stays if and only if every manifest that has it, of whatever task, is complete, not
      before the cutoff of the days that its task has a policy for, and has fewer newer complete tags in its task than the
      policy keeps.  A deleted task keeps thirty days. */
  lemma StaysExact(ms: seq<ManifestId>, rules: Rules, t: string)
    ensures !IsStale(ms, rules, t) <==>
      forall m :: m in ms && m.tag == t ==>
        var p := if m.task in rules.policies then rules.policies[m.task] else RetentionPolicy(30, 0);
        && !m.temporary
        && (p.retentionDays <= 0 || rules.cutoff(p.retentionDays) <= Time(t))
        && (p.retention <= 0 || |NewerComplete(ms, m.task, t)| < p.retention)
  {
    SurvivorsAgree(ms, rules, t);
    forall m | m in ms && m.tag == t
      ensures KeptByOwnPolicy(ms, rules, m) <==>
        var p := if m.task in rules.policies then rules.policies[m.task] else RetentionPolicy(30, 0);
        && !m.temporary
        && (p.retentionDays <= 0 || rules.cutoff(p.retentionDays) <= Time(t))
        && (p.retention <= 0 || |NewerComplete(ms, m.task, t)| < p.retention)
    {
      if !rules.StaleAtOnce(m) {
        NewerAreRecent(ms, rules, m);
      }
    }
  }

  /** Tags newer than one that is not too old are not too old either. */
  lemma NewerAreRecent(ms: seq<ManifestId>, rules: Rules, m: ManifestId)
    requires m in ms && !rules.StaleAtOnce(m)
    ensures Newer(TaskTags(ms, rules, m.task), m.tag) == NewerComplete(ms, m.task, m.tag)
    ensures m.tag in TaskTags(ms, rules, m.task)
  {
  }

  /** When no tag is shared, the tags that stay are newer than those that go, whatever the policy. */
  lemma StaysNewer(ms: seq<ManifestId>, rules: Rules, m: ManifestId, k: ManifestId)
    requires TagsValid(ms) && TagsNotShared(ms) && m in ms && k in ms && m.task == k.task
    requires !m.temporary && !k.temporary && !IsStale(ms, rules, m.tag) && IsStale(ms, rules, k.tag)
    ensures Time(k.tag) < Time(m.tag)
  {
    StaysExact(ms, rules, m.tag);
    StaysExact(ms, rules, k.tag);
    if Time(m.tag) <= Time(k.tag) {
      FewerNewer(NewerComplete(ms, k.task, k.tag), NewerComplete(ms, m.task, m.tag));
    }
  }

  lemma FewerNewer(a: set<string>, b: set<string>)
    requires a <= b
    ensures |a| <= |b|
  {
    if a != b {
      SmallerSubset(a, b);
    }
  }

  /** The tag of a temporary manifest is always stale. */
  lemma TemporaryIsStale(ms: seq<ManifestId>, rules: Rules, m: ManifestId)
    requires m in ms && m.temporary
    ensures IsStale(ms, rules, m.tag)
  {
  }

  /** With a shared tag a task can lose its only backup: two tasks that keep one tag each, and a tag that is
      the newest of the one and an old one of the other. */
  lemma SharedTagIsLost(node: Node, early: string, late: string)
    requires SnapshotTagTime(early).Some? && SnapshotTagTime(late).Some? && Time(early) < Time(late)
    ensures
      var a := ManifestId(node, "a", early, false);
      var ms := [a, ManifestId(node, "b", early, false), ManifestId(node, "b", late, false)];
      var rules := Rules(map["a" := RetentionPolicy(0, 1), "b" := RetentionPolicy(0, 1)], _ => 0);
      early in Newest(TaskTags(ms, rules, "a"), 1) && !Survives(ms, rules, "a", early)
  {
    var a, b, c := ManifestId(node, "a", early, false), ManifestId(node, "b", early, false), ManifestId(node, "b", late, false);
    var ms := [a, b, c];
    var rules := Rules(map["a" := RetentionPolicy(0, 1), "b" := RetentionPolicy(0, 1)], _ => 0);
    assert a in ms && b in ms && c in ms;
    var ts := TaskTags(ms, rules, "b");
    assert late in Newer(ts, early);
    assert |Newer(ts, early)| > 0;
    assert CutIn(ms, rules, b.task, early);
    assert TaskTags(ms, rules, "a") == {early};
    assert Newer({early}, early) == {};
  }

  // ---------- The whole plan of a purge ----------

  /** What a listing says of a manifest file: retention lock and event based hold. */
  datatype RemoteManifest = RemoteManifest(id: ManifestId, locked: bool, retainUntil: nat, hold: bool)

  /** remoteManifestInfo.Protected */
  predicate Protected(m: RemoteManifest, now: nat) {
    m.hold || (m.locked && m.retainUntil > now)
  }

  method ProtectedTags(list: seq<RemoteManifest>, now: nat) returns (tags: set<string>)
    ensures forall t :: t in tags <==>
              exists m :: m in list && (m.hold || (m.locked && m.retainUntil > now)) && m.id.tag == t
  {
    tags := {};
    for i := 0 to |list|
      invariant forall t :: t in tags <==> exists m :: m in list[..i] && Protected(m, now) && m.id.tag == t
    {
      assert list[..i+1] == list[..i] + [list[i]];
      if Protected(list[i], now) {
        tags := tags + {list[i].id.tag};
      }
    }
    assert list[..|list|] == list;
  }

  predicate ShadowedIn(ms: seq<ManifestId>, m: ManifestId) {
    m.temporary && m.(temporary := false) in ms
  }

  /** The manifests of `ms` that none of `all` shadows, in their order. */
  function Unshadowed(ms: seq<ManifestId>, all: seq<ManifestId>): (out: seq<ManifestId>)
    ensures forall m :: m in out <==> m in ms && !ShadowedIn(all, m)
  {
    if ms == [] then [] else
      var last, front := ms[|ms|-1], Unshadowed(ms[..|ms|-1], all);
      assert ms == ms[..|ms|-1] + [last];
      if ShadowedIn(all, last) then front else front + [last]
  }

  /** In the same order: a manifest before another one is listed before it. */
  lemma {:induction false} UnshadowedInOrder(ms: seq<ManifestId>, all: seq<ManifestId>, i: nat, j: nat)
    requires i < j < |Unshadowed(ms, all)|
    ensures exists a, b :: 0 <= a < b < |ms| && ms[a] == Unshadowed(ms, all)[i] && ms[b] == Unshadowed(ms, all)[j]
  {
    var n := |ms| - 1;
    var front := Unshadowed(ms[..n], all);
    if j < |front| {
      UnshadowedInOrder(ms[..n], all, i, j);
      var a, b :| 0 <= a < b < n && ms[..n][a] == front[i] && ms[..n][b] == front[j];
      assert ms[a] == front[i] && ms[b] == front[j];
    } else {
      assert front[i] in ms[..n];
      var a :| 0 <= a < n && ms[..n][a] == front[i];
      assert ms[a] == front[i] && ms[n] == Unshadowed(ms, all)[j];
    }
  }

  /** filterShadowedTemporaryManifests: all but the shadowed ones, in their order. */
  method FilterShadowed(ms: seq<ManifestId>) returns (out: seq<ManifestId>)
    ensures out == Unshadowed(ms, ms)
    ensures forall m :: m in out <==> m in ms && !(m.temporary && m.(temporary := false) in ms)
  {
    var regular := RegularOf(ms);
    out := [];
    for i := 0 to |ms|
      invariant out == Unshadowed(ms[..i], ms)
    {
      assert ms[..i+1][..i] == ms[..i];
      if ms[i].temporary && ms[i].(temporary := false) in regular {
        continue;
      }
      out := out + [ms[i]];
    }
    assert ms[..|ms|] == ms;
  }

  method RegularOf(ms: seq<ManifestId>) returns (regular: set<ManifestId>)
    ensures forall m :: m in regular <==> m in ms && !m.temporary
  {
    regular := {};
    for i := 0 to |ms|
      invariant forall m :: m in regular <==> m in ms[..i] && !m.temporary
    {
      assert ms[..i+1] == ms[..i] + [ms[i]];
      if !ms[i].temporary {
        regular := regular + {ms[i]};
      }
    }
    assert ms[..|ms|] == ms;
  }

  /** oldestKeptTag: None stands for the zero time, when no manifest is kept. */
  method OldestKeptTag(ms: seq<ManifestId>, stale: set<string>) returns (r: Result<Option<nat>>)
    ensures r.Ok? <==> forall m :: m in ms && m.tag !in stale ==> SnapshotTagTime(m.tag).Some?
    ensures r.Ok? && r.value.None? ==> forall m :: m in ms ==> m.tag in stale
    ensures r.Ok? && r.value.Some? ==>
              && (exists m :: m in ms && m.tag !in stale && Time(m.tag) == r.value.value)
              && forall m :: m in ms && m.tag !in stale ==> r.value.value <= Time(m.tag)
  {
    var oldest: Option<nat> := None;
    for i := 0 to |ms|
      invariant forall m :: m in ms[..i] && m.tag !in stale ==> SnapshotTagTime(m.tag).Some?
      invariant oldest.None? ==> forall m :: m in ms[..i] ==> m.tag in stale
      invariant oldest.Some? ==>
                  && (exists m :: m in ms[..i] && m.tag !in stale && Time(m.tag) == oldest.value)
                  && forall m :: m in ms[..i] && m.tag !in stale ==> oldest.value <= Time(m.tag)
    {
      assert ms[..i+1] == ms[..i] + [ms[i]];
      if ms[i].tag in stale {
        continue;
      }
      var t := SnapshotTagTime(ms[i].tag);
      if t.None? {
        assert ms[i] in ms;
        return Err;
      }
      if oldest.None? || t.value < oldest.value {
        oldest := Some(t.value);
      }
    }
    assert ms[..|ms|] == ms;
    r := Ok(oldest);
  }

  datatype Plan = Plan(manifests: seq<ManifestId>, tags: set<string>, oldest: Option<nat>)

  function InfoOf(list: seq<RemoteManifest>): (ms: seq<ManifestId>)
    ensures |ms| == |list| && forall i :: 0 <= i < |list| ==> ms[i] == list[i].id
  {
    seq(|list|, i requires 0 <= i < |list| => list[i].id)
  }

  /** What a purge goes by: the unshadowed manifests in their order, the tags that are stale and not protected, and
      a bound on the tags kept. */
  ghost predicate PlanFor(list: seq<RemoteManifest>, rules: Rules, now: nat, plan: Plan) {
    && plan.manifests == Unshadowed(InfoOf(list), InfoOf(list))
    && (forall t :: t in plan.tags <==>
          IsStale(plan.manifests, rules, t) && !exists m :: m in list && (m.hold || (m.locked && m.retainUntil > now)) && m.id.tag == t)
    && (plan.oldest.None? ==> forall m :: m in InfoOf(list) ==> m.tag in plan.tags)
    && (plan.oldest.Some? ==> exists m :: m in InfoOf(list) && m.tag !in plan.tags && Time(m.tag) == plan.oldest.value)
    && (plan.oldest.Some? ==>
          forall m :: m in InfoOf(list) && m.tag !in plan.tags ==> plan.oldest.value <= Time(m.tag))
  }

  /** The first half of worker.Purge: the manifests to work on, the tags to purge, the oldest tag kept. */
  method PlanPurge(list: seq<RemoteManifest>, rules: Rules, now: nat) returns (r: Result<Plan>)
    ensures r.Ok? ==> PlanFor(list, rules, now, r.value)
    ensures TagsValid(InfoOf(list)) ==> r.Ok?
  {
    var infos := InfoOf(list);
    var protected := ProtectedTags(list, now);
    var ms := FilterShadowed(infos);
    var stale := StaleTags(ms, rules);
    if stale.Err? {
      return Err;
    }
    var tags := stale.value - protected;
    var oldest := OldestKeptTag(ms, tags);
    if oldest.Err? {
      return Err;
    }
    ShadowsShareTags(infos, ms);
    r := Ok(Plan(ms, tags, oldest.value));
  }

  /** A shadowed manifest has the tag of the one that shadows it, which stays in the list. */
  lemma ShadowsShareTags(infos: seq<ManifestId>, ms: seq<ManifestId>)
    requires forall m :: m in ms <==> m in infos && !ShadowedIn(infos, m)
    ensures forall m :: m in infos ==> exists k :: k in ms && k.tag == m.tag
  {
    forall m | m in infos ensures exists k :: k in ms && k.tag == m.tag {
      var k := if ShadowedIn(infos, m) then m.(temporary := false) else m;
      assert k in ms && k.tag == m.tag;
    }
  }
}
