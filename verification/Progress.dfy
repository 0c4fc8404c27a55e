/** Backup progress gathered by host, keyspace and table, pkg/service/backup/progress.go.

  Hosts are numbers in the order of their names.
*/
module Progresses {
  import opened Wrappers

  // ---------- Byte counters ----------

  datatype Bytes = Bytes(size: int, uploaded: int, skipped: int, failed: int)

  const NoBytes := Bytes(0, 0, 0, 0)

  function Plus(a: Bytes, b: Bytes): Bytes {
    Bytes(a.size + b.size, a.uploaded + b.uploaded, a.skipped + b.skipped, a.failed + b.failed)
  }

  function Sum(s: seq<Bytes>): Bytes {
    if s == [] then NoBytes else Plus(Sum(s[..|s|-1]), s[|s|-1])
  }

  lemma {:induction false} SumConcat(a: seq<Bytes>, b: seq<Bytes>)
    ensures Sum(a + b) == Plus(Sum(a), Sum(b))
  {
    if b == [] {
      assert a + b == a;
    } else {
      assert (a + b)[..|a + b|-1] == a + b[..|b|-1];
      SumConcat(a, b[..|b|-1]);
    }
  }

  // ---------- Times ----------

  /** Nanoseconds since the zero time. */
  const MaxNanos := (0x4000_0000_0000_0000 - 1 + 62_135_596_800) * 1_000_000_000

  type Instant = t: int | 0 < t < MaxNanos witness 1

  /** A pointer to a time: nil, one of the two extremes, or the time of a row. */
  datatype Stamp = Nil | ZeroTime | MaxTime | At(t: Instant)

  function Nanos(s: Stamp): int
    requires s != Nil
  {
    match s
    case ZeroTime => 0
    case MaxTime => MaxNanos
    case At(t) => t
  }

  datatype Progress = Progress(bytes: Bytes, startedAt: Stamp, completedAt: Stamp)

  const Blank := Progress(NoBytes, Nil, Nil)

  const Extreme := Progress(NoBytes, MaxTime, ZeroTime)

  function ExtremeToNil(p: Progress): Progress {
    Progress(p.bytes,
      if p.startedAt == MaxTime then Nil else p.startedAt,
      if p.completedAt == ZeroTime then Nil else p.completedAt)
  }

  function CalcParentStartedAt(parent: Stamp, child: Stamp): Stamp {
    if child != Nil && (parent == Nil || Nanos(child) < Nanos(parent)) then child else parent
  }

  function CalcParentCompletedAt(parent: Stamp, child: Stamp): Stamp {
    if child == Nil then Nil
    else if parent != Nil && Nanos(child) > Nanos(parent) then child
    else parent
  }

  function CalcParentProgress(parent: Progress, child: Progress): Progress {
    Progress(Plus(parent.bytes, child.bytes), CalcParentStartedAt(parent.startedAt, child.startedAt),
      CalcParentCompletedAt(parent.completedAt, child.completedAt))
  }

  /** What a loop over the children makes of the parent. */
  function WithChildren(parent: Progress, children: seq<Progress>): Progress {
    if children == [] then parent
    else CalcParentProgress(WithChildren(parent, children[..|children|-1]), children[|children|-1])
  }

  /** Both stamps are nil or the time of a row. */
  predicate Settled(p: Progress) {
    (p.startedAt.Nil? || p.startedAt.At?) && (p.completedAt.Nil? || p.completedAt.At?)
  }

  predicate AllSettled(children: seq<Progress>) {
    forall i :: 0 <= i < |children| ==> Settled(children[i])
  }

  function BytesOf(children: seq<Progress>): (s: seq<Bytes>)
    ensures |s| == |children| && forall i :: 0 <= i < |s| ==> s[i] == children[i].bytes
  {
    seq(|children|, i requires 0 <= i < |children| => children[i].bytes)
  }

  /** `s` is the earliest start, if any child has one. */
  ghost predicate EarliestStart(children: seq<Progress>, s: Stamp) {
    && (s.Nil? || s.At?)
    && (s.Nil? <==> forall i :: 0 <= i < |children| ==> children[i].startedAt.Nil?)
    && (s.At? ==>
          && (exists i :: 0 <= i < |children| && children[i].startedAt == s)
          && (forall i :: 0 <= i < |children| && children[i].startedAt.At? ==> s.t <= children[i].startedAt.t))
  }

  /** `s` is the latest completion, if there are children and all of them have one. */
  ghost predicate LatestCompletion(children: seq<Progress>, s: Stamp) {
    && (s.Nil? || s.At?)
    && (s.Nil? <==> children == [] || exists i :: 0 <= i < |children| && children[i].completedAt.Nil?)
    && (s.At? ==>
          && (exists i :: 0 <= i < |children| && children[i].completedAt == s)
          && (forall i :: 0 <= i < |children| ==> children[i].completedAt.At? && children[i].completedAt.t <= s.t))
  }

  lemma {:induction false} BytesAddUp(parent: Progress, children: seq<Progress>)
    ensures WithChildren(parent, children).bytes == Plus(parent.bytes, Sum(BytesOf(children)))
  {
    if children != [] {
      var front := children[..|children|-1];
      BytesAddUp(parent, front);
      assert BytesOf(children)[..|front|] == BytesOf(front);
    }
  }

  function StartOf(children: seq<Progress>): Stamp {
    WithChildren(Extreme, children).startedAt
  }

  lemma {:induction false} StartIsEarliest(children: seq<Progress>)
    requires AllSettled(children)
    ensures StartOf(children).MaxTime? || StartOf(children).At?
    ensures EarliestStart(children, if StartOf(children).MaxTime? then Nil else StartOf(children))
  {
    if children != [] {
      StartIsEarliest(children[..|children|-1]);
    }
  }

  function CompletionOf(children: seq<Progress>): Stamp {
    WithChildren(Extreme, children).completedAt
  }

  lemma {:induction false} CompletionIsLatest(children: seq<Progress>)
    requires AllSettled(children)
    ensures CompletionOf(children).ZeroTime? <==> children == []
    ensures CompletionOf(children).ZeroTime? || LatestCompletion(children, CompletionOf(children))
  {
    if children != [] {
      CompletionIsLatest(children[..|children|-1]);
    }
  }

  /** The progress of a keyspace or a host, from its children. */
  function ParentOf(children: seq<Progress>): Progress {
    ExtremeToNil(WithChildren(Extreme, children))
  }

  lemma ParentStamps(children: seq<Progress>)
    requires AllSettled(children)
    ensures ParentOf(children).startedAt == if StartOf(children).MaxTime? then Nil else StartOf(children)
    ensures ParentOf(children).completedAt == if CompletionOf(children).ZeroTime? then Nil else CompletionOf(children)
  {
  }

  lemma NoChildren(children: seq<Progress>)
    requires children == []
    ensures LatestCompletion(children, Nil)
  {
  }

  /** Counters add up, the start is the earliest, the completion the latest if all children are complete. */
  lemma ParentMeans(children: seq<Progress>)
    requires AllSettled(children)
    ensures ParentOf(children).bytes == Sum(BytesOf(children))
    ensures EarliestStart(children, ParentOf(children).startedAt)
    ensures LatestCompletion(children, ParentOf(children).completedAt)
  {
    BytesAddUp(Extreme, children);
    ParentStamps(children);
    StartIsEarliest(children);
    CompletionIsLatest(children);
    if children == [] {
      NoChildren(children);
    }
  }

  lemma {:induction false} ClusterStart(children: seq<Progress>)
    requires AllSettled(children)
    ensures EarliestStart(children, WithChildren(Blank, children).startedAt)
  {
    if children != [] {
      ClusterStart(children[..|children|-1]);
    }
  }

  /** The cluster starts blank: the same sums and start, and no completion ever. */
  lemma ClusterMeans(children: seq<Progress>)
    requires AllSettled(children)
    ensures WithChildren(Blank, children).bytes == Sum(BytesOf(children))
    ensures EarliestStart(children, WithChildren(Blank, children).startedAt)
    ensures WithChildren(Blank, children).completedAt == Nil
  {
    BytesAddUp(Blank, children);
    ClusterStart(children);
    NeverComplete(children);
  }

  lemma {:induction false} NeverComplete(children: seq<Progress>)
    ensures WithChildren(Blank, children).completedAt == Nil
  {
    if children != [] {
      NeverComplete(children[..|children|-1]);
    }
  }

  // ---------- Rows and the tree ----------

  /** What the database holds for one table of one host; `unit` is an index into the run's units. */
  datatype Row = Row(
    host: nat, unit: nat, table: string, bytes: Bytes, startedAt: Option<Instant>, completedAt: Option<Instant>,
    error: string)

  datatype Unit = Unit(keyspace: string, tables: seq<string>)

  datatype Key = Key(host: nat, keyspace: string, table: string)

  datatype TableProgress = TableProgress(table: string, progress: Progress, error: string)

  datatype KeyspaceProgress = KeyspaceProgress(keyspace: string, progress: Progress, tables: seq<TableProgress>)

  datatype HostProgress = HostProgress(host: nat, progress: Progress, keyspaces: seq<KeyspaceProgress>)

  datatype ClusterProgress = ClusterProgress(progress: Progress, hosts: seq<HostProgress>)

  type Tables = map<Key, TableProgress>

  predicate InUnits(rows: seq<Row>, units: seq<Unit>) {
    forall i :: 0 <= i < |rows| ==> rows[i].unit < |units|
  }

  function KeyOf(row: Row, units: seq<Unit>): Key
    requires row.unit < |units|
  {
    Key(row.host, units[row.unit].keyspace, row.table)
  }

  /** The entry kept for a row while the rows are read. */
  function EntryOf(row: Row): TableProgress {
    TableProgress(row.table,
      Progress(row.bytes,
        if row.startedAt.Some? then At(row.startedAt.value) else MaxTime,
        if row.completedAt.Some? then At(row.completedAt.value) else ZeroTime),
      row.error)
  }

  /** One entry for every key; the last row of a key wins. */
  function TableMap(rows: seq<Row>, units: seq<Unit>): Tables
    requires InUnits(rows, units)
  {
    if rows == [] then map[] else
      var last := rows[|rows|-1];
      TableMap(rows[..|rows|-1], units)[KeyOf(last, units) := EntryOf(last)]
  }

  /** The progress reported for a table. */
  function Reported(m: Tables, k: Key): TableProgress {
    if k in m then TableProgress(m[k].table, ExtremeToNil(m[k].progress), m[k].error)
    else TableProgress(k.table, Blank, "")
  }

  function TablesOf(m: Tables, h: nat, u: Unit): (s: seq<TableProgress>)
    ensures |s| == |u.tables|
    ensures forall i :: 0 <= i < |s| ==> s[i] == Reported(m, Key(h, u.keyspace, u.tables[i]))
  {
    seq(|u.tables|, i requires 0 <= i < |u.tables| => Reported(m, Key(h, u.keyspace, u.tables[i])))
  }

  function TableProgs(s: seq<TableProgress>): (r: seq<Progress>)
    ensures |r| == |s| && forall i :: 0 <= i < |r| ==> r[i] == s[i].progress
  {
    seq(|s|, i requires 0 <= i < |s| => s[i].progress)
  }

  function KeyspaceOf(m: Tables, h: nat, u: Unit): KeyspaceProgress {
    KeyspaceProgress(u.keyspace, ParentOf(TableProgs(TablesOf(m, h, u))), TablesOf(m, h, u))
  }

  function KeyspacesOf(m: Tables, h: nat, units: seq<Unit>): (s: seq<KeyspaceProgress>)
    ensures |s| == |units| && forall i :: 0 <= i < |s| ==> s[i] == KeyspaceOf(m, h, units[i])
  {
    seq(|units|, i requires 0 <= i < |units| => KeyspaceOf(m, h, units[i]))
  }

  function KeyspaceProgs(s: seq<KeyspaceProgress>): (r: seq<Progress>)
    ensures |r| == |s| && forall i :: 0 <= i < |r| ==> r[i] == s[i].progress
  {
    seq(|s|, i requires 0 <= i < |s| => s[i].progress)
  }

  function HostOf(m: Tables, units: seq<Unit>, h: nat): HostProgress {
    HostProgress(h, ParentOf(KeyspaceProgs(KeyspacesOf(m, h, units))), KeyspacesOf(m, h, units))
  }

  function HostsOf(m: Tables, units: seq<Unit>, hs: seq<nat>): (s: seq<HostProgress>)
    ensures |s| == |hs| && forall i :: 0 <= i < |s| ==> s[i] == HostOf(m, units, hs[i])
  {
    seq(|hs|, i requires 0 <= i < |hs| => HostOf(m, units, hs[i]))
  }

  function HostProgs(s: seq<HostProgress>): (r: seq<Progress>)
    ensures |r| == |s| && forall i :: 0 <= i < |r| ==> r[i] == s[i].progress
  {
    seq(|s|, i requires 0 <= i < |s| => s[i].progress)
  }

  predicate Ascending(hs: seq<nat>) {
    forall i, j :: 0 <= i < j < |hs| ==> hs[i] < hs[j]
  }

  // ---------- The code ----------

  method InsertHost(hs: seq<nat>, h: nat) returns (r: seq<nat>)
    requires Ascending(hs)
    ensures Ascending(r) && forall x :: x in r <==> x in hs || x == h
  {
    var i := 0;
    while i < |hs| && hs[i] < h
      invariant i <= |hs|
      invariant forall j :: 0 <= j < i ==> hs[j] < h
    {
      i := i + 1;
    }
    if i < |hs| && hs[i] == h {
      r := hs;
    } else {
      r := hs[..i] + [h] + hs[i..];
      assert hs == hs[..i] + hs[i..];
    }
  }

  /** Reads the rows; the hosts come sorted. */
  method ReadRows(rows: seq<Row>, units: seq<Unit>) returns (m: Tables, hs: seq<nat>)
    requires InUnits(rows, units)
    ensures m == TableMap(rows, units)
    ensures Ascending(hs) && forall h :: h in hs <==> exists i :: 0 <= i < |rows| && rows[i].host == h
  {
    m, hs := map[], [];
    for n := 0 to |rows|
      invariant m == TableMap(rows[..n], units)
      invariant Ascending(hs) && forall h :: h in hs <==> exists i :: 0 <= i < n && rows[i].host == h
    {
      assert rows[..n+1][..n] == rows[..n];
      m := m[KeyOf(rows[n], units) := EntryOf(rows[n])];
      hs := InsertHost(hs, rows[n].host);
    }
    assert rows[..|rows|] == rows;
  }

  /** Entries already reported have their extremes turned to nil; what is reported of them stays. */
  ghost predicate SameReports(m: Tables, n: Tables) {
    forall k :: Reported(m, k) == Reported(n, k)
  }

  /** The entry of one table, extremes turned to nil where it is kept. */
  method ReportTable(m: Tables, k: Key) returns (m': Tables, tp: TableProgress)
    ensures SameReports(m, m') && tp == Reported(m, k)
  {
    m' := m;
    if k in m {
      tp := m[k].(progress := ExtremeToNil(m[k].progress));
      m' := m[k := tp];
    } else {
      tp := TableProgress(k.table, Blank, "");
    }
  }

  method AddKeyspace(m: Tables, h: nat, u: Unit) returns (m': Tables, ks: KeyspaceProgress)
    ensures SameReports(m, m') && ks == KeyspaceOf(m, h, u)
  {
    var tables, p := [], Extreme;
    m' := m;
    ghost var all := TablesOf(m, h, u);
    for n := 0 to |u.tables|
      invariant SameReports(m, m') && tables == all[..n]
      invariant p == WithChildren(Extreme, TableProgs(all)[..n])
    {
      var tp;
      m', tp := ReportTable(m', Key(h, u.keyspace, u.tables[n]));
      assert tp == all[n];
      assert TableProgs(all)[..n+1][..n] == TableProgs(all)[..n];
      tables := tables + [tp];
      p := CalcParentProgress(p, tp.progress);
    }
    assert TableProgs(all)[..|all|] == TableProgs(all);
    ks := KeyspaceProgress(u.keyspace, ExtremeToNil(p), tables);
  }

  lemma SameKeyspace(m: Tables, n: Tables, h: nat, u: Unit)
    requires SameReports(m, n)
    ensures KeyspaceOf(m, h, u) == KeyspaceOf(n, h, u)
  {
    assert TablesOf(m, h, u) == TablesOf(n, h, u);
  }

  method AddSameKeyspace(ghost m0: Tables, m: Tables, h: nat, u: Unit) returns (m': Tables, ks: KeyspaceProgress)
    requires SameReports(m0, m)
    ensures SameReports(m0, m') && ks == KeyspaceOf(m0, h, u)
  {
    SameKeyspace(m0, m, h, u);
    m', ks := AddKeyspace(m, h, u);
  }

  method AddHost(m: Tables, units: seq<Unit>, h: nat) returns (m': Tables, host: HostProgress)
    ensures SameReports(m, m') && host == HostOf(m, units, h)
  {
    ghost var all := KeyspacesOf(m, h, units);
    var keyspaces, p;
    m', keyspaces, p := LoopKeyspaces(m, units, h, all, KeyspaceProgs(all));
    host := HostProgress(h, ExtremeToNil(p), keyspaces);
  }

  method LoopKeyspaces(m: Tables, units: seq<Unit>, h: nat, ghost all: seq<KeyspaceProgress>, ghost ps: seq<Progress>)
    returns (m': Tables, keyspaces: seq<KeyspaceProgress>, p: Progress)
    requires |all| == |ps| == |units|
    requires forall i :: 0 <= i < |units| ==> all[i] == KeyspaceOf(m, h, units[i]) && ps[i] == all[i].progress
    ensures SameReports(m, m') && keyspaces == all && p == WithChildren(Extreme, ps)
  {
    m', keyspaces, p := m, [], Extreme;
    for n := 0 to |units|
      invariant SameReports(m, m') && keyspaces == all[..n]
      invariant p == WithChildren(Extreme, ps[..n])
    {
      var ks;
      m', ks := AddSameKeyspace(m, m', h, units[n]);
      OneMoreChild(Extreme, ps, n);
      TakeOneMore(all, n, keyspaces, ks);
      keyspaces := keyspaces + [ks];
      p := CalcParentProgress(p, ks.progress);
    }
    assert ps[..|units|] == ps;
  }

  lemma SameHost(m: Tables, n: Tables, units: seq<Unit>, h: nat)
    requires SameReports(m, n)
    ensures HostOf(m, units, h) == HostOf(n, units, h)
  {
    forall i | 0 <= i < |units| ensures KeyspaceOf(m, h, units[i]) == KeyspaceOf(n, h, units[i]) {
      SameKeyspace(m, n, h, units[i]);
    }
    assert KeyspacesOf(m, h, units) == KeyspacesOf(n, h, units);
  }

  /** The tree over the hosts `hs` of the rows. */
  ghost predicate TreeOf(rows: seq<Row>, units: seq<Unit>, hs: seq<nat>, p: ClusterProgress)
    requires InUnits(rows, units)
  {
    && Ascending(hs) && (forall h :: h in hs <==> exists i :: 0 <= i < |rows| && rows[i].host == h)
    && p.hosts == HostsOf(TableMap(rows, units), units, hs)
    && p.progress == WithChildren(Blank, HostProgs(p.hosts))
  }

  // ---------- What the tree says of the rows ----------

  /** The row that counts for a table of a host: the last one that was read. */
  function LastRow(rows: seq<Row>, units: seq<Unit>, k: Key): (r: Option<Row>)
    requires InUnits(rows, units)
    ensures r.Some? ==> exists i :: 0 <= i < |rows| && rows[i] == r.value && RowFor(rows, units, i, k)
                                    && forall j :: i < j < |rows| ==> !RowFor(rows, units, j, k)
    ensures r.None? ==> forall i :: 0 <= i < |rows| ==> !RowFor(rows, units, i, k)
  {
    var n := |rows| - 1;
    if rows == [] then None
    else if RowFor(rows, units, n, k) then Some(rows[n])
    else
      var r := LastRow(rows[..n], units, k);
      assert forall i :: 0 <= i < n ==> RowFor(rows[..n], units, i, k) == RowFor(rows, units, i, k);
      r
  }

  predicate RowFor(rows: seq<Row>, units: seq<Unit>, i: nat, k: Key)
    requires InUnits(rows, units) && i < |rows|
  {
    rows[i].host == k.host && units[rows[i].unit].keyspace == k.keyspace && rows[i].table == k.table
  }

  /** The stamp is that of the time, and nil without one. */
  predicate IsStamp(s: Stamp, t: Option<Instant>) {
    if t.Some? then s == At(t.value) else s == Nil
  }

  /** The table is reported with what its row holds, or blank without a row. */
  predicate ReportsRow(t: TableProgress, table: string, row: Option<Row>) {
    && t.table == table
    && (row.None? ==> t.error == "" && t.progress == Progress(Bytes(0, 0, 0, 0), Nil, Nil))
    && (row.Some? ==>
          && t.error == row.value.error && t.progress.bytes == row.value.bytes
          && IsStamp(t.progress.startedAt, row.value.startedAt)
          && IsStamp(t.progress.completedAt, row.value.completedAt))
  }

  /** The tree has the hosts in order, every unit under every host and every table under its unit, each as its row. */
  ghost predicate TablesReported(rows: seq<Row>, units: seq<Unit>, hs: seq<nat>, p: ClusterProgress)
    requires InUnits(rows, units)
  {
    && |p.hosts| == |hs|
    && (forall a :: 0 <= a < |hs| ==> p.hosts[a].host == hs[a] && |p.hosts[a].keyspaces| == |units|)
    && (forall a, i :: 0 <= a < |hs| && 0 <= i < |units| ==>
          KeyspaceReported(rows, units, hs[a], i, p.hosts[a].keyspaces[i]))
  }

  ghost predicate KeyspaceReported(rows: seq<Row>, units: seq<Unit>, h: nat, i: nat, ks: KeyspaceProgress)
    requires InUnits(rows, units) && i < |units|
  {
    && ks.keyspace == units[i].keyspace && |ks.tables| == |units[i].tables|
    && forall j :: 0 <= j < |ks.tables| ==>
         ReportsRow(ks.tables[j], units[i].tables[j], LastRow(rows, units, Key(h, units[i].keyspace, units[i].tables[j])))
  }

  /** A parent's counters, start and completion are those of its children. */
  ghost predicate SpeaksFor(p: Progress, children: seq<Progress>) {
    && p.bytes == Sum(BytesOf(children))
    && EarliestStart(children, p.startedAt) && LatestCompletion(children, p.completedAt)
  }

  /** So it is in the tree from the tables up, but that the cluster never completes. */
  ghost predicate SumsUp(p: ClusterProgress) {
    && (forall a, i :: 0 <= a < |p.hosts| && 0 <= i < |p.hosts[a].keyspaces| ==>
          SpeaksFor(p.hosts[a].keyspaces[i].progress, TableProgs(p.hosts[a].keyspaces[i].tables)))
    && (forall a :: 0 <= a < |p.hosts| ==>
          SpeaksFor(p.hosts[a].progress, KeyspaceProgs(p.hosts[a].keyspaces)))
    && p.progress.bytes == Sum(BytesOf(HostProgs(p.hosts)))
    && EarliestStart(HostProgs(p.hosts), p.progress.startedAt) && p.progress.completedAt == Nil
  }

  lemma ParentSpeaks(children: seq<Progress>)
    requires AllSettled(children)
    ensures SpeaksFor(ParentOf(children), children) && Settled(ParentOf(children))
  {
    ParentMeans(children);
  }

  lemma TablesSettled(rows: seq<Row>, units: seq<Unit>, h: nat, i: nat, ks: KeyspaceProgress)
    requires InUnits(rows, units) && i < |units| && KeyspaceReported(rows, units, h, i, ks)
    ensures AllSettled(TableProgs(ks.tables))
  {
    forall j | 0 <= j < |ks.tables| ensures Settled(ks.tables[j].progress) {
      assert ReportsRow(ks.tables[j], units[i].tables[j],
          LastRow(rows, units, Key(h, units[i].keyspace, units[i].tables[j])));
    }
  }

  lemma KeyspaceSums(rows: seq<Row>, units: seq<Unit>, h: nat, i: nat)
    requires InUnits(rows, units) && i < |units|
    ensures var ks := KeyspaceOf(TableMap(rows, units), h, units[i]);
      SpeaksFor(ks.progress, TableProgs(ks.tables)) && Settled(ks.progress)
  {
    var ks := KeyspaceOf(TableMap(rows, units), h, units[i]);
    KeyspaceIsRows(rows, units, h, i);
    TablesSettled(rows, units, h, i, ks);
    ParentSpeaks(TableProgs(ks.tables));
  }

  lemma HostSumsUp(rows: seq<Row>, units: seq<Unit>, h: nat)
    requires InUnits(rows, units)
    ensures var host := HostOf(TableMap(rows, units), units, h);
      SpeaksFor(host.progress, KeyspaceProgs(host.keyspaces)) && Settled(host.progress)
  {
    var host := HostOf(TableMap(rows, units), units, h);
    forall i | 0 <= i < |units| ensures Settled(KeyspaceProgs(host.keyspaces)[i]) {
      KeyspaceSums(rows, units, h, i);
    }
    ParentSpeaks(KeyspaceProgs(host.keyspaces));
  }

  lemma TreeSums(rows: seq<Row>, units: seq<Unit>, hs: seq<nat>, p: ClusterProgress)
    requires InUnits(rows, units) && TreeOf(rows, units, hs, p)
    ensures SumsUp(p)
  {
    KeyspacesSum(rows, units, hs, p.hosts);
    HostsSum(rows, units, hs, p.hosts);
    ClusterMeans(HostProgs(p.hosts));
  }

  lemma HostsSum(rows: seq<Row>, units: seq<Unit>, hs: seq<nat>, hosts: seq<HostProgress>)
    requires InUnits(rows, units) && hosts == HostsOf(TableMap(rows, units), units, hs)
    ensures AllSettled(HostProgs(hosts))
    ensures forall a :: 0 <= a < |hosts| ==> SpeaksFor(hosts[a].progress, KeyspaceProgs(hosts[a].keyspaces))
  {
    forall a | 0 <= a < |hosts|
      ensures SpeaksFor(hosts[a].progress, KeyspaceProgs(hosts[a].keyspaces)) && Settled(hosts[a].progress)
    {
      HostSumsUp(rows, units, hs[a]);
    }
  }

  lemma KeyspacesSum(rows: seq<Row>, units: seq<Unit>, hs: seq<nat>, hosts: seq<HostProgress>)
    requires InUnits(rows, units) && hosts == HostsOf(TableMap(rows, units), units, hs)
    ensures forall a, i :: 0 <= a < |hosts| && 0 <= i < |hosts[a].keyspaces| ==>
              SpeaksFor(hosts[a].keyspaces[i].progress, TableProgs(hosts[a].keyspaces[i].tables))
  {
    forall a, i | 0 <= a < |hosts| && 0 <= i < |hosts[a].keyspaces|
      ensures SpeaksFor(hosts[a].keyspaces[i].progress, TableProgs(hosts[a].keyspaces[i].tables))
    {
      KeyspaceSums(rows, units, hs[a], i);
    }
  }

  lemma {:induction false} LastRowIsEntry(rows: seq<Row>, units: seq<Unit>, k: Key)
    requires InUnits(rows, units)
    ensures k in TableMap(rows, units) <==> LastRow(rows, units, k).Some?
    ensures k in TableMap(rows, units) ==> TableMap(rows, units)[k] == EntryOf(LastRow(rows, units, k).value)
    ensures k in TableMap(rows, units) ==> LastRow(rows, units, k).value.table == k.table
  {
    if rows != [] {
      LastRowIsEntry(rows[..|rows|-1], units, k);
    }
  }

  lemma TableIsRow(rows: seq<Row>, units: seq<Unit>, k: Key)
    requires InUnits(rows, units)
    ensures ReportsRow(Reported(TableMap(rows, units), k), k.table, LastRow(rows, units, k))
  {
    LastRowIsEntry(rows, units, k);
  }

  lemma KeyspaceIsRows(rows: seq<Row>, units: seq<Unit>, h: nat, i: nat)
    requires InUnits(rows, units) && i < |units|
    ensures KeyspaceReported(rows, units, h, i, KeyspaceOf(TableMap(rows, units), h, units[i]))
  {
    forall j | 0 <= j < |units[i].tables|
      ensures var k := Key(h, units[i].keyspace, units[i].tables[j]);
        ReportsRow(Reported(TableMap(rows, units), k), k.table, LastRow(rows, units, k))
    {
      TableIsRow(rows, units, Key(h, units[i].keyspace, units[i].tables[j]));
    }
  }

  lemma TreeReports(rows: seq<Row>, units: seq<Unit>, hs: seq<nat>, p: ClusterProgress)
    requires InUnits(rows, units) && p.hosts == HostsOf(TableMap(rows, units), units, hs)
    ensures TablesReported(rows, units, hs, p)
  {
    forall a, i | 0 <= a < |hs| && 0 <= i < |units|
      ensures KeyspaceReported(rows, units, hs[a], i, p.hosts[a].keyspaces[i])
    {
      KeyspaceIsRows(rows, units, hs[a], i);
    }
  }

  method AggregateProgress(rows: seq<Row>, units: seq<Unit>) returns (p: ClusterProgress, ghost hs: seq<nat>)
    requires InUnits(rows, units)
    ensures units == [] ==> p == ClusterProgress(Blank, [])
    ensures units != [] ==> TreeOf(rows, units, hs, p) && TablesReported(rows, units, hs, p) && SumsUp(p)
  {
    if |units| == 0 {
      return ClusterProgress(Blank, []), [];
    }
    var m, hosts := ReadRows(rows, units);
    p := AddHosts(m, units, hosts);
    hs := hosts;
    TreeReports(rows, units, hs, p);
    TreeSums(rows, units, hs, p);
  }

  lemma OneMoreChild(parent: Progress, children: seq<Progress>, n: nat)
    requires n < |children|
    ensures WithChildren(parent, children[..n+1]) == CalcParentProgress(WithChildren(parent, children[..n]), children[n])
  {
    assert children[..n+1][..n] == children[..n];
  }

  method AddHosts(m0: Tables, units: seq<Unit>, hs: seq<nat>) returns (p: ClusterProgress)
    ensures p.hosts == HostsOf(m0, units, hs) && p.progress == WithChildren(Blank, HostProgs(p.hosts))
  {
    ghost var all := HostsOf(m0, units, hs);
    var cluster, hosts := LoopHosts(m0, units, hs, all, HostProgs(all));
    p := ClusterProgress(cluster, hosts);
  }

  lemma TakeOneMore<T>(all: seq<T>, n: nat, front: seq<T>, next: T)
    requires n < |all| && front == all[..n] && next == all[n]
    ensures front + [next] == all[..n+1]
  {
  }

  method LoopHosts(m0: Tables, units: seq<Unit>, hs: seq<nat>, ghost all: seq<HostProgress>, ghost ps: seq<Progress>)
    returns (cluster: Progress, hosts: seq<HostProgress>)
    requires |all| == |hs| == |ps|
    requires all == HostsOf(m0, units, hs)
    requires forall i :: 0 <= i < |hs| ==> ps[i] == all[i].progress
    ensures hosts == all && cluster == WithChildren(Blank, ps)
  {
    var m := m0;
    hosts, cluster := [], Blank;
    for n := 0 to |hs|
      invariant SameReports(m0, m)
      invariant hosts == all[..n]
      invariant cluster == WithChildren(Blank, ps[..n])
    {
      var host;
      m, host := AddSameHost(m0, m, units, hs, n);
      OneMoreChild(Blank, ps, n);
      TakeOneMore(all, n, hosts, host);
      hosts := hosts + [host];
      cluster := CalcParentProgress(cluster, host.progress);
    }
    assert ps[..|hs|] == ps;
  }

  method AddSameHost(ghost m0: Tables, m: Tables, units: seq<Unit>, hs: seq<nat>, n: nat)
    returns (m': Tables, host: HostProgress)
    requires SameReports(m0, m) && n < |hs|
    ensures SameReports(m0, m') && host == HostsOf(m0, units, hs)[n]
  {
    SameHost(m0, m, units, hs[n]);
    m', host := AddHost(m, units, hs[n]);
  }

  // ---------- Conservation over the rows ----------

  /** The cells of the tree: every table of every unit, for every host. */
  function UnitCells(h: nat, u: Unit): (s: seq<Key>)
    ensures |s| == |u.tables| && forall i :: 0 <= i < |s| ==> s[i] == Key(h, u.keyspace, u.tables[i])
  {
    seq(|u.tables|, i requires 0 <= i < |u.tables| => Key(h, u.keyspace, u.tables[i]))
  }

  function HostCells(h: nat, units: seq<Unit>): seq<Key> {
    if units == [] then [] else HostCells(h, units[..|units|-1]) + UnitCells(h, units[|units|-1])
  }

  function Cells(hs: seq<nat>, units: seq<Unit>): seq<Key> {
    if hs == [] then [] else Cells(hs[..|hs|-1], units) + HostCells(hs[|hs|-1], units)
  }

  function CellBytes(m: Tables, k: Key): Bytes {
    if k in m then m[k].progress.bytes else NoBytes
  }

  function CellSum(m: Tables, cells: seq<Key>): Bytes {
    if cells == [] then NoBytes else Plus(CellSum(m, cells[..|cells|-1]), CellBytes(m, cells[|cells|-1]))
  }

  lemma {:induction false} CellSumConcat(m: Tables, a: seq<Key>, b: seq<Key>)
    ensures CellSum(m, a + b) == Plus(CellSum(m, a), CellSum(m, b))
  {
    if b == [] {
      assert a + b == a;
    } else {
      assert (a + b)[..|a + b|-1] == a + b[..|b|-1];
      CellSumConcat(m, a, b[..|b|-1]);
    }
  }

  lemma {:induction false} CellsOfBytes(m: Tables, cells: seq<Key>, bytes: seq<Bytes>)
    requires |bytes| == |cells| && forall i :: 0 <= i < |cells| ==> bytes[i] == CellBytes(m, cells[i])
    ensures Sum(bytes) == CellSum(m, cells)
  {
    if cells != [] {
      CellsOfBytes(m, cells[..|cells|-1], bytes[..|bytes|-1]);
    }
  }

  lemma TableBytes(m: Tables, h: nat, u: Unit, i: nat)
    requires i < |u.tables|
    ensures TableProgs(TablesOf(m, h, u))[i].bytes == CellBytes(m, UnitCells(h, u)[i])
  {
  }

  lemma ParentBytes(ps: seq<Progress>)
    ensures ParentOf(ps).bytes == Sum(BytesOf(ps)) && WithChildren(Blank, ps).bytes == Sum(BytesOf(ps))
  {
    BytesAddUp(Extreme, ps);
    BytesAddUp(Blank, ps);
  }

  lemma KeyspaceCells(m: Tables, h: nat, u: Unit)
    ensures KeyspaceOf(m, h, u).progress.bytes == CellSum(m, UnitCells(h, u))
  {
    var ps := TableProgs(TablesOf(m, h, u));
    ParentBytes(ps);
    forall i | 0 <= i < |ps| ensures BytesOf(ps)[i] == CellBytes(m, UnitCells(h, u)[i]) {
      TableBytes(m, h, u, i);
    }
    CellsOfBytes(m, UnitCells(h, u), BytesOf(ps));
  }

  lemma {:induction false} SumOfKeyspaces(m: Tables, h: nat, units: seq<Unit>, bytes: seq<Bytes>)
    requires |bytes| == |units|
    requires forall i :: 0 <= i < |units| ==> bytes[i] == CellSum(m, UnitCells(h, units[i]))
    ensures Sum(bytes) == CellSum(m, HostCells(h, units))
  {
    if units != [] {
      var n := |units| - 1;
      SumOfKeyspaces(m, h, units[..n], bytes[..n]);
      CellSumConcat(m, HostCells(h, units[..n]), UnitCells(h, units[n]));
    }
  }

  lemma HostSums(m: Tables, units: seq<Unit>, h: nat)
    ensures HostOf(m, units, h).progress.bytes == CellSum(m, HostCells(h, units))
  {
    var ps := KeyspaceProgs(KeyspacesOf(m, h, units));
    ParentBytes(ps);
    forall i | 0 <= i < |units| ensures BytesOf(ps)[i] == CellSum(m, UnitCells(h, units[i])) {
      KeyspaceCells(m, h, units[i]);
    }
    SumOfKeyspaces(m, h, units, BytesOf(ps));
  }

  lemma {:induction false} SumOfHosts(m: Tables, hs: seq<nat>, units: seq<Unit>, bytes: seq<Bytes>)
    requires |bytes| == |hs|
    requires forall i :: 0 <= i < |hs| ==> bytes[i] == CellSum(m, HostCells(hs[i], units))
    ensures Sum(bytes) == CellSum(m, Cells(hs, units))
  {
    if hs != [] {
      var n := |hs| - 1;
      SumOfHosts(m, hs[..n], units, bytes[..n]);
      CellSumConcat(m, Cells(hs[..n], units), HostCells(hs[n], units));
    }
  }

  lemma HostBytes(m: Tables, units: seq<Unit>, hs: seq<nat>, i: nat)
    requires i < |hs|
    ensures HostProgs(HostsOf(m, units, hs))[i].bytes == CellSum(m, HostCells(hs[i], units))
  {
    HostSums(m, units, hs[i]);
  }

  lemma ClusterSums(m: Tables, units: seq<Unit>, hs: seq<nat>)
    ensures WithChildren(Blank, HostProgs(HostsOf(m, units, hs))).bytes == CellSum(m, Cells(hs, units))
  {
    var ps := HostProgs(HostsOf(m, units, hs));
    ParentBytes(ps);
    forall i | 0 <= i < |hs| ensures BytesOf(ps)[i] == CellSum(m, HostCells(hs[i], units)) {
      HostBytes(m, units, hs, i);
    }
    SumOfHosts(m, hs, units, BytesOf(ps));
  }

  predicate Distinct<T(==)>(s: seq<T>) {
    forall i, j :: 0 <= i < j < |s| ==> s[i] != s[j]
  }

  /** The units name every table once. */
  predicate UnitsDistinct(units: seq<Unit>) {
    && (forall i, j :: 0 <= i < j < |units| ==> units[i].keyspace != units[j].keyspace)
    && (forall i :: 0 <= i < |units| ==> Distinct(units[i].tables))
  }

  lemma {:induction false} HostCellsMean(h: nat, units: seq<Unit>, k: Key)
    ensures k in HostCells(h, units) <==>
      k.host == h && exists i :: 0 <= i < |units| && k.keyspace == units[i].keyspace && k.table in units[i].tables
  {
    if units != [] {
      var n := |units| - 1;
      HostCellsMean(h, units[..n], k);
      UnitCellsMean(h, units[n], k);
    }
  }

  lemma UnitCellsMean(h: nat, u: Unit, k: Key)
    ensures k in UnitCells(h, u) <==> k.host == h && k.keyspace == u.keyspace && k.table in u.tables
  {
    if k.host == h && k.keyspace == u.keyspace && k.table in u.tables {
      var i :| 0 <= i < |u.tables| && u.tables[i] == k.table;
      assert UnitCells(h, u)[i] == k;
    }
  }

  lemma DistinctConcat<T>(a: seq<T>, b: seq<T>)
    requires Distinct(a) && Distinct(b) && forall x :: x in b ==> x !in a
    ensures Distinct(a + b)
  {
    assert forall i :: |a| <= i < |a + b| ==> (a + b)[i] == b[i - |a|] && b[i - |a|] in b;
    assert forall i :: 0 <= i < |a| ==> a[i] in a;
  }

  lemma {:induction false} HostCellsDistinct(h: nat, units: seq<Unit>)
    requires UnitsDistinct(units)
    ensures Distinct(HostCells(h, units))
  {
    if units != [] {
      var n := |units| - 1;
      HostCellsDistinct(h, units[..n]);
      assert Distinct(UnitCells(h, units[n])) by { assert Distinct(units[n].tables); }
      forall k | k in UnitCells(h, units[n]) ensures k !in HostCells(h, units[..n]) {
        UnitCellsMean(h, units[n], k);
        HostCellsMean(h, units[..n], k);
      }
      DistinctConcat(HostCells(h, units[..n]), UnitCells(h, units[n]));
    }
  }

  lemma {:induction false} CellsMean(hs: seq<nat>, units: seq<Unit>, k: Key)
    ensures k in Cells(hs, units) <==>
      k.host in hs && exists i :: 0 <= i < |units| && k.keyspace == units[i].keyspace && k.table in units[i].tables
  {
    if hs != [] {
      var n := |hs| - 1;
      CellsMean(hs[..n], units, k);
      HostCellsMean(hs[n], units, k);
      assert hs == hs[..n] + [hs[n]];
    }
  }

  lemma {:induction false} CellsDistinct(hs: seq<nat>, units: seq<Unit>)
    requires Ascending(hs) && UnitsDistinct(units)
    ensures Distinct(Cells(hs, units))
  {
    if hs != [] {
      var n := |hs| - 1;
      CellsDistinct(hs[..n], units);
      HostCellsDistinct(hs[n], units);
      forall k | k in HostCells(hs[n], units) ensures k !in Cells(hs[..n], units) {
        HostCellsMean(hs[n], units, k);
        CellsMean(hs[..n], units, k);
      }
      DistinctConcat(Cells(hs[..n], units), HostCells(hs[n], units));
    }
  }

  /** A new key adds its bytes to the sum, if its cell is there, and once. */
  lemma {:induction false} CellSumUpdate(m: Tables, k: Key, e: TableProgress, cells: seq<Key>)
    requires Distinct(cells) && k !in m
    ensures CellSum(m[k := e], cells) ==
      if k in cells then Plus(CellSum(m, cells), e.progress.bytes) else CellSum(m, cells)
  {
    if cells != [] {
      var front, c := cells[..|cells|-1], cells[|cells|-1];
      LastOfDistinct(cells, front, c);
      CellSumUpdate(m, k, e, front);
      CellUpdate(m, k, e, c);
      PlusOrder(CellSum(m, front), CellBytes(m, c), e.progress.bytes);
    }
  }

  lemma LastOfDistinct(cells: seq<Key>, front: seq<Key>, c: Key)
    requires Distinct(cells) && cells == front + [c]
    ensures Distinct(front) && c !in front && forall k :: k in cells <==> k in front || k == c
  {
    assert cells[|front|] == c && forall i :: 0 <= i < |front| ==> cells[i] == front[i];
  }

  lemma PlusOrder(a: Bytes, b: Bytes, c: Bytes)
    ensures Plus(Plus(a, b), c) == Plus(Plus(a, c), b) && Plus(a, NoBytes) == a
  {
  }

  lemma CellUpdate(m: Tables, k: Key, e: TableProgress, c: Key)
    requires k !in m
    ensures CellBytes(m[k := e], c) == if c == k then e.progress.bytes else CellBytes(m, c)
    ensures CellBytes(m, k) == NoBytes
  {
  }

  lemma {:induction false} CellSumEmpty(cells: seq<Key>)
    ensures CellSum(map[], cells) == NoBytes
  {
    if cells != [] {
      CellSumEmpty(cells[..|cells|-1]);
    }
  }

  predicate KeysDistinct(rows: seq<Row>, units: seq<Unit>)
    requires InUnits(rows, units)
  {
    forall i, j :: 0 <= i < j < |rows| ==> KeyOf(rows[i], units) != KeyOf(rows[j], units)
  }

  function RowBytes(rows: seq<Row>): seq<Bytes> {
    seq(|rows|, i requires 0 <= i < |rows| => rows[i].bytes)
  }

  lemma {:induction false} TableMapKeys(rows: seq<Row>, units: seq<Unit>, k: Key)
    requires InUnits(rows, units)
    ensures k in TableMap(rows, units) <==> exists i :: 0 <= i < |rows| && KeyOf(rows[i], units) == k
  {
    if rows != [] {
      TableMapKeys(rows[..|rows|-1], units, k);
    }
  }

  lemma {:induction false} RowsSum(rows: seq<Row>, units: seq<Unit>, cells: seq<Key>)
    requires InUnits(rows, units) && KeysDistinct(rows, units) && Distinct(cells)
    requires forall i :: 0 <= i < |rows| ==> KeyOf(rows[i], units) in cells
    ensures CellSum(TableMap(rows, units), cells) == Sum(RowBytes(rows))
  {
    if rows == [] {
      CellSumEmpty(cells);
    } else {
      var n := |rows| - 1;
      RowsSum(rows[..n], units, cells);
      var k := KeyOf(rows[n], units);
      TableMapKeys(rows[..n], units, k);
      CellSumUpdate(TableMap(rows[..n], units), k, EntryOf(rows[n]), cells);
      assert RowBytes(rows)[..n] == RowBytes(rows[..n]);
    }
  }

  /** Every row is of a table of its unit. */
  predicate RowsInside(rows: seq<Row>, units: seq<Unit>)
    requires InUnits(rows, units)
  {
    forall i :: 0 <= i < |rows| ==> rows[i].table in units[rows[i].unit].tables
  }

  /** Nothing is lost and nothing counted twice: the cluster's counters are the sums over all rows, whatever
      the order of the rows. */
  lemma ProgressConserved(rows: seq<Row>, units: seq<Unit>, hs: seq<nat>, p: ClusterProgress)
    requires InUnits(rows, units) && TreeOf(rows, units, hs, p)
    requires UnitsDistinct(units) && KeysDistinct(rows, units) && RowsInside(rows, units)
    ensures p.progress.bytes == Sum(RowBytes(rows))
  {
    ClusterSums(TableMap(rows, units), units, hs);
    CellsDistinct(hs, units);
    forall i | 0 <= i < |rows| ensures KeyOf(rows[i], units) in Cells(hs, units) {
      assert rows[i].host in hs;
      CellsMean(hs, units, KeyOf(rows[i], units));
    }
    RowsSum(rows, units, Cells(hs, units));
  }

  // ---------- Times over all tables of a host ----------

  predicate Leaf(units: seq<Unit>, i: nat, j: nat) {
    i < |units| && j < |units[i].tables|
  }

  /** What is reported of table `j` of unit `i` on the host. */
  function LeafOf(m: Tables, h: nat, units: seq<Unit>, i: nat, j: nat): Progress
    requires Leaf(units, i, j)
  {
    Reported(m, Key(h, units[i].keyspace, units[i].tables[j])).progress
  }

  ghost predicate LeavesSettled(m: Tables, h: nat, units: seq<Unit>) {
    forall i: nat, j: nat :: Leaf(units, i, j) ==> Settled(LeafOf(m, h, units, i, j))
  }

  function Leaves(m: Tables, h: nat, units: seq<Unit>, i: nat): (ps: seq<Progress>)
    requires i < |units|
    ensures |ps| == |units[i].tables|
    ensures forall j: nat :: Leaf(units, i, j) ==> ps[j] == LeafOf(m, h, units, i, j)
  {
    TableProgs(TablesOf(m, h, units[i]))
  }

  /** A host's keyspaces are settled, and each speaks for its own tables. */
  lemma KeyspaceTimes(m: Tables, h: nat, units: seq<Unit>, i: nat)
    requires LeavesSettled(m, h, units) && i < |units|
    ensures var p := KeyspaceOf(m, h, units[i]).progress; var ps := Leaves(m, h, units, i);
      EarliestStart(ps, p.startedAt) && LatestCompletion(ps, p.completedAt)
  {
    var ps := Leaves(m, h, units, i);
    forall j | 0 <= j < |ps| ensures Settled(ps[j]) {
      assert Leaf(units, i, j);
    }
    ParentMeans(ps);
  }

  ghost predicate StartsBelow(m: Tables, h: nat, units: seq<Unit>, s: Stamp) {
    && (s.Nil? || s.At?)
    && (s.Nil? <==> forall i: nat, j: nat :: Leaf(units, i, j) ==> LeafOf(m, h, units, i, j).startedAt.Nil?)
    && (s.At? ==>
          && (exists i: nat, j: nat :: Leaf(units, i, j) && LeafOf(m, h, units, i, j).startedAt == s)
          && (forall i: nat, j: nat :: Leaf(units, i, j) && LeafOf(m, h, units, i, j).startedAt.At? ==>
                s.t <= LeafOf(m, h, units, i, j).startedAt.t))
  }

  ghost predicate CompletesAbove(m: Tables, h: nat, units: seq<Unit>, s: Stamp) {
    && (s.Nil? || s.At?)
    && (s.Nil? <==>
          || units == [] || (exists i :: 0 <= i < |units| && units[i].tables == [])
          || (exists i: nat, j: nat :: Leaf(units, i, j) && LeafOf(m, h, units, i, j).completedAt.Nil?))
    && (s.At? ==>
          && (exists i: nat, j: nat :: Leaf(units, i, j) && LeafOf(m, h, units, i, j).completedAt == s)
          && (forall i: nat, j: nat :: Leaf(units, i, j) ==>
                && LeafOf(m, h, units, i, j).completedAt.At?
                && LeafOf(m, h, units, i, j).completedAt.t <= s.t))
  }

  /** When the row that counts for table `j` of unit `i` says that it started, and completed. */
  function StartedAt(rows: seq<Row>, units: seq<Unit>, h: nat, i: nat, j: nat): Option<Instant>
    requires InUnits(rows, units) && Leaf(units, i, j)
  {
    var r := LastRow(rows, units, Key(h, units[i].keyspace, units[i].tables[j]));
    if r.Some? then r.value.startedAt else None
  }

  function CompletedAt(rows: seq<Row>, units: seq<Unit>, h: nat, i: nat, j: nat): Option<Instant>
    requires InUnits(rows, units) && Leaf(units, i, j)
  {
    var r := LastRow(rows, units, Key(h, units[i].keyspace, units[i].tables[j]));
    if r.Some? then r.value.completedAt else None
  }

  lemma LeafTimes(rows: seq<Row>, units: seq<Unit>, h: nat, i: nat, j: nat)
    requires InUnits(rows, units) && Leaf(units, i, j)
    ensures IsStamp(LeafOf(TableMap(rows, units), h, units, i, j).startedAt, StartedAt(rows, units, h, i, j))
    ensures IsStamp(LeafOf(TableMap(rows, units), h, units, i, j).completedAt, CompletedAt(rows, units, h, i, j))
  {
    TableIsRow(rows, units, Key(h, units[i].keyspace, units[i].tables[j]));
  }

  /** The earliest start of the rows of the host's tables, nil if none has started. */
  ghost predicate HostStarts(rows: seq<Row>, units: seq<Unit>, h: nat, s: Stamp)
    requires InUnits(rows, units)
  {
    && (s.Nil? || s.At?)
    && (s.Nil? <==> forall i: nat, j: nat :: Leaf(units, i, j) ==> StartedAt(rows, units, h, i, j).None?)
    && (s.At? ==>
          && (exists i: nat, j: nat :: Leaf(units, i, j) && StartedAt(rows, units, h, i, j) == Some(s.t))
          && (forall i: nat, j: nat :: Leaf(units, i, j) && StartedAt(rows, units, h, i, j).Some? ==>
                s.t <= StartedAt(rows, units, h, i, j).value))
  }

  /** The latest completion, nil if there is no keyspace, one without tables, or a table that is not complete. */
  ghost predicate HostCompletes(rows: seq<Row>, units: seq<Unit>, h: nat, s: Stamp)
    requires InUnits(rows, units)
  {
    && (s.Nil? || s.At?)
    && (s.Nil? <==>
          || units == [] || (exists i :: 0 <= i < |units| && units[i].tables == [])
          || (exists i: nat, j: nat :: Leaf(units, i, j) && CompletedAt(rows, units, h, i, j).None?))
    && (s.At? ==>
          && (exists i: nat, j: nat :: Leaf(units, i, j) && CompletedAt(rows, units, h, i, j) == Some(s.t))
          && (forall i: nat, j: nat :: Leaf(units, i, j) ==>
                CompletedAt(rows, units, h, i, j).Some? && CompletedAt(rows, units, h, i, j).value <= s.t))
  }

  lemma StartsByRows(rows: seq<Row>, units: seq<Unit>, h: nat, s: Stamp)
    requires InUnits(rows, units) && StartsBelow(TableMap(rows, units), h, units, s)
    ensures HostStarts(rows, units, h, s)
  {
    var m := TableMap(rows, units);
    forall i: nat, j: nat | Leaf(units, i, j)
      ensures IsStamp(LeafOf(m, h, units, i, j).startedAt, StartedAt(rows, units, h, i, j))
    {
      LeafTimes(rows, units, h, i, j);
    }
  }

  lemma CompletesByRows(rows: seq<Row>, units: seq<Unit>, h: nat, s: Stamp)
    requires InUnits(rows, units) && CompletesAbove(TableMap(rows, units), h, units, s)
    ensures HostCompletes(rows, units, h, s)
  {
    var m := TableMap(rows, units);
    forall i: nat, j: nat | Leaf(units, i, j)
      ensures IsStamp(LeafOf(m, h, units, i, j).completedAt, CompletedAt(rows, units, h, i, j))
    {
      LeafTimes(rows, units, h, i, j);
    }
  }

  /** Over the rows of all tables of all its keyspaces: a host starts with the earliest, and completes with the latest,
      but only if there are keyspaces, none is without tables, and every table is complete. */
  lemma HostTimes(rows: seq<Row>, units: seq<Unit>, hs: seq<nat>, p: ClusterProgress, a: nat)
    requires InUnits(rows, units) && TreeOf(rows, units, hs, p) && a < |p.hosts|
    ensures HostStarts(rows, units, p.hosts[a].host, p.hosts[a].progress.startedAt)
    ensures HostCompletes(rows, units, p.hosts[a].host, p.hosts[a].progress.completedAt)
  {
    TimesOfHost(rows, units, hs[a]);
    StartsByRows(rows, units, hs[a], p.hosts[a].progress.startedAt);
    CompletesByRows(rows, units, hs[a], p.hosts[a].progress.completedAt);
  }

  lemma TimesOfHost(rows: seq<Row>, units: seq<Unit>, h: nat)
    requires InUnits(rows, units)
    ensures var m := TableMap(rows, units); var p := HostOf(m, units, h).progress;
      StartsBelow(m, h, units, p.startedAt) && CompletesAbove(m, h, units, p.completedAt)
  {
    var m := TableMap(rows, units);
    forall i: nat, j: nat | Leaf(units, i, j) ensures Settled(LeafOf(m, h, units, i, j)) {
      LeafTimes(rows, units, h, i, j);
    }
    var ps := KeyspaceProgs(KeyspacesOf(m, h, units));
    forall i | 0 <= i < |units| ensures Speaks(m, h, units, i, ps[i]) {
      KeyspaceTimes(m, h, units, i);
    }
    ParentMeans(ps);
    StartsFromKeyspaces(m, h, units, ps, ParentOf(ps).startedAt);
    CompletesFromKeyspaces(m, h, units, ps, ParentOf(ps).completedAt);
  }

  ghost predicate Speaks(m: Tables, h: nat, units: seq<Unit>, i: nat, p: Progress)
    requires i < |units|
  {
    var ps := Leaves(m, h, units, i);
    EarliestStart(ps, p.startedAt) && LatestCompletion(ps, p.completedAt)
  }

  lemma StartsFromKeyspaces(m: Tables, h: nat, units: seq<Unit>, ps: seq<Progress>, s: Stamp)
    requires |ps| == |units| && forall i :: 0 <= i < |units| ==> Speaks(m, h, units, i, ps[i])
    requires EarliestStart(ps, s)
    ensures StartsBelow(m, h, units, s)
  {
    forall i: nat, j: nat | Leaf(units, i, j)
      ensures s.Nil? ==> LeafOf(m, h, units, i, j).startedAt.Nil?
      ensures s.At? && LeafOf(m, h, units, i, j).startedAt.At? ==> s.t <= LeafOf(m, h, units, i, j).startedAt.t
    {
      NoneStartsBefore(m, h, units, ps, s, i, j);
    }
    if s.At? {
      var i, j := SomeStartsAt(m, h, units, ps, s);
    }
  }

  lemma NoneStartsBefore(m: Tables, h: nat, units: seq<Unit>, ps: seq<Progress>, s: Stamp, i: nat, j: nat)
    requires Leaf(units, i, j) && |ps| == |units| && Speaks(m, h, units, i, ps[i]) && EarliestStart(ps, s)
    ensures s.Nil? ==> LeafOf(m, h, units, i, j).startedAt.Nil?
    ensures s.At? && LeafOf(m, h, units, i, j).startedAt.At? ==> s.t <= LeafOf(m, h, units, i, j).startedAt.t
  {
    assert LeafOf(m, h, units, i, j) == Leaves(m, h, units, i)[j];
  }

  lemma SomeStartsAt(m: Tables, h: nat, units: seq<Unit>, ps: seq<Progress>, s: Stamp) returns (i: nat, j: nat)
    requires |ps| == |units| && forall i :: 0 <= i < |units| ==> Speaks(m, h, units, i, ps[i])
    requires EarliestStart(ps, s) && s.At?
    ensures Leaf(units, i, j) && LeafOf(m, h, units, i, j).startedAt == s
  {
    i :| 0 <= i < |ps| && ps[i].startedAt == s;
    assert Speaks(m, h, units, i, ps[i]);
    j :| 0 <= j < |Leaves(m, h, units, i)| && Leaves(m, h, units, i)[j].startedAt == s;
  }

  lemma CompletesFromKeyspaces(m: Tables, h: nat, units: seq<Unit>, ps: seq<Progress>, s: Stamp)
    requires |ps| == |units| && forall i :: 0 <= i < |units| ==> Speaks(m, h, units, i, ps[i])
    requires LatestCompletion(ps, s)
    ensures CompletesAbove(m, h, units, s)
  {
    if s.At? {
      CompletesAt(m, h, units, ps, s);
    } else if units != [] {
      var i :| 0 <= i < |ps| && ps[i].completedAt.Nil?;
      assert Speaks(m, h, units, i, ps[i]);
      var leaves := Leaves(m, h, units, i);
      if leaves != [] {
        var j :| 0 <= j < |leaves| && leaves[j].completedAt.Nil?;
        assert Leaf(units, i, j) && LeafOf(m, h, units, i, j).completedAt.Nil?;
      }
    }
  }

  lemma CompletesAt(m: Tables, h: nat, units: seq<Unit>, ps: seq<Progress>, s: Stamp)
    requires |ps| == |units| && forall i :: 0 <= i < |units| ==> Speaks(m, h, units, i, ps[i])
    requires LatestCompletion(ps, s) && s.At?
    ensures CompletesAbove(m, h, units, s)
  {
    forall i | 0 <= i < |units| ensures units[i].tables != [] {
      assert Speaks(m, h, units, i, ps[i]);
    }
    forall i: nat, j: nat | Leaf(units, i, j)
      ensures LeafOf(m, h, units, i, j).completedAt.At? && LeafOf(m, h, units, i, j).completedAt.t <= s.t
    {
      assert Speaks(m, h, units, i, ps[i]);
      assert LeafOf(m, h, units, i, j) == Leaves(m, h, units, i)[j];
    }
    var i :| 0 <= i < |ps| && ps[i].completedAt == s;
    assert Speaks(m, h, units, i, ps[i]);
    var j :| 0 <= j < |Leaves(m, h, units, i)| && Leaves(m, h, units, i)[j].completedAt == s;
    assert Leaf(units, i, j) && LeafOf(m, h, units, i, j).completedAt == s;
  }
}
