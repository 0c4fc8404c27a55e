/** Purging snapshot tags of a node, pkg/service/backup/purger.go. */
module Purger {
  import opened Wrappers
  import opened Versioning
  import opened FileSets
  import opened BackupStore

  ghost function Ids(ms: seq<ManifestId>): (s: set<ManifestId>)
    ensures forall m :: m in s <==> m in ms
  {
    set m | m in ms
  }

  predicate AllStored(s: Store, ms: seq<ManifestId>) {
    forall m :: m in ms ==> m in s.manifests
  }

  predicate SomeStale(ms: seq<ManifestId>, tags: set<string>) {
    exists m :: m in ms && m.tag in tags
  }

  /** The manifests removed, by their own path. */
  function Removed(ms: seq<ManifestId>, tags: set<string>, stuck: set<ManifestId>): nat {
    if ms == [] then 0 else
      var m := ms[|ms|-1];
      Removed(ms[..|ms|-1], tags, stuck) + if m.tag in tags && m !in stuck then 1 else 0
  }

  /** A bucket: files that can be listed and deleted, manifests that can be read. */
  class Bucket {
    var files: map<File, Content>
    var manifests: map<ManifestId, Index>

    function S(): Store
      reads this
    {
      Store(files, manifests)
    }

    /** Adds all that the index lists. */
    method AddIndex(fs: FileSet, m: ManifestId)
      requires m in manifests
      modifies fs
      ensures fs.Files() == old(fs.Files()) + ListedPaths(m.node.place, manifests[m]) + ScyllaPaths(m.node.place, manifests[m])
    {
      var ix := manifests[m];
      ghost var place, listed, scylla: set<Path> := m.node.place, {}, {};
      for i := 0 to |ix|
        invariant fs.Files() == old(fs.Files()) + listed + scylla
        invariant listed == ListedPaths(place, ix[..i]) && scylla == ScyllaPaths(place, ix[..i])
      {
        AddMeta(fs, m.node.place, ix[i]);
        ListedSnoc(place, ix, i);
        UnionOrder(old(fs.Files()), listed, scylla, ListedIn(place, ix[i]), ScyllaIn(place, ix[i]));
        listed, scylla := listed + ListedIn(place, ix[i]), scylla + ScyllaIn(place, ix[i]);
      }
      assert ix[..|ix|] == ix;
    }

    method AddMeta(fs: FileSet, place: Place, fm: FilesMeta)
      modifies fs
      ensures fs.Files() == old(fs.Files()) + ListedIn(place, fm) + ScyllaIn(place, fm)
    {
      fs.AddFiles(Dir(place, fm.table), fm.files);
      fs.AddFiles(Dir(place, fm.table), fm.scyllaManifests);
    }

    method RemoveIndex(fs: FileSet, m: ManifestId)
      requires m in manifests
      modifies fs
      ensures fs.Files() == old(fs.Files()) - ListedPaths(m.node.place, manifests[m])
    {
      var ix := manifests[m];
      for i := 0 to |ix|
        invariant fs.Files() == old(fs.Files()) - ListedPaths(m.node.place, ix[..i])
      {
        fs.RemoveFiles(Dir(m.node.place, ix[i].table), ix[i].files);
        ListedSnoc(m.node.place, ix, i);
      }
      assert ix[..|ix|] == ix;
    }

    /** The first loop: all that stale manifests list; their number. */
    method CollectStale(ms: seq<ManifestId>, tags: set<string>) returns (fs: FileSet, stale: nat, ok: bool)
      ensures fresh(fs)
      ensures ok <==> forall m :: m in ms && m.tag in tags ==> m in manifests
      ensures stale > 0 <==> SomeStale(ms, tags)
      ensures ok ==> forall f :: f in fs.Files() <==> StaleLists(S(), Ids(ms), tags, f)
    {
      fs := new FileSet();
      stale, ok := 0, true;
      for i := 0 to |ms|
        invariant fresh(fs)
        invariant forall m :: m in ms[..i] && m.tag in tags ==> m in manifests
        invariant stale > 0 <==> SomeStale(ms[..i], tags)
        invariant forall f :: f in fs.Files() <==> StaleLists(S(), Ids(ms[..i]), tags, f)
      {
        assert ms[..i+1] == ms[..i] + [ms[i]];
        StaleListsSnoc(S(), ms[..i], ms[i], tags);
        if ms[i].tag in tags {
          stale := stale + 1;
          if ms[i] !in manifests {
            ok := false;
            assert ms[i] in ms;
            return;
          }
          AddIndex(fs, ms[i]);
        }
      }
      assert ms[..|ms|] == ms;
    }

    /** The second loop: what kept manifests list is taken out again. */
    method KeepListed(fs: FileSet, ms: seq<ManifestId>, tags: set<string>) returns (ok: bool)
      modifies fs
      ensures ok <==> forall m :: m in ms && m.tag !in tags ==> m in manifests
      ensures ok ==> forall f :: f in fs.Files() <==> f in old(fs.Files()) && !KeptLists(S(), Ids(ms), tags, f)
    {
      ok := true;
      for i := 0 to |ms|
        invariant forall m :: m in ms[..i] && m.tag !in tags ==> m in manifests
        invariant forall f :: f in fs.Files() <==> f in old(fs.Files()) && !KeptLists(S(), Ids(ms[..i]), tags, f)
      {
        assert ms[..i+1] == ms[..i] + [ms[i]];
        KeptListsSnoc(S(), ms[..i], ms[i], tags);
        if ms[i].tag !in tags {
          if ms[i] !in manifests {
            ok := false;
            assert ms[i] in ms;
            return;
          }
          RemoveIndex(fs, ms[i]);
        }
      }
      assert ms[..|ms|] == ms;
    }

    /** Versions below the node's directory that no kept snapshot needs; without a kept snapshot none is looked
        for. */
    method AddOldVersions(fs: FileSet, node: Node, oldest: Option<nat>)
      modifies fs
      ensures forall p :: p in fs.Files() <==>
                p in old(fs.Files()) || (At(node.location, p) in files && OldVersion(node.place, oldest, p))
    {
      if oldest.None? {
        return;
      }
      var todo := set f | f in files.Keys && f.dir.node == node :: PathOf(f);
      ghost var all := todo;
      ListedBelow(files, node, all);
      while todo != {}
        invariant todo <= all
        invariant forall p :: p in fs.Files() <==>
                    p in old(fs.Files()) || (p in all && p !in todo && OldVersion(node.place, oldest, p))
        decreases |todo|
      {
        var p :| p in todo;
        todo := todo - {p};
        var removable := IsVersionedFileRemovable(oldest.value, p.name);
        if removable == Ok(true) {
          fs.AddFiles(p.dir, [p.name]);
          assert FilesIn(p.dir, ToSet([p.name])) == {p};
        }
      }
    }

    /** Deletes the named files of a remote directory, but for those whose deletion fails; how many it found. */
    method DeletePaths(location: string, dir: Dir, names: set<string>, fails: set<File>) returns (ok: bool, n: nat)
      modifies this`files
      ensures files == old(files) - (Remote(location, FilesIn(dir, names)) - fails)
      ensures ok <==> Remote(location, FilesIn(dir, names)) * fails == {}
      ensures n == |(Remote(location, FilesIn(dir, names)) - fails) * old(files.Keys)|
    {
      var there := set name | name in names :: At(location, Path(dir, name));
      RemoteFiles(location, dir, names, there);
      n := |(there - fails) * files.Keys|;
      files := files - (there - fails);
      ok := there * fails == {};
    }

    /** deleteFiles, directory by directory; a directory that fails does not stop the others.  The number is
        that of the files found and deleted in the directories that did not fail. */
    method DeleteFiles(location: string, fs: FileSet, fails: set<File>) returns (ok: bool, n: nat)
      modifies this`files, fs
      ensures fs.Files() == old(fs.Files())
      ensures files == old(files) - (Remote(location, fs.Files()) - fails)
      ensures ok <==> Remote(location, fs.Files()) * fails == {}
      ensures n == |Deleted(old(files.Keys), Remote(location, fs.Files()), fails)|
      ensures ok ==> n == |Remote(location, fs.Files()) * old(files.Keys)|
    {
      var ds := fs.Dirs();
      ok, n := true, 0;
      ghost var start, done: set<Path>, there: set<File> := files, {}, {};
      NoneDeleted(files, fails);
      for i := 0 to |ds|
        invariant fs.Files() == old(fs.Files())
        invariant forall p :: p in done <==> p in fs.Files() && p.dir in ds[..i]
        invariant there == Remote(location, done)
        invariant DeletedBy(start, files, there, fails, ok, n)
      {
        var names := fs.DirSet(ds[i]);
        ghost var more := FilesIn(ds[i], names);
        MoreDone(fs.Files(), ds, i, done, more);
        RemotePlus(location, done, more, ds[i]);
        ok, n := DeleteDir(location, ds[i], names, fails, ok, n, start, there);
        done, there := done + more, there + Remote(location, more);
      }
      assert ds[..|ds|] == ds;
      assert done == fs.Files();
      if ok {
        AllDeleted(start.Keys, there, fails);
      }
    }

    method DeleteDir(location: string, dir: Dir, names: set<string>, fails: set<File>, ok: bool, n: nat,
                     ghost start: map<File, Content>, ghost there: set<File>)
      returns (ok': bool, n': nat)
      requires DeletedBy(start, files, there, fails, ok, n)
      requires forall f :: f in there ==> f.dir != NodeDir(Node(location, dir.place), dir.table)
      modifies this`files
      ensures DeletedBy(start, files, there + Remote(location, FilesIn(dir, names)), fails, ok', n')
    {
      ghost var before := files;
      var deleted, found := DeletePaths(location, dir, names, fails);
      OneMoreDir(start, before, files, there, Remote(location, FilesIn(dir, names)),
                 NodeDir(Node(location, dir.place), dir.table), fails, ok, n, deleted, found);
      ok' := ok && deleted;
      n' := n + if deleted then found else 0;
    }

    method DeleteManifest(m: ManifestId, stuck: set<ManifestId>) returns (ok: bool)
      modifies this`manifests
      ensures ok <==> m !in stuck
      ensures manifests == if ok then old(manifests) - {m} else old(manifests)
    {
      ok := m !in stuck;
      if ok {
        manifests := manifests - {m};
      }
    }

    /** The last loop; a manifest that cannot be removed is skipped. */
    method DeleteManifests(ms: seq<ManifestId>, tags: set<string>, stuck: set<ManifestId>) returns (deleted: nat)
      modifies this`manifests
      ensures manifests.Keys <= old(manifests.Keys)
      ensures forall id :: id in manifests ==> manifests[id] == old(manifests)[id]
      ensures forall id :: id in old(manifests) ==> (id !in manifests <==> StaleManifest(Ids(ms), tags, id) && id !in stuck)
      ensures deleted == Removed(ms, tags, stuck)
    {
      deleted := 0;
      for i := 0 to |ms|
        invariant manifests.Keys <= old(manifests.Keys)
        invariant forall id :: id in manifests ==> manifests[id] == old(manifests)[id]
        invariant forall id :: id in old(manifests) ==>
                    (id !in manifests <==> StaleManifest(Ids(ms[..i]), tags, id) && id !in stuck)
        invariant deleted == Removed(ms[..i], tags, stuck)
      {
        assert ms[..i+1] == ms[..i] + [ms[i]];
        StaleManifestSnoc(ms[..i], ms[i], tags);
        if ms[i].tag in tags {
          if !ms[i].temporary {
            var _ := DeleteManifest(Shadow(ms[i]), stuck);
          }
          var ok := DeleteManifest(ms[i], stuck);
          if ok {
            deleted := deleted + 1;
          }
        }
      }
      assert ms[..|ms|] == ms;
    }

    /** PurgeSnapshotTags on the manifests of one node ID, which may lie in several locations.  `fails` are the
        files and `stuck` the manifests whose deletion fails; all of them from some point on is a purge
        interrupted there. */
    method PurgeSnapshotTags(
      ms: seq<ManifestId>, tags: set<string>, oldest: Option<nat>, fails: set<File>, stuck: set<ManifestId>)
      returns (r: Result<nat>)
      modifies this
      ensures !SomeStale(ms, tags) ==> r == Ok(0) && S() == old(S())
      ensures SomeStale(ms, tags) && !AllStored(old(S()), ms) ==> r == Err && S() == old(S())
      ensures SomeStale(ms, tags) && AllStored(old(S()), ms) ==>
                && (forall f :: f in files <==>
                      f in old(files) && (ToDelete(old(S()), ms[0].node, Ids(ms), tags, oldest, f) ==> f in fails))
                && (r.Err? ==> manifests == old(manifests))
                && (r.Ok? ==> forall f :: ToDelete(old(S()), ms[0].node, Ids(ms), tags, oldest, f) ==> f !in fails)
                && (r.Ok? ==> forall id :: id in manifests <==>
                      id in old(manifests) && (StaleManifest(Ids(ms), tags, id) ==> id in stuck))
                && (r.Ok? ==> forall m :: m in ms && m.tag in tags && m !in stuck ==> m !in manifests)
                && (r.Ok? ==> forall m :: m in ms && m.tag in tags && m.(temporary := true) !in stuck ==>
                      m.(temporary := true) !in manifests)
                && (forall id :: id in old(manifests) && id !in manifests ==>
                      exists m :: m in ms && m.tag in tags && (id == m || id == m.(temporary := true)))
                && (r.Ok? ==> r.value == Removed(ms, tags, stuck))
                && (fails == {} ==> r.Ok?)
      ensures SomeStale(ms, tags) && r.Ok? && oldest.Some? ==>
                forall f, name, version :: f in files && f.dir.node == ms[0].node && DatedUpTo(version, oldest.value) ==>
                  f.name != FullNameOf(name, version)
      ensures ms != [] ==> PurgedTo(old(S()), ms[0].node, Ids(ms), tags, oldest, S())
    {
      if |ms| == 0 {
        return Ok(0);
      }
      var fs, stale, ok := ComputeFiles(ms, tags, oldest);
      if !ok {
        return Err;
      }
      if !stale {
        return Ok(0);
      }
      ghost var s, all := S(), fs.Files();
      r := DeleteAll(ms[0].node.location, fs, ms, tags, fails, stuck);
      PurgeOutcome(s, ms, tags, oldest, Remote(ms[0].node.location, all), fails, S());
      if r.Ok? && oldest.Some? {
        NoOldVersionBehind(s, ms, tags, oldest, fails, files);
      }
    }

    /** The part of the purge that deletes: the files, and the manifests when no file is left. */
    method DeleteAll(location: string, fs: FileSet, ms: seq<ManifestId>, tags: set<string>, fails: set<File>,
                     stuck: set<ManifestId>)
      returns (r: Result<nat>)
      modifies this, fs
      ensures files == old(files) - (Remote(location, old(fs.Files())) - fails)
      ensures r.Ok? <==> Remote(location, old(fs.Files())) * fails == {}
      ensures manifests.Keys <= old(manifests.Keys)
      ensures forall id :: id in manifests ==> manifests[id] == old(manifests)[id]
      ensures r.Err? ==> manifests == old(manifests)
      ensures r.Ok? ==> forall id :: id in old(manifests) ==>
                (id !in manifests <==> StaleManifest(Ids(ms), tags, id) && id !in stuck)
      ensures r.Ok? ==> r.value == Removed(ms, tags, stuck)
    {
      var ok, _ := DeleteFiles(location, fs, fails);
      if !ok {
        return Err;
      }
      var n := DeleteManifests(ms, tags, stuck);
      r := Ok(n);
    }

    /** The part of the purge that only reads. */
    method ComputeFiles(ms: seq<ManifestId>, tags: set<string>, oldest: Option<nat>)
      returns (fs: FileSet, stale: bool, ok: bool)
      requires ms != []
      ensures fresh(fs)
      ensures ok && stale ==> SomeStale(ms, tags) && AllStored(S(), ms)
      ensures ok && !stale ==> !SomeStale(ms, tags)
      ensures !ok ==> SomeStale(ms, tags) && !AllStored(S(), ms)
      ensures ok && stale ==> forall p :: p in fs.Files() <==> Computed(S(), ms[0].node, Ids(ms), tags, oldest, p)
    {
      var n;
      fs, n, ok := CollectStale(ms, tags);
      stale := n > 0;
      if ok && stale {
        ok := KeepListed(fs, ms, tags);
        if ok {
          AddOldVersions(fs, ms[0].node, oldest);
        }
      }
    }
  }

  lemma NoOldVersionBehind(
    s: Store, ms: seq<ManifestId>, tags: set<string>, oldest: Option<nat>, fails: set<File>, files: map<File, Content>)
    requires ms != [] && oldest.Some?
    requires forall f :: f in files ==>
               f in s.files && (ToDelete(s, ms[0].node, Ids(ms), tags, oldest, f) ==> f in fails)
    requires forall f :: ToDelete(s, ms[0].node, Ids(ms), tags, oldest, f) ==> f !in fails
    ensures forall f, name, version :: f in files && f.dir.node == ms[0].node && DatedUpTo(version, oldest.value) ==>
              f.name != FullNameOf(name, version)
  {
    forall f, name, version | f in files && f.dir.node == ms[0].node && DatedUpTo(version, oldest.value)
      ensures f.name != FullNameOf(name, version)
    {
      VersionsDeleted(s, ms[0].node, Ids(ms), tags, oldest, f, name, version);
    }
  }

  /** The number of removed manifests, for a list that names none twice. */
  lemma {:induction false} RemovedCounts(ms: seq<ManifestId>, tags: set<string>, stuck: set<ManifestId>)
    requires forall i, j :: 0 <= i < j < |ms| ==> ms[i] != ms[j]
    ensures Removed(ms, tags, stuck) == |set m | m in ms && m.tag in tags && m !in stuck|
  {
    if ms != [] {
      var front, last := ms[..|ms|-1], ms[|ms|-1];
      RemovedCounts(front, tags, stuck);
      assert ms == front + [last];
      var before := set m | m in front && m.tag in tags && m !in stuck;
      var all := set m | m in ms && m.tag in tags && m !in stuck;
      assert all == before + if last.tag in tags && last !in stuck then {last} else {};
    }
  }

  // ---------- Counting deletions ----------

  /** The stored files of `there` in directories where no deletion fails. */
  ghost function Deleted(stored: set<File>, there: set<File>, fails: set<File>): (s: set<File>)
    ensures forall f :: f in s <==> f in stored && f in there && !DirFails(there, fails, f.dir)
  {
    set f | f in stored && f in there && !DirFails(there, fails, f.dir)
  }

  ghost predicate DirFails(there: set<File>, fails: set<File>, dir: NodeDir) {
    exists g :: g in there && g in fails && g.dir == dir
  }

  lemma AllDeleted(stored: set<File>, there: set<File>, fails: set<File>)
    requires there * fails == {}
    ensures Deleted(stored, there, fails) == there * stored
  {
    forall f | f in there ensures !DirFails(there, fails, f.dir) {
      assert forall g :: g in there && g in fails ==> g in there * fails;
    }
  }

  lemma NoneDeleted(start: map<File, Content>, fails: set<File>)
    ensures DeletedBy(start, start, {}, fails, true, 0)
  {
    assert Deleted(start.Keys, {}, fails) == {};
  }

  lemma MoreDone(all: set<Path>, ds: seq<Dir>, i: nat, done: set<Path>, more: set<Path>)
    requires i < |ds| && forall j, k :: 0 <= j < k < |ds| ==> ds[j] != ds[k]
    requires forall p :: p in done <==> p in all && p.dir in ds[..i]
    requires forall p :: p in more <==> p in all && p.dir == ds[i]
    ensures forall p :: p in done + more <==> p in all && p.dir in ds[..i+1]
    ensures forall p :: p in done ==> p.dir != ds[i]
  {
    assert ds[..i+1] == ds[..i] + [ds[i]];
  }

  lemma RemotePlus(location: string, done: set<Path>, more: set<Path>, dir: Dir)
    requires forall p :: p in done ==> p.dir != dir
    ensures Remote(location, done + more) == Remote(location, done) + Remote(location, more)
    ensures forall f :: f in Remote(location, done) ==> f.dir != NodeDir(Node(location, dir.place), dir.table)
  {
    forall f | f in Remote(location, done) ensures f.dir != NodeDir(Node(location, dir.place), dir.table) {
      assert PathOf(f).dir != dir;
    }
  }

  lemma RemoteFiles(location: string, dir: Dir, names: set<string>, there: set<File>)
    requires there == set name | name in names :: At(location, Path(dir, name))
    ensures there == Remote(location, FilesIn(dir, names))
  {
    forall f | f in Remote(location, FilesIn(dir, names)) ensures f in there {
      assert f == At(location, Path(dir, f.name));
    }
  }

  /** The deletion of `there` has come to this. */
  ghost predicate DeletedBy(
    start: map<File, Content>, now: map<File, Content>, there: set<File>, fails: set<File>, ok: bool, n: nat)
  {
    && now == start - (there - fails)
    && (ok <==> there * fails == {})
    && n == |Deleted(start.Keys, there, fails)|
  }

  /** Deleting one directory more. */
  lemma OneMoreDir(
    start: map<File, Content>, before: map<File, Content>, now: map<File, Content>, there: set<File>, here: set<File>,
    dir: NodeDir, fails: set<File>, ok: bool, n: nat, deleted: bool, found: nat)
    requires DeletedBy(start, before, there, fails, ok, n)
    requires forall f :: f in there ==> f.dir != dir
    requires forall f :: f in here ==> f.dir == dir
    requires now == before - (here - fails) && (deleted <==> here * fails == {}) && found == |(here - fails) * before.Keys|
    ensures DeletedBy(start, now, there + here, fails, ok && deleted, n + if deleted then found else 0)
  {
    assert there !! here;
    MapMinusTwice(start, there, here, fails);
    DeletedOneMore(start.Keys, there, here, fails, dir);
    SetsMeet(there, here, fails);
  }

  lemma MapMinusTwice(start: map<File, Content>, there: set<File>, here: set<File>, fails: set<File>)
    requires there !! here
    ensures
      var before := start - (there - fails);
      && before - (here - fails) == start - (there + here - fails)
      && (here - fails) * before.Keys == (here - fails) * start.Keys
  {
  }

  lemma SetsMeet(a: set<File>, b: set<File>, c: set<File>)
    ensures (a + b) * c == {} <==> a * c == {} && b * c == {}
  {
    assert (a + b) * c == a * c + b * c;
  }

  lemma DeletedOneMore(stored: set<File>, before: set<File>, here: set<File>, fails: set<File>, dir: NodeDir)
    requires forall f :: f in here ==> f.dir == dir
    requires forall f :: f in before ==> f.dir != dir
    ensures |Deleted(stored, before + here, fails)| ==
              |Deleted(stored, before, fails)| + if here * fails == {} then |(here - fails) * stored| else 0
  {
    forall f | f in before ensures DirFails(before + here, fails, f.dir) <==> DirFails(before, fails, f.dir) {
      assert forall g :: g in before + here && g.dir == f.dir ==> g in before;
    }
    var more := if here * fails == {} then (here - fails) * stored else {};
    forall f | f in here ensures DirFails(before + here, fails, f.dir) <==> here * fails != {} {
      assert forall g :: g in here * fails <==> g in before + here && g in fails && g.dir == dir;
    }
    assert Deleted(stored, before + here, fails) == Deleted(stored, before, fails) + more;
    assert Deleted(stored, before, fails) !! more;
  }

  /** The listing of versions below the node's directory, as paths. */
  lemma ListedBelow(files: map<File, Content>, node: Node, all: set<Path>)
    requires all == set f | f in files.Keys && f.dir.node == node :: PathOf(f)
    ensures forall p :: p in all <==> p.dir.place == node.place && At(node.location, p) in files
  {
    forall p: Path | p.dir.place == node.place && At(node.location, p) in files ensures p in all {
      var f := At(node.location, p);
      assert f in files.Keys && f.dir.node == node && PathOf(f) == p;
    }
    forall p | p in all ensures p.dir.place == node.place && At(node.location, p) in files {
      var f :| f in files.Keys && f.dir.node == node && PathOf(f) == p;
      assert At(node.location, p) == f;
    }
  }

  /** What the deletions come to, told from the computed set of files. */
  lemma PurgeOutcome(s: Store, ms: seq<ManifestId>, tags: set<string>, oldest: Option<nat>,
                     all: set<File>, fails: set<File>, s': Store)
    requires ms != []
    requires forall f :: f in all <==> ToDelete(s, ms[0].node, Ids(ms), tags, oldest, f)
    requires s'.files == s.files - (all - fails)
    requires s'.manifests.Keys <= s.manifests.Keys
    requires forall id :: id in s'.manifests ==> s'.manifests[id] == s.manifests[id]
    requires forall id :: id in s.manifests && id !in s'.manifests ==> StaleManifest(Ids(ms), tags, id)
    requires s'.manifests != s.manifests ==> all * fails == {}
    ensures PurgedTo(s, ms[0].node, Ids(ms), tags, oldest, s')
    ensures forall f :: f in s'.files <==>
              f in s.files && (ToDelete(s, ms[0].node, Ids(ms), tags, oldest, f) ==> f in fails)
    ensures all * fails == {} ==> forall f :: ToDelete(s, ms[0].node, Ids(ms), tags, oldest, f) ==> f !in fails
    ensures fails == {} ==> all * fails == {}
  {
    forall f | f in all && all * fails == {} ensures f !in fails {
      assert f in fails ==> f in all * fails;
    }
  }

  lemma UnionOrder<T>(a: set<T>, b: set<T>, c: set<T>, d: set<T>, e: set<T>)
    ensures a + b + c + d + e == a + (b + d) + (c + e)
  {
  }

  lemma ListedSnoc(place: Place, ix: Index, i: nat)
    requires i < |ix|
    ensures ListedPaths(place, ix[..i+1]) == ListedPaths(place, ix[..i]) + ListedIn(place, ix[i])
    ensures ScyllaPaths(place, ix[..i+1]) == ScyllaPaths(place, ix[..i]) + ScyllaIn(place, ix[i])
  {
    assert ix[..i+1][..i] == ix[..i];
  }

  lemma StaleListsSnoc(s: Store, ms: seq<ManifestId>, m: ManifestId, tags: set<string>)
    ensures forall f :: StaleLists(s, Ids(ms + [m]), tags, f) <==>
              || StaleLists(s, Ids(ms), tags, f)
              || (m.tag in tags && m in s.manifests && f in ListedPaths(m.node.place, s.manifests[m]) + ScyllaPaths(m.node.place, s.manifests[m]))
  {
    forall f ensures StaleLists(s, Ids(ms), tags, f) ==> StaleLists(s, Ids(ms + [m]), tags, f) {
      if StaleLists(s, Ids(ms), tags, f) {
        var k :| k in Ids(ms) && k.tag in tags && k in s.manifests
                 && f in ListedPaths(k.node.place, s.manifests[k]) + ScyllaPaths(k.node.place, s.manifests[k]);
        assert k in Ids(ms + [m]);
      }
    }
    assert m in Ids(ms + [m]);
  }

  lemma KeptListsSnoc(s: Store, ms: seq<ManifestId>, m: ManifestId, tags: set<string>)
    ensures forall f :: KeptLists(s, Ids(ms + [m]), tags, f) <==>
              || KeptLists(s, Ids(ms), tags, f)
              || (m.tag !in tags && m in s.manifests && f in ListedPaths(m.node.place, s.manifests[m]))
  {
    forall f ensures KeptLists(s, Ids(ms), tags, f) ==> KeptLists(s, Ids(ms + [m]), tags, f) {
      if KeptLists(s, Ids(ms), tags, f) {
        var k :| k in Ids(ms) && k.tag !in tags && k in s.manifests && f in ListedPaths(k.node.place, s.manifests[k]);
        assert k in Ids(ms + [m]);
      }
    }
    assert m in Ids(ms + [m]);
  }

  lemma StaleManifestSnoc(ms: seq<ManifestId>, m: ManifestId, tags: set<string>)
    ensures forall id :: StaleManifest(Ids(ms + [m]), tags, id) <==>
              StaleManifest(Ids(ms), tags, id) || (m.tag in tags && (id == m || id == Shadow(m)))
  {
    forall id ensures StaleManifest(Ids(ms), tags, id) ==> StaleManifest(Ids(ms + [m]), tags, id) {
      if StaleManifest(Ids(ms), tags, id) {
        var k :| k in Ids(ms) && k.tag in tags && (id == k || id == Shadow(k));
        assert k in Ids(ms + [m]);
      }
    }
    assert m in Ids(ms + [m]);
  }
}
