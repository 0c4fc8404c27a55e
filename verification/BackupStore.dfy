/** The remote store of backups, and what purging the snapshot tags of a node may do to it. */
module BackupStore {
  import opened Wrappers
  import opened Versioning
  import opened FileSets

  /** What a file holds, of which only equality matters. */
  type Content = nat

  /** A node as it is backed up to a location. */
  datatype Node = Node(location: string, place: Place)

  datatype NodeDir = NodeDir(node: Node, table: string)

  /** A remote file: a path in a location. */
  datatype File = File(dir: NodeDir, name: string)

  function PathOf(f: File): Path {
    Path(Dir(f.dir.node.place, f.dir.table), f.name)
  }

  /** Location.RemotePath */
  function At(location: string, p: Path): (f: File)
    ensures PathOf(f) == p && f.dir.node == Node(location, p.dir.place)
  {
    File(NodeDir(Node(location, p.dir.place), p.dir.table), p.name)
  }

  /** The paths, all in one location. */
  ghost function Remote(location: string, ps: set<Path>): (s: set<File>)
    ensures forall f :: f in s <==> f.dir.node.location == location && PathOf(f) in ps
  {
    var s := set p | p in ps :: At(location, p);
    assert forall f: File :: f == At(f.dir.node.location, PathOf(f));
    s
  }

  /** ManifestInfo, which stands for the path of the manifest in its location. */
  datatype ManifestId = ManifestId(node: Node, task: string, tag: string, temporary: bool)

  /** The files of one table version, from the index of a manifest. */
  datatype FilesMeta = FilesMeta(table: string, files: seq<string>, scyllaManifests: seq<string>)

  type Index = seq<FilesMeta>

  datatype Store = Store(files: map<File, Content>, manifests: map<ManifestId, Index>)

  ghost function ListedIn(place: Place, fm: FilesMeta): (s: set<Path>)
    ensures forall p :: p in s <==> p.dir == Dir(place, fm.table) && p.name in fm.files
  {
    FilesIn(Dir(place, fm.table), ToSet(fm.files))
  }

  ghost function ScyllaIn(place: Place, fm: FilesMeta): (s: set<Path>)
    ensures forall p :: p in s <==> p.dir == Dir(place, fm.table) && p.name in fm.scyllaManifests
  {
    FilesIn(Dir(place, fm.table), ToSet(fm.scyllaManifests))
  }

  /** The SSTable files that an index lists. */
  ghost function ListedPaths(place: Place, ix: Index): (s: set<Path>)
    ensures forall p :: p in s <==> exists fm :: fm in ix && p in ListedIn(place, fm)
  {
    if ix == [] then {} else
      var last := ix[|ix|-1];
      assert ix == ix[..|ix|-1] + [last];
      ListedPaths(place, ix[..|ix|-1]) + ListedIn(place, last)
  }

  ghost function ScyllaPaths(place: Place, ix: Index): (s: set<Path>)
    ensures forall p :: p in s <==> exists fm :: fm in ix && p in ScyllaIn(place, fm)
  {
    if ix == [] then {} else
      var last := ix[|ix|-1];
      assert ix == ix[..|ix|-1] + [last];
      ScyllaPaths(place, ix[..|ix|-1]) + ScyllaIn(place, last)
  }

  /** The same as files in the location of the manifest. */
  ghost function Listed(node: Node, ix: Index): (s: set<File>)
    ensures forall f :: f in s <==> f.dir.node.location == node.location && PathOf(f) in ListedPaths(node.place, ix)
  {
    Remote(node.location, ListedPaths(node.place, ix))
  }

  ghost function Scylla(node: Node, ix: Index): (s: set<File>)
    ensures forall f :: f in s <==> f.dir.node.location == node.location && PathOf(f) in ScyllaPaths(node.place, ix)
  {
    Remote(node.location, ScyllaPaths(node.place, ix))
  }

  // ---------- What a purge of one node deletes ----------

  /** A stale manifest lists the path, as an SSTable file or a Scylla manifest. */
  ghost predicate StaleLists(s: Store, ms: set<ManifestId>, tags: set<string>, p: Path) {
    exists m :: m in ms && m.tag in tags && m in s.manifests
                && p in ListedPaths(m.node.place, s.manifests[m]) + ScyllaPaths(m.node.place, s.manifests[m])
  }

  ghost predicate KeptLists(s: Store, ms: set<ManifestId>, tags: set<string>, p: Path) {
    exists m :: m in ms && m.tag !in tags && m in s.manifests && p in ListedPaths(m.node.place, s.manifests[m])
  }

  /** A version that no kept snapshot can need. */
  predicate OldVersion(place: Place, oldest: Option<nat>, p: Path) {
    oldest.Some? && p.dir.place == place && IsVersionedFileRemovable(oldest.value, p.name) == Ok(true)
  }

  /** The path is in the set that a purge computes.  The manifests `ms` are of one node ID; `any` is the node of
      the first of them, whose location is listed for versions. */
  ghost predicate Computed(s: Store, any: Node, ms: set<ManifestId>, tags: set<string>, oldest: Option<nat>, p: Path) {
    || (StaleLists(s, ms, tags, p) && !KeptLists(s, ms, tags, p))
    || (At(any.location, p) in s.files && OldVersion(any.place, oldest, p))
  }

  /** The computed set is deleted in the location of `any`, wherever the manifests lie. */
  ghost predicate ToDelete(s: Store, any: Node, ms: set<ManifestId>, tags: set<string>, oldest: Option<nat>, f: File) {
    f.dir.node.location == any.location && Computed(s, any, ms, tags, oldest, PathOf(f))
  }

  /** What is deleted: files that stale manifests list and no kept one, and the versions of the first node's files that
      are dated and not later than the oldest kept tag. */
  lemma ToDeleteExact(s: Store, any: Node, ms: set<ManifestId>, tags: set<string>, oldest: Option<nat>, f: File)
    requires f in s.files
    ensures ToDelete(s, any, ms, tags, oldest, f) <==>
      || (f.dir.node.location == any.location && StaleLists(s, ms, tags, PathOf(f)) && !KeptLists(s, ms, tags, PathOf(f)))
      || (f.dir.node == any && oldest.Some?
          && exists name, version :: f.name == FullNameOf(name, version) && DatedUpTo(version, oldest.value))
  {
    assert f == At(f.dir.node.location, PathOf(f));
    if oldest.Some? {
      RemovableExact(oldest.value, f.name);
    }
  }

  /** So no such version is left. */
  lemma VersionsDeleted(
    s: Store, any: Node, ms: set<ManifestId>, tags: set<string>, oldest: Option<nat>, f: File, name: string,
    version: string)
    requires f in s.files && !ToDelete(s, any, ms, tags, oldest, f)
    requires oldest.Some? && f.dir.node == any && DatedUpTo(version, oldest.value)
    ensures f.name != FullNameOf(name, version)
  {
    ToDeleteExact(s, any, ms, tags, oldest, f);
  }

  /** The shadowed temporary manifest of a complete one. */
  function Shadow(m: ManifestId): ManifestId {
    m.(temporary := true)
  }

  /** Manifest files that a purge removes: the stale ones with their shadows, each from its own location. */
  ghost predicate StaleManifest(ms: set<ManifestId>, tags: set<string>, id: ManifestId) {
    exists m :: m in ms && m.tag in tags && (id == m || id == Shadow(m))
  }

  /** A purge run to the end or stopped at any point on the way: some of the computed files are gone, and
      manifests go, any of the stale ones, only when all those files are. */
  ghost predicate PurgedTo(
    s: Store, any: Node, ms: set<ManifestId>, tags: set<string>, oldest: Option<nat>, s': Store)
  {
    && s'.files.Keys <= s.files.Keys && s'.manifests.Keys <= s.manifests.Keys
    && (forall f :: f in s'.files ==> s'.files[f] == s.files[f])
    && (forall id :: id in s'.manifests ==> s'.manifests[id] == s.manifests[id])
    && (forall f :: f in s.files && f !in s'.files ==> ToDelete(s, any, ms, tags, oldest, f))
    && (forall id :: id in s.manifests && id !in s'.manifests ==> StaleManifest(ms, tags, id))
    && (s'.manifests != s.manifests ==> forall f :: f in s'.files ==> !ToDelete(s, any, ms, tags, oldest, f))
  }

  // ---------- Orphans ----------

  /** The manifest lists the file, in its own location. */
  ghost predicate Names(s: Store, k: ManifestId, f: File) {
    k in s.manifests && f in Listed(k.node, s.manifests[k]) + Scylla(k.node, s.manifests[k])
  }

  ghost predicate Named(s: Store, f: File) {
    exists k :: Names(s, k, f)
  }

  /** Every file still stored that an input manifest listed is still listed by a stored manifest. */
  ghost predicate NoneOrphaned(s: Store, ms: set<ManifestId>, s': Store) {
    forall m, f :: m in ms && Names(s, m, f) && f in s'.files ==> Named(s', f)
  }

  /** A manifest lists the file that the purge does not remove. */
  ghost predicate NamedBehind(s: Store, ms: set<ManifestId>, tags: set<string>, f: File) {
    exists k :: Names(s, k, f) && !StaleManifest(ms, tags, k)
  }

  /** A file that a stale manifest lists, and no manifest that stays, is not deleted: it lies in another location
      than the first manifest, or a kept manifest of the group lists its path for another location. */
  ghost predicate Stranded(s: Store, any: Node, ms: set<ManifestId>, tags: set<string>, oldest: Option<nat>, f: File) {
    && f in s.files && !NamedBehind(s, ms, tags, f)
    && (exists m :: m in ms && m.tag in tags && Names(s, m, f))
    && (f.dir.node.location != any.location
        || (ListedElsewhere(s, ms, tags, f) && !OldVersion(any.place, oldest, PathOf(f))))
  }

  ghost predicate ListedElsewhere(s: Store, ms: set<ManifestId>, tags: set<string>, f: File) {
    exists k :: k in ms && k.tag !in tags && k in s.manifests && k.node.location != f.dir.node.location
                && PathOf(f) in ListedPaths(k.node.place, s.manifests[k])
  }

  lemma NotStale(ms: set<ManifestId>, tags: set<string>, k: ManifestId)
    requires k.tag !in tags
    ensures !StaleManifest(ms, tags, k)
  {
  }

  lemma StaleNames(s: Store, ms: set<ManifestId>, tags: set<string>, m: ManifestId, f: File)
    requires m in ms && m.tag in tags && Names(s, m, f)
    ensures StaleLists(s, ms, tags, PathOf(f))
  {
  }

  /** What stays stored though only stale manifests list it is stranded. */
  lemma LeftIsStranded(
    s: Store, any: Node, ms: set<ManifestId>, tags: set<string>, oldest: Option<nat>, m: ManifestId, f: File)
    requires m in ms && m.tag in tags && Names(s, m, f) && f in s.files && !NamedBehind(s, ms, tags, f)
    ensures Stranded(s, any, ms, tags, oldest, f) <==> !ToDelete(s, any, ms, tags, oldest, f)
  {
    StaleNames(s, ms, tags, m, f);
    assert At(f.dir.node.location, PathOf(f)) == f;
    if KeptLists(s, ms, tags, PathOf(f)) {
      var k :| k in ms && k.tag !in tags && k in s.manifests && PathOf(f) in ListedPaths(k.node.place, s.manifests[k]);
      NotStale(ms, tags, k);
      assert k.node.location == f.dir.node.location ==> Names(s, k, f);
      assert ListedElsewhere(s, ms, tags, f);
    }
  }

  /** Wherever the purge stops, only stranded files become orphans. */
  lemma OrphansAreStranded(
    s: Store, any: Node, ms: set<ManifestId>, tags: set<string>, oldest: Option<nat>, s': Store, m: ManifestId, f: File)
    requires PurgedTo(s, any, ms, tags, oldest, s') && m in ms && Names(s, m, f) && f in s'.files
    ensures Named(s', f) || Stranded(s, any, ms, tags, oldest, f)
  {
    if m in s'.manifests {
      assert Names(s', m, f);
    } else if NamedBehind(s, ms, tags, f) {
      var k :| Names(s, k, f) && !StaleManifest(ms, tags, k);
      assert Names(s', k, f);
    } else {
      assert StaleManifest(ms, tags, m);
      LeftIsStranded(s, any, ms, tags, oldest, m, f);
    }
  }

  /** The store after the whole purge. */
  ghost function FullyPurged(s: Store, any: Node, ms: set<ManifestId>, tags: set<string>, oldest: Option<nat>): (s': Store)
    ensures PurgedTo(s, any, ms, tags, oldest, s')
    ensures forall f :: f in s'.files <==> f in s.files && !ToDelete(s, any, ms, tags, oldest, f)
    ensures forall id :: id in s'.manifests <==> id in s.manifests && !StaleManifest(ms, tags, id)
  {
    Store(map f | f in s.files && !ToDelete(s, any, ms, tags, oldest, f) :: s.files[f],
          map id | id in s.manifests && !StaleManifest(ms, tags, id) :: s.manifests[id])
  }

  /** The whole purge leaves no version of the node's files that is dated up to the oldest kept tag. */
  lemma NoOldVersionLeft(s: Store, any: Node, ms: set<ManifestId>, tags: set<string>, oldest: nat)
    ensures forall f, name, version ::
      f in FullyPurged(s, any, ms, tags, Some(oldest)).files && f.dir.node == any && DatedUpTo(version, oldest) ==>
        f.name != FullNameOf(name, version)
  {
    forall f, name, version |
      f in FullyPurged(s, any, ms, tags, Some(oldest)).files && f.dir.node == any && DatedUpTo(version, oldest)
      ensures f.name != FullNameOf(name, version)
    {
      VersionsDeleted(s, any, ms, tags, Some(oldest), f, name, version);
    }
  }

  lemma StrandedIsOrphaned(s: Store, any: Node, ms: set<ManifestId>, tags: set<string>, oldest: Option<nat>, f: File)
    requires Stranded(s, any, ms, tags, oldest, f)
    ensures !NoneOrphaned(s, ms, FullyPurged(s, any, ms, tags, oldest))
  {
    var s' := FullyPurged(s, any, ms, tags, oldest);
    var m :| m in ms && m.tag in tags && Names(s, m, f);
    LeftIsStranded(s, any, ms, tags, oldest, m, f);
    assert forall k :: Names(s', k, f) ==> Names(s, k, f) && !StaleManifest(ms, tags, k);
  }

  /** A purge leaves no orphan, wherever it stops, if and only if no file is stranded. */
  lemma NoOrphansExact(s: Store, any: Node, ms: set<ManifestId>, tags: set<string>, oldest: Option<nat>)
    ensures (forall s' :: PurgedTo(s, any, ms, tags, oldest, s') ==> NoneOrphaned(s, ms, s')) <==>
              forall f :: !Stranded(s, any, ms, tags, oldest, f)
  {
    if forall f :: !Stranded(s, any, ms, tags, oldest, f) {
      forall s' | PurgedTo(s, any, ms, tags, oldest, s') ensures NoneOrphaned(s, ms, s') {
        forall m, f | m in ms && Names(s, m, f) && f in s'.files ensures Named(s', f) {
          OrphansAreStranded(s, any, ms, tags, oldest, s', m, f);
        }
      }
    } else {
      var f :| Stranded(s, any, ms, tags, oldest, f);
      StrandedIsOrphaned(s, any, ms, tags, oldest, f);
    }
  }

  /** No file is stranded when all manifests lie in one location. */
  lemma NoOrphansInOneLocation(
    s: Store, any: Node, ms: set<ManifestId>, tags: set<string>, oldest: Option<nat>, s': Store)
    requires PurgedTo(s, any, ms, tags, oldest, s')
    requires forall m :: m in ms ==> m.node.location == any.location
    ensures NoneOrphaned(s, ms, s')
  {
    forall m, f | m in ms && Names(s, m, f) && f in s'.files ensures Named(s', f) {
      OrphansAreStranded(s, any, ms, tags, oldest, s', m, f);
      assert f.dir.node.location == any.location;
    }
  }

  /** A node backed up to two buckets, with both snapshots stale: the file in the second bucket stays behind. */
  lemma SecondBucketIsStranded(place: Place, tag: string) returns (s: Store, ms: set<ManifestId>, f: File)
    ensures var a, b := ManifestId(Node("s3:a", place), "t", tag, false), ManifestId(Node("s3:b", place), "t", tag, false);
      ms == {a, b} && ms <= s.manifests.Keys && Names(s, b, f) && Stranded(s, a.node, ms, {tag}, None, f)
  {
    var a, b := ManifestId(Node("s3:a", place), "t", tag, false), ManifestId(Node("s3:b", place), "t", tag, false);
    var fm := FilesMeta("ks/t/v", ["me-1-big-Data.db"], []);
    f := At("s3:b", Path(Dir(place, "ks/t/v"), "me-1-big-Data.db"));
    ms := {a, b};
    s := Store(map[f := 0], map[a := [], b := [fm]]);
    assert fm in s.manifests[b] && PathOf(f) in ListedIn(place, fm);
    assert Names(s, b, f);
    assert a != b && StaleManifest(ms, {tag}, a) && StaleManifest(ms, {tag}, b);
  }
}
