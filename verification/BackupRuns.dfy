/** Backups and purges as actions on the remote store, and what every action keeps. */
module BackupRuns {
  import opened Wrappers
  import opened Tags
  import opened Versioning
  import opened FileSets
  import opened BackupStore

  /** A snapshot of one node, with or without its manifest. */
  datatype SnapId = SnapId(node: Node, task: string, tag: string)

  function Key(m: ManifestId): SnapId {
    SnapId(m.node, m.task, m.tag)
  }

  /** The store, with what every snapshot taken so far held and which of its files were ever uploaded. */
  datatype World = World(
    store: Store,
    snaps: map<SnapId, map<File, Content>>,
    uploaded: map<SnapId, set<File>>
  )

  function Time(tag: string): nat {
    match SnapshotTagTime(tag)
    case Some(t) => t
    case None => 0
  }

  /** The file that keeps the content of `f` from before the backup with that tag. */
  function VersionFile(f: File, tag: string): File {
    File(f.dir, FullNameOf(f.name, tag))
  }

  // ---------- What restore reads ----------

  ghost predicate IsLater(files: map<File, Content>, f: File, t: nat, v: string) {
    SnapshotTagTime(v).Some? && SnapshotTagTime(v).value > t && VersionFile(f, v) in files
  }

  /** Restoring the snapshot of time `t` reads `c` for `f`: from the earliest later version, or else from the
      file itself. */
  ghost predicate Resolves(files: map<File, Content>, f: File, t: nat, c: Content) {
    if exists v :: IsLater(files, f, t, v) then
      exists v :: IsLater(files, f, t, v) && files[VersionFile(f, v)] == c
                  && forall u :: IsLater(files, f, t, u) ==> Time(v) <= Time(u)
    else f in files && files[f] == c
  }

  // ---------- Names ----------

  /** renameScyllaManifest */
  function ScyllaName(tag: string, id: string, name: string): string {
    "tag_" + tag + ("_node_" + id + "_" + name)
  }

  /** A Scylla manifest in the backup; SSTable names do not begin so. */
  predicate Tagged(name: string) {
    |name| >= 4 && name[..4] == "tag_"
  }

  predicate TaggedBy(tag: string, name: string) {
    Tagged(name) && |name| >= 24 && name[4..24] == tag
  }

  lemma ScyllaNameIsTagged(tag: string, id: string, name: string)
    requires |tag| == 20
    ensures TaggedBy(tag, ScyllaName(tag, id, name))
  {
  }

  /** SSTable and Scylla manifest names of an index, for a snapshot with the tag. */
  predicate FineNames(tag: string, ix: Index) {
    forall fm :: fm in ix ==>
      && (forall n :: n in fm.files ==> Plain(n) && !Tagged(n))
      && (forall n :: n in fm.scyllaManifests ==> Plain(n) && TaggedBy(tag, n))
  }

  // ---------- The steps ----------

  /** The tags of a node's backups strictly increase. */
  ghost predicate NewestTag(w: World, node: Node, tag: string) {
    && SnapshotTagTime(tag).Some?
    && forall k :: k in w.snaps && k.node == node ==> Time(k.tag) < Time(tag)
  }

  /** No later backup of the node has begun. */
  ghost predicate IsNewest(w: World, k: SnapId) {
    k in w.snaps && forall j :: j in w.snaps && j.node == k.node ==> Time(j.tag) <= Time(k.tag)
  }

  /** A snapshot with a tag newer than all others of its node may begin; and the newest one may begin again, when its
      manifest stage is resumed, before any of its SSTable files is uploaded or its manifest moved. */
  ghost predicate MayBegin(w: World, m: ManifestId) {
    || NewestTag(w, m.node, m.tag)
    || (IsNewest(w, Key(m)) && m.(temporary := false) !in w.store.manifests && Key(m) in w.uploaded
        && forall f :: f in w.uploaded[Key(m)] ==> Tagged(f.name))
  }

  /** The manifest stage: the temporary manifest of a snapshot is put. */
  ghost predicate Begin(w: World, m: ManifestId, ix: Index, contents: map<File, Content>, w': World) {
    && m.temporary && MayBegin(w, m)
    && FineNames(m.tag, ix) && contents.Keys == Listed(m.node, ix) + Scylla(m.node, ix)
    && w' == World(
               w.store.(manifests := w.store.manifests[m := ix]),
               w.snaps[Key(m) := contents], w.uploaded[Key(m) := {}])
  }

  /** The store after a file is uploaded: skipped when the same content is there, and what would be
      overwritten is renamed first. */
  function Put(files: map<File, Content>, f: File, c: Content, tag: string): map<File, Content> {
    if f in files && files[f] == c then files
    else if f in files then files[VersionFile(f, tag) := files[f]][f := c]
    else files[f := c]
  }

  ghost predicate Uploads(w: World, k: SnapId, f: File, files: map<File, Content>, w': World) {
    && k in w.snaps && k in w.uploaded && f in w.snaps[k]
    && w' == w.(store := w.store.(files := files), uploaded := w.uploaded[k := w.uploaded[k] + {f}])
  }

  /** The deduplicate and upload stages, file by file, of the newest backup of the node: again and again, and
      whatever became of its manifest. */
  ghost predicate Upload(w: World, k: SnapId, f: File, w': World) {
    && IsNewest(w, k) && f in w.snaps[k] && !Tagged(f.name)
    && Uploads(w, k, f, Put(w.store.files, f, w.snaps[k][f], k.tag), w')
  }

  /** An upload that stops half way: a file of other content is copied to its version and stays for now. */
  ghost predicate CopyAside(w: World, k: SnapId, f: File, w': World) {
    && Overwrites(w, k, f)
    && w' == w.(store := w.store.(files := w.store.files[VersionFile(f, k.tag) := w.store.files[f]]))
  }

  /** Or it goes as well, and the new file is not there yet. */
  ghost predicate RemoveAside(w: World, k: SnapId, f: File, w': World) {
    && Overwrites(w, k, f) && VersionFile(f, k.tag) in w.store.files
    && w' == w.(store := w.store.(files := w.store.files - {f}))
  }

  /** The upload of the file by the newest backup of the node would overwrite other content. */
  ghost predicate Overwrites(w: World, k: SnapId, f: File) {
    && IsNewest(w, k) && f in w.snaps[k] && !Tagged(f.name)
    && f in w.store.files && w.store.files[f] != w.snaps[k][f]
  }

  /** uploadScyllaManifests, one file. */
  ghost predicate UploadScylla(w: World, k: SnapId, f: File, w': World) {
    && k in w.snaps && f in w.snaps[k] && Tagged(f.name)
    && Uploads(w, k, f, w.store.files[f := w.snaps[k][f]], w')
  }

  /** The move manifest stage, whatever was uploaded; the temporary manifest stays when it is copied instead. */
  ghost predicate Finish(w: World, m: ManifestId, copy: bool, w': World) {
    && m in w.store.manifests && m.temporary
    && var ms := w.store.manifests[m.(temporary := false) := w.store.manifests[m]];
       w' == w.(store := w.store.(manifests := if copy then ms else ms - {m}))
  }

  /** The rollback of a manifest move. */
  ghost predicate Rollback(w: World, m: ManifestId, w': World) {
    && m in w.store.manifests && !m.temporary
    && w' == w.(store := w.store.(manifests := (w.store.manifests - {m})[Shadow(m) := w.store.manifests[m]]))
  }

  /** A bound on the tags that the node keeps. */
  ghost predicate OldestKept(s: Store, node: Node, tags: set<string>, oldest: Option<nat>) {
    oldest.Some? ==> forall m :: m in s.manifests && m.node == node && m.tag !in tags ==> oldest.value <= Time(m.tag)
  }

  predicate Shadowed(s: Store, m: ManifestId) {
    m.temporary && m.(temporary := false) in s.manifests
  }

  /** The group holds unshadowed manifests, perhaps of several locations, one of them of `any`, and all those in
      the location of `any` that share a place with one of them. */
  ghost predicate Group(s: Store, any: Node, ms: set<ManifestId>) {
    && (exists m :: m in ms && m.node == any)
    && (forall m :: m in ms ==> m in s.manifests && !Shadowed(s, m))
    && (forall m, k :: m in s.manifests && !Shadowed(s, m) && k in ms && m.node == Node(any.location, k.node.place) ==>
          m in ms)
  }

  /** A purge of one group for any set of tags, stopped anywhere or run to the end. */
  ghost predicate Purge(w: World, any: Node, ms: set<ManifestId>, tags: set<string>, oldest: Option<nat>, w': World) {
    && Group(w.store, any, ms)
    && OldestKept(w.store, any, tags, oldest)
    && PurgedTo(w.store, any, ms, tags, oldest, w'.store)
    && w' == w.(store := w'.store)
  }

  /** A validation that deletes orphans: newest files below the directory of `any` that no manifest of the group
      lists, all of them or some. */
  ghost predicate Drop(w: World, any: Node, ms: set<ManifestId>, gone: set<File>, w': World) {
    && Group(w.store, any, ms)
    && (forall f :: f in gone ==> f.dir.node == any && Plain(f.name) && !GroupLists(w.store, ms, PathOf(f)))
    && w' == w.(store := w.store.(files := w.store.files - gone))
  }

  ghost predicate GroupLists(s: Store, ms: set<ManifestId>, p: Path) {
    exists m :: m in ms && m in s.manifests && p in ListedPaths(m.node.place, s.manifests[m]) + ScyllaPaths(m.node.place, s.manifests[m])
  }

  datatype Action =
    | BeginBackup(m: ManifestId, ix: Index, contents: map<File, Content>)
    | UploadFile(k: SnapId, f: File)
    | CopyFileAside(k: SnapId, f: File)
    | RemoveFileAside(k: SnapId, f: File)
    | UploadScyllaFile(k: SnapId, f: File)
    | FinishBackup(m: ManifestId, copy: bool)
    | RollBackup(m: ManifestId)
    | PurgeGroup(any: Node, ms: set<ManifestId>, tags: set<string>, oldest: Option<nat>)
    | DropOrphans(any: Node, ms: set<ManifestId>, gone: set<File>)

  ghost predicate Act(w: World, a: Action, w': World) {
    match a
    case BeginBackup(m, ix, contents) => Begin(w, m, ix, contents, w')
    case UploadFile(k, f) => Upload(w, k, f, w')
    case CopyFileAside(k, f) => CopyAside(w, k, f, w')
    case RemoveFileAside(k, f) => RemoveAside(w, k, f, w')
    case UploadScyllaFile(k, f) => UploadScylla(w, k, f, w')
    case FinishBackup(m, copy) => Finish(w, m, copy, w')
    case RollBackup(m) => Rollback(w, m, w')
    case PurgeGroup(any, ms, tags, oldest) => Purge(w, any, ms, tags, oldest, w')
    case DropOrphans(any, ms, gone) => Drop(w, any, ms, gone, w')
  }

  /** The purge takes the snapshot as stale: its tag is among the tags, and a manifest of it in the group. */
  ghost predicate Picks(a: Action, k: SnapId) {
    a.PurgeGroup? && k.tag in a.tags && exists m :: m in a.ms && Key(m) == k
  }

  /** The snapshot begins, perhaps again. */
  predicate Begins(a: Action, k: SnapId) {
    a.BeginBackup? && Key(a.m) == k
  }

  // ---------- The invariant ----------

  ghost predicate FileFine(k: SnapId, f: File) {
    f.dir.node == k.node && Plain(f.name) && (Tagged(f.name) ==> TaggedBy(k.tag, f.name))
  }

  ghost predicate SnapsFine(w: World) {
    RecordsMatch(w) && FilesFine(w) && TagsUnique(w)
  }

  ghost predicate RecordsMatch(w: World) {
    && w.uploaded.Keys == w.snaps.Keys
    && (forall k :: k in w.snaps ==> SnapshotTagTime(k.tag).Some? && w.uploaded[k] <= w.snaps[k].Keys)
  }

  ghost predicate FilesFine(w: World) {
    forall k, f :: k in w.snaps && f in w.snaps[k] ==> FileFine(k, f)
  }

  ghost predicate TagsUnique(w: World) {
    forall j, k :: j in w.snaps && k in w.snaps && j.node == k.node && j.tag == k.tag ==> j == k
  }

  /** A manifest lists what its snapshot held. */
  ghost predicate ManifestFine(w: World, m: ManifestId)
    requires m in w.store.manifests
  {
    var ix, k := w.store.manifests[m], Key(m);
    && k in w.snaps && k in w.uploaded
    && (forall f :: f in Listed(m.node, ix) <==> f in w.snaps[k] && !Tagged(f.name))
    && (forall f :: f in Scylla(m.node, ix) <==> f in w.snaps[k] && Tagged(f.name))
  }

  /** A manifest with the index of a fine one, for a snapshot on record as before, is fine. */
  lemma StillFine(w: World, i: ManifestId, w': World, i': ManifestId)
    requires i in w.store.manifests && ManifestFine(w, i)
    requires i' in w'.store.manifests && w'.store.manifests[i'] == w.store.manifests[i]
    requires i'.node == i.node && Key(i') == Key(i)
    requires Key(i) in w'.snaps && w'.snaps[Key(i)] == w.snaps[Key(i)] && Key(i) in w'.uploaded
    ensures ManifestFine(w', i')
  {
  }

  ghost predicate ManifestsFine(w: World) {
    forall m :: m in w.store.manifests ==> ManifestFine(w, m)
  }

  ghost predicate MadeBy(w: World, f: File, v: string, k: SnapId) {
    k in w.snaps && k.node == f.dir.node && k.tag == v
  }

  /** Every version was made by a backup with its tag. */
  ghost predicate VersionsMade(w: World) {
    forall f: File, v :: Plain(f.name) && IsSnapshotTag(v) && VersionFile(f, v) in w.store.files ==>
      exists k :: MadeBy(w, f, v, k)
  }

  /** What the newest backup of a node uploaded is not stored any more, or with its content. */
  ghost predicate NewestStored(w: World) {
    forall k, f ::
      IsNewest(w, k) && k in w.uploaded && f in w.uploaded[k] && f in w.snaps[k] && f in w.store.files
      && !Tagged(f.name) ==>
        w.store.files[f] == w.snaps[k][f]
  }

  /** A version that the newest backup of a node made without having uploaded the file yet holds what is stored. */
  ghost predicate AsideSame(w: World) {
    forall k, f: File :: IsNewest(w, k) && f.dir.node == k.node && SetAside(w, k, f) ==>
      w.store.files[VersionFile(f, k.tag)] == w.store.files[f]
  }

  ghost predicate SetAside(w: World, k: SnapId, f: File) {
    && k in w.uploaded && f !in w.uploaded[k] && Plain(f.name) && !Tagged(f.name)
    && f in w.store.files && VersionFile(f, k.tag) in w.store.files
  }

  ghost predicate Inv(w: World) {
    SnapsFine(w) && ManifestsFine(w) && VersionsMade(w) && NewestStored(w) && AsideSame(w)
  }

  // ---------- Beginning ----------

  lemma ListedFacts(node: Node, tag: string, ix: Index, f: File)
    requires FineNames(tag, ix)
    ensures f in Listed(node, ix) ==> f.dir.node == node && Plain(f.name) && !Tagged(f.name)
    ensures f in Scylla(node, ix) ==> f.dir.node == node && Plain(f.name) && TaggedBy(tag, f.name)
  {
  }

  lemma BeginFiles(m: ManifestId, ix: Index, contents: map<File, Content>)
    requires FineNames(m.tag, ix) && contents.Keys == Listed(m.node, ix) + Scylla(m.node, ix)
    ensures forall f :: f in contents ==> FileFine(Key(m), f)
    ensures forall f :: f in Listed(m.node, ix) <==> f in contents && !Tagged(f.name)
    ensures forall f :: f in Scylla(m.node, ix) <==> f in contents && Tagged(f.name)
  {
    forall f
      ensures f in contents ==> FileFine(Key(m), f)
      ensures f in Listed(m.node, ix) <==> f in contents && !Tagged(f.name)
      ensures f in Scylla(m.node, ix) <==> f in contents && Tagged(f.name)
    {
      ListedFacts(m.node, m.tag, ix, f);
    }
  }

  lemma BeginSnaps(w: World, m: ManifestId, ix: Index, contents: map<File, Content>, w': World)
    requires SnapsFine(w) && Begin(w, m, ix, contents, w')
    ensures SnapsFine(w') && IsNewest(w', Key(m))
  {
    BeginFiles(m, ix, contents);
    BeginTags(w, m);
    OneMoreRecord(w, Key(m), contents, w');
  }

  lemma OneMoreRecord(w: World, k: SnapId, contents: map<File, Content>, w': World)
    requires SnapsFine(w) && w'.snaps == w.snaps[k := contents] && w'.uploaded == w.uploaded[k := {}]
    requires SnapshotTagTime(k.tag).Some? && forall f :: f in contents ==> FileFine(k, f)
    requires forall i :: i in w.snaps && i.node == k.node && i.tag == k.tag ==> i == k
    ensures SnapsFine(w')
  {
    OneMoreTag(w, k, w');
    OneMoreMatches(w, k, contents, w');
    OneMoreFine(w, k, contents, w');
  }

  lemma OneMoreMatches(w: World, k: SnapId, contents: map<File, Content>, w': World)
    requires RecordsMatch(w) && w'.snaps == w.snaps[k := contents] && w'.uploaded == w.uploaded[k := {}]
    requires SnapshotTagTime(k.tag).Some?
    ensures RecordsMatch(w')
  {
    assert w'.uploaded.Keys == w'.snaps.Keys;
  }

  lemma OneMoreFine(w: World, k: SnapId, contents: map<File, Content>, w': World)
    requires FilesFine(w) && w'.snaps == w.snaps[k := contents] && forall f :: f in contents ==> FileFine(k, f)
    ensures FilesFine(w')
  {
  }

  lemma OneMoreTag(w: World, k: SnapId, w': World)
    requires TagsUnique(w) && w'.snaps.Keys == w.snaps.Keys + {k}
    requires forall i :: i in w.snaps && i.node == k.node && i.tag == k.tag ==> i == k
    ensures TagsUnique(w')
  {
  }

  /** No other snapshot of the node has the tag, and none a later one. */
  lemma BeginTags(w: World, m: ManifestId)
    requires SnapsFine(w) && MayBegin(w, m)
    ensures SnapshotTagTime(m.tag).Some?
    ensures forall k :: k in w.snaps && k.node == m.node && k.tag == m.tag ==> k == Key(m)
    ensures forall k :: k in w.snaps && k.node == m.node ==> Time(k.tag) <= Time(m.tag)
  {
    if NewestTag(w, m.node, m.tag) {
      forall k | k in w.snaps && k.node == m.node ensures k.tag != m.tag {
        assert Time(k.tag) < Time(m.tag);
      }
    } else {
      assert SnapshotTagTime(Key(m).tag).Some?;
    }
  }

  lemma BeginManifests(w: World, m: ManifestId, ix: Index, contents: map<File, Content>, w': World)
    requires SnapsFine(w) && ManifestsFine(w) && Begin(w, m, ix, contents, w')
    ensures ManifestsFine(w')
  {
    BeginFiles(m, ix, contents);
    forall i | i in w'.store.manifests ensures ManifestFine(w', i) {
      if i != m {
        BeginOther(w, m, ix, contents, w', i);
      }
    }
  }

  lemma BeginOther(w: World, m: ManifestId, ix: Index, contents: map<File, Content>, w': World, i: ManifestId)
    requires SnapsFine(w) && ManifestsFine(w) && Begin(w, m, ix, contents, w') && i in w.store.manifests && i != m
    ensures ManifestFine(w', i)
  {
    assert ManifestFine(w, i);
    OtherKey(w, m, i);
    BeginLeaves(w, m, ix, contents, w', i);
    StillFine(w, i, w', i);
  }

  lemma BeginLeaves(w: World, m: ManifestId, ix: Index, contents: map<File, Content>, w': World, i: ManifestId)
    requires Begin(w, m, ix, contents, w') && i in w.store.manifests && i != m && Key(i) != Key(m)
    requires Key(i) in w.snaps && Key(i) in w.uploaded
    ensures i in w'.store.manifests && w'.store.manifests[i] == w.store.manifests[i]
    ensures Key(i) in w'.snaps && w'.snaps[Key(i)] == w.snaps[Key(i)] && Key(i) in w'.uploaded
  {
  }

  lemma OtherKey(w: World, m: ManifestId, i: ManifestId)
    requires SnapsFine(w) && m.temporary && MayBegin(w, m) && i in w.store.manifests && Key(i) in w.snaps && i != m
    ensures Key(i) != Key(m)
  {
    if NewestTag(w, m.node, m.tag) {
      assert Key(i).node == m.node ==> Time(i.tag) < Time(m.tag);
    } else {
      assert i != m.(temporary := false);
    }
  }

  lemma BeginNewest(w: World, m: ManifestId, ix: Index, contents: map<File, Content>, w': World)
    requires NewestStored(w) && Begin(w, m, ix, contents, w')
    ensures NewestStored(w')
  {
    forall k, f | IsNewest(w', k) && k in w'.uploaded && f in w'.uploaded[k] && f in w'.snaps[k] && f in w'.store.files
                  && !Tagged(f.name)
      ensures w'.store.files[f] == w'.snaps[k][f]
    {
      WasNewest(w, Key(m), w', k);
    }
  }

  lemma WasNewest(w: World, b: SnapId, w': World, k: SnapId)
    requires w'.snaps.Keys == w.snaps.Keys + {b} && IsNewest(w', k) && k != b
    ensures IsNewest(w, k)
  {
  }

  lemma BeginAside(w: World, m: ManifestId, ix: Index, contents: map<File, Content>, w': World)
    requires SnapsFine(w) && VersionsMade(w) && AsideSame(w) && Begin(w, m, ix, contents, w')
    ensures AsideSame(w')
  {
    forall k, f: File | IsNewest(w', k) && f.dir.node == k.node && SetAside(w', k, f)
      ensures w'.store.files[VersionFile(f, k.tag)] == w'.store.files[f]
    {
      BeginTags(w, m);
      if k != Key(m) {
        assert IsNewest(w, k) && SetAside(w, k, f);
      } else {
        BegunAside(w, m, f);
      }
    }
  }

  lemma BegunAside(w: World, m: ManifestId, f: File)
    requires SnapsFine(w) && VersionsMade(w) && AsideSame(w) && MayBegin(w, m) && f.dir.node == m.node
    requires Plain(f.name) && !Tagged(f.name) && f in w.store.files && VersionFile(f, m.tag) in w.store.files
    ensures w.store.files[VersionFile(f, m.tag)] == w.store.files[f]
  {
    BeginTags(w, m);
    var i :| MadeBy(w, f, m.tag, i);
    assert i == Key(m);
    assert !NewestTag(w, m.node, m.tag);
    assert SetAside(w, Key(m), f);
  }

  /** More snapshots explain the same versions. */
  lemma VersionsStayMade(w: World, w': World)
    requires VersionsMade(w)
    requires forall k :: k in w.snaps ==> k in w'.snaps
    requires w'.store.files.Keys <= w.store.files.Keys
    ensures VersionsMade(w')
  {
    forall f: File, v | Plain(f.name) && IsSnapshotTag(v) && VersionFile(f, v) in w'.store.files
      ensures exists k :: MadeBy(w', f, v, k)
    {
      var k :| MadeBy(w, f, v, k);
      assert MadeBy(w', f, v, k);
    }
  }

  lemma BeginKeeps(w: World, m: ManifestId, ix: Index, contents: map<File, Content>, w': World)
    requires Inv(w) && Begin(w, m, ix, contents, w')
    ensures Inv(w')
  {
    BeginSnaps(w, m, ix, contents, w');
    BeginManifests(w, m, ix, contents, w');
    BeginNewest(w, m, ix, contents, w');
    BeginAside(w, m, ix, contents, w');
    VersionsStayMade(w, w');
  }

  // ---------- Moving the manifest ----------

  lemma FinishKeeps(w: World, m: ManifestId, copy: bool, w': World)
    requires Inv(w) && Finish(w, m, copy, w')
    ensures Inv(w')
  {
    FinishManifests(w, m, copy, w');
    SameRecords(w, w');
    VersionsStayMade(w, w');
    SameNewest(w, w');
  }

  lemma SameRecords(w: World, w': World)
    requires SnapsFine(w) && w'.snaps == w.snaps && w'.uploaded == w.uploaded
    ensures SnapsFine(w')
  {
  }

  lemma FinishManifests(w: World, m: ManifestId, copy: bool, w': World)
    requires ManifestsFine(w) && Finish(w, m, copy, w')
    ensures ManifestsFine(w')
  {
    forall i | i in w'.store.manifests ensures ManifestFine(w', i) {
      if i == m.(temporary := false) {
        StillFine(w, m, w', i);
      } else {
        StillFine(w, i, w', i);
      }
    }
  }

  lemma RollbackKeeps(w: World, m: ManifestId, w': World)
    requires Inv(w) && Rollback(w, m, w')
    ensures Inv(w')
  {
    RollbackManifests(w, m, w');
    SameRecords(w, w');
    VersionsStayMade(w, w');
    SameNewest(w, w');
  }

  lemma RollbackManifests(w: World, m: ManifestId, w': World)
    requires ManifestsFine(w) && Rollback(w, m, w')
    ensures ManifestsFine(w')
  {
    forall i | i in w'.store.manifests ensures ManifestFine(w', i) {
      if i == Shadow(m) {
        StillFine(w, m, w', i);
      } else {
        StillFine(w, i, w', i);
      }
    }
  }

  lemma SameNewest(w: World, w': World)
    requires NewestStored(w) && AsideSame(w) && w'.snaps == w.snaps && w'.uploaded == w.uploaded
    requires w'.store.files.Keys <= w.store.files.Keys
    requires forall f :: f in w'.store.files ==> w'.store.files[f] == w.store.files[f]
    ensures NewestStored(w') && AsideSame(w')
  {
    assert forall k :: IsNewest(w', k) <==> IsNewest(w, k);
    forall k, f: File | IsNewest(w', k) && f.dir.node == k.node && SetAside(w', k, f)
      ensures w'.store.files[VersionFile(f, k.tag)] == w'.store.files[f]
    {
      assert SetAside(w, k, f);
    }
  }

  // ---------- What an upload does to versions ----------

  /** Nothing changes but the file and its version for the tag. */
  ghost predicate ChangesOnly(files: map<File, Content>, files': map<File, Content>, f: File, tag: string) {
    forall g :: g != f && g != VersionFile(f, tag) ==>
      (g in files' <==> g in files) && (g in files ==> files'[g] == files[g])
  }

  lemma PutElsewhere(files: map<File, Content>, f: File, c: Content, tag: string)
    ensures ChangesOnly(files, Put(files, f, c, tag), f, tag)
  {
  }

  lemma VersionFilesDiffer(f: File, v: string, g: File, u: string)
    requires Plain(f.name) && Plain(g.name)
    requires (v == "" || IsSnapshotTag(v)) && (u == "" || IsSnapshotTag(u))
    requires VersionFile(f, v) == VersionFile(g, u)
    ensures f == g && v == u
  {
    FullNamesDiffer(f.name, v, g.name, u);
  }

  /** Another plain file and its versions are as before. */
  lemma OthersAreSame(files: map<File, Content>, files': map<File, Content>, f: File, tag: string, g: File, v: string)
    requires ChangesOnly(files, files', f, tag) && Plain(f.name) && Plain(g.name) && IsSnapshotTag(tag) && g != f
    requires IsSnapshotTag(v) || v == ""
    ensures VersionFile(g, v) in files' <==> VersionFile(g, v) in files
    ensures VersionFile(g, v) in files ==> files'[VersionFile(g, v)] == files[VersionFile(g, v)]
  {
    if VersionFile(g, v) == VersionFile(f, tag) { VersionFilesDiffer(g, v, f, tag); }
    if VersionFile(g, v) == f { VersionFilesDiffer(g, v, f, ""); }
  }

  /** And it resolves as before. */
  lemma OthersResolve(files: map<File, Content>, files': map<File, Content>, f: File, tag: string, g: File, t: nat, x: Content)
    requires ChangesOnly(files, files', f, tag) && Plain(f.name) && Plain(g.name) && IsSnapshotTag(tag) && g != f
    requires Resolves(files, g, t, x)
    ensures Resolves(files', g, t, x)
  {
    forall v | IsSnapshotTag(v) || v == ""
      ensures VersionFile(g, v) in files' <==> VersionFile(g, v) in files
      ensures VersionFile(g, v) in files ==> files'[VersionFile(g, v)] == files[VersionFile(g, v)]
    {
      OthersAreSame(files, files', f, tag, g, v);
    }
    assert VersionFile(g, "") == g;
    SameVersionsResolve(files, files', g, t, x);
  }

  /** Where some version is later, the file itself does not matter. */
  lemma VersionsDecide(files: map<File, Content>, files': map<File, Content>, f: File, t: nat, x: Content)
    requires Resolves(files, f, t, x) && exists v :: IsLater(files, f, t, v)
    requires forall v :: SnapshotTagTime(v).Some? ==>
      (VersionFile(f, v) in files' <==> VersionFile(f, v) in files)
      && (VersionFile(f, v) in files ==> files'[VersionFile(f, v)] == files[VersionFile(f, v)])
    ensures Resolves(files', f, t, x)
  {
    assert forall v :: IsLater(files', f, t, v) <==> IsLater(files, f, t, v);
  }

  lemma SameVersionsResolve(files: map<File, Content>, files': map<File, Content>, g: File, t: nat, x: Content)
    requires Resolves(files, g, t, x)
    requires forall v :: IsLater(files', g, t, v) <==> IsLater(files, g, t, v)
    requires forall v :: IsLater(files, g, t, v) ==>
      VersionFile(g, v) in files' && files'[VersionFile(g, v)] == files[VersionFile(g, v)]
    requires g in files ==> g in files' && files'[g] == files[g]
    ensures Resolves(files', g, t, x)
  {
  }

  lemma OlderRenamed(
    files: map<File, Content>, files': map<File, Content>, f: File, tag: string, t: nat, x: Content)
    requires SnapshotTagTime(tag).Some? && t < Time(tag) && f in files
    requires forall v :: IsLater(files, f, t, v) ==> Time(v) < Time(tag)
    requires VersionFile(f, tag) in files' && files'[VersionFile(f, tag)] == files[f]
    requires forall v :: SnapshotTagTime(v).Some? && v != tag ==>
      (VersionFile(f, v) in files' <==> VersionFile(f, v) in files)
      && (VersionFile(f, v) in files ==> files'[VersionFile(f, v)] == files[VersionFile(f, v)])
    requires Resolves(files, f, t, x)
    ensures Resolves(files', f, t, x)
  {
    assert IsLater(files', f, t, tag);
    forall u | IsLater(files', f, t, u) ensures u == tag || IsLater(files, f, t, u) {
    }
    if exists v :: IsLater(files, f, t, v) {
      var v :| IsLater(files, f, t, v) && files[VersionFile(f, v)] == x
               && forall u :: IsLater(files, f, t, u) ==> Time(v) <= Time(u);
      assert v != tag;
      assert IsLater(files', f, t, v);
    }
  }

  /** For a snapshot older than the backup, an upload moves the content it needs to the new version. */
  lemma PutKeepsOlder(files: map<File, Content>, f: File, c: Content, tag: string, t: nat, x: Content)
    requires Plain(f.name) && SnapshotTagTime(tag).Some? && t < Time(tag)
    requires f in files && files[f] != c ==> forall v :: IsLater(files, f, t, v) ==> Time(v) < Time(tag)
    requires Resolves(files, f, t, x)
    ensures Resolves(Put(files, f, c, tag), f, t, x)
  {
    var files' := Put(files, f, c, tag);
    if files' != files {
      forall v | SnapshotTagTime(v).Some?
        ensures f !in files || v != tag ==> (VersionFile(f, v) in files' <==> VersionFile(f, v) in files)
        ensures (f !in files || v != tag) && VersionFile(f, v) in files ==>
                  files'[VersionFile(f, v)] == files[VersionFile(f, v)]
      {
        if VersionFile(f, v) == VersionFile(f, tag) { VersionFilesDiffer(f, v, f, tag); }
        if VersionFile(f, v) == f { VersionFilesDiffer(f, v, f, ""); }
      }
      if f !in files {
        SameVersionsResolve(files, files', f, t, x);
      } else {
        if VersionFile(f, tag) == f { VersionFilesDiffer(f, tag, f, ""); }
        OlderRenamed(files, files', f, tag, t, x);
      }
    }
  }

  /** For a snapshot that reads the file itself, an upload keeps what it reads if and only if the content is the
      same or the snapshot is older than the tag of the upload. */
  lemma PutExact(files: map<File, Content>, f: File, c: Content, tag: string, t: nat, x: Content)
    requires Plain(f.name) && SnapshotTagTime(tag).Some? && f in files && files[f] == x
    requires forall v :: !IsLater(files, f, t, v)
    ensures Resolves(Put(files, f, c, tag), f, t, x) <==> c == x || t < Time(tag)
  {
    if t < Time(tag) {
      PutKeepsOlder(files, f, c, tag, t, x);
    } else if c != x {
      var files' := Put(files, f, c, tag);
      forall v | SnapshotTagTime(v).Some? ensures !IsLater(files', f, t, v) {
        if VersionFile(f, v) == VersionFile(f, tag) { VersionFilesDiffer(f, v, f, tag); }
        if VersionFile(f, v) == f { VersionFilesDiffer(f, v, f, ""); }
        assert !IsLater(files, f, t, v);
      }
    }
  }

  /** With all versions as old as the snapshot or older, it reads the file itself. */
  lemma NewestReads(files: map<File, Content>, f: File, t: nat)
    requires forall v :: SnapshotTagTime(v).Some? && VersionFile(f, v) in files ==> Time(v) <= t
    ensures forall x :: Resolves(files, f, t, x) <==> f in files && files[f] == x
  {
    assert forall v :: !IsLater(files, f, t, v);
  }

  lemma PutOwn(files: map<File, Content>, f: File, c: Content, tag: string)
    requires Plain(f.name) && SnapshotTagTime(tag).Some?
    requires forall v :: SnapshotTagTime(v).Some? && VersionFile(f, v) in files ==> Time(v) <= Time(tag)
    ensures Resolves(Put(files, f, c, tag), f, Time(tag), c)
  {
    var files' := Put(files, f, c, tag);
    forall v | SnapshotTagTime(v).Some? && VersionFile(f, v) in files' ensures Time(v) <= Time(tag) {
      if VersionFile(f, v) == f { VersionFilesDiffer(f, v, f, ""); }
      if VersionFile(f, v) == VersionFile(f, tag) { VersionFilesDiffer(f, v, f, tag); }
    }
    NewestReads(files', f, Time(tag));
  }

  // ---------- Uploading ----------

  lemma OlderTag(w: World, k: SnapId, i: SnapId)
    requires SnapsFine(w) && IsNewest(w, k) && i in w.snaps && i != k && i.node == k.node
    ensures Time(i.tag) < Time(k.tag)
  {
    assert i.tag != k.tag;
    EarlierTag(i.tag, k.tag);
  }

  lemma EarlierTag(a: string, b: string)
    requires SnapshotTagTime(a).Some? && SnapshotTagTime(b).Some? && a != b && Time(a) <= Time(b)
    ensures Time(a) < Time(b)
  {
    TagOrder(a, b);
  }

  /** The versions that a node has are no newer than its newest backup; one of its time has its tag. */
  lemma VersionsNotNewer(w: World, k: SnapId, f: File, v: string)
    requires SnapsFine(w) && VersionsMade(w) && IsNewest(w, k) && Plain(f.name) && f.dir.node == k.node
    requires SnapshotTagTime(v).Some? && VersionFile(f, v) in w.store.files
    ensures Time(v) <= Time(k.tag)
    ensures Time(v) == Time(k.tag) ==> v == k.tag
  {
    var i :| MadeBy(w, f, v, i);
    if i != k {
      OlderTag(w, k, i);
    }
  }

  lemma AllVersionsOld(w: World, k: SnapId, f: File)
    requires SnapsFine(w) && VersionsMade(w) && IsNewest(w, k) && Plain(f.name) && f.dir.node == k.node
    ensures forall v :: SnapshotTagTime(v).Some? && VersionFile(f, v) in w.store.files ==> Time(v) <= Time(k.tag)
  {
    forall v | SnapshotTagTime(v).Some? && VersionFile(f, v) in w.store.files ensures Time(v) <= Time(k.tag) {
      VersionsNotNewer(w, k, f, v);
    }
  }

  lemma UploadFacts(w: World, k: SnapId, f: File)
    requires SnapsFine(w) && k in w.snaps && f in w.snaps[k]
    ensures Plain(f.name) && f.dir.node == k.node && SnapshotTagTime(k.tag).Some? && IsSnapshotTag(k.tag)
  {
    assert FileFine(k, f);
  }

  lemma UploadsManifests(w: World, k: SnapId, f: File, files: map<File, Content>, w': World)
    requires SnapsFine(w) && ManifestsFine(w) && Uploads(w, k, f, files, w')
    ensures SnapsFine(w') && ManifestsFine(w')
  {
    MoreUploaded(w, k, f, w');
  }

  /** What the three ways of uploading have in common. */
  ghost predicate Touches(w: World, k: SnapId, f: File, w': World) {
    && IsNewest(w, k) && f in w.snaps[k] && !Tagged(f.name)
    && w'.store.manifests == w.store.manifests && w'.snaps == w.snaps
    && ChangesOnly(w.store.files, w'.store.files, f, k.tag)
    && k in w.uploaded && (w'.uploaded == w.uploaded || w'.uploaded == w.uploaded[k := w.uploaded[k] + {f}])
  }

  /** The file afterwards: uploaded, set aside with what it held, or gone. */
  ghost predicate LeavesFile(w': World, k: SnapId, f: File)
    requires k in w'.snaps && f in w'.snaps[k] && k in w'.uploaded
  {
    || f !in w'.store.files
    || (f in w'.uploaded[k] && w'.store.files[f] == w'.snaps[k][f])
    || (f !in w'.uploaded[k] && VersionFile(f, k.tag) in w'.store.files
        && w'.store.files[VersionFile(f, k.tag)] == w'.store.files[f])
  }

  lemma UploadTouches(w: World, k: SnapId, f: File, w': World)
    requires Upload(w, k, f, w')
    ensures Touches(w, k, f, w') && LeavesFile(w', k, f)
  {
    PutElsewhere(w.store.files, f, w.snaps[k][f], k.tag);
  }

  lemma CopyTouches(w: World, k: SnapId, f: File, w': World)
    requires SnapsFine(w) && NewestStored(w) && CopyAside(w, k, f, w')
    ensures Touches(w, k, f, w') && LeavesFile(w', k, f)
  {
    UploadFacts(w, k, f);
    if VersionFile(f, k.tag) == f { VersionFilesDiffer(f, k.tag, f, ""); }
  }

  lemma RemoveTouches(w: World, k: SnapId, f: File, w': World)
    requires SnapsFine(w) && RemoveAside(w, k, f, w')
    ensures Touches(w, k, f, w') && LeavesFile(w', k, f)
  {
  }

  lemma TouchVersions(w: World, k: SnapId, f: File, w': World)
    requires SnapsFine(w) && VersionsMade(w) && Touches(w, k, f, w')
    ensures VersionsMade(w')
  {
    UploadFacts(w, k, f);
    forall g: File, v | Plain(g.name) && IsSnapshotTag(v) && VersionFile(g, v) in w'.store.files
      ensures exists i :: MadeBy(w', g, v, i)
    {
      if g == f && v == k.tag {
        assert MadeBy(w', g, v, k);
      } else {
        OtherVersion(w, k, f, w', g, v);
        var i :| MadeBy(w, g, v, i);
        assert MadeBy(w', g, v, i);
      }
    }
  }

  lemma OtherVersion(w: World, k: SnapId, f: File, w': World, g: File, v: string)
    requires SnapsFine(w) && Touches(w, k, f, w') && Plain(g.name) && IsSnapshotTag(v) && !(g == f && v == k.tag)
    ensures VersionFile(g, v) in w'.store.files <==> VersionFile(g, v) in w.store.files
    ensures VersionFile(g, v) in w.store.files ==> w'.store.files[VersionFile(g, v)] == w.store.files[VersionFile(g, v)]
  {
    UploadFacts(w, k, f);
    if VersionFile(g, v) == f { VersionFilesDiffer(g, v, f, ""); }
    if VersionFile(g, v) == VersionFile(f, k.tag) { VersionFilesDiffer(g, v, f, k.tag); }
  }

  /** A plain file other than the touched one stays as it is. */
  lemma OtherFile(w: World, k: SnapId, f: File, w': World, g: File)
    requires SnapsFine(w) && Touches(w, k, f, w') && g != f && Plain(g.name)
    ensures g in w'.store.files <==> g in w.store.files
    ensures g in w.store.files ==> w'.store.files[g] == w.store.files[g]
  {
    UploadFacts(w, k, f);
    assert VersionFile(g, "") == g;
    OthersAreSame(w.store.files, w'.store.files, f, k.tag, g, "");
  }

  lemma TouchNewest(w: World, k: SnapId, f: File, w': World)
    requires SnapsFine(w) && NewestStored(w) && Touches(w, k, f, w') && LeavesFile(w', k, f)
    ensures NewestStored(w')
  {
    assert forall i :: IsNewest(w', i) <==> IsNewest(w, i);
    UploadFacts(w, k, f);
    forall i, g | IsNewest(w', i) && i in w'.uploaded && g in w'.uploaded[i] && g in w'.snaps[i] && g in w'.store.files
                  && !Tagged(g.name)
      ensures w'.store.files[g] == w'.snaps[i][g]
    {
      UploadFacts(w, i, g);
      if g == f {
        NewestAlone(w, k, i);
      } else {
        OtherFile(w, k, f, w', g);
      }
    }
  }

  lemma TouchAside(w: World, k: SnapId, f: File, w': World)
    requires SnapsFine(w) && AsideSame(w) && Touches(w, k, f, w') && LeavesFile(w', k, f)
    ensures AsideSame(w')
  {
    assert forall i :: IsNewest(w', i) <==> IsNewest(w, i);
    UploadFacts(w, k, f);
    forall i, g: File | IsNewest(w', i) && g.dir.node == i.node && SetAside(w', i, g)
      ensures w'.store.files[VersionFile(g, i.tag)] == w'.store.files[g]
    {
      if g == f {
        NewestAlone(w, k, i);
      } else {
        assert IsSnapshotTag(i.tag);
        OtherFile(w, k, f, w', g);
        OtherVersion(w, k, f, w', g, i.tag);
        assert SetAside(w, i, g);
      }
    }
  }

  lemma TouchKeeps(w: World, k: SnapId, f: File, w': World)
    requires Inv(w) && Touches(w, k, f, w') && LeavesFile(w', k, f)
    ensures Inv(w')
  {
    TouchManifests(w, k, f, w');
    TouchVersions(w, k, f, w');
    TouchNewest(w, k, f, w');
    TouchAside(w, k, f, w');
  }

  lemma TouchManifests(w: World, k: SnapId, f: File, w': World)
    requires SnapsFine(w) && ManifestsFine(w) && Touches(w, k, f, w')
    ensures SnapsFine(w') && ManifestsFine(w')
  {
    MoreUploaded(w, k, f, w');
  }

  /** Uploads change neither manifests nor records. */
  lemma MoreUploaded(w: World, k: SnapId, f: File, w': World)
    requires SnapsFine(w) && ManifestsFine(w) && k in w.snaps && f in w.snaps[k]
    requires w'.snaps == w.snaps && w'.store.manifests == w.store.manifests
    requires w'.uploaded == w.uploaded || w'.uploaded == w.uploaded[k := w.uploaded[k] + {f}]
    ensures SnapsFine(w') && ManifestsFine(w')
  {
    MoreUploadedRecords(w, k, f, w');
    UploadedManifests(w, w');
  }

  lemma MoreUploadedRecords(w: World, k: SnapId, f: File, w': World)
    requires SnapsFine(w) && k in w.snaps && f in w.snaps[k] && w'.snaps == w.snaps
    requires w'.uploaded == w.uploaded || w'.uploaded == w.uploaded[k := w.uploaded[k] + {f}]
    ensures SnapsFine(w')
  {
  }

  lemma UploadedManifests(w: World, w': World)
    requires ManifestsFine(w) && w'.snaps == w.snaps && w'.store.manifests == w.store.manifests
    requires w'.uploaded.Keys == w.uploaded.Keys
    ensures ManifestsFine(w')
  {
    forall i | i in w'.store.manifests ensures ManifestFine(w', i) {
      StillFine(w, i, w', i);
    }
  }

  /** A node has one newest backup. */
  lemma NewestAlone(w: World, i: SnapId, k: SnapId)
    requires SnapsFine(w) && IsNewest(w, i) && IsNewest(w, k) && i.node == k.node
    ensures i == k
  {
    if i != k {
      OlderTag(w, k, i);
    }
  }

  /** Storing a Scylla manifest touches no SSTable file and no version of one. */
  lemma ScyllaElsewhere(w: World, k: SnapId, f: File, w': World, g: File, v: string)
    requires SnapsFine(w) && UploadScylla(w, k, f, w') && Plain(g.name) && (IsSnapshotTag(v) || (v == "" && g != f))
    ensures VersionFile(g, v) in w'.store.files <==> VersionFile(g, v) in w.store.files
    ensures VersionFile(g, v) in w.store.files ==> w'.store.files[VersionFile(g, v)] == w.store.files[VersionFile(g, v)]
  {
    UploadFacts(w, k, f);
    assert VersionFile(f, "") == f;
    if VersionFile(g, v) == f { VersionFilesDiffer(g, v, f, ""); }
  }

  lemma ScyllaVersions(w: World, k: SnapId, f: File, w': World)
    requires SnapsFine(w) && VersionsMade(w) && UploadScylla(w, k, f, w')
    ensures VersionsMade(w')
  {
    forall g: File, v | Plain(g.name) && IsSnapshotTag(v) && VersionFile(g, v) in w'.store.files
      ensures exists i :: MadeBy(w', g, v, i)
    {
      ScyllaElsewhere(w, k, f, w', g, v);
      var i :| MadeBy(w, g, v, i);
      assert MadeBy(w', g, v, i);
    }
  }

  lemma ScyllaKeeps(w: World, k: SnapId, f: File, w': World)
    requires Inv(w) && UploadScylla(w, k, f, w')
    ensures Inv(w')
  {
    UploadsManifests(w, k, f, w'.store.files, w');
    ScyllaVersions(w, k, f, w');
    ScyllaNewest(w, k, f, w');
    ScyllaAside(w, k, f, w');
  }

  lemma ScyllaNewest(w: World, k: SnapId, f: File, w': World)
    requires SnapsFine(w) && NewestStored(w) && UploadScylla(w, k, f, w')
    ensures NewestStored(w')
  {
    assert forall i :: IsNewest(w', i) <==> IsNewest(w, i);
  }

  lemma ScyllaAside(w: World, k: SnapId, f: File, w': World)
    requires SnapsFine(w) && AsideSame(w) && UploadScylla(w, k, f, w')
    ensures AsideSame(w')
  {
    assert forall i :: IsNewest(w', i) <==> IsNewest(w, i);
    forall i, g: File | IsNewest(w', i) && g.dir.node == i.node && SetAside(w', i, g)
      ensures w'.store.files[VersionFile(g, i.tag)] == w'.store.files[g]
    {
      assert IsSnapshotTag(i.tag) && VersionFile(g, "") == g;
      ScyllaElsewhere(w, k, f, w', g, i.tag);
      ScyllaElsewhere(w, k, f, w', g, "");
      assert SetAside(w, i, g);
    }
  }

  lemma FewerManifests(w: World, w': World)
    requires SnapsFine(w) && ManifestsFine(w) && w'.snaps == w.snaps && w'.uploaded == w.uploaded
    requires forall i :: i in w'.store.manifests ==>
      i in w.store.manifests && w'.store.manifests[i] == w.store.manifests[i]
    ensures SnapsFine(w') && ManifestsFine(w')
  {
    forall i | i in w'.store.manifests ensures ManifestFine(w', i) {
      StillFine(w, i, w', i);
    }
  }

  lemma PurgeKeeps(w: World, any: Node, ms: set<ManifestId>, tags: set<string>, oldest: Option<nat>, w': World)
    requires Inv(w) && Purge(w, any, ms, tags, oldest, w')
    ensures Inv(w')
  {
    FewerManifests(w, w');
    VersionsStayMade(w, w');
    SameNewest(w, w');
  }

  lemma DropKeeps(w: World, any: Node, ms: set<ManifestId>, gone: set<File>, w': World)
    requires Inv(w) && Drop(w, any, ms, gone, w')
    ensures Inv(w')
  {
    FewerManifests(w, w');
    VersionsStayMade(w, w');
    SameNewest(w, w');
  }

  lemma ActKeeps(w: World, a: Action, w': World)
    requires Inv(w) && Act(w, a, w')
    ensures Inv(w')
  {
    if IsUpload(a) {
      UploadActKeeps(w, a, w');
    } else if a.PurgeGroup? {
      PurgeKeeps(w, a.any, a.ms, a.tags, a.oldest, w');
    } else if a.DropOrphans? {
      DropKeeps(w, a.any, a.ms, a.gone, w');
    } else {
      ManifestActKeeps(w, a, w');
    }
  }

  lemma ManifestActKeeps(w: World, a: Action, w': World)
    requires Inv(w) && Act(w, a, w') && (a.BeginBackup? || a.FinishBackup? || a.RollBackup?)
    ensures Inv(w')
  {
    match a
    case BeginBackup(m, ix, contents) => BeginKeeps(w, m, ix, contents, w');
    case FinishBackup(m, copy) => FinishKeeps(w, m, copy, w');
    case RollBackup(m) => RollbackKeeps(w, m, w');
  }

  predicate IsUpload(a: Action) {
    a.UploadFile? || a.CopyFileAside? || a.RemoveFileAside? || a.UploadScyllaFile?
  }

  lemma UploadActKeeps(w: World, a: Action, w': World)
    requires Inv(w) && Act(w, a, w') && IsUpload(a)
    ensures Inv(w')
  {
    match a
    case UploadFile(k, f) =>
      UploadTouches(w, k, f, w');
      TouchKeeps(w, k, f, w');
    case CopyFileAside(k, f) =>
      CopyTouches(w, k, f, w');
      TouchKeeps(w, k, f, w');
    case RemoveFileAside(k, f) =>
      RemoveTouches(w, k, f, w');
      TouchKeeps(w, k, f, w');
    case UploadScyllaFile(k, f) => ScyllaKeeps(w, k, f, w');
  }
}
