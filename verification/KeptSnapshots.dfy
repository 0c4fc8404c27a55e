/** Runs of backups and purges: every kept snapshot restores to what it held when it was begun. */
module KeptSnapshots {
  import opened Wrappers
  import opened Tags
  import opened Paths
  import opened Versioning
  import opened FileSets
  import opened BackupStore
  import opened BackupRuns

  // ---------- The files of one snapshot ----------

  /** The file reads back as the snapshot held it: an SSTable file by its versions, a Scylla manifest as it is. */
  ghost predicate ReadsBack(w: World, k: SnapId, f: File) {
    && k in w.snaps && f in w.snaps[k]
    && if Tagged(f.name) then f in w.store.files && w.store.files[f] == w.snaps[k][f]
       else Resolves(w.store.files, f, Time(k.tag), w.snaps[k][f])
  }

  ghost predicate Held(w: World, k: SnapId) {
    exists m :: m in w.store.manifests && Key(m) == k
  }

  /** What the newest backup uploads, it reads back. */
  lemma UploadReadsBack(w: World, k: SnapId, f: File, w': World)
    requires Inv(w) && Upload(w, k, f, w')
    ensures ReadsBack(w', k, f)
  {
    UploadFacts(w, k, f);
    AllVersionsOld(w, k, f);
    PutOwn(w.store.files, f, w.snaps[k][f], k.tag);
  }

  /** A file other than the one uploaded reads back as before. */
  lemma TouchKeepsOthers(w: World, j: SnapId, g: File, w': World, k: SnapId, f: File)
    requires Inv(w) && Touches(w, j, g, w') && ReadsBack(w, k, f) && f != g
    ensures ReadsBack(w', k, f)
  {
    UploadFacts(w, k, f);
    UploadFacts(w, j, g);
    if Tagged(f.name) {
      OtherFile(w, j, g, w', f);
    } else {
      OthersResolve(w.store.files, w'.store.files, g, j.tag, f, Time(k.tag), w.snaps[k][f]);
    }
  }

  lemma UploadKeepsFile(w: World, j: SnapId, g: File, w': World, k: SnapId, f: File)
    requires Inv(w) && Upload(w, j, g, w') && ReadsBack(w, k, f)
    ensures ReadsBack(w', k, f)
  {
    if f != g {
      UploadTouches(w, j, g, w');
      TouchKeepsOthers(w, j, g, w', k, f);
    } else {
      UploadFacts(w, k, f);
      UploadFacts(w, j, g);
      if k == j {
        UploadReadsBack(w, k, f, w');
      } else {
        UploadKeepsOlder(w, j, f, w', k);
      }
    }
  }

  lemma UploadKeepsOlder(w: World, j: SnapId, f: File, w': World, k: SnapId)
    requires Inv(w) && Upload(w, j, f, w') && ReadsBack(w, k, f) && k != j
    ensures ReadsBack(w', k, f)
  {
    UploadFacts(w, k, f);
    UploadFacts(w, j, f);
    OlderTag(w, j, k);
    if Overwrites(w, j, f) && VersionFile(f, j.tag) in w.store.files {
      UploadTouches(w, j, f, w');
      VersionStays(w, j, f, w');
      AsideDecides(w, j, f, w', k);
    } else {
      PutKeepsReading(w, j, f, k);
    }
  }

  /** A copy set aside before holds what the file holds, so that the upload leaves it as it is. */
  lemma VersionStays(w: World, j: SnapId, f: File, w': World)
    requires Inv(w) && Upload(w, j, f, w') && Overwrites(w, j, f) && VersionFile(f, j.tag) in w.store.files
    ensures VersionFile(f, j.tag) in w'.store.files
    ensures w'.store.files[VersionFile(f, j.tag)] == w.store.files[VersionFile(f, j.tag)]
  {
    UploadFacts(w, j, f);
    VersionIsOther(f, j.tag);
    if f !in w.uploaded[j] {
      assert SetAside(w, j, f);
    }
  }

  lemma PutKeepsReading(w: World, j: SnapId, f: File, k: SnapId)
    requires Inv(w) && IsNewest(w, j) && f in w.snaps[j] && !Tagged(f.name)
    requires ReadsBack(w, k, f) && Time(k.tag) < Time(j.tag)
    requires !(Overwrites(w, j, f) && VersionFile(f, j.tag) in w.store.files)
    ensures Resolves(Put(w.store.files, f, w.snaps[j][f], j.tag), f, Time(k.tag), w.snaps[k][f])
  {
    UploadFacts(w, j, f);
    if Overwrites(w, j, f) {
      LaterIsEarlierThan(w, j, f, k);
    }
    PutKeepsOlder(w.store.files, f, w.snaps[j][f], j.tag, Time(k.tag), w.snaps[k][f]);
  }

  /** While the newest backup has no version of the file, all versions are earlier. */
  lemma LaterIsEarlierThan(w: World, j: SnapId, f: File, k: SnapId)
    requires Inv(w) && IsNewest(w, j) && Plain(f.name) && f.dir.node == j.node && VersionFile(f, j.tag) !in w.store.files
    ensures forall v :: IsLater(w.store.files, f, Time(k.tag), v) ==> Time(v) < Time(j.tag)
  {
    forall v | IsLater(w.store.files, f, Time(k.tag), v) ensures Time(v) < Time(j.tag) {
      VersionsNotNewer(w, j, f, v);
    }
  }

  /** When the file is set aside already, an older snapshot reads versions, and these stay. */
  lemma AsideDecides(w: World, j: SnapId, f: File, w': World, k: SnapId)
    requires Inv(w) && Touches(w, j, f, w') && ReadsBack(w, k, f) && Time(k.tag) < Time(j.tag)
    requires VersionFile(f, j.tag) in w.store.files && VersionFile(f, j.tag) in w'.store.files
    requires w'.store.files[VersionFile(f, j.tag)] == w.store.files[VersionFile(f, j.tag)]
    ensures ReadsBack(w', k, f)
  {
    UploadFacts(w, k, f);
    UploadFacts(w, j, f);
    assert IsLater(w.store.files, f, Time(k.tag), j.tag);
    forall v | SnapshotTagTime(v).Some?
      ensures VersionFile(f, v) in w'.store.files <==> VersionFile(f, v) in w.store.files
      ensures VersionFile(f, v) in w.store.files ==>
                w'.store.files[VersionFile(f, v)] == w.store.files[VersionFile(f, v)]
    {
      if v != j.tag {
        OtherVersion(w, j, f, w', f, v);
      }
    }
    VersionsDecide(w.store.files, w'.store.files, f, Time(k.tag), w.snaps[k][f]);
  }

  /** The newest backup itself does not read back a file that its upload would overwrite. */
  lemma OverwrittenIsOlders(w: World, j: SnapId, f: File, k: SnapId)
    requires Inv(w) && Overwrites(w, j, f) && ReadsBack(w, k, f)
    ensures k != j && Time(k.tag) < Time(j.tag)
  {
    UploadFacts(w, k, f);
    UploadFacts(w, j, f);
    AllVersionsOld(w, j, f);
    NewestReads(w.store.files, f, Time(j.tag));
    assert k != j;
    OlderTag(w, j, k);
  }

  lemma CopyKeepsFile(w: World, j: SnapId, g: File, w': World, k: SnapId, f: File)
    requires Inv(w) && CopyAside(w, j, g, w') && ReadsBack(w, k, f)
    ensures ReadsBack(w', k, f)
  {
    CopyTouches(w, j, g, w');
    if f != g {
      TouchKeepsOthers(w, j, g, w', k, f);
    } else {
      OverwrittenIsOlders(w, j, f, k);
      if VersionFile(f, j.tag) in w.store.files {
        UploadFacts(w, j, f);
        assert SetAside(w, j, f);
        AsideDecides(w, j, f, w', k);
      } else {
        NewCopyKeepsFile(w, j, f, w', k);
      }
    }
  }

  lemma NewCopyKeepsFile(w: World, j: SnapId, f: File, w': World, k: SnapId)
    requires Inv(w) && CopyAside(w, j, f, w') && Touches(w, j, f, w') && ReadsBack(w, k, f) && Time(k.tag) < Time(j.tag)
    requires VersionFile(f, j.tag) !in w.store.files
    ensures ReadsBack(w', k, f)
  {
    UploadFacts(w, k, f);
    UploadFacts(w, j, f);
    LaterIsEarlierThan(w, j, f, k);
    forall v | SnapshotTagTime(v).Some? && v != j.tag
      ensures VersionFile(f, v) in w'.store.files <==> VersionFile(f, v) in w.store.files
      ensures VersionFile(f, v) in w.store.files ==>
                w'.store.files[VersionFile(f, v)] == w.store.files[VersionFile(f, v)]
    {
      OtherVersion(w, j, f, w', f, v);
    }
    OlderRenamed(w.store.files, w'.store.files, f, j.tag, Time(k.tag), w.snaps[k][f]);
  }

  lemma RemoveKeepsFile(w: World, j: SnapId, g: File, w': World, k: SnapId, f: File)
    requires Inv(w) && RemoveAside(w, j, g, w') && ReadsBack(w, k, f)
    ensures ReadsBack(w', k, f)
  {
    RemoveTouches(w, j, g, w');
    if f != g {
      TouchKeepsOthers(w, j, g, w', k, f);
    } else {
      OverwrittenIsOlders(w, j, f, k);
      RemovedStaysAside(w, j, f, w');
      AsideDecides(w, j, f, w', k);
    }
  }

  lemma RemovedStaysAside(w: World, j: SnapId, f: File, w': World)
    requires SnapsFine(w) && RemoveAside(w, j, f, w')
    ensures VersionFile(f, j.tag) in w.store.files && VersionFile(f, j.tag) in w'.store.files
    ensures w'.store.files[VersionFile(f, j.tag)] == w.store.files[VersionFile(f, j.tag)]
  {
    UploadFacts(w, j, f);
    VersionIsOther(f, j.tag);
  }

  lemma VersionIsOther(f: File, tag: string)
    requires Plain(f.name) && IsSnapshotTag(tag)
    ensures VersionFile(f, tag) != f
  {
    if VersionFile(f, tag) == f { VersionFilesDiffer(f, tag, f, ""); }
  }

  lemma ScyllaKeepsFile(w: World, j: SnapId, g: File, w': World, k: SnapId, f: File)
    requires Inv(w) && UploadScylla(w, j, g, w') && ReadsBack(w, k, f)
    ensures ReadsBack(w', k, f)
  {
    UploadFacts(w, k, f);
    UploadFacts(w, j, g);
    if !Tagged(f.name) {
      ScyllaElsewhere(w, j, g, w', f, "");
      assert VersionFile(f, "") == f;
      forall v | SnapshotTagTime(v).Some?
        ensures VersionFile(f, v) in w'.store.files <==> VersionFile(f, v) in w.store.files
        ensures VersionFile(f, v) in w.store.files ==>
                  w'.store.files[VersionFile(f, v)] == w.store.files[VersionFile(f, v)]
      {
        ScyllaElsewhere(w, j, g, w', f, v);
      }
      SameVersionsResolve(w.store.files, w'.store.files, f, Time(k.tag), w.snaps[k][f]);
    } else if f == g {
      assert FileFine(k, f) && FileFine(j, g);
    }
  }

  // ---------- What a purge spares ----------

  lemma VersionNotPlain(f: File, v: string)
    requires Plain(f.name) && IsSnapshotTag(v)
    ensures !Plain(VersionFile(f, v).name)
  {
    SplitOfFullName(VersionedSSTable(f.name, v, 0));
  }

  /** A stored and unshadowed manifest of the snapshot. */
  lemma StoredManifest(w: World, k: SnapId) returns (m: ManifestId)
    requires ManifestsFine(w) && Held(w, k)
    ensures m in w.store.manifests && Key(m) == k && !Shadowed(w.store, m)
  {
    m :| m in w.store.manifests && Key(m) == k;
    if Shadowed(w.store, m) {
      m := m.(temporary := false);
    }
  }

  /** A path that stale manifests list is a path of a snapshot that they are of. */
  lemma StaleFacts(w: World, ms: set<ManifestId>, tags: set<string>, f: File) returns (m: ManifestId)
    requires SnapsFine(w) && ManifestsFine(w) && StaleLists(w.store, ms, tags, PathOf(f))
    ensures m in ms && m.tag in tags && m in w.store.manifests && f.dir.node.place == m.node.place
    ensures Plain(f.name) && (Tagged(f.name) ==> TaggedBy(m.tag, f.name))
  {
    m :| m in ms && m.tag in tags && m in w.store.manifests
         && PathOf(f) in ListedPaths(m.node.place, w.store.manifests[m]) + ScyllaPaths(m.node.place, w.store.manifests[m]);
    ListedFine(w, m, At(m.node.location, PathOf(f)));
  }

  lemma ListedFine(w: World, m: ManifestId, g: File)
    requires SnapsFine(w) && ManifestsFine(w) && m in w.store.manifests
    requires g in Listed(m.node, w.store.manifests[m]) + Scylla(m.node, w.store.manifests[m])
    ensures FileFine(Key(m), g)
  {
    assert ManifestFine(w, m);
    assert g in w.snaps[Key(m)];
  }

  /** The group holds an unshadowed manifest of a snapshot that is held where files are deleted, and when the purge
      does not pick the snapshot that manifest is kept. */
  lemma KeptInGroup(w: World, any: Node, ms: set<ManifestId>, tags: set<string>, oldest: Option<nat>, k: SnapId)
    returns (m: ManifestId)
    requires ManifestsFine(w) && Held(w, k) && Group(w.store, any, ms)
    requires !Picks(PurgeGroup(any, ms, tags, oldest), k)
    requires k.node.location == any.location && exists i :: i in ms && i.node.place == k.node.place
    ensures m in ms && m in w.store.manifests && Key(m) == k && m.tag !in tags
  {
    m := StoredManifest(w, k);
    var i :| i in ms && i.node.place == k.node.place;
    assert m.node == Node(any.location, i.node.place);
  }

  /** Its manifest takes its files out of the computed set. */
  lemma KeptProtects(
    w: World, any: Node, ms: set<ManifestId>, tags: set<string>, oldest: Option<nat>, k: SnapId, f: File)
    requires Inv(w) && Held(w, k) && Group(w.store, any, ms) && !Picks(PurgeGroup(any, ms, tags, oldest), k)
    requires k in w.snaps && f in w.snaps[k] && f.dir.node.location == any.location
    requires StaleLists(w.store, ms, tags, PathOf(f))
    ensures KeptLists(w.store, ms, tags, PathOf(f))
  {
    assert FileFine(k, f);
    var stale := StaleFacts(w, ms, tags, f);
    var m := KeptInGroup(w, any, ms, tags, oldest, k);
    assert Tagged(f.name) ==> k.tag == stale.tag;
    assert ManifestFine(w, m);
    assert f in Listed(m.node, w.store.manifests[m]);
  }

  /** The purge keeps the files of a snapshot that it does not pick. */
  lemma PurgeSparesFile(
    w: World, any: Node, ms: set<ManifestId>, tags: set<string>, oldest: Option<nat>, w': World, k: SnapId, f: File)
    requires Inv(w) && Purge(w, any, ms, tags, oldest, w') && Held(w, k)
    requires !Picks(PurgeGroup(any, ms, tags, oldest), k) && k in w.snaps && f in w.snaps[k] && f in w.store.files
    ensures f in w'.store.files
  {
    FileNotDeleted(w, any, ms, tags, oldest, k, f);
  }

  lemma FileNotDeleted(
    w: World, any: Node, ms: set<ManifestId>, tags: set<string>, oldest: Option<nat>, k: SnapId, f: File)
    requires Inv(w) && Held(w, k) && Group(w.store, any, ms) && !Picks(PurgeGroup(any, ms, tags, oldest), k)
    requires k in w.snaps && f in w.snaps[k]
    ensures !ToDelete(w.store, any, ms, tags, oldest, f)
  {
    UploadFacts(w, k, f);
    PlainNotOld(any.place, oldest, PathOf(f));
    if f.dir.node.location == any.location && StaleLists(w.store, ms, tags, PathOf(f)) {
      KeptProtects(w, any, ms, tags, oldest, k, f);
    }
  }

  lemma PlainNotOld(place: Place, oldest: Option<nat>, p: Path)
    requires Plain(p.name)
    ensures !OldVersion(place, oldest, p)
  {
  }

  lemma VersionNotListed(w: World, ms: set<ManifestId>, tags: set<string>, g: File)
    requires SnapsFine(w) && ManifestsFine(w) && !Plain(g.name)
    ensures !StaleLists(w.store, ms, tags, PathOf(g))
  {
    if StaleLists(w.store, ms, tags, PathOf(g)) {
      var _ := StaleFacts(w, ms, tags, g);
    }
  }

  /** The bound on kept tags is no later than a snapshot of `any` that the purge does not pick. */
  lemma OldestIsOlder(w: World, any: Node, ms: set<ManifestId>, tags: set<string>, oldest: Option<nat>, k: SnapId)
    requires ManifestsFine(w) && Held(w, k) && Group(w.store, any, ms) && OldestKept(w.store, any, tags, oldest)
    requires !Picks(PurgeGroup(any, ms, tags, oldest), k) && k.node == any && oldest.Some?
    ensures oldest.value <= Time(k.tag)
  {
    var m := KeptInGroup(w, any, ms, tags, oldest, k);
  }

  lemma VersionNotDeleted(
    w: World, any: Node, ms: set<ManifestId>, tags: set<string>, oldest: Option<nat>, k: SnapId, f: File, v: string)
    requires Inv(w) && Held(w, k) && Group(w.store, any, ms) && OldestKept(w.store, any, tags, oldest)
    requires !Picks(PurgeGroup(any, ms, tags, oldest), k) && k in w.snaps && f in w.snaps[k]
    requires SnapshotTagTime(v).Some? && Time(k.tag) < Time(v)
    ensures !ToDelete(w.store, any, ms, tags, oldest, VersionFile(f, v))
  {
    UploadFacts(w, k, f);
    VersionNotPlain(f, v);
    VersionNotListed(w, ms, tags, VersionFile(f, v));
    if k.node == any && oldest.Some? {
      OldestIsOlder(w, any, ms, tags, oldest, k);
      LaterNotOld(f, v, oldest.value, any.place);
    }
  }

  /** The purge keeps the versions that such a snapshot may read. */
  lemma PurgeSparesVersion(
    w: World, any: Node, ms: set<ManifestId>, tags: set<string>, oldest: Option<nat>, w': World, k: SnapId, f: File,
    v: string)
    requires Inv(w) && Purge(w, any, ms, tags, oldest, w') && Held(w, k)
    requires !Picks(PurgeGroup(any, ms, tags, oldest), k) && k in w.snaps && f in w.snaps[k]
    requires IsLater(w.store.files, f, Time(k.tag), v)
    ensures VersionFile(f, v) in w'.store.files
  {
    VersionNotDeleted(w, any, ms, tags, oldest, k, f, v);
  }

  lemma LaterNotOld(f: File, v: string, oldest: nat, place: Place)
    requires SnapshotTagTime(v).Some? && oldest < Time(v)
    ensures !OldVersion(place, Some(oldest), PathOf(VersionFile(f, v)))
  {
    SplitOfFullName(VersionedSSTable(f.name, v, 0));
  }

  lemma PurgeKeepsFile(
    w: World, any: Node, ms: set<ManifestId>, tags: set<string>, oldest: Option<nat>, w': World, k: SnapId, f: File)
    requires Inv(w) && Purge(w, any, ms, tags, oldest, w') && Held(w, k)
    requires !Picks(PurgeGroup(any, ms, tags, oldest), k) && ReadsBack(w, k, f)
    ensures ReadsBack(w', k, f)
  {
    if f in w.store.files {
      PurgeSparesFile(w, any, ms, tags, oldest, w', k, f);
    }
    forall v | IsLater(w.store.files, f, Time(k.tag), v) ensures VersionFile(f, v) in w'.store.files {
      PurgeSparesVersion(w, any, ms, tags, oldest, w', k, f, v);
    }
    if !Tagged(f.name) {
      SameVersionsResolve(w.store.files, w'.store.files, f, Time(k.tag), w.snaps[k][f]);
    }
  }

  lemma PurgeKeepsHeld(
    w: World, any: Node, ms: set<ManifestId>, tags: set<string>, oldest: Option<nat>, w': World, k: SnapId)
    requires Inv(w) && Purge(w, any, ms, tags, oldest, w') && Held(w, k)
    requires !Picks(PurgeGroup(any, ms, tags, oldest), k)
    ensures Held(w', k)
  {
    var m :| m in w.store.manifests && Key(m) == k;
    StaleIsPicked(any, ms, tags, oldest, m);
    assert m in w'.store.manifests;
  }

  lemma StaleIsPicked(any: Node, ms: set<ManifestId>, tags: set<string>, oldest: Option<nat>, m: ManifestId)
    ensures StaleManifest(ms, tags, m) ==> Picks(PurgeGroup(any, ms, tags, oldest), Key(m))
  {
    if StaleManifest(ms, tags, m) {
      var i :| i in ms && i.tag in tags && (m == i || m == Shadow(i));
      assert Key(i) == Key(m);
    }
  }

  // ---------- What a deletion of orphans spares ----------

  /** A held snapshot of the node has a manifest in the group, which lists its files. */
  lemma GroupListsHeld(w: World, any: Node, ms: set<ManifestId>, k: SnapId, f: File)
    requires Inv(w) && Held(w, k) && Group(w.store, any, ms) && k.node == any && k in w.snaps && f in w.snaps[k]
    ensures GroupLists(w.store, ms, PathOf(f))
  {
    var m := StoredManifest(w, k);
    var i :| i in ms && i.node == any;
    InGroup(w.store, any, ms, m, i);
    NamesOwn(w, m, f);
  }

  lemma InGroup(s: Store, any: Node, ms: set<ManifestId>, m: ManifestId, i: ManifestId)
    requires Group(s, any, ms) && m in s.manifests && !Shadowed(s, m)
    requires i in ms && m.node.location == any.location && m.node.place == i.node.place
    ensures m in ms
  {
    assert m.node == Node(any.location, i.node.place);
  }

  /** A manifest names all files of its snapshot. */
  lemma NamesOwn(w: World, m: ManifestId, f: File)
    requires ManifestsFine(w) && m in w.store.manifests && Key(m) in w.snaps && f in w.snaps[Key(m)]
    ensures PathOf(f) in ListedPaths(m.node.place, w.store.manifests[m]) + ScyllaPaths(m.node.place, w.store.manifests[m])
  {
    assert ManifestFine(w, m);
    assert f in Listed(m.node, w.store.manifests[m]) + Scylla(m.node, w.store.manifests[m]);
  }

  lemma DropKeepsFile(w: World, any: Node, ms: set<ManifestId>, gone: set<File>, w': World, k: SnapId, f: File)
    requires Inv(w) && Drop(w, any, ms, gone, w') && Held(w, k) && ReadsBack(w, k, f)
    ensures ReadsBack(w', k, f)
  {
    UploadFacts(w, k, f);
    if k.node == any {
      GroupListsHeld(w, any, ms, k, f);
    }
    forall v | IsLater(w.store.files, f, Time(k.tag), v) ensures VersionFile(f, v) in w'.store.files {
      VersionNotPlain(f, v);
    }
    if !Tagged(f.name) {
      SameVersionsResolve(w.store.files, w'.store.files, f, Time(k.tag), w.snaps[k][f]);
    }
  }

  // ---------- One action ----------

  lemma FinishKeepsHeld(w: World, i: ManifestId, copy: bool, w': World, k: SnapId)
    requires Finish(w, i, copy, w') && Held(w, k)
    ensures Held(w', k) && Held(w', Key(i))
  {
    var m :| m in w.store.manifests && Key(m) == k;
    assert m in w'.store.manifests || m == i;
    assert i.(temporary := false) in w'.store.manifests;
  }

  lemma RollbackKeepsHeld(w: World, i: ManifestId, w': World, k: SnapId)
    requires Rollback(w, i, w') && Held(w, k)
    ensures Held(w', k)
  {
    var m :| m in w.store.manifests && Key(m) == k;
    assert m in w'.store.manifests || m == i;
    assert Shadow(i) in w'.store.manifests;
  }

  lemma ActKeepsHeld(w: World, a: Action, w': World, k: SnapId)
    requires Inv(w) && Act(w, a, w') && Held(w, k) && !Picks(a, k)
    ensures Held(w', k)
  {
    if a.FinishBackup? || a.RollBackup? {
      MoveKeepsHeld(w, a, w', k);
    } else if a.PurgeGroup? {
      PurgeKeepsHeld(w, a.any, a.ms, a.tags, a.oldest, w', k);
    } else {
      OtherActKeepsManifests(w, a, w');
      MoreManifestsHeld(w, w', k);
    }
  }

  lemma MoveKeepsHeld(w: World, a: Action, w': World, k: SnapId)
    requires Act(w, a, w') && Held(w, k) && (a.FinishBackup? || a.RollBackup?)
    ensures Held(w', k)
  {
    if a.FinishBackup? {
      FinishKeepsHeld(w, a.m, a.copy, w', k);
    } else {
      RollbackKeepsHeld(w, a.m, w', k);
    }
  }

  lemma OtherActKeepsManifests(w: World, a: Action, w': World)
    requires Act(w, a, w') && (IsUpload(a) || a.BeginBackup? || a.DropOrphans?)
    ensures w.store.manifests.Keys <= w'.store.manifests.Keys
  {
  }

  lemma MoreManifestsHeld(w: World, w': World, k: SnapId)
    requires Held(w, k) && w.store.manifests.Keys <= w'.store.manifests.Keys
    ensures Held(w', k)
  {
    var m :| m in w.store.manifests && Key(m) == k;
    assert m in w'.store.manifests;
  }

  lemma SameFilesKeep(w: World, w': World, k: SnapId, f: File)
    requires ReadsBack(w, k, f) && w'.store.files == w.store.files && k in w'.snaps && w'.snaps[k] == w.snaps[k]
    ensures ReadsBack(w', k, f)
  {
  }

  lemma UploadActKeepsFile(w: World, a: Action, w': World, k: SnapId, f: File)
    requires Inv(w) && Act(w, a, w') && IsUpload(a) && ReadsBack(w, k, f)
    ensures ReadsBack(w', k, f)
  {
    match a
    case UploadFile(j, g) => UploadKeepsFile(w, j, g, w', k, f);
    case CopyFileAside(j, g) => CopyKeepsFile(w, j, g, w', k, f);
    case RemoveFileAside(j, g) => RemoveKeepsFile(w, j, g, w', k, f);
    case UploadScyllaFile(j, g) => ScyllaKeepsFile(w, j, g, w', k, f);
  }

  lemma ManifestActKeepsFile(w: World, a: Action, w': World, k: SnapId, f: File)
    requires Act(w, a, w') && (a.BeginBackup? || a.FinishBackup? || a.RollBackup?) && !Begins(a, k) && ReadsBack(w, k, f)
    ensures ReadsBack(w', k, f)
  {
    ManifestActSameFiles(w, a, w', k);
    SameFilesKeep(w, w', k, f);
  }

  lemma ManifestActSameFiles(w: World, a: Action, w': World, k: SnapId)
    requires Act(w, a, w') && (a.BeginBackup? || a.FinishBackup? || a.RollBackup?) && !Begins(a, k) && k in w.snaps
    ensures w'.store.files == w.store.files && k in w'.snaps && w'.snaps[k] == w.snaps[k]
  {
  }

  /** No action takes a file from a snapshot that it neither picks nor begins again: while a manifest of the snapshot is
      stored, a file that reads back goes on to read back. */
  lemma ActKeepsFile(w: World, a: Action, w': World, k: SnapId, f: File)
    requires Inv(w) && Act(w, a, w') && Held(w, k) && !Picks(a, k) && !Begins(a, k) && ReadsBack(w, k, f)
    ensures ReadsBack(w', k, f)
  {
    if IsUpload(a) {
      UploadActKeepsFile(w, a, w', k, f);
    } else if a.PurgeGroup? {
      PurgeKeepsFile(w, a.any, a.ms, a.tags, a.oldest, w', k, f);
    } else if a.DropOrphans? {
      DropKeepsFile(w, a.any, a.ms, a.gone, w', k, f);
    } else {
      ManifestActKeepsFile(w, a, w', k, f);
    }
  }

  lemma RecordStays(w: World, a: Action, w': World, k: SnapId)
    requires Act(w, a, w') && k in w.snaps
    ensures k in w'.snaps && (!Begins(a, k) ==> w'.snaps[k] == w.snaps[k])
  {
    if !a.BeginBackup? {
      SameSnaps(w, a, w');
    }
  }

  lemma SameSnaps(w: World, a: Action, w': World)
    requires Act(w, a, w') && !a.BeginBackup?
    ensures w'.snaps == w.snaps
    ensures forall k :: k in w.uploaded ==> k in w'.uploaded && w.uploaded[k] <= w'.uploaded[k]
  {
  }

  /** A snapshot that has uploaded an SSTable file has done so for good, and does not begin again. */
  lemma UploadedStays(w: World, a: Action, w': World, k: SnapId, f: File)
    requires SnapsFine(w) && Act(w, a, w') && k in w.uploaded && f in w.uploaded[k] && !Tagged(f.name)
    ensures !Begins(a, k) && k in w'.uploaded && f in w'.uploaded[k]
  {
    if a.BeginBackup? {
      UploadedIsBegun(w, a.m, k, f);
    } else {
      SameSnaps(w, a, w');
    }
  }

  lemma UploadedIsBegun(w: World, m: ManifestId, k: SnapId, f: File)
    requires SnapsFine(w) && MayBegin(w, m) && k in w.uploaded && f in w.uploaded[k] && !Tagged(f.name)
    ensures Key(m) != k
  {
    assert k in w.snaps;
  }

  /** A manifest of a known snapshot is stored only if one was before, unless the snapshot begins again. */
  lemma HeldBefore(w: World, a: Action, w': World, k: SnapId)
    requires Act(w, a, w') && Held(w', k) && !Begins(a, k)
    ensures Held(w, k)
  {
    var m :| m in w'.store.manifests && Key(m) == k;
    match a
    case FinishBackup(i, copy) => assert m in w.store.manifests || Key(m) == Key(i);
    case RollBackup(i) => assert m in w.store.manifests || Key(m) == Key(i);
    case _ => assert m in w.store.manifests;
  }

  // ---------- Whole runs ----------

  /** A run from the empty store: backups file by file, perhaps never finished, and purges of any tags. */
  ghost predicate Run(ws: seq<World>, actions: seq<Action>) {
    && |ws| == |actions| + 1
    && ws[0] == World(Store(map[], map[]), map[], map[])
    && forall i :: 0 <= i < |actions| ==> Act(ws[i], actions[i], ws[i+1])
  }

  lemma {:induction false} RunKeeps(ws: seq<World>, actions: seq<Action>, n: nat)
    requires Run(ws, actions) && n < |ws|
    ensures Inv(ws[n])
  {
    if n > 0 {
      RunKeeps(ws, actions, n - 1);
      ActKeeps(ws[n-1], actions[n-1], ws[n]);
    }
  }

  lemma RunSnoc(ws: seq<World>, actions: seq<Action>, last: World, a: Action, w: World)
    requires Run(ws, actions) && ws[|ws|-1] == last && Act(last, a, w)
    ensures Run(ws + [w], actions + [a])
  {
    var vs, bs := ws + [w], actions + [a];
    forall i | 0 <= i < |bs| ensures Act(vs[i], bs[i], vs[i+1]) {
      StepOfLonger(ws, actions, last, a, w, i);
    }
  }

  lemma StepOfLonger(ws: seq<World>, actions: seq<Action>, last: World, a: Action, w: World, i: nat)
    requires |ws| == |actions| + 1 && i <= |actions| && ws[|ws|-1] == last
    requires if i < |actions| then Act(ws[i], actions[i], ws[i+1]) else Act(last, a, w)
    ensures Act((ws + [w])[i], (actions + [a])[i], (ws + [w])[i+1])
  {
    var vs, bs := ws + [w], actions + [a];
    if i < |actions| {
      SameStep(ws[i], actions[i], ws[i+1], vs[i], bs[i], vs[i+1]);
    } else {
      SameStep(last, a, w, vs[i], bs[i], vs[i+1]);
    }
  }

  lemma SameStep(w: World, a: Action, w': World, v: World, b: Action, v': World)
    requires Act(w, a, w') && v == w && b == a && v' == w'
    ensures Act(v, b, v')
  {
  }

  /** No purge picks the snapshot from step `i` to before step `n`. */
  ghost predicate Unpicked(actions: seq<Action>, i: nat, n: nat, k: SnapId)
    requires n <= |actions|
  {
    forall j :: i <= j < n ==> !Picks(actions[j], k)
  }

  /** The snapshot does not begin, or begin again. */
  predicate NotBegun(actions: seq<Action>, i: nat, n: nat, k: SnapId)
    requires n <= |actions|
  {
    forall j :: i <= j < n ==> !Begins(actions[j], k)
  }

  lemma {:induction false} HeldStays(ws: seq<World>, actions: seq<Action>, i: nat, n: nat, k: SnapId)
    requires Run(ws, actions) && i <= n < |ws| && Unpicked(actions, i, n, k) && Held(ws[i], k)
    ensures Held(ws[n], k)
    decreases n - i
  {
    if i < n {
      HeldStays(ws, actions, i, n - 1, k);
      RunKeeps(ws, actions, n - 1);
      ActKeepsHeld(ws[n-1], actions[n-1], ws[n], k);
    }
  }

  lemma {:induction false} WasHeld(ws: seq<World>, actions: seq<Action>, i: nat, n: nat, k: SnapId)
    requires Run(ws, actions) && i <= n < |ws| && NotBegun(actions, i, n, k) && Held(ws[n], k)
    ensures Held(ws[i], k)
    decreases n - i
  {
    if i < n {
      HeldBefore(ws[n-1], actions[n-1], ws[n], k);
      WasHeld(ws, actions, i, n - 1, k);
    }
  }

  lemma {:induction false} FileStays(ws: seq<World>, actions: seq<Action>, i: nat, n: nat, k: SnapId, f: File)
    requires Run(ws, actions) && i <= n < |ws| && Unpicked(actions, i, n, k) && NotBegun(actions, i, n, k)
    requires Held(ws[i], k) && ReadsBack(ws[i], k, f)
    ensures ReadsBack(ws[n], k, f)
    decreases n - i
  {
    if i < n {
      FileStays(ws, actions, i, n - 1, k, f);
      HeldStays(ws, actions, i, n - 1, k);
      RunKeeps(ws, actions, n - 1);
      ActKeepsFile(ws[n-1], actions[n-1], ws[n], k, f);
    }
  }

  /** What a snapshot held stays on record until it begins again. */
  lemma RecordsStay(ws: seq<World>, actions: seq<Action>, i: nat, n: nat, k: SnapId)
    requires Run(ws, actions) && i <= n < |ws| && k in ws[i].snaps
    ensures k in ws[n].snaps && (NotBegun(actions, i, n, k) ==> ws[n].snaps[k] == ws[i].snaps[k])
  {
    KnownStays(ws, actions, i, n, k);
    if NotBegun(actions, i, n, k) {
      SameRecord(ws, actions, i, n, k);
    }
  }

  lemma {:induction false} KnownStays(ws: seq<World>, actions: seq<Action>, i: nat, n: nat, k: SnapId)
    requires Run(ws, actions) && i <= n < |ws| && k in ws[i].snaps
    ensures k in ws[n].snaps
    decreases n - i
  {
    if i < n {
      KnownStays(ws, actions, i, n - 1, k);
      RecordStaysOnce(ws, actions, n - 1, k);
    }
  }

  lemma {:induction false} SameRecord(ws: seq<World>, actions: seq<Action>, i: nat, n: nat, k: SnapId)
    requires Run(ws, actions) && i <= n < |ws| && k in ws[i].snaps && NotBegun(actions, i, n, k)
    ensures k in ws[n].snaps && ws[n].snaps[k] == ws[i].snaps[k]
    decreases n - i
  {
    if i < n {
      SameRecord(ws, actions, i, n - 1, k);
      RecordStaysOnce(ws, actions, n - 1, k);
    }
  }

  lemma RecordStaysOnce(ws: seq<World>, actions: seq<Action>, n: nat, k: SnapId)
    requires Run(ws, actions) && n < |actions| && k in ws[n].snaps
    ensures k in ws[n+1].snaps && (!Begins(actions[n], k) ==> ws[n+1].snaps[k] == ws[n].snaps[k])
  {
    RunKeeps(ws, actions, n);
    RecordStays(ws[n], actions[n], ws[n+1], k);
  }

  lemma {:induction false} UploadedNotBegun(ws: seq<World>, actions: seq<Action>, i: nat, n: nat, k: SnapId, f: File)
    requires Run(ws, actions) && i <= n < |ws| && !Tagged(f.name)
    requires k in ws[i].uploaded && f in ws[i].uploaded[k]
    ensures NotBegun(actions, i, n, k) && k in ws[n].uploaded && f in ws[n].uploaded[k]
    decreases n - i
  {
    if i < n {
      UploadedNotBegun(ws, actions, i, n - 1, k, f);
      UploadedStaysOnce(ws, actions, n - 1, k, f);
    }
  }

  lemma UploadedStaysOnce(ws: seq<World>, actions: seq<Action>, n: nat, k: SnapId, f: File)
    requires Run(ws, actions) && n < |actions| && k in ws[n].uploaded && f in ws[n].uploaded[k] && !Tagged(f.name)
    ensures !Begins(actions[n], k) && k in ws[n+1].uploaded && f in ws[n+1].uploaded[k]
  {
    RunKeeps(ws, actions, n);
    UploadedStays(ws[n], actions[n], ws[n+1], k, f);
  }

  /** Over every run of backups, purges and validations: an SSTable file that a snapshot uploaded at step `j` restores, as
      long as a manifest of the snapshot is stored and no purge has picked it since, to the content that the file had
      when the snapshot was begun, at step `i` for the last time before. */
  lemma KeptSnapshotsRestore(ws: seq<World>, actions: seq<Action>, i: nat, j: nat, n: nat, m: ManifestId, f: File)
    requires Run(ws, actions) && i < j < n < |ws|
    requires Begins(actions[i], Key(m)) && NotBegun(actions, i + 1, j, Key(m)) && actions[j] == UploadFile(Key(m), f)
    requires m in ws[n].store.manifests && Unpicked(actions, j + 1, n, Key(m))
    ensures f in actions[i].contents && Resolves(ws[n].store.files, f, Time(m.tag), actions[i].contents[f])
  {
    var k := Key(m);
    BegunFacts(ws, actions, i, j, k);
    UploadedAt(ws, actions, j, k, f);
    UploadedNotBegun(ws, actions, j + 1, n, k, f);
    RecordsStay(ws, actions, j, n, k);
    assert Held(ws[n], k);
    WasHeld(ws, actions, j + 1, n, k);
    FileStays(ws, actions, j + 1, n, k, f);
    assert NotBegun(actions, j, n, k);
  }

  lemma UploadedAt(ws: seq<World>, actions: seq<Action>, j: nat, k: SnapId, f: File)
    requires Run(ws, actions) && j < |actions|
    requires actions[j] == UploadFile(k, f) || actions[j] == UploadScyllaFile(k, f)
    ensures k in ws[j+1].uploaded && f in ws[j+1].uploaded[k] && ReadsBack(ws[j+1], k, f)
    ensures Tagged(f.name) <==> actions[j].UploadScyllaFile?
  {
    RunKeeps(ws, actions, j);
    assert Act(ws[j], actions[j], ws[j+1]);
    if actions[j].UploadFile? {
      UploadReadsBack(ws[j], k, f, ws[j+1]);
    }
  }

  lemma BegunFacts(ws: seq<World>, actions: seq<Action>, i: nat, n: nat, k: SnapId)
    requires Run(ws, actions) && i < n < |ws| && Begins(actions[i], k) && NotBegun(actions, i + 1, n, k)
    ensures k in ws[n].snaps && ws[n].snaps[k] == actions[i].contents
  {
    assert Act(ws[i], actions[i], ws[i+1]);
    RecordsStay(ws, actions, i + 1, n, k);
  }

  /** The same for a Scylla manifest, which no kept manifest protects: it is stored as it was uploaded. */
  lemma ScyllaManifestsStay(ws: seq<World>, actions: seq<Action>, i: nat, j: nat, n: nat, m: ManifestId, f: File)
    requires Run(ws, actions) && i < j < n < |ws|
    requires Begins(actions[i], Key(m)) && NotBegun(actions, i + 1, n, Key(m))
    requires actions[j] == UploadScyllaFile(Key(m), f)
    requires m in ws[n].store.manifests && Unpicked(actions, j + 1, n, Key(m))
    ensures f in actions[i].contents && f in ws[n].store.files && ws[n].store.files[f] == actions[i].contents[f]
  {
    var k := Key(m);
    BegunFacts(ws, actions, i, n, k);
    UploadedAt(ws, actions, j, k, f);
    assert Held(ws[n], k);
    WasHeld(ws, actions, j + 1, n, k);
    FileStays(ws, actions, j + 1, n, k, f);
  }

  // ---------- Snapshots whatever was uploaded of them ----------

  /** Every SSTable file that the snapshot held restores. */
  ghost predicate Restorable(w: World, k: SnapId)
    requires k in w.snaps
  {
    forall f :: f in w.snaps[k] && !Tagged(f.name) ==> Resolves(w.store.files, f, Time(k.tag), w.snaps[k][f])
  }

  /** Every SSTable file that the snapshot held is stored under its name, as it was. */
  predicate AllThere(w: World, k: SnapId)
    requires k in w.snaps
  {
    forall f :: f in w.snaps[k] && !Tagged(f.name) ==> f in w.store.files && w.store.files[f] == w.snaps[k][f]
  }

  /** Neither picked by a purge nor begun again. */
  ghost predicate LeftAlone(actions: seq<Action>, i: nat, n: nat, k: SnapId)
    requires n <= |actions|
  {
    Unpicked(actions, i, n, k) && NotBegun(actions, i, n, k)
  }

  lemma RestorableStays(ws: seq<World>, actions: seq<Action>, i: nat, n: nat, k: SnapId)
    requires Run(ws, actions) && i <= n < |ws| && Held(ws[i], k) && k in ws[i].snaps && Restorable(ws[i], k)
    requires LeftAlone(actions, i, n, k)
    ensures k in ws[n].snaps && Restorable(ws[n], k)
  {
    RecordsStay(ws, actions, i, n, k);
    forall f | f in ws[n].snaps[k] && !Tagged(f.name)
      ensures Resolves(ws[n].store.files, f, Time(k.tag), ws[n].snaps[k][f])
    {
      FileStays(ws, actions, i, n, k, f);
    }
  }

  /** Restorable after step `i` means restorable until a purge picks the snapshot, and only then. */
  lemma RestorableUntilPicked(ws: seq<World>, actions: seq<Action>, i: nat, k: SnapId)
    requires Run(ws, actions) && i < |ws| && Held(ws[i], k)
    ensures k in ws[i].snaps && forall n :: i <= n < |ws| ==> k in ws[n].snaps
    ensures Restorable(ws[i], k) <==>
              forall n :: i <= n < |ws| && LeftAlone(actions, i, n, k) ==> Restorable(ws[n], k)
  {
    RunKeeps(ws, actions, i);
    var m :| m in ws[i].store.manifests && Key(m) == k;
    assert ManifestFine(ws[i], m);
    forall n | i <= n < |ws| ensures k in ws[n].snaps {
      RecordsStay(ws, actions, i, n, k);
    }
    if Restorable(ws[i], k) {
      forall n | i <= n < |ws| && LeftAlone(actions, i, n, k) ensures Restorable(ws[n], k) {
        RestorableStays(ws, actions, i, n, k);
      }
    }
    assert LeftAlone(actions, i, i, k);
  }

  /** The newest snapshot of a node is restorable if and only if all its SSTable files are stored as they were. */
  lemma NewestIsRestorable(w: World, k: SnapId)
    requires Inv(w) && IsNewest(w, k)
    ensures Restorable(w, k) <==> AllThere(w, k)
  {
    forall f | f in w.snaps[k] && !Tagged(f.name)
      ensures Resolves(w.store.files, f, Time(k.tag), w.snaps[k][f]) <==>
                f in w.store.files && w.store.files[f] == w.snaps[k][f]
    {
      UploadFacts(w, k, f);
      AllVersionsOld(w, k, f);
      NewestReads(w.store.files, f, Time(k.tag));
    }
  }

  /** A snapshot finished at step `i`, whatever was uploaded of it and whatever purges did before, restores in every
      later state, until a purge picks it or it begins again, if and only if it is restorable when its manifest is moved;
      and if it is the newest of its node, that means that all its SSTable files are stored as they were. */
  lemma FinishExact(ws: seq<World>, actions: seq<Action>, i: nat)
    requires Run(ws, actions) && i < |actions| && actions[i].FinishBackup?
    ensures var k := Key(actions[i].m);
      && k in ws[i].snaps && (forall n :: i < n < |ws| ==> k in ws[n].snaps)
      && (Restorable(ws[i], k) <==>
            forall n :: i < n < |ws| && LeftAlone(actions, i + 1, n, k) ==> Restorable(ws[n], k))
      && (IsNewest(ws[i], k) ==> (Restorable(ws[i], k) <==> AllThere(ws[i], k)))
  {
    var k := Key(actions[i].m);
    FinishedAt(ws, actions, i);
    RestorableUntilPicked(ws, actions, i + 1, k);
    if IsNewest(ws[i], k) {
      RunKeeps(ws, actions, i);
      NewestIsRestorable(ws[i], k);
    }
  }

  lemma FinishedAt(ws: seq<World>, actions: seq<Action>, i: nat)
    requires Run(ws, actions) && i < |actions| && actions[i].FinishBackup?
    ensures var k := Key(actions[i].m);
      && k in ws[i].snaps && k in ws[i+1].snaps && Held(ws[i+1], k)
      && (Restorable(ws[i+1], k) <==> Restorable(ws[i], k))
  {
    var m, k := actions[i].m, Key(actions[i].m);
    RunKeeps(ws, actions, i);
    assert Act(ws[i], actions[i], ws[i+1]);
    assert ManifestFine(ws[i], m);
    assert Held(ws[i], k);
    FinishKeepsHeld(ws[i], m, actions[i].copy, ws[i+1], k);
  }

  /** A purge stopped after deleting the file of a running backup, and the backup then finished without uploading it
      again: its complete manifest is stored and lists a file that is not. */
  lemma FinishedWithoutItsFile(node: Node, tag: string)
    returns (ws: seq<World>, actions: seq<Action>, m: ManifestId, f: File)
    requires SnapshotTagTime(tag).Some?
    ensures Run(ws, actions) && |actions| == 4
    ensures actions[0].BeginBackup? && actions[1].UploadFile? && actions[2].PurgeGroup? && actions[3].FinishBackup?
    ensures m in ws[4].store.manifests && !m.temporary && f in Listed(m.node, ws[4].store.manifests[m])
    ensures f !in ws[4].store.files && Key(m) in ws[4].snaps && !Restorable(ws[4], Key(m))
  {
    var temp, fm := ManifestId(node, "t", tag, true), FilesMeta("ks/t/v", ["a"], []);
    m := temp.(temporary := false);
    f := At(node.location, Path(Dir(node.place, "ks/t/v"), "a"));
    OneFile(node, tag, fm, f);
    var k := Key(m);
    var snaps, ms := map[k := map[f := 0]], map[temp := [fm]];
    var w0 := World(Store(map[], map[]), map[], map[]);
    var w1 := World(Store(map[], ms), snaps, map[k := {}]);
    var w2 := World(Store(map[f := 0], ms), snaps, map[k := {f}]);
    var w3 := World(Store(map[], ms), snaps, map[k := {f}]);
    var w4 := World(Store(map[], map[m := [fm]]), snaps, map[k := {f}]);
    var vs, bs := FirstHalf(temp, [fm], f, w0, w1, w2);
    ws, actions := SecondHalf(node, tag, temp, fm, f, vs, bs, w2, w3, w4);
    FileOfFinished(m, [fm], f, w4);
  }

  /** A backup that was stopped while uploading, lost its local snapshot to another one's, and is resumed: with nothing to
      upload its manifest is moved.  No purge picks it, its manifest is complete, and the file it lists was never stored. */
  lemma FinishedWithoutUpload(node: Node, tag: string)
    returns (ws: seq<World>, actions: seq<Action>, m: ManifestId, f: File)
    requires SnapshotTagTime(tag).Some?
    ensures Run(ws, actions) && |actions| == 2 && actions[0].BeginBackup? && actions[1].FinishBackup?
    ensures Unpicked(actions, 0, 2, Key(m)) && m in ws[2].store.manifests && !m.temporary
    ensures f in Listed(m.node, ws[2].store.manifests[m]) && f !in ws[2].store.files
    ensures Key(m) in ws[2].snaps && !Restorable(ws[2], Key(m))
  {
    var temp, fm := ManifestId(node, "t", tag, true), FilesMeta("ks/t/v", ["a"], []);
    m := temp.(temporary := false);
    f := At(node.location, Path(Dir(node.place, "ks/t/v"), "a"));
    OneFile(node, tag, fm, f);
    var k := Key(m);
    var snaps := map[k := map[f := 0]];
    var w0 := World(Store(map[], map[]), map[], map[]);
    var w1 := World(Store(map[], map[temp := [fm]]), snaps, map[k := {}]);
    var w2 := World(Store(map[], map[m := [fm]]), snaps, map[k := {}]);
    ws, actions := BeginAndFinish(temp, [fm], f, w0, w1, w2);
    FileOfFinished(m, [fm], f, w2);
  }

  lemma BeginAndFinish(m: ManifestId, ix: Index, f: File, w0: World, w1: World, w2: World)
    returns (ws: seq<World>, actions: seq<Action>)
    requires m.temporary && SnapshotTagTime(m.tag).Some? && FineNames(m.tag, ix)
    requires Listed(m.node, ix) == {f} && Scylla(m.node, ix) == {} && !Tagged(f.name)
    requires w0 == World(Store(map[], map[]), map[], map[])
    requires w1 == World(Store(map[], map[m := ix]), map[Key(m) := map[f := 0]], map[Key(m) := {}])
    requires w2 == World(Store(map[], map[m.(temporary := false) := ix]), map[Key(m) := map[f := 0]], map[Key(m) := {}])
    ensures Run(ws, actions) && |ws| == 3 && ws[2] == w2 && !Restorable(w2, Key(m))
    ensures actions == [BeginBackup(m, ix, map[f := 0]), FinishBackup(m, false)]
  {
    NoSteps(w0);
    FirstStep(m, ix, f, w0, w1);
    LastStep(m, ix, f, w1, w2);
    ws, actions := TwoSteps([w0], [], w0, BeginBackup(m, ix, map[f := 0]), w1, FinishBackup(m, false), w2);
  }

  lemma FirstHalf(m: ManifestId, ix: Index, f: File, w0: World, w1: World, w2: World)
    returns (ws: seq<World>, actions: seq<Action>)
    requires m.temporary && SnapshotTagTime(m.tag).Some? && FineNames(m.tag, ix)
    requires Listed(m.node, ix) == {f} && Scylla(m.node, ix) == {} && !Tagged(f.name)
    requires w0 == World(Store(map[], map[]), map[], map[])
    requires w1 == World(Store(map[], map[m := ix]), map[Key(m) := map[f := 0]], map[Key(m) := {}])
    requires w2 == World(Store(map[f := 0], map[m := ix]), map[Key(m) := map[f := 0]], map[Key(m) := {f}])
    ensures Run(ws, actions) && |ws| == 3 && ws[2] == w2
    ensures actions == [BeginBackup(m, ix, map[f := 0]), UploadFile(Key(m), f)]
  {
    NoSteps(w0);
    FirstStep(m, ix, f, w0, w1);
    SecondStep(m, ix, f, w1, w2);
    ws, actions := TwoSteps([w0], [], w0, BeginBackup(m, ix, map[f := 0]), w1, UploadFile(Key(m), f), w2);
  }

  lemma SecondHalf(node: Node, tag: string, temp: ManifestId, fm: FilesMeta, f: File, vs: seq<World>, bs: seq<Action>,
                   w2: World, w3: World, w4: World)
    returns (ws: seq<World>, actions: seq<Action>)
    requires Run(vs, bs) && |vs| == 3 && vs[2] == w2
    requires temp == ManifestId(node, "t", tag, true) && Listed(node, [fm]) == {f} && !Tagged(f.name)
    requires w2 == World(Store(map[f := 0], map[temp := [fm]]), map[Key(temp) := map[f := 0]], map[Key(temp) := {f}])
    requires w3 == World(Store(map[], map[temp := [fm]]), map[Key(temp) := map[f := 0]], map[Key(temp) := {f}])
    requires w4 == World(Store(map[], map[temp.(temporary := false) := [fm]]), map[Key(temp) := map[f := 0]], map[Key(temp) := {f}])
    ensures Run(ws, actions) && |ws| == 5 && ws[4] == w4 && !Restorable(w4, Key(temp))
    ensures actions == bs + [PurgeGroup(node, {temp}, {tag}, None), FinishBackup(temp, false)]
  {
    StoppedPurge(node, tag, temp, fm, f, w2, w3);
    LastStep(temp, [fm], f, w3, w4);
    ws, actions := TwoSteps(vs, bs, w2, PurgeGroup(node, {temp}, {tag}, None), w3, FinishBackup(temp, false), w4);
  }

  lemma NoSteps(w: World)
    requires w == World(Store(map[], map[]), map[], map[])
    ensures Run([w], [])
  {
  }

  lemma TwoSteps(ws: seq<World>, actions: seq<Action>, last: World, a: Action, w: World, b: Action, v: World)
    returns (ws': seq<World>, actions': seq<Action>)
    requires Run(ws, actions) && ws[|ws|-1] == last && Act(last, a, w) && Act(w, b, v)
    ensures ws' == ws + [w, v] && actions' == actions + [a, b] && Run(ws', actions')
  {
    RunSnoc(ws, actions, last, a, w);
    RunSnoc(ws + [w], actions + [a], w, b, v);
    ws', actions' := ws + [w, v], actions + [a, b];
    assert ws + [w] + [v] == ws' && actions + [a] + [b] == actions';
  }

  lemma FileOfFinished(m: ManifestId, ix: Index, f: File, w4: World)
    requires Listed(m.node, ix) == {f} && w4.store == Store(map[], map[m := ix])
    ensures m in w4.store.manifests && f in Listed(m.node, w4.store.manifests[m]) && f !in w4.store.files
  {
  }

  lemma FirstStep(m: ManifestId, ix: Index, f: File, w0: World, w1: World)
    requires m.temporary && SnapshotTagTime(m.tag).Some? && FineNames(m.tag, ix)
    requires Listed(m.node, ix) == {f} && Scylla(m.node, ix) == {}
    requires w0 == World(Store(map[], map[]), map[], map[])
    requires w1 == World(Store(map[], map[m := ix]), map[Key(m) := map[f := 0]], map[Key(m) := {}])
    ensures Act(w0, BeginBackup(m, ix, map[f := 0]), w1)
  {
    assert Begin(w0, m, ix, map[f := 0], w1);
  }

  lemma SecondStep(m: ManifestId, ix: Index, f: File, w1: World, w2: World)
    requires !Tagged(f.name)
    requires w1 == World(Store(map[], map[m := ix]), map[Key(m) := map[f := 0]], map[Key(m) := {}])
    requires w2 == World(Store(map[f := 0], map[m := ix]), map[Key(m) := map[f := 0]], map[Key(m) := {f}])
    ensures Act(w1, UploadFile(Key(m), f), w2)
  {
    assert IsNewest(w1, Key(m));
    assert w1.uploaded[Key(m)] + {f} == {f};
    assert w1.uploaded[Key(m) := {f}] == w2.uploaded;
    assert Put(w1.store.files, f, 0, m.tag) == w2.store.files;
    assert Upload(w1, Key(m), f, w2);
  }

  lemma LastStep(m: ManifestId, ix: Index, f: File, w3: World, w4: World)
    requires m.temporary && !Tagged(f.name)
    requires w3.store == Store(map[], map[m := ix]) && w3.snaps == map[Key(m) := map[f := 0]]
    requires w4 == w3.(store := Store(map[], map[m.(temporary := false) := ix]))
    ensures Act(w3, FinishBackup(m, false), w4) && !Restorable(w4, Key(m))
  {
    var c := m.(temporary := false);
    assert map[m := ix][c := ix] - {m} == map[c := ix];
    assert Finish(w3, m, false, w4);
    assert !exists v :: IsLater(w4.store.files, f, Time(m.tag), v);
    assert !Resolves(w4.store.files, f, Time(m.tag), 0);
  }

  lemma PlainLetter()
    ensures Plain("a") && !Tagged("a")
  {
    assert Ext("a") == "" by { assert "a"[..0] == ""; }
  }

  lemma OneFile(node: Node, tag: string, fm: FilesMeta, f: File)
    requires fm == FilesMeta("ks/t/v", ["a"], []) && f == At(node.location, Path(Dir(node.place, "ks/t/v"), "a"))
    ensures Listed(node, [fm]) == {f} && Scylla(node, [fm]) == {} && FineNames(tag, [fm]) && !Tagged(f.name)
  {
    OneListed(node, fm, f);
    NoneScylla(node, fm);
    OneFineName(tag, fm);
    PlainLetter();
  }

  lemma OneFineName(tag: string, fm: FilesMeta)
    requires fm == FilesMeta("ks/t/v", ["a"], [])
    ensures FineNames(tag, [fm])
  {
    PlainLetter();
  }

  lemma OneListed(node: Node, fm: FilesMeta, f: File)
    requires fm == FilesMeta("ks/t/v", ["a"], []) && f == At(node.location, Path(Dir(node.place, "ks/t/v"), "a"))
    ensures Listed(node, [fm]) == {f}
  {
    OnePath(node.place, fm);
    RemoteOne(node.location, PathOf(f));
  }

  lemma RemoteOne(location: string, p: Path)
    ensures Remote(location, {p}) == {At(location, p)}
  {
    forall g ensures g in Remote(location, {p}) <==> g == At(location, p) {
      assert g == At(g.dir.node.location, PathOf(g));
    }
  }

  lemma NoneScylla(node: Node, fm: FilesMeta)
    requires fm.scyllaManifests == []
    ensures Scylla(node, [fm]) == {}
  {
    assert [fm][..0] == [];
    assert ScyllaIn(node.place, fm) == {};
  }

  lemma OnePath(place: Place, fm: FilesMeta)
    requires fm == FilesMeta("ks/t/v", ["a"], [])
    ensures ListedPaths(place, [fm]) == {Path(Dir(place, "ks/t/v"), "a")}
  {
    assert [fm][..0] == [];
    var p := Path(Dir(place, "ks/t/v"), "a");
    forall q ensures q in ListedIn(place, fm) <==> q == p {
      assert q == Path(q.dir, q.name);
    }
  }

  lemma StoppedPurge(node: Node, tag: string, temp: ManifestId, fm: FilesMeta, f: File, w: World, w': World)
    requires temp == ManifestId(node, "t", tag, true) && Listed(node, [fm]) == {f}
    requires w.store == Store(map[f := 0], map[temp := [fm]]) && w' == w.(store := Store(map[], map[temp := [fm]]))
    ensures Purge(w, node, {temp}, {tag}, None, w')
  {
    assert f in Listed(node, [fm]);
    OnlyStale(w.store, temp, tag, f);
    assert Group(w.store, node, {temp});
    assert ToDelete(w.store, node, {temp}, {tag}, None, f);
  }

  lemma OnlyStale(s: Store, temp: ManifestId, tag: string, f: File)
    requires temp.tag == tag && temp in s.manifests && f in Listed(temp.node, s.manifests[temp])
    ensures StaleLists(s, {temp}, {tag}, PathOf(f)) && !KeptLists(s, {temp}, {tag}, PathOf(f))
  {
    assert temp in {temp};
  }

  // ---------- Which actions there are ----------

  /** Of the newest backup of a node every SSTable file can be uploaded; where it would overwrite other content, the upload
      can also stop after the copy, and when there is a copy after the removal. */
  lemma UploadsHappen(w: World, k: SnapId, f: File)
    requires IsNewest(w, k) && k in w.uploaded && f in w.snaps[k] && !Tagged(f.name)
    ensures exists w' :: Act(w, UploadFile(k, f), w') && f in w'.store.files && w'.store.files[f] == w.snaps[k][f]
    ensures (exists w' :: Act(w, CopyFileAside(k, f), w')) <==> f in w.store.files && w.store.files[f] != w.snaps[k][f]
    ensures (exists w' :: Act(w, RemoveFileAside(k, f), w')) <==>
              f in w.store.files && w.store.files[f] != w.snaps[k][f] && VersionFile(f, k.tag) in w.store.files
  {
    var files := Put(w.store.files, f, w.snaps[k][f], k.tag);
    var w' := w.(store := w.store.(files := files), uploaded := w.uploaded[k := w.uploaded[k] + {f}]);
    assert Act(w, UploadFile(k, f), w') && f in files && files[f] == w.snaps[k][f];
    if f in w.store.files && w.store.files[f] != w.snaps[k][f] {
      var copied := w.store.files[VersionFile(f, k.tag) := w.store.files[f]];
      assert Act(w, CopyFileAside(k, f), w.(store := w.store.(files := copied)));
      if VersionFile(f, k.tag) in w.store.files {
        assert Act(w, RemoveFileAside(k, f), w.(store := w.store.(files := w.store.files - {f})));
      }
    }
  }

  /** Scylla manifests can be uploaded for any snapshot, and manifests be moved there and back whatever was uploaded. */
  lemma ManifestsMove(w: World, m: ManifestId, f: File)
    requires m in w.store.manifests && m.temporary
    ensures exists w' :: Act(w, FinishBackup(m, false), w') && m !in w'.store.manifests
                         && m.(temporary := false) in w'.store.manifests
    ensures exists w' :: Act(w, FinishBackup(m, true), w') && m in w'.store.manifests
                         && m.(temporary := false) in w'.store.manifests
    ensures Key(m) in w.snaps && Key(m) in w.uploaded && f in w.snaps[Key(m)] && Tagged(f.name) ==>
              exists w' :: Act(w, UploadScyllaFile(Key(m), f), w') && f in w'.store.files
                           && w'.store.files[f] == w.snaps[Key(m)][f]
  {
    var ms := w.store.manifests[m.(temporary := false) := w.store.manifests[m]];
    assert Act(w, FinishBackup(m, false), w.(store := w.store.(manifests := ms - {m})));
    assert Act(w, FinishBackup(m, true), w.(store := w.store.(manifests := ms)));
    var k := Key(m);
    if k in w.snaps && k in w.uploaded && f in w.snaps[k] && Tagged(f.name) {
      var w' := w.(store := w.store.(files := w.store.files[f := w.snaps[k][f]]), uploaded := w.uploaded[k := w.uploaded[k] + {f}]);
      assert Act(w, UploadScyllaFile(k, f), w');
    }
  }

  // ---------- What the restore code does with it ----------

  /** The listing of a directory: every file of it and nothing else. */
  ghost predicate Listing(files: map<File, Content>, dir: NodeDir, items: seq<Item>) {
    forall n :: (exists item :: item in items && item.name == n) <==> File(dir, n) in files
  }

  lemma RestoreReadsVersion(files: map<File, Content>, f: File, restore: TagTime, c: Content, items: seq<Item>,
                            choice: Option<VersionedSSTable>, v: string)
    requires Listing(files, f.dir, items) && Plain(f.name) && !HasSuffix(f.name, SCYLLA_MANIFEST)
    requires IsLater(files, f, restore, v) && files[VersionFile(f, v)] == c
    requires forall u :: IsLater(files, f, restore, u) ==> Time(v) <= Time(u)
    requires Chosen(VersionsOf(items, f.name), restore, choice)
    ensures choice.Some? && choice.value in VersionsOf(items, f.name) && choice.value.version == v
  {
    var e := ListedVersion(files, f, items, v);
    ChosenLater(VersionsOf(items, f.name), restore, choice, e);
    ChosenIsStored(files, f, items, choice.value);
    SameTimeSameVersion(files, f, restore, v, choice.value.version);
  }

  lemma ChosenLater(versions: seq<VersionedSSTable>, restore: TagTime, choice: Option<VersionedSSTable>, e: VersionedSSTable)
    requires Chosen(versions, restore, choice) && e in versions && Later(e, restore)
    ensures choice.Some? && choice.value in versions && Later(choice.value, restore)
    ensures Time(choice.value.version) <= Time(e.version)
  {
  }

  lemma SameTimeSameVersion(files: map<File, Content>, f: File, restore: TagTime, v: string, u: string)
    requires IsLater(files, f, restore, v)
    requires forall u :: IsLater(files, f, restore, u) ==> Time(v) <= Time(u)
    requires SnapshotTagTime(u).Some? && SnapshotTagTime(u).value > restore && VersionFile(f, u) in files
    requires Time(u) <= Time(v)
    ensures u == v
  {
    assert IsLater(files, f, restore, u);
    TagOrder(v, u);
  }

  lemma RestoreReadsNewest(files: map<File, Content>, f: File, restore: TagTime, items: seq<Item>,
                           choice: Option<VersionedSSTable>)
    requires Listing(files, f.dir, items) && Plain(f.name) && !HasSuffix(f.name, SCYLLA_MANIFEST)
    requires f in files && forall v :: !IsLater(files, f, restore, v)
    requires Chosen(VersionsOf(items, f.name), restore, choice)
    ensures choice.Some? && choice.value in VersionsOf(items, f.name) && choice.value.version == ""
  {
    forall e | e in VersionsOf(items, f.name) ensures !Later(e, restore) {
      ChosenIsStored(files, f, items, e);
      assert !IsLater(files, f, restore, e.version);
    }
    assert VersionFile(f, "") == f;
    var e := ListedVersion(files, f, items, "");
  }

  /** The version chosen for `f` by the restore code is the name of a stored file with the content `c`. */
  lemma RestoreReads(files: map<File, Content>, f: File, restore: TagTime, c: Content, items: seq<Item>,
                     choice: Option<VersionedSSTable>)
    requires Listing(files, f.dir, items) && Plain(f.name) && !HasSuffix(f.name, SCYLLA_MANIFEST)
    requires Resolves(files, f, restore, c)
    requires Chosen(VersionsOf(items, f.name), restore, choice)
    ensures choice.Some? && File(f.dir, FullName(choice.value)) in files
    ensures files[File(f.dir, FullName(choice.value))] == c
  {
    if exists v :: IsLater(files, f, restore, v) {
      var v :| IsLater(files, f, restore, v) && files[VersionFile(f, v)] == c
               && forall u :: IsLater(files, f, restore, u) ==> Time(v) <= Time(u);
      RestoreReadsVersion(files, f, restore, c, items, choice, v);
    } else {
      RestoreReadsNewest(files, f, restore, items, choice);
      assert VersionFile(f, "") == f;
    }
    ChosenIsStored(files, f, items, choice.value);
  }

  lemma ListedVersion(files: map<File, Content>, f: File, items: seq<Item>, v: string) returns (e: VersionedSSTable)
    requires Listing(files, f.dir, items) && Plain(f.name) && !HasSuffix(f.name, SCYLLA_MANIFEST)
    requires (v == "" || IsSnapshotTag(v)) && VersionFile(f, v) in files
    ensures e in VersionsOf(items, f.name) && e.version == v && e.name == f.name
  {
    var item :| item in items && item.name == FullNameOf(f.name, v);
    SplitOfFullName(VersionedSSTable(f.name, v, 0));
    e := AsVersion(item);
    VersionsOfMembers(items, f.name, e);
  }

  lemma ChosenIsStored(files: map<File, Content>, f: File, items: seq<Item>, e: VersionedSSTable)
    requires Listing(files, f.dir, items) && e in VersionsOf(items, f.name)
    ensures e.name == f.name && VersionFile(f, e.version) in files && FullName(e) == VersionFile(f, e.version).name
  {
    VersionsOfMembers(items, f.name, e);
    var item :| item in items && !IsScyllaManifest(item) && AsVersion(item) == e;
    FullNameOfSplit(item.name);
  }
}
