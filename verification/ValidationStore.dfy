/** What a validation says of the store, and what it does to it. */
module ValidationStore {
  import opened Versioning
  import opened FileSets
  import opened BackupStore
  import opened BackupRuns
  import opened Purger
  import opened Validation

  /** The listing holds the newest files below the directory of `any`, in its location, and nothing else. */
  ghost predicate ListingOf(s: Store, any: Node, items: seq<RemoteItem>) {
    forall p :: p in PathsOf(items) <==> StoredFor(s, any, p)
  }

  predicate StoredFor(s: Store, any: Node, p: Path) {
    p.dir.place == any.place && At(any.location, p) in s.files && Plain(p.name)
  }

  /** The paths that a manifest names. */
  ghost function NamesOf(s: Store, m: ManifestId): set<Path>
    requires m in s.manifests
  {
    ListedPaths(m.node.place, s.manifests[m]) + ScyllaPaths(m.node.place, s.manifests[m])
  }

  ghost predicate CompleteFor(s: Store, ms: seq<ManifestId>, t: string, m: ManifestId) {
    m in ms && !m.temporary && m.tag == t && m in s.manifests
  }

  /** A file that the manifest names is not stored in the manifest's own location. */
  ghost predicate Lacks(s: Store, m: ManifestId)
    requires m in s.manifests
  {
    exists p :: p in NamesOf(s, m) && At(m.node.location, p) !in s.files
  }

  /** A path that the manifest names is not found where the listing looks. */
  ghost predicate NotFound(s: Store, any: Node, m: ManifestId)
    requires m in s.manifests
  {
    exists p :: p in NamesOf(s, m) && !StoredFor(s, any, p)
  }

  ghost predicate LacksFor(s: Store, ms: seq<ManifestId>, t: string) {
    exists m :: CompleteFor(s, ms, t, m) && Lacks(s, m)
  }

  ghost predicate NotFoundFor(s: Store, any: Node, ms: seq<ManifestId>, t: string) {
    exists m :: CompleteFor(s, ms, t, m) && NotFound(s, any, m)
  }

  ghost predicate NamesPlain(s: Store, ms: seq<ManifestId>) {
    forall m, p :: m in ms && m in s.manifests && p in NamesOf(s, m) ==> Plain(p.name)
  }

  /** What FilesOf leaves missing of a complete manifest is what the listing does not find. */
  lemma MissingIsNotFound(s: Store, any: Node, ms: seq<ManifestId>, items: seq<RemoteItem>, m: ManifestId)
    requires ListingOf(s, any, items) && m in ms && !m.temporary && m in s.manifests
    ensures NamesMissing(s, m, FilesOf(s, ms, false) - PathsOf(items)) <==> NotFound(s, any, m)
  {
    var missing, names := FilesOf(s, ms, false) - PathsOf(items), NamesOf(s, m);
    forall p | p in names ensures p in missing <==> !StoredFor(s, any, p) {
      assert InManifests(s, ms, false, p);
    }
    if NotFound(s, any, m) {
      var p :| p in names && !StoredFor(s, any, p);
      assert p in missing * names;
    }
    if missing * names != {} {
      var p :| p in missing * names;
      assert p in names && !StoredFor(s, any, p);
    }
  }

  /** The broken tags are those of complete manifests that name a path the listing does not find. */
  lemma BrokenMeans(s: Store, any: Node, ms: seq<ManifestId>, items: seq<RemoteItem>, t: string)
    requires ListingOf(s, any, items)
    ensures BrokenBy(s, ms, FilesOf(s, ms, false) - PathsOf(items), t) <==> NotFoundFor(s, any, ms, t)
  {
    var missing := FilesOf(s, ms, false) - PathsOf(items);
    forall m | CompleteFor(s, ms, t, m) ensures NamesMissing(s, m, missing) <==> NotFound(s, any, m) {
      MissingIsNotFound(s, any, ms, items, m);
    }
    if BrokenBy(s, ms, missing, t) {
      var m :| m in ms && !m.temporary && m.tag == t && m in s.manifests && NamesMissing(s, m, missing);
      assert CompleteFor(s, ms, t, m);
    }
  }

  /** In the node that the listing looks at, a path not found is a file not stored. */
  lemma FoundAtHome(s: Store, any: Node, ms: seq<ManifestId>, m: ManifestId)
    requires NamesPlain(s, ms) && m in ms && m in s.manifests && m.node == any
    ensures NotFound(s, any, m) <==> Lacks(s, m)
  {
    forall p | p in NamesOf(s, m) ensures StoredFor(s, any, p) <==> At(m.node.location, p) in s.files {
      assert p.dir.place == m.node.place;
    }
  }

  /** A manifest of the tag at the node that the listing looks at lacks a file. */
  ghost predicate HomeLacks(s: Store, any: Node, ms: seq<ManifestId>, t: string) {
    exists m :: CompleteFor(s, ms, t, m) && m.node == any && Lacks(s, m)
  }

  /** A manifest of the tag in another location or place lacks a file there. */
  ghost predicate AwayLacks(s: Store, any: Node, ms: seq<ManifestId>, t: string) {
    exists m :: CompleteFor(s, ms, t, m) && m.node != any && Lacks(s, m)
  }

  /** Such a manifest names a path that is not found where the listing looks. */
  ghost predicate AwayNotFound(s: Store, any: Node, ms: seq<ManifestId>, t: string) {
    exists m :: CompleteFor(s, ms, t, m) && m.node != any && NotFound(s, any, m)
  }

  /** A tag is called broken just when a file of it is not stored, if and only if a manifest at home lacks a file or
      the manifests away are found here just when they lack none there. */
  lemma BrokenExact(s: Store, any: Node, ms: seq<ManifestId>, items: seq<RemoteItem>, t: string)
    requires ListingOf(s, any, items) && NamesPlain(s, ms)
    ensures (BrokenBy(s, ms, FilesOf(s, ms, false) - PathsOf(items), t) <==> LacksFor(s, ms, t)) <==>
              (HomeLacks(s, any, ms, t) || (AwayNotFound(s, any, ms, t) <==> AwayLacks(s, any, ms, t)))
  {
    BrokenMeans(s, any, ms, items, t);
    forall m | CompleteFor(s, ms, t, m) && m.node == any ensures NotFound(s, any, m) <==> Lacks(s, m) {
      FoundAtHome(s, any, ms, m);
    }
  }

  /** With all manifests of one node in one location, the broken tags are those with a file that is not stored. */
  lemma BrokenInOneLocation(s: Store, any: Node, ms: seq<ManifestId>, items: seq<RemoteItem>, t: string)
    requires ListingOf(s, any, items) && NamesPlain(s, ms) && forall m :: m in ms ==> m.node == any
    ensures BrokenBy(s, ms, FilesOf(s, ms, false) - PathsOf(items), t) <==> LacksFor(s, ms, t)
  {
    BrokenExact(s, any, ms, items, t);
  }

  /** On a full listing the tag is called broken, and every file of it is stored where its manifest is. */
  ghost predicate FalseAlarm(s: Store, ms: seq<ManifestId>, items: seq<RemoteItem>, tag: string) {
    && ms != [] && ListingOf(s, ms[0].node, items)
    && !LacksFor(s, ms, tag)
    && BrokenBy(s, ms, FilesOf(s, ms, false) - PathsOf(items), tag)
  }

  /** A node backed up to two buckets: the file of the second is stored there, and its tag is called broken. */
  lemma SecondBucketIsMisreported(place: Place, tag: string, first: string, second: string)
    returns (s: Store, ms: seq<ManifestId>, items: seq<RemoteItem>)
    requires first != second
    ensures |ms| == 2 && forall m :: m in ms ==> m in s.manifests && m.tag == tag && m.node.place == place
    ensures FalseAlarm(s, ms, items, tag)
  {
    var a, b := ManifestId(Node(first, place), "", tag, false), ManifestId(Node(second, place), "", tag, false);
    var fm, p := FilesMeta("ks/t/v", ["a"], []), Path(Dir(place, "ks/t/v"), "a");
    ms, items := [a, b], [];
    s := Store(map[At(second, p) := 0], map[a := [], b := [fm]]);
    FileInSecond(s, place, fm, p, a, b, tag, ms, items);
  }

  lemma FileInSecond(
    s: Store, place: Place, fm: FilesMeta, p: Path, a: ManifestId, b: ManifestId, tag: string, ms: seq<ManifestId>,
    items: seq<RemoteItem>)
    requires fm == FilesMeta("ks/t/v", ["a"], []) && p == Path(Dir(place, "ks/t/v"), "a") && ms == [a, b] && items == []
    requires a.node.location != b.node.location && a.node.place == b.node.place == place && a.tag == b.tag == tag && !b.temporary
    requires s == Store(map[At(b.node.location, p) := 0], map[a := [], b := [fm]])
    ensures FalseAlarm(s, ms, items, tag)
    ensures |ms| == 2 && forall m :: m in ms ==> m in s.manifests && m.tag == tag && m.node.place == place
  {
    TwoBuckets(s, place, fm, p, a, b);
    NothingInFirst(s, a.node, p, b.node.location);
    BrokenAway(s, a, b, p, tag, ms, items);
  }

  lemma NothingInFirst(s: Store, first: Node, p: Path, location: string)
    requires s.files == map[At(location, p) := 0] && location != first.location
    ensures forall q :: !StoredFor(s, first, q)
  {
    forall q ensures !StoredFor(s, first, q) {
      assert At(first.location, q) != At(location, p);
    }
  }

  lemma BrokenAway(s: Store, a: ManifestId, b: ManifestId, p: Path, tag: string, ms: seq<ManifestId>, items: seq<RemoteItem>)
    requires a in s.manifests && b in s.manifests && b.tag == tag && !b.temporary && ms == [a, b] && items == []
    requires NamesOf(s, a) == {} && NamesOf(s, b) == {p} && At(b.node.location, p) in s.files
    requires forall q :: !StoredFor(s, a.node, q)
    ensures FalseAlarm(s, ms, items, tag)
  {
    assert CompleteFor(s, ms, tag, b) && p in NamesOf(s, b);
    assert NotFound(s, a.node, b);
    BrokenMeans(s, a.node, ms, items, tag);
  }

  lemma TwoBuckets(s: Store, place: Place, fm: FilesMeta, p: Path, a: ManifestId, b: ManifestId)
    requires fm == FilesMeta("ks/t/v", ["a"], []) && p == Path(Dir(place, "ks/t/v"), "a")
    requires a != b && a.node.place == b.node.place == place
    requires s.manifests == map[a := [], b := [fm]]
    ensures NamesOf(s, a) == {} && NamesOf(s, b) == {p}
  {
    assert [fm][..0] == [];
    assert ScyllaIn(place, fm) == {};
    forall q ensures q in ListedIn(place, fm) <==> q == p {
      assert q == Path(q.dir, q.name);
    }
  }

  // ---------- Deleting orphans ----------

  /** A validation of a group that deletes orphans is the deletion that runs have: it takes only files that no manifest
      of the group names. */
  lemma ValidateDrops(
    w: World, any: Node, ms: seq<ManifestId>, items: seq<RemoteItem>, start: nat, fails: set<File>, w': World)
    requires Group(w.store, any, Ids(ms)) && ListingOf(w.store, any, items)
    requires
      var found := Remote(any.location, OrphansOf(w.store, ms, items, start));
      w' == w.(store := w.store.(files := w.store.files - (found - fails)))
    ensures
      var found := Remote(any.location, OrphansOf(w.store, ms, items, start));
      Act(w, DropOrphans(any, Ids(ms), found - fails), w')
  {
    var orphans := OrphansOf(w.store, ms, items, start);
    forall f | f in Remote(any.location, orphans)
      ensures f.dir.node == any && Plain(f.name) && !GroupLists(w.store, Ids(ms), PathOf(f))
    {
      assert PathOf(f) in PathsOf(items);
      OrphanNotListed(w.store, ms, items, start, PathOf(f));
    }
  }

  lemma OrphanNotListed(s: Store, ms: seq<ManifestId>, items: seq<RemoteItem>, start: nat, p: Path)
    requires p in OrphansOf(s, ms, items, start)
    ensures !GroupLists(s, Ids(ms), p)
  {
    forall m | m in Ids(ms) && m in s.manifests ensures p !in NamesOf(s, m) {
      assert p in NamesOf(s, m) ==> InManifests(s, ms, m.temporary, p);
      assert p !in FilesOf(s, ms, m.temporary);
    }
  }
}
