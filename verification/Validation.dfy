/** Validate of pkg/service/backup/purger.go: accounting for listed files against manifests. */
module Validation {
  import opened FileSets
  import opened BackupStore
  import opened Purger

  /** An item of the listing of the newest files below the node's directory. */
  datatype RemoteItem = RemoteItem(file: Path, size: nat, modTime: nat)

  datatype ValidationResult = ValidationResult(
    scannedFiles: nat, brokenSnapshots: set<string>, missingFiles: nat, orphanedFiles: nat, orphanedBytes: nat,
    deletedFiles: nat)

  ghost predicate DistinctPaths(items: seq<RemoteItem>) {
    forall i, j :: 0 <= i < j < |items| ==> items[i].file != items[j].file
  }

  ghost function PathsOf(items: seq<RemoteItem>): (s: set<Path>)
    ensures forall f :: f in s <==> exists item :: item in items && item.file == f
  {
    set item | item in items :: item.file
  }

  /** The file is in a manifest of the given kind. */
  ghost predicate InManifests(s: Store, ms: seq<ManifestId>, temporary: bool, f: Path) {
    exists m :: m in ms && m.temporary == temporary && m in s.manifests
                && f in ListedPaths(m.node.place, s.manifests[m]) + ScyllaPaths(m.node.place, s.manifests[m])
  }

  /** All that manifests of the given kind list. */
  ghost function FilesOf(s: Store, ms: seq<ManifestId>, temporary: bool): (fs: set<Path>)
    ensures forall f :: f in fs <==> InManifests(s, ms, temporary, f)
  {
    if ms == [] then {} else
      var front, m := ms[..|ms|-1], ms[|ms|-1];
      assert ms == front + [m];
      InManifestsSnoc(s, front, m, temporary);
      FilesOf(s, front, temporary)
      + if m.temporary == temporary && m in s.manifests
        then ListedPaths(m.node.place, s.manifests[m]) + ScyllaPaths(m.node.place, s.manifests[m]) else {}
  }

  // ---------- The four kinds of listed file ----------

  /** Where the handler puts an item: a file of a complete manifest, else of a temporary one, else new, else
      an orphan. */
  datatype Kind = Matched | Temporary | Fresh | Orphan

  function KindOf(item: RemoteItem, complete: set<Path>, temporary: set<Path>, start: nat): Kind {
    if item.file in complete then Matched
    else if item.file in temporary then Temporary
    else if item.modTime > start then Fresh
    else Orphan
  }

  function CountKind(items: seq<RemoteItem>, k: Kind, complete: set<Path>, temporary: set<Path>, start: nat): nat {
    if items == [] then 0 else
      var last := items[|items|-1];
      CountKind(items[..|items|-1], k, complete, temporary, start)
      + if KindOf(last, complete, temporary, start) == k then 1 else 0
  }

  /** The bytes of the items of one kind. */
  function KindBytes(items: seq<RemoteItem>, k: Kind, complete: set<Path>, temporary: set<Path>, start: nat): nat {
    if items == [] then 0 else
      var last := items[|items|-1];
      KindBytes(items[..|items|-1], k, complete, temporary, start)
      + if KindOf(last, complete, temporary, start) == k then last.size else 0
  }

  function TotalBytes(items: seq<RemoteItem>): nat {
    if items == [] then 0 else TotalBytes(items[..|items|-1]) + items[|items|-1].size
  }

  /** Every scanned file is matched, temporary, new or orphaned, and only one of these. */
  lemma {:induction false} KindsSplit(items: seq<RemoteItem>, complete: set<Path>, temporary: set<Path>, start: nat)
    ensures |items| ==
      CountKind(items, Matched, complete, temporary, start) + CountKind(items, Temporary, complete, temporary, start)
      + CountKind(items, Fresh, complete, temporary, start) + CountKind(items, Orphan, complete, temporary, start)
    ensures TotalBytes(items) ==
      KindBytes(items, Matched, complete, temporary, start) + KindBytes(items, Temporary, complete, temporary, start)
      + KindBytes(items, Fresh, complete, temporary, start) + KindBytes(items, Orphan, complete, temporary, start)
  {
    if items != [] {
      KindsSplit(items[..|items|-1], complete, temporary, start);
    }
  }

  lemma PathsSnoc(items: seq<RemoteItem>, item: RemoteItem)
    ensures PathsOf(items + [item]) == PathsOf(items) + {item.file}
  {
    assert item in items + [item];
    forall f | f in PathsOf(items) ensures f in PathsOf(items + [item]) {
      var i :| i in items && i.file == f;
      assert i in items + [item];
    }
  }

  /** The listed files of one kind. */
  ghost function OfKind(items: seq<RemoteItem>, k: Kind, complete: set<Path>, temporary: set<Path>, start: nat): (s: set<Path>)
    ensures forall f :: f in s <==>
              exists item :: item in items && item.file == f && KindOf(item, complete, temporary, start) == k
  {
    set item | item in items && KindOf(item, complete, temporary, start) == k :: item.file
  }

  lemma OfKindSnoc(
    items: seq<RemoteItem>, item: RemoteItem, k: Kind, complete: set<Path>, temporary: set<Path>, start: nat)
    ensures OfKind(items + [item], k, complete, temporary, start) ==
              OfKind(items, k, complete, temporary, start)
              + if KindOf(item, complete, temporary, start) == k then {item.file} else {}
  {
    var more := items + [item];
    assert forall i :: i in more <==> i in items || i == item;
  }

  lemma KindOfLast(
    items: seq<RemoteItem>, k: Kind, complete: set<Path>, temporary: set<Path>, start: nat)
    requires DistinctPaths(items) && items != []
    ensures
      var n := |items| - 1;
      var before := OfKind(items[..n], k, complete, temporary, start);
      && OfKind(items, k, complete, temporary, start)
           == before + (if KindOf(items[n], complete, temporary, start) == k then {items[n].file} else {})
      && items[n].file !in before
  {
    var n := |items| - 1;
    assert items == items[..n] + [items[n]];
    OfKindSnoc(items[..n], items[n], k, complete, temporary, start);
  }

  /** With distinct paths, the counters count files. */
  lemma {:induction false} KindCount(items: seq<RemoteItem>, k: Kind, complete: set<Path>, temporary: set<Path>, start: nat)
    requires DistinctPaths(items)
    ensures CountKind(items, k, complete, temporary, start) == |OfKind(items, k, complete, temporary, start)|
  {
    if items == [] {
      assert OfKind(items, k, complete, temporary, start) == {};
    } else {
      KindCount(items[..|items|-1], k, complete, temporary, start);
      KindOfLast(items, k, complete, temporary, start);
    }
  }

  /** The listed files of no manifest that are not newer than the start. */
  ghost function Orphans(items: seq<RemoteItem>, complete: set<Path>, temporary: set<Path>, start: nat): set<Path> {
    set item | item in items && item.file !in complete + temporary && item.modTime <= start :: item.file
  }

  lemma MatchedFiles(items: seq<RemoteItem>, complete: set<Path>, temporary: set<Path>, start: nat)
    ensures OfKind(items, Matched, complete, temporary, start) == complete * PathsOf(items)
  {
  }

  lemma OrphanFiles(items: seq<RemoteItem>, complete: set<Path>, temporary: set<Path>, start: nat)
    ensures OfKind(items, Orphan, complete, temporary, start) == Orphans(items, complete, temporary, start)
  {
  }

  /** Matched files are the complete files that are listed; orphans the listed files of no manifest that are
      not newer than the start. */
  lemma KindsMean(items: seq<RemoteItem>, complete: set<Path>, temporary: set<Path>, start: nat)
    requires DistinctPaths(items)
    ensures CountKind(items, Matched, complete, temporary, start) == |complete * PathsOf(items)|
    ensures CountKind(items, Orphan, complete, temporary, start) == |Orphans(items, complete, temporary, start)|
  {
    MatchedFiles(items, complete, temporary, start);
    OrphanFiles(items, complete, temporary, start);
    KindCount(items, Matched, complete, temporary, start);
    KindCount(items, Orphan, complete, temporary, start);
  }

  // ---------- The code ----------

  class Validator {
    const b: Bucket
    var files: FileSet
    var tempFiles: FileSet
    var orphaned: FileSet
    var scanned: nat
    var orphans: nat
    var orphanBytes: nat

    ghost predicate Apart()
      reads this
    {
      files != tempFiles && files != orphaned && tempFiles != orphaned
    }

    constructor (bucket: Bucket)
      ensures b == bucket && Apart() && fresh(files) && fresh(tempFiles) && fresh(orphaned)
      ensures files.Files() == {} && tempFiles.Files() == {} && orphaned.Files() == {}
      ensures scanned == orphans == orphanBytes == 0
    {
      b := bucket;
      files := new FileSet();
      tempFiles := new FileSet();
      orphaned := new FileSet();
      scanned, orphans, orphanBytes := 0, 0, 0;
    }

    /** The loop that reads the manifests; false if one cannot be read. */
    method ReadManifests(ms: seq<ManifestId>) returns (ok: bool)
      requires Apart() && files.Files() == {} && tempFiles.Files() == {}
      modifies files, tempFiles
      ensures ok <==> AllStored(b.S(), ms)
      ensures ok ==> forall f :: f in files.Files() <==> InManifests(b.S(), ms, false, f)
      ensures ok ==> forall f :: f in tempFiles.Files() <==> InManifests(b.S(), ms, true, f)
    {
      ok := true;
      for i := 0 to |ms|
        invariant AllStored(b.S(), ms[..i])
        invariant forall f :: f in files.Files() <==> InManifests(b.S(), ms[..i], false, f)
        invariant forall f :: f in tempFiles.Files() <==> InManifests(b.S(), ms[..i], true, f)
      {
        assert ms[..i+1] == ms[..i] + [ms[i]];
        if ms[i] !in b.manifests {
          assert ms[i] in ms;
          return false;
        }
        InManifestsSnoc(b.S(), ms[..i], ms[i], false);
        InManifestsSnoc(b.S(), ms[..i], ms[i], true);
        b.AddIndex(if ms[i].temporary then tempFiles else files, ms[i]);
      }
      assert ms[..|ms|] == ms;
    }

    /** The handler of one listed item. */
    method Handle(item: RemoteItem, start: nat) returns (kind: Kind)
      requires Apart()
      modifies this`scanned, this`orphans, this`orphanBytes, files, tempFiles, orphaned
      ensures kind == KindOf(item, old(files.Files()), old(tempFiles.Files()), start)
      ensures scanned == old(scanned) + 1
      ensures files.Files() == if kind == Matched then old(files.Files()) - {item.file} else old(files.Files())
      ensures tempFiles.Files() == if kind == Temporary then old(tempFiles.Files()) - {item.file} else old(tempFiles.Files())
      ensures orphaned.Files() == if kind == Orphan then old(orphaned.Files()) + {item.file} else old(orphaned.Files())
      ensures orphans == old(orphans) + if kind == Orphan then 1 else 0
      ensures orphanBytes == old(orphanBytes) + if kind == Orphan then item.size else 0
    {
      scanned := scanned + 1;
      var has := files.Has(item.file);
      if has {
        files.Remove(item.file);
        return Matched;
      }
      has := tempFiles.Has(item.file);
      if has {
        tempFiles.Remove(item.file);
        return Temporary;
      }
      if item.modTime > start {
        return Fresh;
      }
      orphans := orphans + 1;
      orphanBytes := orphanBytes + item.size;
      orphaned.Add(item.file);
      kind := Orphan;
    }

    ghost function Seen(): Account
      reads this, files, tempFiles, orphaned
    {
      Account(files.Files(), tempFiles.Files(), orphaned.Files(), scanned, orphans, orphanBytes)
    }

    /** The listing, item by item. */
    method Scan(items: seq<RemoteItem>, start: nat)
      requires Apart() && DistinctPaths(items)
      requires scanned == orphans == orphanBytes == 0 && orphaned.Files() == {}
      modifies this`scanned, this`orphans, this`orphanBytes, files, tempFiles, orphaned
      ensures Scanned(items, start, old(files.Files()), old(tempFiles.Files()), Seen())
    {
      ghost var c, t := files.Files(), tempFiles.Files();
      for i := 0 to |items|
        invariant Scanned(items[..i], start, c, t, Seen())
      {
        ghost var before := Seen();
        var kind := Handle(items[i], start);
        ScannedNext(items, i, start, c, t, before, kind, Seen());
      }
      assert items[..|items|] == items;
    }

    /** findBrokenSnapshots: the tags of complete manifests that name a missing file. */
    method FindBroken(ms: seq<ManifestId>, missing: FileSet) returns (broken: set<string>)
      requires AllStored(b.S(), ms)
      ensures forall t :: t in broken <==> BrokenBy(b.S(), ms, missing.Files(), t)
    {
      broken := {};
      for i := 0 to |ms|
        invariant forall t :: t in broken <==> BrokenBy(b.S(), ms[..i], missing.Files(), t)
      {
        assert ms[..i+1] == ms[..i] + [ms[i]];
        BrokenBySnoc(b.S(), ms[..i], ms[i], missing.Files());
        if ms[i].temporary {
          continue;
        }
        var names := NamesAny(ms[i], missing);
        if names {
          broken := broken + {ms[i].tag};
        }
      }
      assert ms[..|ms|] == ms;
    }

    method NamesAny(m: ManifestId, missing: FileSet) returns (any: bool)
      requires m in b.manifests
      ensures any <==> NamesMissing(b.S(), m, missing.Files())
    {
      var ix := b.manifests[m];
      any := false;
      for i := 0 to |ix|
        invariant any <==> missing.Files() * (ListedPaths(m.node.place, ix[..i]) + ScyllaPaths(m.node.place, ix[..i])) != {}
      {
        ListedSnoc(m.node.place, ix, i);
        var dir := Dir(m.node.place, ix[i].table);
        var a := missing.HasAnyFiles(dir, ix[i].files);
        var c := missing.HasAnyFiles(dir, ix[i].scyllaManifests);
        MeetsUnion(missing.Files(), ListedPaths(m.node.place, ix[..i]), ScyllaPaths(m.node.place, ix[..i]),
                   ListedIn(m.node.place, ix[i]), ScyllaIn(m.node.place, ix[i]));
        any := any || a || c;
      }
      assert ix[..|ix|] == ix;
    }

    /** What a validation counts, before anything is deleted. */
    method Count(ms: seq<ManifestId>, items: seq<RemoteItem>, start: nat) returns (r: ValidationResult)
      requires Apart() && DistinctPaths(items) && AllStored(b.S(), ms)
      requires files.Files() == FilesOf(b.S(), ms, false) && tempFiles.Files() == FilesOf(b.S(), ms, true)
      requires scanned == orphans == orphanBytes == 0 && orphaned.Files() == {}
      modifies this`scanned, this`orphans, this`orphanBytes, files, tempFiles, orphaned
      ensures Counted(b.S(), ms, items, start, r) && r.deletedFiles == 0
      ensures orphaned.Files() == OrphansOf(b.S(), ms, items, start)
    {
      Scan(items, start);
      ScannedOrphans(items, start, FilesOf(b.S(), ms, false), FilesOf(b.S(), ms, true), Seen());
      var missing := files.Size();
      var broken := {};
      if missing > 0 {
        broken := FindBroken(ms, files);
      } else {
        NothingMissing(b.S(), ms, files.Files());
      }
      r := ValidationResult(scanned, broken, missing, orphans, orphanBytes, 0);
    }

    /** Validate on a listing of the node's newest files taken from `start` on, in the location of the first
        manifest. */
    method Validate(ms: seq<ManifestId>, items: seq<RemoteItem>, start: nat, delete: bool, fails: set<File>)
      returns (ok: bool, r: ValidationResult)
      requires Apart() && DistinctPaths(items)
      requires files.Files() == {} && tempFiles.Files() == {} && orphaned.Files() == {}
      requires scanned == orphans == orphanBytes == 0
      modifies this`scanned, this`orphans, this`orphanBytes, files, tempFiles, orphaned, b`files
      ensures ms == [] ==> ok && r == ValidationResult(0, {}, 0, 0, 0, 0) && b.files == old(b.files)
      ensures !AllStored(old(b.S()), ms) ==> !ok && b.files == old(b.files)
      ensures ms != [] && AllStored(old(b.S()), ms) ==>
                var found := Remote(ms[0].node.location, OrphansOf(old(b.S()), ms, items, start));
                && Counted(old(b.S()), ms, items, start, r)
                && b.files == (if delete then old(b.files) - (found - fails) else old(b.files))
                && (ok <==> !delete || found * fails == {})
                && r.deletedFiles == (if delete && ok then |found * old(b.files.Keys)| else 0)
                && UnwantedGo(old(b.S()), ms, items, start, delete, fails, b.files)
    {
      r := ValidationResult(0, {}, 0, 0, 0, 0);
      if |ms| == 0 {
        return true, r;
      }
      ok := ReadManifests(ms);
      if !ok {
        return false, r;
      }
      FilesAre(b.S(), ms, files.Files(), tempFiles.Files());
      r := Count(ms, items, start);
      ghost var s := b.S();
      if delete {
        var n;
        ok, n := b.DeleteFiles(ms[0].node.location, orphaned, fails);
        if ok {
          r := r.(deletedFiles := n);
        }
      }
      DeletesUnwanted(s, ms, items, start, delete, fails, b.files);
    }
  }

  /** The file was listed in the first manifest's location, no later than the start, and no manifest names its path. */
  ghost predicate Unwanted(s: Store, ms: seq<ManifestId>, items: seq<RemoteItem>, start: nat, f: File)
    requires ms != []
  {
    && (exists item :: item in items && f == At(ms[0].node.location, item.file) && item.modTime <= start)
    && forall m :: m in ms && m in s.manifests ==>
         PathOf(f) !in ListedPaths(m.node.place, s.manifests[m]) + ScyllaPaths(m.node.place, s.manifests[m])
  }

  /** Of the stored files just the unwanted ones go, if any are to be deleted, and but those whose deletion fails. */
  ghost predicate UnwantedGo(
    s: Store, ms: seq<ManifestId>, items: seq<RemoteItem>, start: nat, delete: bool, fails: set<File>,
    files: map<File, Content>)
    requires ms != []
  {
    forall f :: f in s.files ==> (f !in files <==> delete && f !in fails && Unwanted(s, ms, items, start, f))
  }

  lemma DeletesUnwanted(
    s: Store, ms: seq<ManifestId>, items: seq<RemoteItem>, start: nat, delete: bool, fails: set<File>,
    files: map<File, Content>)
    requires ms != []
    requires
      var found := Remote(ms[0].node.location, OrphansOf(s, ms, items, start));
      files == if delete then s.files - (found - fails) else s.files
    ensures UnwantedGo(s, ms, items, start, delete, fails, files)
  {
    forall f | f in s.files
      ensures f !in files <==> delete && f !in fails && Unwanted(s, ms, items, start, f)
    {
      OrphanIsUnwanted(s, ms, items, start, f);
    }
  }

  lemma NamedIsInSome(s: Store, ms: seq<ManifestId>, p: Path)
    ensures p in FilesOf(s, ms, false) + FilesOf(s, ms, true) <==>
      exists m :: m in ms && m in s.manifests
                  && p in ListedPaths(m.node.place, s.manifests[m]) + ScyllaPaths(m.node.place, s.manifests[m])
  {
    forall m | m in ms && m in s.manifests
               && p in ListedPaths(m.node.place, s.manifests[m]) + ScyllaPaths(m.node.place, s.manifests[m])
      ensures InManifests(s, ms, m.temporary, p)
    {
    }
  }

  lemma OrphanIsUnwanted(s: Store, ms: seq<ManifestId>, items: seq<RemoteItem>, start: nat, f: File)
    requires ms != []
    ensures f in Remote(ms[0].node.location, OrphansOf(s, ms, items, start)) <==> Unwanted(s, ms, items, start, f)
  {
    NamedIsInSome(s, ms, PathOf(f));
    if f in Remote(ms[0].node.location, OrphansOf(s, ms, items, start)) {
      var item :| item in items && item.file == PathOf(f) && item.modTime <= start;
      assert f == At(ms[0].node.location, item.file);
    }
  }

  lemma FilesAre(s: Store, ms: seq<ManifestId>, complete: set<Path>, temporary: set<Path>)
    requires forall f :: f in complete <==> InManifests(s, ms, false, f)
    requires forall f :: f in temporary <==> InManifests(s, ms, true, f)
    ensures complete == FilesOf(s, ms, false) && temporary == FilesOf(s, ms, true)
  {
  }

  /** The sets and counters of a validation under way. */
  datatype Account = Account(
    files: set<Path>, temporary: set<Path>, orphaned: set<Path>, scanned: nat, orphans: nat, orphanBytes: nat)

  /** What scanning the items makes of the files `c` of complete manifests and `t` of temporary ones. */
  ghost predicate Scanned(items: seq<RemoteItem>, start: nat, c: set<Path>, t: set<Path>, a: Account) {
    && a.scanned == |items|
    && a.files == c - PathsOf(items)
    && a.temporary <= t && t - PathsOf(items) <= a.temporary
    && a.orphaned == OfKind(items, Orphan, c, t, start)
    && a.orphans == CountKind(items, Orphan, c, t, start)
    && a.orphanBytes == KindBytes(items, Orphan, c, t, start)
  }

  ghost predicate Handled(a: Account, item: RemoteItem, kind: Kind, a': Account) {
    && a'.scanned == a.scanned + 1
    && a'.files == (if kind == Matched then a.files - {item.file} else a.files)
    && a'.temporary == (if kind == Temporary then a.temporary - {item.file} else a.temporary)
    && a'.orphaned == (if kind == Orphan then a.orphaned + {item.file} else a.orphaned)
    && a'.orphans == a.orphans + (if kind == Orphan then 1 else 0)
    && a'.orphanBytes == a.orphanBytes + (if kind == Orphan then item.size else 0)
  }

  /** Sets that differ from those at the start by other files tell the kind of an item. */
  lemma KindStays(items: seq<RemoteItem>, item: RemoteItem, start: nat, c: set<Path>, t: set<Path>, a: Account)
    requires Scanned(items, start, c, t, a) && item.file !in PathsOf(items)
    ensures KindOf(item, a.files, a.temporary, start) == KindOf(item, c, t, start)
  {
  }

  lemma ScannedNext(
    items: seq<RemoteItem>, i: nat, start: nat, c: set<Path>, t: set<Path>, a: Account, kind: Kind, a': Account)
    requires DistinctPaths(items) && i < |items| && Scanned(items[..i], start, c, t, a)
    requires kind == KindOf(items[i], a.files, a.temporary, start) && Handled(a, items[i], kind, a')
    ensures Scanned(items[..i+1], start, c, t, a')
  {
    NotYetListed(items, i);
    KindStays(items[..i], items[i], start, c, t, a);
    ScannedSnoc(items[..i], items[i], start, c, t, a, kind, a');
    assert items[..i+1] == items[..i] + [items[i]];
  }

  lemma ScannedSnoc(
    items: seq<RemoteItem>, item: RemoteItem, start: nat, c: set<Path>, t: set<Path>, a: Account, kind: Kind, a': Account)
    requires Scanned(items, start, c, t, a) && kind == KindOf(item, c, t, start) && Handled(a, item, kind, a')
    ensures Scanned(items + [item], start, c, t, a')
  {
    assert (items + [item])[..|items|] == items;
    PathsSnoc(items, item);
    OfKindSnoc(items, item, Orphan, c, t, start);
  }

  lemma ScannedOrphans(items: seq<RemoteItem>, start: nat, c: set<Path>, t: set<Path>, a: Account)
    requires Scanned(items, start, c, t, a)
    ensures a.orphaned == Orphans(items, c, t, start)
  {
    OrphanFiles(items, c, t, start);
  }

  ghost function OrphansOf(s: Store, ms: seq<ManifestId>, items: seq<RemoteItem>, start: nat): set<Path> {
    Orphans(items, FilesOf(s, ms, false), FilesOf(s, ms, true), start)
  }

  /** Counters and broken tags of a validation of the manifests. */
  ghost predicate Counted(s: Store, ms: seq<ManifestId>, items: seq<RemoteItem>, start: nat, r: ValidationResult) {
    var complete, temporary := FilesOf(s, ms, false), FilesOf(s, ms, true);
    && Accounts(complete, temporary, items, start, r)
    && forall t :: t in r.brokenSnapshots <==> BrokenBy(s, ms, complete - PathsOf(items), t)
  }

  /** When the storage still holds what was listed and every deletion succeeds, all orphans counted are deleted. */
  lemma OrphansDeleted(
    stored: set<File>, location: string, items: seq<RemoteItem>, complete: set<Path>, temporary: set<Path>, start: nat)
    requires DistinctPaths(items) && forall item :: item in items ==> At(location, item.file) in stored
    ensures |Remote(location, Orphans(items, complete, temporary, start)) * stored| ==
              CountKind(items, Orphan, complete, temporary, start)
  {
    var ps := Orphans(items, complete, temporary, start);
    KindsMean(items, complete, temporary, start);
    RemoteSize(location, ps);
    forall f | f in Remote(location, ps) ensures f in stored {
      assert f == At(location, PathOf(f));
    }
    assert Remote(location, ps) * stored == Remote(location, ps);
  }

  lemma {:induction false} RemoteSize(location: string, ps: set<Path>)
    ensures |Remote(location, ps)| == |ps|
  {
    if ps == {} {
      assert Remote(location, ps) == {};
    } else {
      var p :| p in ps;
      RemoteSize(location, ps - {p});
      forall f | f in Remote(location, ps) ensures f in Remote(location, ps - {p}) + {At(location, p)} {
        assert f == At(location, PathOf(f));
      }
      assert Remote(location, ps) == Remote(location, ps - {p}) + {At(location, p)};
    }
  }

  /** The counters of a validation, told from the files of complete and of temporary manifests. */
  ghost predicate Accounts(complete: set<Path>, temporary: set<Path>, items: seq<RemoteItem>, start: nat, r: ValidationResult) {
    && r.scannedFiles == |items|
    && r.missingFiles == |complete - PathsOf(items)|
    && r.orphanedFiles == CountKind(items, Orphan, complete, temporary, start)
    && r.orphanedBytes == KindBytes(items, Orphan, complete, temporary, start)
  }

  /** The manifest names one of the files. */
  ghost predicate NamesMissing(s: Store, m: ManifestId, missing: set<Path>)
    requires m in s.manifests
  {
    missing * (ListedPaths(m.node.place, s.manifests[m]) + ScyllaPaths(m.node.place, s.manifests[m])) != {}
  }

  ghost predicate BrokenBy(s: Store, ms: seq<ManifestId>, missing: set<Path>, t: string) {
    exists m :: m in ms && !m.temporary && m.tag == t && m in s.manifests && NamesMissing(s, m, missing)
  }

  lemma NothingMissing(s: Store, ms: seq<ManifestId>, missing: set<Path>)
    requires |missing| == 0
    ensures forall t :: !BrokenBy(s, ms, missing, t)
  {
    assert missing == {};
  }

  lemma BrokenBySnoc(s: Store, ms: seq<ManifestId>, m: ManifestId, missing: set<Path>)
    ensures forall t :: BrokenBy(s, ms + [m], missing, t) <==>
              || BrokenBy(s, ms, missing, t)
              || (!m.temporary && m.tag == t && m in s.manifests && NamesMissing(s, m, missing))
  {
    assert m in ms + [m];
    forall t | BrokenBy(s, ms, missing, t) ensures BrokenBy(s, ms + [m], missing, t) {
      var k :| k in ms && !k.temporary && k.tag == t && k in s.manifests && NamesMissing(s, k, missing);
      assert k in ms + [m];
    }
  }

  lemma MeetsUnion<T>(s: set<T>, a: set<T>, b: set<T>, c: set<T>, d: set<T>)
    ensures s * ((a + c) + (b + d)) != {} <==> s * (a + b) != {} || s * c != {} || s * d != {}
  {
    assert s * ((a + c) + (b + d)) == s * (a + b) + s * c + s * d;
  }

  lemma NotYetListed(items: seq<RemoteItem>, i: nat)
    requires DistinctPaths(items) && i < |items|
    ensures items[i].file !in PathsOf(items[..i])
  {
  }

  lemma InManifestsSnoc(s: Store, ms: seq<ManifestId>, m: ManifestId, temporary: bool)
    ensures forall f :: InManifests(s, ms + [m], temporary, f) <==>
              || InManifests(s, ms, temporary, f)
              || (m.temporary == temporary && m in s.manifests
                  && f in ListedPaths(m.node.place, s.manifests[m]) + ScyllaPaths(m.node.place, s.manifests[m]))
  {
    assert m in ms + [m];
    forall f | InManifests(s, ms, temporary, f) ensures InManifests(s, ms + [m], temporary, f) {
      var k :| k in ms && k.temporary == temporary && k in s.manifests
               && f in ListedPaths(k.node.place, s.manifests[k]) + ScyllaPaths(k.node.place, s.manifests[k]);
      assert k in ms + [m];
    }
  }
}
