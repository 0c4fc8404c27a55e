/** Versioned file names and the version chosen at restore, pkg/service/backup/versioning.go. */
module Versioning {
  import opened Wrappers
  import opened Tags
  import opened Paths

  /** A file that was overwritten keeps its content as `name.version`; the newest has version "". */
  datatype VersionedSSTable = VersionedSSTable(name: string, version: string, size: nat)

  function FullNameOf(name: string, version: string): string {
    if version == "" then name else name + ("." + version)
  }

  function FullName(v: VersionedSSTable): string {
    FullNameOf(v.name, v.version)
  }

  /** path.Ext: from the last dot of the last path element on. */
  function Ext(s: string): (e: string)
    ensures |e| <= |s| && s[|s|-|e|..] == e
    ensures e != "" ==> e[0] == '.'
  {
    if s == "" then "" else
      var n := |s| - 1;
      if s[n] == '/' then "" else if s[n] == '.' then "." else
        var e := Ext(s[..n]);
        if e == "" then "" else e + [s[n]]
  }

  function SplitNameAndVersion(versioned: string): (string, string) {
    var ext := Ext(versioned);
    if ext == "" || !IsSnapshotTag(ext[1..]) then (versioned, "")
    else (versioned[..|versioned|-|ext|], ext[1..])
  }

  /** VersionedFileCreationTime; a name without extension, which has no creation time, counts as an error. */
  function VersionedFileCreationTime(versioned: string): Option<TagTime> {
    var ext := Ext(versioned);
    if ext == "" then None else SnapshotTagTime(ext[1..])
  }

  /** IsVersionedFileRemovable: a version serves only backups strictly older than itself. */
  function IsVersionedFileRemovable(oldest: nat, versioned: string): Result<bool> {
    match VersionedFileCreationTime(versioned)
    case None => Err
    case Some(t) => Ok(t <= oldest)
  }

  /** A name that is not itself the name of a version. */
  predicate Plain(name: string) {
    SplitNameAndVersion(name) == (name, "")
  }

  // ---------- Round trips ----------

  lemma {:induction false} ExtOfDotted(name: string, w: string)
    requires '.' !in w && '/' !in w
    ensures Ext(name + ("." + w)) == "." + w
  {
    var s := name + ("." + w);
    if w != "" {
      var n := |w| - 1;
      ExtOfDotted(name, w[..n]);
      assert s[..|s|-1] == name + ("." + w[..n]);
      assert w == w[..n] + [w[n]];
    }
  }

  lemma TagHasNoDot(tag: string)
    requires IsSnapshotTag(tag)
    ensures '.' !in tag && '/' !in tag
  {
    TagParts(tag);
    assert forall i :: 3 <= i < 17 ==> tag[3..17][i-3] == tag[i];
    assert forall i :: 17 <= i < 20 ==> tag[17..][i-17] == tag[i];
    assert forall i :: 0 <= i < 3 ==> tag[..3][i] == tag[i];
  }

  /** A full name splits back, when the version is a tag, or is empty and the name does not end in a tag. */
  lemma SplitOfFullName(v: VersionedSSTable)
    requires IsSnapshotTag(v.version) || (v.version == "" && Plain(v.name))
    ensures SplitNameAndVersion(FullName(v)) == (v.name, v.version)
    ensures v.version != "" ==> VersionedFileCreationTime(FullName(v)) == SnapshotTagTime(v.version)
  {
    if v.version != "" {
      TagHasNoDot(v.version);
      ExtOfDotted(v.name, v.version);
      assert ("." + v.version)[1..] == v.version;
    }
  }

  /** Every name is the full name of what it splits into. */
  lemma FullNameOfSplit(s: string)
    ensures var (name, version) := SplitNameAndVersion(s); FullNameOf(name, version) == s
    ensures SplitNameAndVersion(s).1 == "" || IsSnapshotTag(SplitNameAndVersion(s).1)
  {
    var ext := Ext(s);
    if ext != "" {
      assert "." + ext[1..] == ext;
    }
  }

  /** Names with a version never collide with one another or with plain names. */
  lemma FullNamesDiffer(name: string, version: string, name': string, version': string)
    requires IsSnapshotTag(version) || (version == "" && Plain(name))
    requires IsSnapshotTag(version') || (version' == "" && Plain(name'))
    requires FullNameOf(name, version) == FullNameOf(name', version')
    ensures name == name' && version == version'
  {
    SplitOfFullName(VersionedSSTable(name, version, 0));
    SplitOfFullName(VersionedSSTable(name', version', 0));
  }

  /** Only a version can be removed as one. */
  lemma RemovableIsVersion(oldest: nat, s: string)
    requires IsVersionedFileRemovable(oldest, s) == Ok(true)
    ensures
      var (name, version) := SplitNameAndVersion(s);
      s == FullNameOf(name, version) && SnapshotTagTime(version).Some? && SnapshotTagTime(version).value <= oldest
  {
    FullNameOfSplit(s);
  }

  /** A file is removable exactly if it is the version of some file for a tag not later than `oldest`. */
  lemma RemovableExact(oldest: nat, s: string)
    ensures IsVersionedFileRemovable(oldest, s) == Ok(true) <==>
              exists name, version :: s == FullNameOf(name, version) && DatedUpTo(version, oldest)
  {
    if IsVersionedFileRemovable(oldest, s) == Ok(true) {
      RemovableIsVersion(oldest, s);
    }
    forall name, version | s == FullNameOf(name, version) && DatedUpTo(version, oldest)
      ensures IsVersionedFileRemovable(oldest, s) == Ok(true)
    {
      SplitOfFullName(VersionedSSTable(name, version, 0));
    }
  }

  predicate DatedUpTo(version: string, oldest: nat) {
    SnapshotTagTime(version).Some? && SnapshotTagTime(version).value <= oldest
  }

  // ---------- The version chosen at restore ----------

  datatype Item = Item(name: string, size: nat)

  const SCYLLA_MANIFEST := "manifest.json"

  predicate IsScyllaManifest(item: Item) {
    HasSuffix(SplitNameAndVersion(item.name).0, SCYLLA_MANIFEST)
  }

  function AsVersion(item: Item): VersionedSSTable {
    var (name, version) := SplitNameAndVersion(item.name);
    VersionedSSTable(name, version, item.size)
  }

  /** `v` is a later version, of a valid time, than the restored snapshot. */
  predicate Later(v: VersionedSSTable, restore: TagTime) {
    SnapshotTagTime(v.version).Some? && SnapshotTagTime(v.version).value > restore
  }

  /** The choice among the versions of one name: the earliest of the later ones, or else the newest. */
  ghost predicate Chosen(versions: seq<VersionedSSTable>, restore: TagTime, c: Option<VersionedSSTable>) {
    if exists v :: v in versions && Later(v, restore) then
      && c.Some? && c.value in versions && Later(c.value, restore)
      && forall v :: v in versions && Later(v, restore) ==>
           SnapshotTagTime(c.value.version).value <= SnapshotTagTime(v.version).value
    else if exists v :: v in versions && v.version == "" then
      c.Some? && c.value in versions && c.value.version == ""
    else c == None
  }

  predicate DatesValid(versions: seq<VersionedSSTable>) {
    forall v :: v in versions ==> v.version == "" || SnapshotTagTime(v.version).Some?
  }

  /** The loop over the versions of one name. */
  method ChooseVersion(versions: seq<VersionedSSTable>, restore: TagTime) returns (r: Result<Option<VersionedSSTable>>)
    ensures r.Ok? <==> DatesValid(versions)
    ensures r.Ok? ==> Chosen(versions, restore, r.value)
  {
    var candidate: Option<VersionedSSTable> := None;
    var newest: Option<VersionedSSTable> := None;
    for i := 0 to |versions|
      invariant DatesValid(versions[..i])
      invariant candidate.None? ==> forall v :: v in versions[..i] ==> !Later(v, restore)
      invariant candidate.Some? ==>
                  && candidate.value in versions[..i] && Later(candidate.value, restore)
                  && forall v :: v in versions[..i] && Later(v, restore) ==>
                       SnapshotTagTime(candidate.value.version).value <= SnapshotTagTime(v.version).value
      invariant newest.None? ==> forall v :: v in versions[..i] ==> v.version != ""
      invariant newest.Some? ==> newest.value in versions[..i] && newest.value.version == ""
    {
      var v := versions[i];
      assert versions[..i+1] == versions[..i] + [v];
      if v.version == "" {
        newest := Some(v);
        continue;
      }
      var tagT := SnapshotTagTime(v.version);
      if tagT.None? {
        assert v in versions;
        return Err;
      }
      if tagT.value > restore {
        if candidate.Some? {
          TagOrder(v.version, candidate.value.version);
        }
        if candidate.None? || Less(v.version, candidate.value.version) {
          candidate := Some(v);
        }
      }
    }
    assert versions[..|versions|] == versions;
    r := Ok(if candidate.None? then newest else candidate);
  }

  /** The versions of `name` among the listed items, Scylla manifests left out. */
  function VersionsOf(items: seq<Item>, name: string): seq<VersionedSSTable> {
    if items == [] then [] else
      var last := items[|items|-1];
      var vs := VersionsOf(items[..|items|-1], name);
      if !IsScyllaManifest(last) && AsVersion(last).name == name then vs + [AsVersion(last)] else vs
  }

  lemma {:induction false} VersionsOfMembers(items: seq<Item>, name: string, v: VersionedSSTable)
    ensures v in VersionsOf(items, name) <==>
              v.name == name && exists item :: item in items && !IsScyllaManifest(item) && AsVersion(item) == v
  {
    if items != [] {
      var rest, last := items[..|items|-1], items[|items|-1];
      assert items == rest + [last];
      VersionsOfMembers(rest, name, v);
    }
  }

  /** A file of that name, or a version of it, is listed, and is no Scylla manifest. */
  ghost predicate IsListed(items: seq<Item>, name: string) {
    !HasSuffix(name, "manifest.json") && exists item :: item in items && SplitNameAndVersion(item.name).0 == name
  }

  /** A listed item with that full name and size. */
  ghost predicate IsItem(items: seq<Item>, name: string, v: VersionedSSTable) {
    v.name == name && exists item :: item in items && item.name == FullName(v) && item.size == v.size
  }

  lemma VersionsAreItems(items: seq<Item>)
    ensures forall name :: VersionsOf(items, name) != [] <==> IsListed(items, name)
    ensures forall name, v :: v in VersionsOf(items, name) ==> IsItem(items, name, v)
  {
    forall name ensures VersionsOf(items, name) != [] <==> IsListed(items, name) {
      NamedIsListed(items, name);
    }
    forall name, v | v in VersionsOf(items, name) ensures IsItem(items, name, v) {
      MemberIsItem(items, name, v);
    }
  }

  lemma MemberIsItem(items: seq<Item>, name: string, v: VersionedSSTable)
    requires v in VersionsOf(items, name)
    ensures IsItem(items, name, v)
  {
    VersionsOfMembers(items, name, v);
    var item :| item in items && !IsScyllaManifest(item) && AsVersion(item) == v;
    VersionOfItem(item, v);
  }

  lemma VersionOfItem(item: Item, v: VersionedSSTable)
    requires AsVersion(item) == v
    ensures item.name == FullName(v) && item.size == v.size
  {
    FullNameOfSplit(item.name);
  }

  lemma NamedIsListed(items: seq<Item>, name: string)
    ensures VersionsOf(items, name) != [] <==> IsListed(items, name)
  {
    if VersionsOf(items, name) != [] {
      VersionsOfMembers(items, name, VersionsOf(items, name)[0]);
    }
    if IsListed(items, name) {
      var item :| item in items && SplitNameAndVersion(item.name).0 == name;
      VersionsOfMembers(items, name, AsVersion(item));
    }
  }

  method GatherVersions(items: seq<Item>) returns (all: map<string, seq<VersionedSSTable>>)
    ensures forall name :: name in all <==> VersionsOf(items, name) != []
    ensures forall name :: name in all ==> all[name] == VersionsOf(items, name)
  {
    all := map[];
    for i := 0 to |items|
      invariant forall name :: name in all <==> VersionsOf(items[..i], name) != []
      invariant forall name :: name in all ==> all[name] == VersionsOf(items[..i], name)
    {
      assert items[..i+1][..i] == items[..i];
      if !IsScyllaManifest(items[i]) {
        var v := AsVersion(items[i]);
        var before := if v.name in all then all[v.name] else [];
        all := all[v.name := before + [v]];
      }
    }
    assert items[..|items|] == items;
  }

  method ChooseAll(all: map<string, seq<VersionedSSTable>>, restore: TagTime)
    returns (r: Result<map<string, Option<VersionedSSTable>>>)
    ensures r.Ok? <==> forall name :: name in all ==> DatesValid(all[name])
    ensures r.Ok? ==> r.value.Keys == all.Keys
    ensures r.Ok? ==> forall name :: name in r.value ==> Chosen(all[name], restore, r.value[name])
  {
    var files: map<string, Option<VersionedSSTable>> := map[];
    var todo := all.Keys;
    while todo != {}
      invariant files.Keys == all.Keys - todo && todo <= all.Keys
      invariant forall name :: name in files ==> DatesValid(all[name]) && Chosen(all[name], restore, files[name])
      decreases |todo|
    {
      var name :| name in todo;
      todo := todo - {name};
      var c := ChooseVersion(all[name], restore);
      if c.Err? {
        return Err;
      }
      files := files[name := c.value];
    }
    r := Ok(files);
  }

  /** ListVersionedFiles on the listing of one directory. */
  method ListVersionedFiles(snapshotTag: string, items: seq<Item>)
    returns (r: Result<map<string, Option<VersionedSSTable>>>)
    ensures r.Ok? <==> SnapshotTagTime(snapshotTag).Some? && forall name :: DatesValid(VersionsOf(items, name))
    ensures r.Ok? ==> forall name :: name in r.value <==> IsListed(items, name)
    ensures r.Ok? ==> forall name :: name in r.value ==>
              Chosen(VersionsOf(items, name), SnapshotTagTime(snapshotTag).value, r.value[name])
    ensures r.Ok? ==> forall name :: name in r.value && r.value[name].Some? ==> IsItem(items, name, r.value[name].value)
  {
    var all := GatherVersions(items);
    var restore := SnapshotTagTime(snapshotTag);
    if restore.None? {
      return Err;
    }
    r := ChooseAll(all, restore.value);
    AllDatesValid(items, all);
    VersionsAreItems(items);
  }

  lemma AllDatesValid(items: seq<Item>, all: map<string, seq<VersionedSSTable>>)
    requires forall name :: name in all <==> VersionsOf(items, name) != []
    requires forall name :: name in all ==> all[name] == VersionsOf(items, name)
    ensures (forall name :: name in all ==> DatesValid(all[name])) <==> forall name :: DatesValid(VersionsOf(items, name))
  {
    if forall name :: name in all ==> DatesValid(all[name]) {
      forall name ensures DatesValid(VersionsOf(items, name)) {
        if VersionsOf(items, name) != [] {
          assert name in all;
        }
      }
    }
    if !forall name :: name in all ==> DatesValid(all[name]) {
      var name :| name in all && !DatesValid(all[name]);
      assert !DatesValid(VersionsOf(items, name));
    }
  }
}
