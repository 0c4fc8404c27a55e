/** Where a manifest is stored and what its path tells, backupspec/manifest.go and paths.go. */
module ManifestPaths {
  import opened Paths
  import opened Uuids
  import opened Tags

  /** The fields of a ManifestInfo. */
  datatype Info = Info(
    location: string, dc: string, clusterID: UUID, nodeID: string, taskID: UUID, snapshotTag: string,
    temporary: bool)

  const Empty := Info("", "", Nil, "", Nil, "", false)

  const Manifest := "manifest.json.gz"

  const TempFileExt := ".tmp"

  function TempFile(f: string): string {
    f + TempFileExt
  }

  function RemoteManifestDir(clusterID: UUID, dc: string, nodeID: string): string {
    JoinPath(["backup", "meta", "cluster", Text(clusterID), "dc", dc, "node", nodeID])
  }

  function RemoteManifestFile(clusterID: UUID, taskID: UUID, snapshotTag: string, dc: string, nodeID: string): string {
    JoinPath([
      RemoteManifestDir(clusterID, dc, nodeID),
      Glue(["task", Text(taskID), "tag", snapshotTag, Manifest], '_')])
  }

  function Path(m: Info): string {
    var f := RemoteManifestFile(m.clusterID, m.taskID, m.snapshotTag, m.dc, m.nodeID);
    if m.temporary then TempFile(f) else f
  }

  // ---------- pathparser ----------

  /** A parser takes one part of the text and fills fields; false stands for its error. */
  datatype Attempt = Attempt(ok: bool, info: Info)

  type Parser = (string, Info) -> Attempt

  /** Up to where the parsers came, whether none failed, and the fields then. */
  datatype Outcome = Outcome(n: nat, ok: bool, info: Info)

  function ParseFrom(parsers: seq<Parser>, parts: seq<string>, i: nat, m: Info): Outcome
    requires i <= |parsers|
    decreases |parsers| - i
  {
    if i == |parsers| || i >= |parts| then Outcome(i, true, m) else
      var r := parsers[i](parts[i], m);
      if r.ok then ParseFrom(parsers, parts, i + 1, r.info) else Outcome(i, false, r.info)
  }

  function Static(allowed: set<string>): Parser {
    (v: string, m: Info) => Attempt(v in allowed, m)
  }

  function IdOr(v: string): UUID {
    if Parse(v).Some? then Parse(v).value else Nil
  }

  function ClusterID(v: string, m: Info): Attempt {
    Attempt(Parse(v).Some?, m.(clusterID := IdOr(v)))
  }

  function TaskID(v: string, m: Info): Attempt {
    Attempt(Parse(v).Some?, m.(taskID := IdOr(v)))
  }

  function DC(v: string, m: Info): Attempt {
    Attempt(true, m.(dc := v))
  }

  function NodeID(v: string, m: Info): Attempt {
    Attempt(true, m.(nodeID := v))
  }

  function Tag(v: string, m: Info): Attempt {
    if IsSnapshotTag("sm_" + v) then Attempt(true, m.(snapshotTag := "sm_" + v)) else Attempt(false, m)
  }

  function FileParsers(): seq<Parser> {
    [Static({"task"}), TaskID, Static({"tag"}), Static({"sm"}), Tag, Static({Manifest, TempFile(Manifest)})]
  }

  function FileName(v: string, m: Info): Attempt {
    var o := ParseFrom(FileParsers(), Split(v, '_'), 0, m);
    Attempt(o.ok && o.n == |FileParsers()|, o.info)
  }

  function PathParsers(): seq<Parser> {
    [Static({"backup"}), Static({"meta"}), Static({"cluster"}), ClusterID, Static({"dc"}), DC, Static({"node"}),
     NodeID, FileName]
  }

  /** Whether the path is one of a manifest, and the fields it leaves. */
  function ParsePath(s: string): Attempt {
    var t := Trimmed(Clean(s));
    var o := ParseFrom(PathParsers(), Split(t, '/'), 0, Empty);
    if o.ok && o.n == |PathParsers()| then Attempt(true, o.info.(temporary := HasSuffix(t, TempFileExt)))
      else Attempt(false, o.info)
  }

  // ---------- The code ----------

  class ManifestInfo {
    var location: string
    var dc: string
    var clusterID: UUID
    var nodeID: string
    var taskID: UUID
    var snapshotTag: string
    var temporary: bool

    constructor (m: Info)
      ensures Fields() == m
    {
      location, dc, clusterID, nodeID := m.location, m.dc, m.clusterID, m.nodeID;
      taskID, snapshotTag, temporary := m.taskID, m.snapshotTag, m.temporary;
    }

    function Fields(): Info
      reads this
    {
      Info(location, dc, clusterID, nodeID, taskID, snapshotTag, temporary)
    }

    method Fill(m: Info)
      modifies this
      ensures Fields() == m
    {
      location, dc, clusterID, nodeID := m.location, m.dc, m.clusterID, m.nodeID;
      taskID, snapshotTag, temporary := m.taskID, m.snapshotTag, m.temporary;
    }

    /** PathParser.Parse. */
    method RunParsers(parsers: seq<Parser>, parts: seq<string>) returns (n: nat, ok: bool)
      modifies this
      ensures Outcome(n, ok, Fields()) == ParseFrom(parsers, parts, 0, old(Fields()))
    {
      n := 0;
      while n < |parsers|
        invariant n <= |parsers|
        invariant ParseFrom(parsers, parts, n, Fields()) == ParseFrom(parsers, parts, 0, old(Fields()))
      {
        if n >= |parts| {
          return n, true;
        }
        var r := parsers[n](parts[n], Fields());
        Fill(r.info);
        if !r.ok {
          return n, false;
        }
        n := n + 1;
      }
      ok := true;
    }

    method Read(s: string) returns (ok: bool)
      modifies this
      ensures Attempt(ok, Fields()) == ParsePath(s)
    {
      Fill(Empty);
      var t := Trimmed(Clean(s));
      var n;
      n, ok := RunParsers(PathParsers(), Split(t, '/'));
      if ok && n == |PathParsers()| {
        temporary := HasSuffix(t, TempFileExt);
      } else {
        ok := false;
      }
    }
  }

  // ---------- The file name ----------

  predicate FileNameParts(p: seq<string>) {
    && |p| >= 6
    && p[0] == "task" && Parse(p[1]).Some? && p[2] == "tag" && p[3] == "sm" && IsSnapshotTag("sm_" + p[4])
    && (p[5] == Manifest || p[5] == TempFile(Manifest))
  }

  /** What the file name parser takes, and what it fills in. */
  lemma FileNameParses(v: string, m: Info)
    ensures FileName(v, m).ok <==> FileNameParts(Split(v, '_'))
    ensures FileName(v, m).ok ==>
      FileName(v, m).info == m.(taskID := IdOr(Split(v, '_')[1]), snapshotTag := "sm_" + Split(v, '_')[4])
  {
    FileSteps(FileParsers(), Split(v, '_'), m);
  }

  lemma FileSteps(ps: seq<Parser>, p: seq<string>, m: Info)
    requires ps == FileParsers()
    ensures var o := ParseFrom(ps, p, 0, m);
      && (o.ok && o.n == 6 <==> FileNameParts(p))
      && (o.ok && o.n == 6 ==> o.info == m.(taskID := IdOr(p[1]), snapshotTag := "sm_" + p[4]))
  {
    if |p| >= 6 {
      var m' := m.(taskID := IdOr(p[1]));
      Step(ps, p, 0, m);
      Step(ps, p, 1, m);
      Step(ps, p, 2, m');
      Step(ps, p, 3, m');
      Step(ps, p, 4, m');
      Step(ps, p, 5, m'.(snapshotTag := "sm_" + p[4]));
    } else {
      Short(ps, p, 0, m);
    }
  }

  lemma Step(parsers: seq<Parser>, parts: seq<string>, i: nat, m: Info)
    requires i < |parsers| && i < |parts|
    ensures var r := parsers[i](parts[i], m);
      ParseFrom(parsers, parts, i, m) ==
        if r.ok then ParseFrom(parsers, parts, i + 1, r.info) else Outcome(i, false, r.info)
  {
  }

  lemma {:induction false} Short(parsers: seq<Parser>, parts: seq<string>, i: nat, m: Info)
    requires i <= |parsers| && i <= |parts| < |parsers|
    ensures ParseFrom(parsers, parts, i, m).n < |parsers|
    decreases |parts| - i
  {
    if i < |parts| {
      var r := parsers[i](parts[i], m);
      Short(parsers, parts, i + 1, r.info);
    }
  }

  // ---------- The whole path ----------

  predicate PathParts(p: seq<string>) {
    && |p| >= 9
    && p[0] == "backup" && p[1] == "meta" && p[2] == "cluster" && Parse(p[3]).Some? && p[4] == "dc" && p[6] == "node"
    && FileNameParts(Split(p[8], '_'))
  }

  function PartsInfo(p: seq<string>): Info
    requires |p| >= 9 && |Split(p[8], '_')| >= 6
  {
    var f := Split(p[8], '_');
    Info("", p[5], IdOr(p[3]), p[7], IdOr(f[1]), "sm_" + f[4], false)
  }

  /** What the path parser takes, and what it fills in. */
  lemma PathParses(s: string)
    ensures var t := Trimmed(Clean(s)); ParsePath(s).ok <==> PathParts(Split(t, '/'))
    ensures var t := Trimmed(Clean(s));
      ParsePath(s).ok ==> ParsePath(s).info == PartsInfo(Split(t, '/')).(temporary := HasSuffix(t, TempFileExt))
  {
    PathSteps(PathParsers(), Split(Trimmed(Clean(s)), '/'));
  }

  lemma PathSteps(ps: seq<Parser>, p: seq<string>)
    requires ps == PathParsers()
    ensures var o := ParseFrom(ps, p, 0, Empty);
      && (o.ok && o.n == 9 <==> PathParts(p))
      && (o.ok && o.n == 9 ==> o.info == PartsInfo(p))
  {
    if |p| >= 9 {
      var m := Empty.(clusterID := IdOr(p[3]));
      var m' := m.(dc := p[5]);
      var m'' := m'.(nodeID := p[7]);
      FileNameParses(p[8], m'');
      Step(ps, p, 0, Empty);
      Step(ps, p, 1, Empty);
      Step(ps, p, 2, Empty);
      Step(ps, p, 3, Empty);
      Step(ps, p, 4, m);
      Step(ps, p, 5, m);
      Step(ps, p, 6, m');
      Step(ps, p, 7, m');
      Step(ps, p, 8, m'');
    } else {
      Short(ps, p, 0, Empty);
    }
  }

  // ---------- The round trip ----------

  /** The fields that a path can carry. */
  /** A path that goes wrong behind the datacenter leaves cluster and datacenter filled in, and all else cleared. */
  lemma PartlyParsed(s: string)
    requires
      var p := Split(Trimmed(Clean(s)), '/');
      && |p| >= 7 && p[..3] == ["backup", "meta", "cluster"] && Parse(p[3]).Some? && p[4] == "dc" && p[6] != "node"
    ensures
      var p := Split(Trimmed(Clean(s)), '/');
      ParsePath(s) == Attempt(false, Info("", p[5], Parse(p[3]).value, "", Nil, "", false))
  {
    PartSteps(PathParsers(), Split(Trimmed(Clean(s)), '/'));
  }

  lemma PartSteps(ps: seq<Parser>, p: seq<string>)
    requires ps == PathParsers() && |p| >= 7 && p[..3] == ["backup", "meta", "cluster"]
    requires Parse(p[3]).Some? && p[4] == "dc" && p[6] != "node"
    ensures ParseFrom(ps, p, 0, Empty) == Outcome(6, false, Empty.(clusterID := Parse(p[3]).value, dc := p[5]))
  {
    var m := Empty.(clusterID := IdOr(p[3]));
    assert p[0] == p[..3][0] && p[1] == p[..3][1] && p[2] == p[..3][2];
    Step(ps, p, 0, Empty);
    Step(ps, p, 1, Empty);
    Step(ps, p, 2, Empty);
    Step(ps, p, 3, Empty);
    Step(ps, p, 4, m);
    Step(ps, p, 5, m);
    Step(ps, p, 6, m.(dc := p[5]));
  }

  predicate Carried(m: Info) {
    Good(m.dc) && Good(m.nodeID) && IsSnapshotTag(m.snapshotTag)
  }

  /** Whatever parses has such fields. */
  lemma ParsedIsCarried(s: string)
    requires ParsePath(s).ok
    ensures Carried(ParsePath(s).info) && ParsePath(s).info.location == ""
  {
    PathParses(s);
    CleanIsGood(s);
    var p := Split(Trimmed(Clean(s)), '/');
    assert Good(p[0]);
    assert Good(p[5]) && Good(p[7]);
  }

  function FileNameOf(m: Info): string {
    Glue(["task", Text(m.taskID), "tag", m.snapshotTag, Manifest], '_')
  }

  lemma SplitFileName(id: string, tag: string, last: string)
    requires IsSnapshotTag(tag) && '_' !in id && '_' !in last
    ensures Split(Glue(["task", id, "tag", tag, last], '_'), '_') == ["task", id, "tag", "sm", tag[3..], last]
  {
    TagIsPlain(tag);
    var front := ["task", id, "tag"];
    assert tag == "sm" + (['_'] + tag[3..]);
    GlueSnoc(front, tag, '_');
    GlueSnoc(front, "sm", '_');
    GlueSnoc(front + ["sm"], tag[3..], '_');
    assert Glue(front + [tag], '_') == Glue(front + ["sm"] + [tag[3..]], '_');
    GlueSnoc(front + [tag], last, '_');
    GlueSnoc(front + ["sm"] + [tag[3..]], last, '_');
    assert front + [tag] + [last] == ["task", id, "tag", tag, last];
    var parts := front + ["sm"] + [tag[3..]] + [last];
    assert Free(parts, '_');
    SplitOfGlue(parts, '_');
  }

  lemma TagIsPlain(tag: string)
    requires IsSnapshotTag(tag)
    ensures '_' !in tag[3..] && '/' !in tag
  {
    assert forall i :: 3 <= i < 17 ==> tag[3..17][i-3] == tag[i];
    assert forall i :: 17 <= i < 20 ==> tag[17..][i-17] == tag[i];
    assert forall i :: 0 <= i < 3 ==> tag[..3][i] == tag[i];
  }

  function DirParts(m: Info): seq<string> {
    ["backup", "meta", "cluster", Text(m.clusterID), "dc", m.dc, "node", m.nodeID]
  }

  lemma DirIsGood(m: Info)
    requires Carried(m)
    ensures AllGood(DirParts(m))
    ensures RemoteManifestDir(m.clusterID, m.dc, m.nodeID) == Glue(DirParts(m), '/')
  {
    TextIsPlain(m.clusterID);
    CleanGood(DirParts(m));
  }

  lemma FileNameIsGood(m: Info)
    requires IsSnapshotTag(m.snapshotTag)
    ensures Good(FileNameOf(m)) && Good(TempFile(FileNameOf(m)))
  {
    TextIsPlain(m.taskID);
    TagIsPlain(m.snapshotTag);
    var parts := ["task", Text(m.taskID), "tag", m.snapshotTag, Manifest];
    GlueStarts(parts, '_');
    GlueWithout(parts, '_', '/');
  }

  function StoredName(m: Info): string {
    if m.temporary then TempFile(FileNameOf(m)) else FileNameOf(m)
  }

  lemma PathOfCarried(m: Info)
    requires Carried(m)
    ensures Path(m) == Glue(DirParts(m) + [StoredName(m)], '/')
  {
    DirIsGood(m);
    FileNameIsGood(m);
    var dir, name := DirParts(m), FileNameOf(m);
    GlueSnoc(dir, name, '/');
    GlueStarts(dir, '/');
    assert [Glue(dir, '/')] + [name] == [Glue(dir, '/'), name];
    GlueSnoc([Glue(dir, '/')], name, '/');
    CleanGood(dir + [name]);
    GlueLonger(dir, name, TempFileExt, '/');
  }

  lemma SplitStoredName(m: Info)
    requires IsSnapshotTag(m.snapshotTag)
    ensures Split(StoredName(m), '_') ==
      ["task", Text(m.taskID), "tag", "sm", m.snapshotTag[3..], if m.temporary then TempFile(Manifest) else Manifest]
  {
    TextIsPlain(m.taskID);
    var id := Text(m.taskID);
    var last := if m.temporary then TempFile(Manifest) else Manifest;
    var front := ["task", id, "tag", m.snapshotTag];
    GlueLonger(front, Manifest, TempFileExt, '_');
    assert front + [Manifest] == ["task", id, "tag", m.snapshotTag, Manifest];
    assert front + [last] == ["task", id, "tag", m.snapshotTag, last];
    SplitFileName(id, m.snapshotTag, last);
  }

  lemma SuffixOfLast(x: string, last: string, suffix: string)
    requires |suffix| <= |last|
    ensures HasSuffix(x + last, suffix) <==> HasSuffix(last, suffix)
  {
    assert (x + last)[|x + last| - |suffix|..] == last[|last| - |suffix|..];
  }

  lemma StoredNameEnds(m: Info)
    ensures |StoredName(m)| >= 4 && (HasSuffix(StoredName(m), TempFileExt) <==> m.temporary)
  {
    var front := ["task", Text(m.taskID), "tag", m.snapshotTag];
    GlueSnoc(front, Manifest, '_');
    assert front + [Manifest] == ["task", Text(m.taskID), "tag", m.snapshotTag, Manifest];
    assert FileNameOf(m)[|FileNameOf(m)| - 1] == 'z';
    SuffixOfLast(FileNameOf(m), TempFileExt, TempFileExt);
  }

  /** The path ends in ".tmp" for temporary manifests and for no other. */
  lemma Ending(parts: seq<string>, m: Info)
    requires parts != []
    ensures HasSuffix(Glue(parts + [StoredName(m)], '/'), TempFileExt) <==> m.temporary
  {
    GlueSnoc(parts, StoredName(m), '/');
    StoredNameEnds(m);
    SuffixOfLast(Glue(parts, '/') + ['/'], StoredName(m), TempFileExt);
    assert Glue(parts, '/') + (['/'] + StoredName(m)) == Glue(parts, '/') + ['/'] + StoredName(m);
  }

  lemma PathSplits(m: Info)
    requires Carried(m)
    ensures Trimmed(Clean(Path(m))) == Path(m)
    ensures Split(Path(m), '/') == DirParts(m) + [StoredName(m)]
  {
    PathOfCarried(m);
    DirIsGood(m);
    FileNameIsGood(m);
    CleanGood(DirParts(m) + [StoredName(m)]);
  }

  /** The path of a manifest, part by part. */
  lemma PathText(m: Info) returns (name: string)
    requires Carried(m)
    ensures Split(Path(m), '/') == ["backup", "meta", "cluster", Text(m.clusterID), "dc", m.dc, "node", m.nodeID, name]
    ensures Split(name, '_') ==
      ["task", Text(m.taskID), "tag", "sm", m.snapshotTag[3..], "manifest.json.gz" + if m.temporary then ".tmp" else ""]
  {
    name := StoredName(m);
    PathSplits(m);
    SplitStoredName(m);
    LastPart(m.temporary);
  }

  lemma LastPart(temporary: bool)
    ensures (if temporary then TempFile(Manifest) else Manifest) == "manifest.json.gz" + if temporary then ".tmp" else ""
  {
    assert Manifest + "" == Manifest;
  }

  lemma PartsRead(m: Info, p: seq<string>)
    requires Carried(m) && p == DirParts(m) + [StoredName(m)]
    ensures PathParts(p) && PartsInfo(p) == m.(location := "", temporary := false)
  {
    SplitStoredName(m);
    ParseOfText(m.clusterID);
    ParseOfText(m.taskID);
    TagRejoined(m.snapshotTag);
  }

  lemma PathReads(m: Info)
    requires Carried(m)
    ensures ParsePath(Path(m)) == Attempt(true, m.(location := ""))
  {
    PathSplits(m);
    PathParses(Path(m));
    PartsRead(m, DirParts(m) + [StoredName(m)]);
    PathOfCarried(m);
    Ending(DirParts(m), m);
  }

  lemma TagRejoined(tag: string)
    requires IsSnapshotTag(tag)
    ensures "sm_" + tag[3..] == tag
  {
  }

  /** Parsing the path of a manifest gives all its fields but the location back, if and only if the datacenter
      and the node are good names and the tag is a snapshot tag. */
  lemma PathExact(m: Info)
    ensures ParsePath(Path(m)) == Attempt(true, m.(location := "")) <==> Carried(m)
  {
    if Carried(m) {
      PathReads(m);
    }
    if ParsePath(Path(m)).ok {
      ParsedIsCarried(Path(m));
    }
  }

  /** Two manifests that share a path differ at most in their location. */
  lemma PathsDiffer(m: Info, n: Info)
    requires Carried(m) && Carried(n) && Path(m) == Path(n)
    ensures m == n.(location := m.location)
  {
    PathReads(m);
    PathReads(n);
  }

  /** The path written for what was parsed may differ from what was parsed, but it means the same. */
  lemma Reparsed(s: string)
    requires ParsePath(s).ok
    ensures ParsePath(Path(ParsePath(s).info)) == ParsePath(s)
  {
    ParsedIsCarried(s);
    PathReads(ParsePath(s).info);
  }

  /** A datacenter named ".." takes the element before it out of the path, which then does not parse. */
  lemma DotsDoNotParse(m: Info)
    requires m.dc == ".." && Good(m.nodeID) && IsSnapshotTag(m.snapshotTag)
    ensures !ParsePath(Path(m)).ok
  {
    var dir := ["backup", "meta", "cluster", Text(m.clusterID), "node", m.nodeID];
    DotsInDir(m, dir);
    FileNameIsGood(m);
    var name := FileNameOf(m);
    assert AllGood(dir + [name]) && AllGood(dir + [TempFile(name)]);
    PathFromDir(dir, name);
    GlueLonger(dir, name, TempFileExt, '/');
    CleanGood(dir + [StoredName(m)]);
    assert Path(m) == Glue(dir + [StoredName(m)], '/');
    PathParses(Path(m));
    assert (dir + [StoredName(m)])[4] == "node";
  }

  /** Joining a file name to a directory of good names. */
  lemma PathFromDir(dir: seq<string>, name: string)
    requires dir != [] && AllGood(dir + [name])
    ensures JoinPath([Glue(dir, '/'), name]) == Glue(dir + [name], '/')
  {
    assert Good((dir + [name])[0]);
    GlueStarts(dir, '/');
    GlueSnoc(dir, name, '/');
    assert [Glue(dir, '/')] + [name] == [Glue(dir, '/'), name];
    GlueSnoc([Glue(dir, '/')], name, '/');
    CleanGood(dir + [name]);
  }

  lemma DotsInDir(m: Info, dir: seq<string>)
    requires m.dc == ".." && Good(m.nodeID)
    requires dir == ["backup", "meta", "cluster", Text(m.clusterID), "node", m.nodeID]
    ensures AllGood(dir) && RemoteManifestDir(m.clusterID, m.dc, m.nodeID) == Glue(dir, '/')
  {
    var front := ["backup", "meta", "cluster", Text(m.clusterID)];
    FrontIsGood(front, Text(m.clusterID), m.clusterID);
    DotsAway(DirParts(m), front, m.nodeID);
    assert front + ["node"] + [m.nodeID] == dir;
  }

  lemma FrontIsGood(front: seq<string>, id: string, u: UUID)
    requires id == Text(u) && front == ["backup", "meta", "cluster", id]
    ensures AllGood(front)
  {
    TextIsPlain(u);
  }

  lemma DotsAway(parts: seq<string>, front: seq<string>, last: string)
    requires |front| == 4 && AllGood(front) && Good(last)
    requires parts == [front[0], front[1], front[2], front[3], "dc", "..", "node", last]
    ensures JoinPath(parts) == Glue(front + ["node"] + [last], '/') && AllGood(front + ["node"] + [last])
  {
    assert parts == front + ["dc"] + [".."] + ["node"] + [last];
    DotsResolve(front, last);
    JoinResolved(parts, front + ["node"] + [last]);
  }

  lemma JoinResolved(parts: seq<string>, out: seq<string>)
    requires parts != [] && parts[0] != "" && Free(parts, '/') && out != [] && Resolve(parts, false) == out
    ensures JoinPath(parts) == Glue(out, '/')
  {
    SplitOfGlue(parts, '/');
    GlueStarts(parts, '/');
  }

  /** ".." takes "dc" along. */
  lemma DotsResolve(front: seq<string>, last: string)
    requires AllGood(front) && Good(last)
    ensures Resolve(front + ["dc"] + [".."] + ["node"] + [last], false) == front + ["node"] + [last]
  {
    ResolveGood(front + ["dc"], false);
    ResolveSnoc(front + ["dc"], "..", false);
    assert (front + ["dc"])[..|front|] == front;
    ResolveSnoc(front + ["dc"] + [".."], "node", false);
    ResolveSnoc(front + ["dc"] + [".."] + ["node"], last, false);
  }

  lemma ResolveSnoc(parts: seq<string>, p: string, rooted: bool)
    ensures Resolve(parts + [p], rooted) == Entered(Resolve(parts, rooted), p, rooted)
  {
    assert (parts + [p])[..|parts|] == parts;
  }
}
