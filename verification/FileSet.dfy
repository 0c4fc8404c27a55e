/** The set of files of pkg/service/backup/fileset.go, kept as one set of names for every directory. */
module FileSets {
  /** Where the data of a node is kept, the same in every location. */
  datatype Place = Place(cluster: string, dc: string, id: string)

  /** The directory of one table version of a node. */
  datatype Dir = Dir(place: Place, table: string)

  /** A path without its location, already split by path.Dir and path.Base. */
  datatype Path = Path(dir: Dir, name: string)

  /** The flat set of files that a two-level set stands for. */
  ghost function Flat(dirs: map<Dir, set<string>>): (s: set<Path>)
    ensures forall f :: f in s <==> f.dir in dirs && f.name in dirs[f.dir]
  {
    set d, n | d in dirs && n in dirs[d] :: Path(d, n)
  }

  ghost function FilesIn(dir: Dir, names: set<string>): (s: set<Path>)
    ensures forall f :: f in s <==> f.dir == dir && f.name in names
  {
    set n | n in names :: Path(dir, n)
  }

  function ToSet(names: seq<string>): (s: set<string>)
    ensures forall n :: n in s <==> n in names
  {
    set n | n in names
  }

  lemma {:induction false} FilesInSize(dir: Dir, names: set<string>)
    ensures |FilesIn(dir, names)| == |names|
  {
    if names == {} {
      assert FilesIn(dir, names) == {};
    } else {
      var n :| n in names;
      FilesInSize(dir, names - {n});
      assert FilesIn(dir, names) == FilesIn(dir, names - {n}) + {Path(dir, n)};
    }
  }

  class FileSet {
    var dirs: map<Dir, set<string>>

    ghost function Files(): set<Path>
      reads this
    {
      Flat(dirs)
    }

    constructor ()
      ensures Files() == {}
    {
      dirs := map[];
    }

    /** dirSet with create: a directory that is not there yet gets an empty set. */
    method MakeDir(dir: Dir)
      modifies this
      ensures Files() == old(Files()) && dir in dirs
    {
      if dir !in dirs {
        dirs := dirs[dir := {}];
      }
    }

    method AddFiles(dir: Dir, names: seq<string>)
      modifies this
      ensures Files() == old(Files()) + FilesIn(dir, ToSet(names))
    {
      MakeDir(dir);
      dirs := dirs[dir := dirs[dir] + ToSet(names)];
    }

    method RemoveFiles(dir: Dir, names: seq<string>)
      modifies this
      ensures Files() == old(Files()) - FilesIn(dir, ToSet(names))
    {
      if dir in dirs {
        dirs := dirs[dir := dirs[dir] - ToSet(names)];
      }
    }

    method HasAnyFiles(dir: Dir, names: seq<string>) returns (any: bool)
      ensures any <==> Files() * FilesIn(dir, ToSet(names)) != {}
    {
      any := dir in dirs && exists n :: n in dirs[dir] && n in names;
      if any {
        ghost var n :| n in dirs[dir] && n in names;
        assert Path(dir, n) in Files() * FilesIn(dir, ToSet(names));
      }
    }

    method Add(f: Path)
      modifies this
      ensures Files() == old(Files()) + {f}
    {
      MakeDir(f.dir);
      dirs := dirs[f.dir := dirs[f.dir] + {f.name}];
    }

    method Has(f: Path) returns (has: bool)
      ensures has <==> f in Files()
    {
      has := f.dir in dirs && f.name in dirs[f.dir];
    }

    method Remove(f: Path)
      modifies this
      ensures Files() == old(Files()) - {f}
    {
      if f.dir in dirs {
        dirs := dirs[f.dir := dirs[f.dir] - {f.name}];
      }
    }

    method DirSet(dir: Dir) returns (names: set<string>)
      modifies this
      ensures Files() == old(Files())
      ensures forall n :: n in names <==> Path(dir, n) in Files()
    {
      MakeDir(dir);
      names := dirs[dir];
    }

    /** The directories that hold some file, each once, in no particular order. */
    method Dirs() returns (ds: seq<Dir>)
      ensures forall d :: d in ds <==> exists f :: f in Files() && f.dir == d
      ensures forall i, j :: 0 <= i < j < |ds| ==> ds[i] != ds[j]
    {
      ds := [];
      var todo := dirs.Keys;
      while todo != {}
        invariant todo <= dirs.Keys
        invariant forall d :: d in ds <==> d in dirs && d !in todo && dirs[d] != {}
        invariant forall i, j :: 0 <= i < j < |ds| ==> ds[i] != ds[j]
        decreases |todo|
      {
        var d :| d in todo;
        todo := todo - {d};
        if dirs[d] != {} {
          ds := ds + [d];
        }
      }
      forall d | d in ds ensures exists f :: f in Files() && f.dir == d {
        var n :| n in dirs[d];
        assert Path(d, n) in Files();
      }
    }

    /** The number of files: the sizes of the directories add up to it. */
    method Size() returns (size: nat)
      ensures size == |Files()|
    {
      size := 0;
      var todo := dirs.Keys;
      ghost var seen: set<Path> := {};
      while todo != {}
        invariant todo <= dirs.Keys
        invariant forall f :: f in seen <==> f in Files() && f.dir !in todo
        invariant size == |seen|
        decreases |todo|
      {
        var d :| d in todo;
        todo := todo - {d};
        FilesInSize(d, dirs[d]);
        assert seen !! FilesIn(d, dirs[d]);
        seen := seen + FilesIn(d, dirs[d]);
        size := size + |dirs[d]|;
      }
      assert seen == Files();
    }
  }
}
