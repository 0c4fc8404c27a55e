/** SSTable file names and their renaming, pkg/sstable/sstable_naming.go.

  The expressions are searched anywhere in a name.  Since their groups hold no dash but for the last, a match
  is a run of dash-separated parts, and the leftmost match is the one with the least first part.
*/
module SSTableNames {
  import opened Wrappers
  import opened Tags
  import opened Paths

  predicate IsLetter(c: char) {
    'a' <= c <= 'z' || 'A' <= c <= 'Z'
  }

  /** One or more of \w. */
  predicate Word(s: string) {
    s != "" && forall i :: 0 <= i < |s| ==> IsDigit(s[i]) || IsLetter(s[i]) || s[i] == '_'
  }

  predicate Number(s: string) {
    s != "" && forall i :: 0 <= i < |s| ==> IsDigit(s[i])
  }

  /** Ends in la or in m and one of c, d, e, s, t. */
  predicate EndsInCode(s: string) {
    |s| >= 2 && (s[|s|-2..] == "la" || (s[|s|-2] == 'm' && s[|s|-1] in "cdest"))
  }

  predicate EndsInLetters(s: string) {
    |s| >= 2 && IsLetter(s[|s|-1]) && IsLetter(s[|s|-2])
  }

  predicate EndsInWord(s: string) {
    s != "" && Word(s[|s|-1..])
  }

  /** 4, 4 and 18 digits in base 36, with underscores between. */
  predicate AnyUUID(s: string) {
    && |s| == 28 && s[4] == '_' && s[9] == '_'
    && (forall i :: 0 <= i < 28 && i != 4 && i != 9 ==> IsDigit(s[i]) || 'a' <= s[i] <= 'z')
  }

  /** A match of the expression for la and mx names can begin in part `i`. */
  predicate LaMatches(p: seq<string>, i: nat) {
    i + 3 < |p| && EndsInCode(p[i]) && p[i+1] != "" && Word(p[i+2])
  }

  predicate KaMatches(p: seq<string>, i: nat) {
    i + 4 < |p| && EndsInWord(p[i]) && Word(p[i+1]) && p[i+2] == "ka" && Number(p[i+3])
  }

  predicate AnyMatches(p: seq<string>, i: nat) {
    i + 3 < |p| && EndsInLetters(p[i]) && AnyUUID(p[i+1]) && Word(p[i+2])
  }

  /** The first part from `i` on in which a match begins. */
  function First(match_: nat -> bool, i: nat, n: nat): (r: Option<nat>)
    ensures r.Some? ==> i <= r.value < n && match_(r.value) && forall j :: i <= j < r.value ==> !match_(j)
    ensures r.None? ==> forall j :: i <= j < n ==> !match_(j)
    decreases n - i
  {
    if i >= n then None else if match_(i) then Some(i) else First(match_, i + 1, n)
  }

  function LaAt(p: seq<string>): Option<nat> {
    First((i: nat) => LaMatches(p, i), 0, |p|)
  }

  function KaAt(p: seq<string>): Option<nat> {
    First((i: nat) => KaMatches(p, i), 0, |p|)
  }

  function AnyAt(p: seq<string>): Option<nat> {
    First((i: nat) => AnyMatches(p, i), 0, |p|)
  }

  /** The part that ExtractID takes for the ID. */
  function IdAt(p: seq<string>): (r: Option<nat>)
    ensures r.Some? ==> r.value < |p|
  {
    if LaAt(p).Some? then Some(LaAt(p).value + 1)
    else if KaAt(p).Some? then Some(KaAt(p).value + 3)
    else if AnyAt(p).Some? then Some(AnyAt(p).value + 1)
    else None
  }

  function ExtractID(sstable: string): Option<string> {
    var p := Split(sstable, '-');
    if IdAt(p).Some? then Some(p[IdAt(p).value]) else None
  }

  /** The part that replaceID overwrites. */
  function ReplacedAt(p: seq<string>): (r: Option<nat>)
    ensures r.Some? <==> IdAt(p).Some?
    ensures r.Some? ==> r.value < |p|
  {
    if LaAt(p).Some? || AnyAt(p).Some? then Some(1) else if KaAt(p).Some? then Some(3) else None
  }

  function ReplaceID(sstable: string, newID: string): string
    requires ExtractID(sstable).Some?
  {
    var p := Split(sstable, '-');
    Glue(p[ReplacedAt(p).value := newID], '-')
  }

  // ---------- The code ----------

  /** The name given to a file whose ID gets a new one from `nameGen`. */
  function Renamed(sstable: string, nameGen: string -> string): string
    requires ExtractID(sstable).Some?
  {
    ReplaceID(sstable, nameGen(ExtractID(sstable).value))
  }

  method RenameSSTables(sstables: seq<string>, nameGen: string -> string) returns (out: Option<map<string, string>>)
    ensures out.Some? <==> forall s :: s in sstables ==> ExtractID(s).Some?
    ensures out.Some? ==> out.value.Keys == set s | s in sstables
    ensures out.Some? ==> forall s :: s in out.value ==> ExtractID(s).Some? && out.value[s] == Renamed(s, nameGen)
  {
    var idMapping: map<string, string>, m: map<string, string> := map[], map[];
    for n := 0 to |sstables|
      invariant forall id :: id in idMapping ==> idMapping[id] == nameGen(id)
      invariant m.Keys == set s | s in sstables[..n]
      invariant forall s :: s in m ==> ExtractID(s).Some? && m[s] == Renamed(s, nameGen)
    {
      var sst := sstables[n];
      var id := ExtractID(sst);
      if id.None? {
        return None;
      }
      if id.value !in idMapping {
        idMapping := idMapping[id.value := nameGen(id.value)];
      }
      assert sstables[..n+1] == sstables[..n] + [sst];
      m := m[sst := ReplaceID(sst, idMapping[id.value])];
    }
    assert sstables[..|sstables|] == sstables;
    forall s | s in sstables ensures ExtractID(s).Some? {
      assert s in m.Keys;
    }
    out := Some(m);
  }

  // ---------- What renaming keeps ----------

  /** A new ID: not empty and free of dashes. */
  predicate FineID(id: string) {
    id != "" && '-' !in id
  }

  /** The file name begins with a la or mx name: its first part ends in the version, the second is the ID. */
  predicate WellFormed(sstable: string) {
    LaMatches(Split(sstable, '-'), 0)
  }

  lemma WellFormedID(p: seq<string>)
    requires LaMatches(p, 0)
    ensures LaAt(p) == Some(0) && IdAt(p) == Some(1) && ReplacedAt(p) == Some(1)
  {
  }

  lemma SplitReplaced(sstable: string, newID: string)
    requires ExtractID(sstable).Some? && '-' !in newID
    ensures var p := Split(sstable, '-');
      Split(ReplaceID(sstable, newID), '-') == p[ReplacedAt(p).value := newID]
  {
    var p := Split(sstable, '-');
    GlueOfSplit(sstable, '-');
    SplitOfGlue(p[ReplacedAt(p).value := newID], '-');
  }

  /** A well-formed name stays well-formed, with the new ID and all other parts as they were. */
  lemma RenameKeeps(sstable: string, newID: string)
    requires WellFormed(sstable) && FineID(newID)
    ensures ExtractID(sstable).Some?
    ensures WellFormed(ReplaceID(sstable, newID)) && ExtractID(ReplaceID(sstable, newID)) == Some(newID)
    ensures Split(ReplaceID(sstable, newID), '-') == Split(sstable, '-')[1 := newID]
  {
    var p := Split(sstable, '-');
    WellFormedID(p);
    SplitReplaced(sstable, newID);
    WellFormedID(p[1 := newID]);
  }

  /** Only the part read as the ID changes, and the new name has the new ID, whatever that is. */
  ghost predicate RenamesRight(sstable: string)
    requires ExtractID(sstable).Some?
  {
    forall newID :: FineID(newID) ==> RenamedTo(sstable, newID)
  }

  ghost predicate RenamedTo(sstable: string, newID: string)
    requires ExtractID(sstable).Some?
  {
    var p := Split(sstable, '-');
    var renamed := ReplaceID(sstable, newID);
    ExtractID(renamed) == Some(newID) && Split(renamed, '-') == p[IdAt(p).value := newID]
  }

  /** Of all names that have an ID, exactly the well-formed ones are renamed right. */
  lemma RenameExact(sstable: string)
    requires ExtractID(sstable).Some?
    ensures RenamesRight(sstable) <==> WellFormed(sstable)
  {
    if WellFormed(sstable) {
      WellFormedID(Split(sstable, '-'));
      forall newID | FineID(newID) ensures RenamedTo(sstable, newID) {
        RenameKeeps(sstable, newID);
      }
    } else {
      var p := Split(sstable, '-');
      var newID := Unheard(p);
      GlueOfSplit(sstable, '-');
      UnheardIsFine(p);
      MisnamedWith(sstable, newID);
      assert FineID(newID);
    }
  }

  /** An ID that is neither a number nor a UUID nor any of the parts. */
  function Unheard(p: seq<string>): string {
    Glue(p, '!') + "!"
  }

  lemma {:induction false} PartsAreShorter(p: seq<string>, k: nat)
    requires k < |p|
    ensures |p[k]| <= |Glue(p, '!')|
  {
    if k < |p| - 1 {
      PartsAreShorter(p[..|p|-1], k);
    }
  }

  lemma UnheardIsFine(p: seq<string>)
    requires Free(p, '-')
    ensures FineID(Unheard(p)) && !Number(Unheard(p)) && !AnyUUID(Unheard(p))
    ensures forall k :: 0 <= k < |p| ==> p[k] != Unheard(p)
  {
    GlueWithout(p, '!', '-');
    var u := Unheard(p);
    assert u[|u|-1] == '!';
    forall k | 0 <= k < |p| ensures p[k] != u {
      PartsAreShorter(p, k);
    }
  }

  /** A name that is not well-formed does not keep such an ID. */
  lemma MisnamedWith(sstable: string, newID: string)
    requires ExtractID(sstable).Some? && !WellFormed(sstable) && newID == Unheard(Split(sstable, '-'))
    ensures !RenamedTo(sstable, newID)
  {
    var p := Split(sstable, '-');
    var k := ReplacedAt(p).value;
    GlueOfSplit(sstable, '-');
    UnheardIsFine(p);
    SplitReplaced(sstable, newID);
    if IdAt(p).value == k {
      NotReadBack(p, p[k := newID], k, newID);
    } else {
      AnotherPart(p, k, IdAt(p).value, newID);
    }
  }

  lemma AnotherPart(p: seq<string>, k: nat, i: nat, newID: string)
    requires k < |p| && i < |p| && k != i && p[k] != newID
    ensures p[k := newID] != p[i := newID]
  {
    assert p[k := newID][k] == newID && p[i := newID][k] == p[k];
  }

  lemma NotReadBack(p: seq<string>, q: seq<string>, k: nat, newID: string)
    requires k < |p| && q == p[k := newID] && ReplacedAt(p) == Some(k) == IdAt(p) && !LaMatches(p, 0)
    requires !Number(newID) && !AnyUUID(newID) && forall i :: 0 <= i < |p| ==> p[i] != newID
    ensures IdAt(q).Some? ==> q[IdAt(q).value] != newID
  {
    if k == 1 {
      NotReadBackAt1(p, q, newID);
    } else {
      NotReadBackAt3(p, q, newID);
    }
  }

  lemma NotReadBackAt1(p: seq<string>, q: seq<string>, newID: string)
    requires |p| > 1 && q == p[1 := newID]
    requires IdAt(p) == Some(1) && !LaMatches(p, 0) && !Number(newID) && !AnyUUID(newID)
    ensures IdAt(q) != Some(1)
  {
    assert AnyMatches(p, 0);
    assert !LaMatches(q, 0);
    assert !AnyMatches(q, 0);
  }

  lemma NotReadBackAt3(p: seq<string>, q: seq<string>, newID: string)
    requires |p| > 3 && q == p[3 := newID]
    requires IdAt(p) == Some(3) == ReplacedAt(p) && !Number(newID) && !AnyUUID(newID)
    ensures IdAt(q) != Some(3)
  {
    assert KaMatches(p, 0);
    assert !LaMatches(q, 2);
    assert !AnyMatches(q, 2);
    assert !KaMatches(q, 0);
  }

  /** Two files get one name only if they are one file, and one new ID only if they had one ID. */
  lemma RenamedApart(s: string, t: string, nameGen: string -> string)
    requires WellFormed(s) && WellFormed(t)
    requires forall id :: FineID(nameGen(id))
    requires forall id, id' :: nameGen(id) == nameGen(id') ==> id == id'
    ensures ExtractID(s).Some? && ExtractID(t).Some?
    ensures Renamed(s, nameGen) == Renamed(t, nameGen) ==> s == t
    ensures ExtractID(Renamed(s, nameGen)) == ExtractID(Renamed(t, nameGen)) <==> ExtractID(s) == ExtractID(t)
  {
    var p, q := Split(s, '-'), Split(t, '-');
    WellFormedID(p);
    WellFormedID(q);
    RenameKeeps(s, nameGen(p[1]));
    RenameKeeps(t, nameGen(q[1]));
    if Renamed(s, nameGen) == Renamed(t, nameGen) {
      assert p[1 := nameGen(p[1])][1 := p[1]] == p;
      assert q[1 := nameGen(q[1])][1 := q[1]] == q;
      GlueOfSplit(s, '-');
      GlueOfSplit(t, '-');
    }
  }

  /** The ka name ks-cf-ka-1-Data.db, whose parts are these, has no ID any more when its new ID is no number. */
  lemma KaLosesItsID(sstable: string)
    requires sstable == Glue(["ks", "cf", "ka", "1", "Data.db"], '-')
    ensures ExtractID(sstable) == Some("1")
    ensures Split(ReplaceID(sstable, "x"), '-') == ["ks", "cf", "ka", "x", "Data.db"]
    ensures ExtractID(ReplaceID(sstable, "x")) == None
  {
    var p, q := ["ks", "cf", "ka", "1", "Data.db"], ["ks", "cf", "ka", "x", "Data.db"];
    SplitOfGlue(p, '-');
    KaReplaced(sstable, p, q);
  }

  lemma KaReplaced(sstable: string, p: seq<string>, q: seq<string>)
    requires p == ["ks", "cf", "ka", "1", "Data.db"] && q == p[3 := "x"] && Split(sstable, '-') == p
    ensures ExtractID(sstable) == Some("1")
    ensures Split(ReplaceID(sstable, "x"), '-') == q && ExtractID(ReplaceID(sstable, "x")) == None
  {
    KaParts(p);
    KaWithX(q);
    SplitReplaced(sstable, "x");
  }

  lemma KaWithX(q: seq<string>)
    requires q == ["ks", "cf", "ka", "x", "Data.db"]
    ensures LaAt(q) == None && AnyAt(q) == None && KaAt(q) == None
  {
    assert q[3] != "1";
    KaParts(q);
  }

  lemma KaParts(p: seq<string>)
    requires |p| == 5 && p[0] == "ks" && p[1] == "cf" && p[2] == "ka" && p[3] in ["1", "x"] && p[4] == "Data.db"
    ensures LaAt(p) == None && AnyAt(p) == None && KaAt(p) == if p[3] == "1" then Some(0) else None
  {
    KaWords();
    forall i: nat ensures !LaMatches(p, i) && !AnyMatches(p, i) && (KaMatches(p, i) <==> i == 0 && p[3] == "1") {
      KaMatchesAt(p, i);
    }
    NoMatch(p);
  }

  lemma KaWords()
    ensures !EndsInCode("ks") && !EndsInCode("cf") && EndsInWord("ks") && Word("cf") && Number("1") && !Number("x")
  {
    assert "ks"[1..] == "s";
    assert !IsDigit("x"[0]);
  }

  lemma KaMatchesAt(p: seq<string>, i: nat)
    requires |p| == 5 && p[0] == "ks" && p[1] == "cf" && p[2] == "ka" && p[3] in ["1", "x"]
    requires !EndsInCode("ks") && !EndsInCode("cf") && EndsInWord("ks") && Word("cf") && Number("1") && !Number("x")
    ensures !LaMatches(p, i) && !AnyMatches(p, i) && (KaMatches(p, i) <==> i == 0 && p[3] == "1")
  {
    assert i < 2 ==> i == 0 || i == 1;
  }

  lemma NoMatch(p: seq<string>)
    requires p != []
    requires forall i: nat :: !LaMatches(p, i) && !AnyMatches(p, i)
    requires forall i: nat :: KaMatches(p, i) <==> i == 0 && |p| > 3 && p[3] == "1"
    ensures LaAt(p) == None && AnyAt(p) == None && KaAt(p) == if |p| > 3 && p[3] == "1" then Some(0) else None
  {
    assert KaAt(p).Some? ==> KaMatches(p, KaAt(p).value);
  }

  // ---------- The names of the supported formats ----------

  /** The names la-7-big-TOC.txt and me-3g7k_098r_4wtqo2asamoc1i8h9n-big-CRC.db are such: the ID is the second part. */
  lemma LaNames(version: string, id: string, format: string, component: string)
    requires EndsInCode(version) && FineID(id) && Word(format)
    requires '-' !in version && '-' !in format && '-' !in component
    ensures ExtractID(Glue([version, id, format, component], '-')) == Some(id)
  {
    LaParts([version, id, format, component]);
  }

  lemma LaParts(p: seq<string>)
    requires LaMatches(p, 0) && Free(p, '-')
    ensures ExtractID(Glue(p, '-')) == Some(p[1])
  {
    SplitOfGlue(p, '-');
    WellFormedID(p);
  }

  /** The codes of two letters. */
  lemma VersionCodes(version: string)
    requires |version| == 2
    ensures EndsInCode(version) <==>
              (version[0] == 'l' && version[1] == 'a') || (version[0] == 'm' && version[1] in {'c', 'd', 'e', 's', 't'})
  {
    assert version[0..] == version;
  }

  /** keyspace1-standard1-ka-1-CRC.db: the ID is the number. */
  lemma KaNames(keyspace: string, table: string, id: string, component: string)
    requires Word(keyspace) && Word(table) && Number(id) && '-' !in component
    requires !EndsInCode(keyspace) && !EndsInCode(table)
    ensures ExtractID(Glue([keyspace, table, "ka", id, component], '-')) == Some(id)
  {
    var p := [keyspace, table, "ka", id, component];
    assert Word(keyspace[|keyspace|-1..]);
    SplitOfGlue(p, '-');
    assert KaMatches(p, 0);
    assert forall i: nat :: !LaMatches(p, i) by {
      forall i: nat ensures !LaMatches(p, i) {
        assert i < 2 ==> i == 0 || i == 1;
      }
    }
    assert KaAt(p) == Some(0);
  }

  /** nb-3h24_11zl_0kkqo2r5456gdvpkmz-big-Data.db: with a UUID any two letters do. */
  lemma UuidNames(version: string, id: string, format: string, component: string)
    requires |version| == 2 && IsLetter(version[0]) && IsLetter(version[1]) && AnyUUID(id) && Word(format)
    requires '-' !in component && '-' !in id && '-' !in format && '-' !in version
    ensures ExtractID(Glue([version, id, format, component], '-')) == Some(id)
  {
    var p := [version, id, format, component];
    SplitOfGlue(p, '-');
    assert AnyMatches(p, 0);
    assert forall i: nat :: !KaMatches(p, i);
    if EndsInCode(version) {
      assert LaMatches(p, 0);
    } else {
      assert forall i: nat :: !LaMatches(p, i);
    }
  }
}
