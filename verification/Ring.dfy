/** The description of the token ring, describeRing of pkg/scyllaclient/client_scylla.go.

  Host addresses are numbers in their order; what does not parse is None.  The hash of a replica set is a
  parameter, since xxhash is not part of this model.
*/
module Ring {
  import opened Wrappers

  type Addr = nat

  datatype TokenRange = TokenRange(start: int, end: int)

  datatype Detail = Detail(host: Option<Addr>, dc: string)

  /** One token range of the response. */
  datatype Described = Described(start: Option<int>, end: Option<int>, endpoints: seq<Option<Addr>>, details: seq<Detail>)

  datatype ReplicaTokenRanges = ReplicaTokenRanges(replicaSet: seq<Addr>, ranges: seq<TokenRange>)

  datatype Replication = LocalStrategy | NetworkTopologyStrategy | SimpleStrategy

  datatype TokenRing = TokenRing(
    replicaTokens: seq<ReplicaTokenRanges>, hostDC: map<Addr, string>, rf: nat, replication: Replication,
    dcRF: map<string, nat>)

  type Hash = seq<Addr> -> nat

  // ---------- One range ----------

  predicate AllParsed(s: seq<Option<Addr>>) {
    forall i :: 0 <= i < |s| ==> s[i].Some?
  }

  predicate Parsed(p: Described) {
    p.start.Some? && p.end.Some? && AllParsed(p.endpoints) && forall d :: d in p.details ==> d.host.Some?
  }

  function Addrs(s: seq<Option<Addr>>): (r: seq<Addr>)
    requires AllParsed(s)
    ensures |r| == |s| && forall i :: 0 <= i < |s| ==> r[i] == s[i].value
  {
    seq(|s|, i requires 0 <= i < |s| => s[i].value)
  }

  predicate NonDecreasing(s: seq<Addr>) {
    forall i, j :: 0 <= i < j < |s| ==> s[i] <= s[j]
  }

  /** slices.SortFunc on addresses. */
  function Sorted(s: seq<Addr>): seq<Addr> {
    if s == [] then [] else Inserted(Sorted(s[1..]), s[0])
  }

  function Inserted(s: seq<Addr>, a: Addr): seq<Addr> {
    if s == [] || a <= s[0] then [a] + s else [s[0]] + Inserted(s[1..], a)
  }

  lemma {:induction false} InsertedElements(s: seq<Addr>, a: Addr)
    ensures multiset(Inserted(s, a)) == multiset(s) + multiset{a}
  {
    if s != [] && a > s[0] {
      InsertedElements(s[1..], a);
      assert s == [s[0]] + s[1..];
    }
  }

  lemma {:induction false} InsertedOrder(s: seq<Addr>, a: Addr)
    requires NonDecreasing(s)
    ensures NonDecreasing(Inserted(s, a)) && |Inserted(s, a)| == |s| + 1
    ensures Inserted(s, a)[0] == if s != [] && s[0] < a then s[0] else a
  {
    if s != [] && a > s[0] {
      InsertedOrder(s[1..], a);
    }
  }

  /** Sorting gives the addresses in order, and every address as often as before. */
  lemma {:induction false} SortedSorts(s: seq<Addr>)
    ensures NonDecreasing(Sorted(s)) && |Sorted(s)| == |s| && multiset(Sorted(s)) == multiset(s)
  {
    if s != [] {
      SortedSorts(s[1..]);
      InsertedOrder(Sorted(s[1..]), s[0]);
      InsertedElements(Sorted(s[1..]), s[0]);
      assert s == [s[0]] + s[1..];
    }
  }

  function ReplicaSet(p: Described): seq<Addr>
    requires Parsed(p)
  {
    Sorted(Addrs(p.endpoints))
  }

  function RangeOf(p: Described): TokenRange
    requires Parsed(p)
  {
    TokenRange(p.start.value, p.end.value)
  }

  /** How many of the range's replicas each datacenter has. */
  function DCCount(details: seq<Detail>): map<string, nat> {
    if details == [] then map[] else
      var m, dc := DCCount(details[..|details|-1]), details[|details|-1].dc;
      m[dc := (if dc in m then m[dc] else 0) + 1]
  }

  // ---------- The whole response ----------

  predicate AllFine(ps: seq<Described>) {
    && (forall i :: 0 <= i < |ps| ==> Parsed(ps[i]))
    && (forall i :: 0 <= i < |ps| ==> |ps[i].endpoints| == |ps[0].endpoints|)
  }

  predicate AllParse(ps: seq<Described>) {
    forall i :: 0 <= i < |ps| ==> Parsed(ps[i])
  }

  /** The ranges whose replica set has that hash, in the order of the response. */
  function RangesWith(ps: seq<Described>, hash: Hash, h: nat): seq<TokenRange>
    requires AllParse(ps)
  {
    if ps == [] then [] else
      var last := ps[|ps|-1];
      var front := RangesWith(ps[..|ps|-1], hash, h);
      if hash(ReplicaSet(last)) == h then front + [RangeOf(last)] else front
  }

  /** The last replica set with that hash. */
  function SetWith(ps: seq<Described>, hash: Hash, h: nat): seq<Addr>
    requires AllParse(ps)
  {
    if ps == [] then [] else
      var last := ps[|ps|-1];
      if hash(ReplicaSet(last)) == h then ReplicaSet(last) else SetWith(ps[..|ps|-1], hash, h)
  }

  function HashesOf(ps: seq<Described>, hash: Hash): set<nat>
    requires AllParse(ps)
  {
    set i | 0 <= i < |ps| :: hash(ReplicaSet(ps[i]))
  }

  function AllRanges(ps: seq<Described>): multiset<TokenRange>
    requires AllParse(ps)
  {
    if ps == [] then multiset{} else AllRanges(ps[..|ps|-1]) + multiset{RangeOf(ps[|ps|-1])}
  }

  /** The ranges whose hash is in `hs`. */
  function RangesOfHashes(ps: seq<Described>, hash: Hash, hs: set<nat>): multiset<TokenRange>
    requires AllParse(ps)
  {
    if ps == [] then multiset{} else
      var last := ps[|ps|-1];
      RangesOfHashes(ps[..|ps|-1], hash, hs)
      + if hash(ReplicaSet(last)) in hs then multiset{RangeOf(last)} else multiset{}
  }

  function RangesOfGroups(gs: seq<ReplicaTokenRanges>): multiset<TokenRange> {
    if gs == [] then multiset{} else RangesOfGroups(gs[..|gs|-1]) + multiset(gs[|gs|-1].ranges)
  }

  lemma {:induction false} OneMoreHash(ps: seq<Described>, hash: Hash, hs: set<nat>, h: nat)
    requires AllParse(ps) && h !in hs
    ensures RangesOfHashes(ps, hash, hs + {h}) == RangesOfHashes(ps, hash, hs) + multiset(RangesWith(ps, hash, h))
  {
    if ps != [] {
      OneMoreHash(ps[..|ps|-1], hash, hs, h);
    }
  }

  lemma {:induction false} NoHash(ps: seq<Described>, hash: Hash)
    requires AllParse(ps)
    ensures RangesOfHashes(ps, hash, {}) == multiset{}
  {
    if ps != [] {
      NoHash(ps[..|ps|-1], hash);
    }
  }

  lemma {:induction false} EveryHash(ps: seq<Described>, hash: Hash, hs: set<nat>)
    requires AllParse(ps) && HashesOf(ps, hash) <= hs
    ensures RangesOfHashes(ps, hash, hs) == AllRanges(ps)
  {
    if ps != [] {
      var n := |ps| - 1;
      assert hash(ReplicaSet(ps[n])) in HashesOf(ps, hash);
      forall h | h in HashesOf(ps[..n], hash) ensures h in HashesOf(ps, hash) {
        var i :| 0 <= i < n && h == hash(ReplicaSet(ps[..n][i]));
        assert h == hash(ReplicaSet(ps[i]));
      }
      EveryHash(ps[..n], hash, hs);
    }
  }

  // ---------- What these are, counted in the response ----------

  /** The entries of the response with that start and end. */
  ghost function EntriesOf(ps: seq<Described>, t: TokenRange): (s: set<nat>)
    ensures forall i: nat :: i in s <==> i < |ps| && ps[i].start == Some(t.start) && ps[i].end == Some(t.end)
  {
    set i: nat | i < |ps| && ps[i].start == Some(t.start) && ps[i].end == Some(t.end)
  }

  lemma EntriesSnoc(ps: seq<Described>, n: nat, t: TokenRange)
    requires n + 1 == |ps|
    ensures n !in EntriesOf(ps[..n], t)
    ensures EntriesOf(ps, t) ==
      EntriesOf(ps[..n], t) + if ps[n].start == Some(t.start) && ps[n].end == Some(t.end) then {n} else {}
  {
    forall i: nat ensures i in EntriesOf(ps, t) <==>
        i in EntriesOf(ps[..n], t) || (i == n && ps[n].start == Some(t.start) && ps[n].end == Some(t.end))
    {
      if i < n {
        assert ps[..n][i] == ps[i];
      }
    }
  }

  /** A range is described as often as entries of the response have its start and its end. */
  lemma {:induction false} AllRangesExact(ps: seq<Described>, t: TokenRange)
    requires AllParse(ps)
    ensures AllRanges(ps)[t] == |EntriesOf(ps, t)|
  {
    if ps == [] {
      assert EntriesOf(ps, t) == {};
    } else {
      var n := |ps| - 1;
      AllRangesExact(ps[..n], t);
      EntriesSnoc(ps, n, t);
    }
  }

  /** The replicas in a datacenter. */
  ghost function ReplicasIn(details: seq<Detail>, dc: string): (s: set<nat>)
    ensures forall j: nat :: j in s <==> j < |details| && details[j].dc == dc
  {
    set j: nat | j < |details| && details[j].dc == dc
  }

  lemma ReplicasSnoc(details: seq<Detail>, n: nat, dc: string)
    requires n + 1 == |details|
    ensures n !in ReplicasIn(details[..n], dc)
    ensures ReplicasIn(details, dc) == ReplicasIn(details[..n], dc) + if details[n].dc == dc then {n} else {}
  {
    forall j: nat ensures j in ReplicasIn(details, dc) <==> j in ReplicasIn(details[..n], dc) || (j == n && details[n].dc == dc) {
      if j < n {
        assert details[..n][j] == details[j];
      }
    }
  }

  /** Every datacenter of a replica, with the number of its replicas. */
  lemma {:induction false} DCCountExact(details: seq<Detail>, dc: string)
    ensures dc in DCCount(details) <==> ReplicasIn(details, dc) != {}
    ensures dc in DCCount(details) ==> DCCount(details)[dc] == |ReplicasIn(details, dc)|
  {
    if details == [] {
      assert ReplicasIn(details, dc) == {};
    } else {
      var n := |details| - 1;
      DCCountExact(details[..n], dc);
      ReplicasSnoc(details, n, dc);
    }
  }

  ghost predicate NamesHost(ps: seq<Described>, i: nat, j: nat, h: Addr) {
    i < |ps| && j < |ps[i].details| && ps[i].details[j].host == Some(h)
  }

  ghost predicate LastNamed(ps: seq<Described>, i: nat, j: nat, h: Addr) {
    NamesHost(ps, i, j, h) && forall k: nat, l: nat :: NamesHost(ps, k, l, h) ==> k < i || (k == i && l <= j)
  }

  /** A host is in the map if and only if the response names it, with the datacenter that it is named with last. */
  lemma {:induction false} HostDCExact(ps: seq<Described>, h: Addr)
    ensures h in HostDC(ps) <==> exists i: nat, j: nat :: NamesHost(ps, i, j, h)
    ensures h in HostDC(ps) ==>
      exists i: nat, j: nat :: LastNamed(ps, i, j, h) && HostDC(ps)[h] == ps[i].details[j].dc
  {
    if ps != [] {
      var n := |ps| - 1;
      HostDCExact(ps[..n], h);
      DetailDCExact(ps[n].details, h);
      NamesOfFront(ps, n, h);
      if h in DetailDC(ps[n].details) {
        var j: nat :| LastDetail(ps[n].details, j, h) && DetailDC(ps[n].details)[h] == ps[n].details[j].dc;
        assert LastNamed(ps, n, j, h);
      } else if h in HostDC(ps[..n]) {
        var i: nat, j: nat :| LastNamed(ps[..n], i, j, h) && HostDC(ps[..n])[h] == ps[..n][i].details[j].dc;
        assert LastNamed(ps, i, j, h);
      }
    }
  }

  lemma NamesOfFront(ps: seq<Described>, n: nat, h: Addr)
    requires n + 1 == |ps|
    ensures forall i: nat, j: nat :: i < n ==> (NamesHost(ps, i, j, h) <==> NamesHost(ps[..n], i, j, h))
    ensures forall j: nat :: NamesHost(ps, n, j, h) <==> j < |ps[n].details| && ps[n].details[j].host == Some(h)
    ensures forall i: nat, j: nat :: NamesHost(ps[..n], i, j, h) ==> i < n
  {
    forall i: nat, j: nat | i < n ensures NamesHost(ps, i, j, h) <==> NamesHost(ps[..n], i, j, h) {
      assert ps[..n][i] == ps[i];
    }
  }

  ghost predicate LastDetail(details: seq<Detail>, j: nat, h: Addr) {
    && j < |details| && details[j].host == Some(h)
    && forall l: nat :: j < l < |details| ==> details[l].host != Some(h)
  }

  lemma {:induction false} DetailDCExact(details: seq<Detail>, h: Addr)
    ensures h in DetailDC(details) <==> exists j: nat :: j < |details| && details[j].host == Some(h)
    ensures h in DetailDC(details) ==>
      exists j: nat :: LastDetail(details, j, h) && DetailDC(details)[h] == details[j].dc
  {
    if details != [] {
      var n := |details| - 1;
      DetailDCExact(details[..n], h);
      assert forall j: nat :: j < n ==> details[..n][j] == details[j];
      if details[n].host == Some(h) {
        assert LastDetail(details, n, h);
      } else if h in DetailDC(details[..n]) {
        var j: nat :| LastDetail(details[..n], j, h) && DetailDC(details[..n])[h] == details[..n][j].dc;
        assert LastDetail(details, j, h);
      }
    }
  }

  // ---------- The code ----------

  predicate ByStart(rs: seq<TokenRange>) {
    forall i, j :: 0 <= i < j < |rs| ==> rs[i].start <= rs[j].start
  }

  /** sort.Slice on ranges by start token, as a straight insertion; ranges of one start may come either way. */
  method SortByStart(rs: seq<TokenRange>) returns (r: seq<TokenRange>)
    ensures ByStart(r) && multiset(r) == multiset(rs)
  {
    r := [];
    for i := 0 to |rs|
      invariant ByStart(r) && multiset(r) == multiset(rs[..i])
    {
      assert rs[..i+1] == rs[..i] + [rs[i]];
      r := InsertByStart(r, rs[i]);
    }
    assert rs[..|rs|] == rs;
  }

  method InsertByStart(r: seq<TokenRange>, x: TokenRange) returns (q: seq<TokenRange>)
    requires ByStart(r)
    ensures ByStart(q) && multiset(q) == multiset(r) + multiset{x}
  {
    var k := |r|;
    while k > 0 && r[k-1].start > x.start
      invariant 0 <= k <= |r|
      invariant forall j :: k <= j < |r| ==> x.start < r[j].start
    {
      k := k - 1;
    }
    PlacedByStart(r, x, k);
    q := r[..k] + [x] + r[k..];
  }

  lemma PlacedByStart(r: seq<TokenRange>, x: TokenRange, k: nat)
    requires ByStart(r) && k <= |r| && (k > 0 ==> r[k-1].start <= x.start)
    requires forall j :: k <= j < |r| ==> x.start < r[j].start
    ensures ByStart(r[..k] + [x] + r[k..])
    ensures multiset(r[..k] + [x] + r[k..]) == multiset(r) + multiset{x}
  {
    InOrderPlaced(r, x, k);
    OneMorePlaced(r[..k], r[k..], x);
    assert r == r[..k] + r[k..];
  }

  lemma OneMorePlaced(a: seq<TokenRange>, b: seq<TokenRange>, x: TokenRange)
    ensures multiset(a + [x] + b) == multiset(a + b) + multiset{x}
  {
  }

  lemma InOrderPlaced(r: seq<TokenRange>, x: TokenRange, k: nat)
    requires ByStart(r) && k <= |r| && (k > 0 ==> r[k-1].start <= x.start)
    requires forall j :: k <= j < |r| ==> x.start < r[j].start
    ensures ByStart(r[..k] + [x] + r[k..])
  {
  }

  /** What the loop over the response has gathered. */
  datatype Gathered = Gathered(
    tokens: map<nat, seq<TokenRange>>, sets: map<nat, seq<Addr>>, dcRF: map<string, nat>, sameDCs: bool,
    hostDC: map<Addr, string>)

  /** The datacenter that the response gives a host last. */
  function HostDC(ps: seq<Described>): map<Addr, string> {
    if ps == [] then map[] else HostDC(ps[..|ps|-1]) + DetailDC(ps[|ps|-1].details)
  }

  function DetailDC(details: seq<Detail>): map<Addr, string> {
    if details == [] then map[] else
      var last := details[|details|-1];
      if last.host.Some? then DetailDC(details[..|details|-1])[last.host.value := last.dc]
      else DetailDC(details[..|details|-1])
  }

  predicate SameDCs(ps: seq<Described>) {
    forall i :: 0 <= i < |ps| ==> DCCount(ps[i].details) == DCCount(ps[0].details)
  }

  ghost predicate GatheredTokens(ps: seq<Described>, hash: Hash, g: Gathered)
    requires AllParse(ps)
  {
    && g.tokens.Keys == g.sets.Keys
    && (forall h :: h in g.tokens ==> g.tokens[h] == RangesWith(ps, hash, h))
    && (forall h :: h in g.sets ==> g.sets[h] == SetWith(ps, hash, h))
  }

  ghost predicate GatheredFrom(ps: seq<Described>, hash: Hash, g: Gathered) {
    && AllParse(ps)
    && GatheredTokens(ps, hash, g)
    && g.tokens.Keys == HashesOf(ps, hash)
    && g.hostDC == HostDC(ps)
    && (g.sameDCs <==> SameDCs(ps))
    && (ps != [] ==> g.dcRF == DCCount(ps[0].details))
  }

  method CountDCs(details: seq<Detail>) returns (m: map<string, nat>)
    ensures m == DCCount(details)
  {
    m := map[];
    for i := 0 to |details|
      invariant m == DCCount(details[..i])
    {
      assert details[..i+1][..i] == details[..i];
      var dc := details[i].dc;
      m := m[dc := (if dc in m then m[dc] else 0) + 1];
    }
    assert details[..|details|] == details;
  }

  method MapHosts(hostDC: map<Addr, string>, details: seq<Detail>) returns (ok: bool, m: map<Addr, string>)
    ensures ok <==> forall d :: d in details ==> d.host.Some?
    ensures ok ==> m == hostDC + DetailDC(details)
  {
    m, ok := hostDC, true;
    for i := 0 to |details|
      invariant m == hostDC + DetailDC(details[..i])
      invariant forall d :: d in details[..i] ==> d.host.Some?
    {
      assert details[..i+1][..i] == details[..i];
      if details[i].host.None? {
        assert details[i] in details;
        return false, m;
      }
      m := m[details[i].host.value := details[i].dc];
    }
    assert details[..|details|] == details;
  }

  /** One turn of the loop, on a range that parses. */
  method Gather(g: Gathered, ps: seq<Described>, hash: Hash, p: Described) returns (g': Gathered)
    requires GatheredFrom(ps, hash, g) && Parsed(p)
    ensures GatheredFrom(ps + [p], hash, g')
  {
    var h := hash(ReplicaSet(p));
    var ranges := (if h in g.tokens then g.tokens[h] else []) + [RangeOf(p)];
    var count := CountDCs(p.details);
    var ok, hostDC := MapHosts(g.hostDC, p.details);
    var dcRF, same := g.dcRF, g.sameDCs;
    if |ps| == 0 || g.dcRF == count {
      dcRF := count;
    } else {
      same := false;
    }
    g' := Gathered(g.tokens[h := ranges], g.sets[h := ReplicaSet(p)], dcRF, same, hostDC);
    GatherTokens(ps, hash, p, g, g');
    GatherDCs(ps, p);
    assert (ps + [p])[..|ps|] == ps;
  }

  lemma GatherTokens(ps: seq<Described>, hash: Hash, p: Described, g: Gathered, g': Gathered)
    requires AllParse(ps) && GatheredTokens(ps, hash, g) && g.tokens.Keys == HashesOf(ps, hash) && Parsed(p)
    requires var h := hash(ReplicaSet(p));
      && g'.tokens == g.tokens[h := (if h in g.tokens then g.tokens[h] else []) + [RangeOf(p)]]
      && g'.sets == g.sets[h := ReplicaSet(p)]
    ensures AllParse(ps + [p]) && GatheredTokens(ps + [p], hash, g')
    ensures g'.tokens.Keys == HashesOf(ps + [p], hash)
  {
    HashesSnoc(ps, hash, p);
    var h := hash(ReplicaSet(p));
    if h !in g.tokens {
      NoRanges(ps, hash, h);
    }
    GatherHash(ps, hash, p, g, g', h);
  }

  lemma GatherHash(ps: seq<Described>, hash: Hash, p: Described, g: Gathered, g': Gathered, h: nat)
    requires AllParse(ps) && GatheredTokens(ps, hash, g) && Parsed(p) && h == hash(ReplicaSet(p))
    requires h !in g.tokens ==> RangesWith(ps, hash, h) == []
    requires g'.tokens == g.tokens[h := (if h in g.tokens then g.tokens[h] else []) + [RangeOf(p)]]
    requires g'.sets == g.sets[h := ReplicaSet(p)]
    ensures AllParse(ps + [p]) && GatheredTokens(ps + [p], hash, g')
  {
    forall k | k in g'.tokens
      ensures g'.tokens[k] == RangesWith(ps + [p], hash, k) && g'.sets[k] == SetWith(ps + [p], hash, k)
    {
      WithSnoc(ps, hash, p, k);
    }
  }

  lemma WithSnoc(ps: seq<Described>, hash: Hash, p: Described, k: nat)
    requires AllParse(ps) && Parsed(p)
    ensures AllParse(ps + [p])
    ensures var h := hash(ReplicaSet(p));
      && RangesWith(ps + [p], hash, k) == RangesWith(ps, hash, k) + (if h == k then [RangeOf(p)] else [])
      && SetWith(ps + [p], hash, k) == (if h == k then ReplicaSet(p) else SetWith(ps, hash, k))
  {
    assert (ps + [p])[..|ps|] == ps;
  }

  lemma HashesSnoc(ps: seq<Described>, hash: Hash, p: Described)
    requires AllParse(ps) && Parsed(p)
    ensures HashesOf(ps + [p], hash) == HashesOf(ps, hash) + {hash(ReplicaSet(p))}
  {
    var qs := ps + [p];
    assert qs[|ps|] == p;
    forall h | h in HashesOf(ps, hash) ensures h in HashesOf(qs, hash) {
      var i :| 0 <= i < |ps| && h == hash(ReplicaSet(ps[i]));
      assert qs[i] == ps[i];
    }
  }

  lemma {:induction false} NoRanges(ps: seq<Described>, hash: Hash, h: nat)
    requires AllParse(ps) && h !in HashesOf(ps, hash)
    ensures RangesWith(ps, hash, h) == []
  {
    if ps != [] {
      var n := |ps| - 1;
      assert ps == ps[..n] + [ps[n]];
      HashesSnoc(ps[..n], hash, ps[n]);
      NoRanges(ps[..n], hash, h);
    }
  }

  lemma GatherDCs(ps: seq<Described>, p: Described)
    ensures SameDCs(ps + [p]) <==> SameDCs(ps) && (ps == [] || DCCount(p.details) == DCCount(ps[0].details))
  {
    var qs := ps + [p];
    assert qs[|ps|] == p;
    assert forall i :: 0 <= i < |ps| ==> qs[i] == ps[i];
  }

  /** The loop over the response; it stops at the first range that does not parse or has another number of
      endpoints. */
  method GatherAll(ps: seq<Described>, hash: Hash) returns (r: Result<Gathered>)
    ensures r.Ok? <==> AllFine(ps)
    ensures r.Ok? ==> GatheredFrom(ps, hash, r.value)
  {
    var g := Gathered(map[], map[], map[], true, map[]);
    assert ps[..0] == [];
    for i := 0 to |ps|
      invariant AllFine(ps[..i])
      invariant GatheredFrom(ps[..i], hash, g)
    {
      FineSnoc(ps, i);
      if !Parsed(ps[i]) || |ps[i].endpoints| != |ps[0].endpoints| {
        return Err;
      }
      assert ps[..i+1] == ps[..i] + [ps[i]];
      g := Gather(g, ps[..i], hash, ps[i]);
    }
    assert ps[..|ps|] == ps;
    r := Ok(g);
  }

  lemma FineSnoc(ps: seq<Described>, i: nat)
    requires i < |ps| && AllFine(ps[..i])
    ensures AllFine(ps[..i+1]) <==> Parsed(ps[i]) && |ps[i].endpoints| == |ps[0].endpoints|
    ensures AllFine(ps) ==> Parsed(ps[i]) && |ps[i].endpoints| == |ps[0].endpoints|
  {
    assert ps[..i+1][i] == ps[i] && ps[..i+1][0] == ps[0];
    forall k | 0 <= k < i ensures Parsed(ps[k]) && |ps[k].endpoints| == |ps[0].endpoints| && ps[..i+1][k] == ps[k] {
      assert ps[..i][k] == ps[k] && ps[..i][0] == ps[0];
    }
  }

  /** The group holds the ranges of hash `h`, by start, under the replica set kept for it. */
  ghost predicate GroupOf(ps: seq<Described>, hash: Hash, h: nat, group: ReplicaTokenRanges)
    requires AllParse(ps)
  {
    && group.replicaSet == SetWith(ps, hash, h)
    && ByStart(group.ranges) && multiset(group.ranges) == multiset(RangesWith(ps, hash, h))
  }

  /** The groups of the hashes in `order`, one for each. */
  ghost predicate GroupsInOrder(ps: seq<Described>, hash: Hash, order: seq<nat>, gs: seq<ReplicaTokenRanges>)
    requires AllParse(ps)
  {
    && |gs| == |order|
    && (forall i :: 0 <= i < |gs| ==> GroupOf(ps, hash, order[i], gs[i]))
    && (forall i, j :: 0 <= i < j < |order| ==> order[i] != order[j])
  }

  /** One group for every hash that occurs. */
  ghost predicate GroupsFrom(ps: seq<Described>, hash: Hash, order: seq<nat>, gs: seq<ReplicaTokenRanges>)
    requires AllParse(ps)
  {
    GroupsInOrder(ps, hash, order, gs) && forall h :: h in order <==> h in HashesOf(ps, hash)
  }

  /** The groups made so far: those of the hashes in `done`. */
  ghost predicate Filed(ps: seq<Described>, hash: Hash, done: set<nat>, order: seq<nat>, gs: seq<ReplicaTokenRanges>)
    requires AllParse(ps)
  {
    && (forall h :: h in order <==> h in done)
    && RangesOfGroups(gs) == RangesOfHashes(ps, hash, done)
    && GroupsInOrder(ps, hash, order, gs)
  }

  /** The loop that sorts the tokens of every replica set. */
  method SortGroups(g: Gathered, ghost ps: seq<Described>, ghost hash: Hash)
    returns (gs: seq<ReplicaTokenRanges>, ghost order: seq<nat>)
    requires AllParse(ps) && GatheredTokens(ps, hash, g)
    ensures Filed(ps, hash, g.tokens.Keys, order, gs)
  {
    gs, order := [], [];
    var keys := g.tokens.Keys;
    var todo := keys;
    FiledNothing(ps, hash);
    assert keys - todo == {};
    while todo != {}
      invariant todo <= keys && Filed(ps, hash, keys - todo, order, gs)
      decreases |todo|
    {
      var h :| h in todo;
      gs, order := AddGroup(g, ps, hash, keys - todo, order, gs, h);
      assert keys - todo + {h} == keys - (todo - {h});
      todo := todo - {h};
    }
    assert keys - todo == keys;
  }

  method AddGroup(
    g: Gathered, ghost ps: seq<Described>, ghost hash: Hash, ghost done: set<nat>, ghost order: seq<nat>,
    gs: seq<ReplicaTokenRanges>, h: nat)
    returns (gs': seq<ReplicaTokenRanges>, ghost order': seq<nat>)
    requires AllParse(ps) && GatheredTokens(ps, hash, g) && h in g.tokens.Keys
    requires Filed(ps, hash, done, order, gs) && h !in done
    ensures Filed(ps, hash, done + {h}, order', gs')
  {
    var group := MakeGroup(g, ps, hash, h);
    FiledSnoc(ps, hash, done, order, gs, h, group);
    gs', order' := gs + [group], order + [h];
  }

  lemma FiledNothing(ps: seq<Described>, hash: Hash)
    requires AllParse(ps)
    ensures Filed(ps, hash, {}, [], [])
  {
    NoHash(ps, hash);
  }

  lemma FiledSnoc(
    ps: seq<Described>, hash: Hash, done: set<nat>, order: seq<nat>, gs: seq<ReplicaTokenRanges>, h: nat,
    group: ReplicaTokenRanges)
    requires AllParse(ps) && Filed(ps, hash, done, order, gs) && h !in done && GroupOf(ps, hash, h, group)
    ensures Filed(ps, hash, done + {h}, order + [h], gs + [group])
  {
    OneMoreGroup(ps, hash, done, gs, h, group);
    InOrderSnoc(ps, hash, order, gs, h, group);
  }

  method Groups(g: Gathered, ps: seq<Described>, hash: Hash) returns (gs: seq<ReplicaTokenRanges>, ghost order: seq<nat>)
    requires GatheredFrom(ps, hash, g)
    ensures RangesOfGroups(gs) == AllRanges(ps)
    ensures GroupsFrom(ps, hash, order, gs)
  {
    EveryHash(ps, hash, g.tokens.Keys);
    gs, order := SortGroups(g, ps, hash);
  }

  method MakeGroup(g: Gathered, ghost ps: seq<Described>, ghost hash: Hash, h: nat) returns (group: ReplicaTokenRanges)
    requires AllParse(ps) && GatheredTokens(ps, hash, g) && h in g.tokens
    ensures GroupOf(ps, hash, h, group)
  {
    var ranges := SortByStart(g.tokens[h]);
    group := ReplicaTokenRanges(g.sets[h], ranges);
  }

  lemma InOrderSnoc(
    ps: seq<Described>, hash: Hash, order: seq<nat>, gs: seq<ReplicaTokenRanges>, h: nat, group: ReplicaTokenRanges)
    requires AllParse(ps) && GroupsInOrder(ps, hash, order, gs) && h !in order && GroupOf(ps, hash, h, group)
    ensures GroupsInOrder(ps, hash, order + [h], gs + [group])
  {
  }

  lemma OneMoreGroup(
    ps: seq<Described>, hash: Hash, done: set<nat>, gs: seq<ReplicaTokenRanges>, h: nat, group: ReplicaTokenRanges)
    requires AllParse(ps) && h !in done && GroupOf(ps, hash, h, group)
    requires RangesOfGroups(gs) == RangesOfHashes(ps, hash, done)
    ensures RangesOfGroups(gs + [group]) == RangesOfHashes(ps, hash, done + {h})
  {
    OneMoreHash(ps, hash, done, h);
    assert (gs + [group])[..|gs|] == gs;
  }

  method DescribeRing(ps: seq<Described>, hash: Hash) returns (r: Result<TokenRing>, ghost order: seq<nat>)
    ensures r.Ok? <==> ps != [] && AllFine(ps)
    ensures r.Ok? ==>
      && RangesOfGroups(r.value.replicaTokens) == AllRanges(ps)
      && GroupsFrom(ps, hash, order, r.value.replicaTokens)
      && (forall group, i, j :: group in r.value.replicaTokens && 0 <= i < j < |group.ranges| ==>
            group.ranges[i].start <= group.ranges[j].start)
      && r.value.hostDC == HostDC(ps)
      && r.value.rf == |ps[0].endpoints|
      && (r.value.replication == LocalStrategy <==> |HostDC(ps)| == 1)
      && (r.value.replication == NetworkTopologyStrategy <==> |HostDC(ps)| != 1 && SameDCs(ps))
      && (r.value.replication == NetworkTopologyStrategy ==>
            forall p :: p in ps ==> DCCount(p.details) == r.value.dcRF)
      && (r.value.replication != NetworkTopologyStrategy ==> r.value.dcRF == map[])
  {
    order := [];
    if |ps| == 0 {
      return Err, order;
    }
    var gathered := GatherAll(ps, hash);
    if gathered.Err? {
      return Err, order;
    }
    var g := gathered.value;
    var groups;
    groups, order := Groups(g, ps, hash);
    var replication, dcRF := SimpleStrategy, map[];
    if |g.hostDC| == 1 {
      replication := LocalStrategy;
    } else if g.sameDCs {
      replication, dcRF := NetworkTopologyStrategy, g.dcRF;
    }
    r := Ok(TokenRing(groups, g.hostDC, |ps[0].endpoints|, replication, dcRF));
  }

  // ---------- Under whose replica set a range is filed ----------

  /** Replica sets that occur have hashes of their own. */
  ghost predicate Injective(ps: seq<Described>, hash: Hash)
    requires AllParse(ps)
  {
    forall i, j :: 0 <= i < |ps| && 0 <= j < |ps| && hash(ReplicaSet(ps[i])) == hash(ReplicaSet(ps[j])) ==>
      ReplicaSet(ps[i]) == ReplicaSet(ps[j])
  }

  /** The ranges described with exactly that sorted endpoint set. */
  function RangesOfSet(ps: seq<Described>, rs: seq<Addr>): seq<TokenRange>
    requires AllParse(ps)
  {
    if ps == [] then [] else
      var last := ps[|ps|-1];
      var front := RangesOfSet(ps[..|ps|-1], rs);
      if ReplicaSet(last) == rs then front + [RangeOf(last)] else front
  }

  /** Every group holds exactly the ranges described with its replica set. */
  ghost predicate FiledRight(ps: seq<Described>, gs: seq<ReplicaTokenRanges>)
    requires AllParse(ps)
  {
    && (forall p :: p in ps ==> exists group :: group in gs && group.replicaSet == ReplicaSet(p))
    && (forall group :: group in gs ==> multiset(group.ranges) == multiset(RangesOfSet(ps, group.replicaSet)))
  }

  lemma {:induction false} SetOfHash(ps: seq<Described>, hash: Hash, h: nat)
    requires AllParse(ps) && h in HashesOf(ps, hash)
    ensures exists i :: 0 <= i < |ps| && hash(ReplicaSet(ps[i])) == h && SetWith(ps, hash, h) == ReplicaSet(ps[i])
  {
    var n := |ps| - 1;
    if hash(ReplicaSet(ps[n])) == h {
      assert SetWith(ps, hash, h) == ReplicaSet(ps[n]);
    } else {
      assert ps == ps[..n] + [ps[n]];
      HashesSnoc(ps[..n], hash, ps[n]);
      SetOfHash(ps[..n], hash, h);
      var i :| 0 <= i < n && hash(ReplicaSet(ps[..n][i])) == h && SetWith(ps[..n], hash, h) == ReplicaSet(ps[..n][i]);
      assert ps[..n][i] == ps[i];
    }
  }

  /** Ranges of a hash and ranges of a set agree when only that set has the hash. */
  lemma {:induction false} HashIsSet(ps: seq<Described>, hash: Hash, rs: seq<Addr>)
    requires AllParse(ps)
    requires forall p :: p in ps && hash(ReplicaSet(p)) == hash(rs) ==> ReplicaSet(p) == rs
    ensures RangesWith(ps, hash, hash(rs)) == RangesOfSet(ps, rs)
  {
    if ps != [] {
      var n := |ps| - 1;
      assert ps[n] in ps;
      HashIsSet(ps[..n], hash, rs);
    }
  }

  /** A set that shares its hash: more ranges have the hash than have the set. */
  lemma {:induction false} HashIsMore(ps: seq<Described>, hash: Hash, rs: seq<Addr>)
    requires AllParse(ps)
    ensures |RangesOfSet(ps, rs)| <= |RangesWith(ps, hash, hash(rs))|
    ensures (exists p :: p in ps && hash(ReplicaSet(p)) == hash(rs) && ReplicaSet(p) != rs) ==>
              |RangesOfSet(ps, rs)| < |RangesWith(ps, hash, hash(rs))|
  {
    if ps != [] {
      var n := |ps| - 1;
      assert ps == ps[..n] + [ps[n]];
      HashIsMore(ps[..n], hash, rs);
    }
  }

  /** Each range is filed under its own sorted endpoint set if and only if the hash is injective on the sets
      that occur. */
  lemma FiledExact(ps: seq<Described>, hash: Hash, order: seq<nat>, gs: seq<ReplicaTokenRanges>)
    requires AllParse(ps) && GroupsFrom(ps, hash, order, gs)
    ensures FiledRight(ps, gs) <==> Injective(ps, hash)
  {
    if Injective(ps, hash) {
      forall k | 0 <= k < |gs|
        ensures multiset(gs[k].ranges) == multiset(RangesOfSet(ps, gs[k].replicaSet))
      {
        InjectiveGroup(ps, hash, order[k], gs[k]);
      }
      forall p | p in ps ensures exists group :: group in gs && group.replicaSet == ReplicaSet(p) {
        var k := GroupOfRange(ps, hash, order, gs, p);
        assert gs[k] in gs;
      }
    } else {
      CollisionMisfiles(ps, hash, order, gs);
    }
  }

  lemma InjectiveGroup(ps: seq<Described>, hash: Hash, h: nat, group: ReplicaTokenRanges)
    requires AllParse(ps) && Injective(ps, hash) && h in HashesOf(ps, hash) && GroupOf(ps, hash, h, group)
    ensures multiset(group.ranges) == multiset(RangesOfSet(ps, group.replicaSet))
  {
    SetOfHash(ps, hash, h);
    HashIsSet(ps, hash, group.replicaSet);
  }

  lemma GroupOfRange(ps: seq<Described>, hash: Hash, order: seq<nat>, gs: seq<ReplicaTokenRanges>, p: Described)
    returns (k: nat)
    requires AllParse(ps) && GroupsFrom(ps, hash, order, gs) && Injective(ps, hash) && p in ps
    ensures k < |gs| && gs[k].replicaSet == ReplicaSet(p)
  {
    var i :| 0 <= i < |ps| && ps[i] == p;
    var h := hash(ReplicaSet(ps[i]));
    assert h in HashesOf(ps, hash);
    k :| 0 <= k < |order| && order[k] == h;
    SetOfHash(ps, hash, h);
    assert GroupOf(ps, hash, order[k], gs[k]);
  }

  lemma CollisionMisfiles(ps: seq<Described>, hash: Hash, order: seq<nat>, gs: seq<ReplicaTokenRanges>)
    requires AllParse(ps) && GroupsFrom(ps, hash, order, gs) && !Injective(ps, hash)
    ensures !FiledRight(ps, gs)
  {
    var i, j :| 0 <= i < |ps| && 0 <= j < |ps| && hash(ReplicaSet(ps[i])) == hash(ReplicaSet(ps[j]))
                && ReplicaSet(ps[i]) != ReplicaSet(ps[j]);
    var h := hash(ReplicaSet(ps[i]));
    assert h in HashesOf(ps, hash);
    var k :| 0 <= k < |order| && order[k] == h;
    assert GroupOf(ps, hash, order[k], gs[k]);
    assert ps[i] in ps && ps[j] in ps;
    CollisionGroup(ps, hash, h, gs[k], if ReplicaSet(ps[i]) == gs[k].replicaSet then ps[j] else ps[i]);
    assert gs[k] in gs;
  }

  /** A group with a range of another set of the same hash has too many ranges. */
  lemma CollisionGroup(ps: seq<Described>, hash: Hash, h: nat, group: ReplicaTokenRanges, p: Described)
    requires AllParse(ps) && h in HashesOf(ps, hash) && GroupOf(ps, hash, h, group)
    requires p in ps && hash(ReplicaSet(p)) == h && ReplicaSet(p) != group.replicaSet
    ensures multiset(group.ranges) != multiset(RangesOfSet(ps, group.replicaSet))
  {
    SetOfHash(ps, hash, h);
    HashIsMore(ps, hash, group.replicaSet);
    assert |multiset(group.ranges)| == |RangesWith(ps, hash, h)|;
    assert |multiset(RangesOfSet(ps, group.replicaSet))| == |RangesOfSet(ps, group.replicaSet)|;
  }

  /** Two ranges, each with one replica of its own, under a hash that is always the same: one group holds both, under
      the second replica. */
  lemma SameHashMisfiles(order: seq<nat>, gs: seq<ReplicaTokenRanges>)
    requires
      var ps := [Described(Some(0), Some(1), [Some(1)], []), Described(Some(1), Some(2), [Some(2)], [])];
      AllParse(ps) && GroupsFrom(ps, _ => 0, order, gs)
    ensures
      var ps := [Described(Some(0), Some(1), [Some(1)], []), Described(Some(1), Some(2), [Some(2)], [])];
      && |gs| == 1 && gs[0].replicaSet == [2]
      && multiset(gs[0].ranges) == multiset{TokenRange(0, 1), TokenRange(1, 2)}
      && !FiledRight(ps, gs)
  {
    var p, q := Described(Some(0), Some(1), [Some(1)], []), Described(Some(1), Some(2), [Some(2)], []);
    var ps, hash: Hash := [p, q], _ => 0;
    OneReplica(p, 1);
    OneReplica(q, 2);
    OneHash(ps, hash, order);
    assert GroupOf(ps, hash, order[0], gs[0]);
    BothInOne(p, q, hash);
    FiledExact(ps, hash, order, gs);
    assert ReplicaSet(ps[0]) != ReplicaSet(ps[1]);
  }

  lemma BothInOne(p: Described, q: Described, hash: Hash)
    requires Parsed(p) && Parsed(q) && forall rs :: hash(rs) == 0
    ensures RangesWith([p, q], hash, 0) == [RangeOf(p), RangeOf(q)] && SetWith([p, q], hash, 0) == ReplicaSet(q)
  {
    WithSnoc([], hash, p, 0);
    WithSnoc([p], hash, q, 0);
    assert [] + [p] == [p] && [p] + [q] == [p, q];
  }

  lemma OneReplica(p: Described, a: Addr)
    requires Parsed(p) && p.endpoints == [Some(a)]
    ensures ReplicaSet(p) == [a]
  {
    assert Addrs(p.endpoints) == [a];
    assert [a][1..] == [];
    assert Sorted([]) == [];
    assert Sorted([a]) == Inserted([], a) == [a] + [];
  }

  lemma AtMostOne(order: seq<nat>)
    requires |order| <= 1 || order[0] != order[1]
    requires forall i :: 0 <= i < |order| ==> order[i] == 0
    ensures |order| <= 1
  {
  }

  lemma OneHash(ps: seq<Described>, hash: Hash, order: seq<nat>)
    requires AllParse(ps) && ps != [] && (forall rs :: hash(rs) == 0)
    requires forall i, j :: 0 <= i < j < |order| ==> order[i] != order[j]
    requires forall h :: h in order <==> h in HashesOf(ps, hash)
    ensures order == [0]
  {
    assert hash(ReplicaSet(ps[0])) in HashesOf(ps, hash);
    forall i | 0 <= i < |order| ensures order[i] == 0 {
      assert order[i] in HashesOf(ps, hash);
    }
    AtMostOne(order);
  }
}
