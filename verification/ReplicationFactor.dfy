/** Replication of the manager's own keyspace, from the cluster topology, pkg/cmd/scylla-manager/db.go. */
module ReplicationFactors {
  import Tags

  /** A row of the peers: where one node stands. */
  datatype Node = Node(dc: string, rack: string)

  /** How many nodes a datacenter has, in each rack and in all. */
  datatype DCInfo = DCInfo(racks: map<string, nat>, nodes: nat)

  type DCs = map<string, DCInfo>

  // ---------- Sums over datacenters ----------

  ghost function Sum(s: set<string>, f: map<string, nat>): nat
    requires s <= f.Keys
  {
    if s == {} then 0 else
      var x :| x in s;
      f[x] + Sum(s - {x}, f)
  }

  lemma {:induction false} SumWithout(s: set<string>, f: map<string, nat>, y: string)
    requires s <= f.Keys && y in s
    ensures Sum(s, f) == f[y] + Sum(s - {y}, f)
  {
    var x :| x in s && Sum(s, f) == f[x] + Sum(s - {x}, f);
    if x != y {
      SumWithout(s - {x}, f, y);
      SumWithout(s - {y}, f, x);
      assert s - {x} - {y} == s - {y} - {x};
    }
  }

  lemma {:induction false} SumAtLeast(s: set<string>, f: map<string, nat>)
    requires s <= f.Keys && forall x :: x in s ==> f[x] >= 1
    ensures Sum(s, f) >= |s|
  {
    if s != {} {
      var x :| x in s;
      SumWithout(s, f, x);
      SumAtLeast(s - {x}, f);
    }
  }

  lemma {:induction false} SumSame(s: set<string>, f: map<string, nat>, g: map<string, nat>)
    requires s <= f.Keys && s <= g.Keys && forall x :: x in s ==> f[x] == g[x]
    ensures Sum(s, f) == Sum(s, g)
  {
    if s != {} {
      var x :| x in s;
      SumWithout(s, f, x);
      SumWithout(s, g, x);
      SumSame(s - {x}, f, g);
    }
  }

  ghost function Total(f: map<string, nat>): nat {
    Sum(f.Keys, f)
  }

  lemma TotalUpdate(f: map<string, nat>, k: string, v: nat)
    ensures Total(f[k := v]) == Total(f) - (if k in f then f[k] else 0) + v
  {
    var g := f[k := v];
    SumWithout(g.Keys, g, k);
    if k in f {
      SumWithout(f.Keys, f, k);
    } else {
      assert f.Keys - {k} == f.Keys;
    }
    assert g.Keys - {k} == f.Keys - {k};
    SumSame(f.Keys - {k}, f, g);
  }

  // ---------- The topology ----------

  function NodeCount(dcs: DCs): map<string, nat> {
    map d | d in dcs :: dcs[d].nodes
  }

  function RackCount(dcs: DCs): map<string, nat> {
    map d | d in dcs :: |dcs[d].racks|
  }

  /** Every rack has a node, and the nodes of the racks are the nodes of the datacenter. */
  ghost predicate Populated(dci: DCInfo) {
    && dci.racks != map[]
    && (forall r :: r in dci.racks ==> dci.racks[r] >= 1)
    && Total(dci.racks) == dci.nodes
  }

  ghost predicate WellBuilt(dcs: DCs) {
    forall d :: d in dcs ==> Populated(dcs[d])
  }

  function CountIn(nodes: seq<Node>, dc: string): nat {
    if nodes == [] then 0 else
      CountIn(nodes[..|nodes|-1], dc) + if nodes[|nodes|-1].dc == dc then 1 else 0
  }

  function CountAt(nodes: seq<Node>, n: Node): nat {
    if nodes == [] then 0 else
      CountAt(nodes[..|nodes|-1], n) + if nodes[|nodes|-1] == n then 1 else 0
  }

  /** The counters are those of the nodes seen. */
  ghost predicate Counts(nodes: seq<Node>, dcs: DCs) {
    NodesCounted(nodes, dcs) && RacksCounted(nodes, dcs)
  }

  ghost predicate NodesCounted(nodes: seq<Node>, dcs: DCs) {
    && (forall d :: d in dcs <==> CountIn(nodes, d) > 0)
    && (forall d :: d in dcs ==> dcs[d].nodes == CountIn(nodes, d))
  }

  ghost predicate RacksCounted(nodes: seq<Node>, dcs: DCs) {
    && (forall d, r :: d in dcs ==> (r in dcs[d].racks <==> CountAt(nodes, Node(d, r)) > 0))
    && (forall d, r :: d in dcs && r in dcs[d].racks ==> dcs[d].racks[r] == CountAt(nodes, Node(d, r)))
  }

  function Seen(dcs: DCs, d: string): DCInfo {
    if d in dcs then dcs[d] else DCInfo(map[], 0)
  }

  /** The closure updateDCs. */
  function Updated(dcs: DCs, n: Node): DCs {
    var dci := Seen(dcs, n.dc);
    var count := if n.rack in dci.racks then dci.racks[n.rack] else 0;
    dcs[n.dc := DCInfo(dci.racks[n.rack := count + 1], dci.nodes + 1)]
  }

  lemma UpdateCounts(nodes: seq<Node>, dcs: DCs, n: Node)
    requires Counts(nodes, dcs)
    ensures Counts(nodes + [n], Updated(dcs, n))
  {
    UpdateNodes(nodes, dcs, n);
    UpdateRacks(nodes, dcs, n);
  }

  lemma CountSnoc(nodes: seq<Node>, n: Node)
    ensures forall d :: CountIn(nodes + [n], d) == CountIn(nodes, d) + if n.dc == d then 1 else 0
    ensures forall m :: CountAt(nodes + [n], m) == CountAt(nodes, m) + if n == m then 1 else 0
  {
    assert (nodes + [n])[..|nodes|] == nodes;
  }

  lemma UpdateNodes(nodes: seq<Node>, dcs: DCs, n: Node)
    requires NodesCounted(nodes, dcs)
    ensures NodesCounted(nodes + [n], Updated(dcs, n))
  {
    CountSnoc(nodes, n);
  }

  lemma UpdateRacks(nodes: seq<Node>, dcs: DCs, n: Node)
    requires Counts(nodes, dcs)
    ensures RacksCounted(nodes + [n], Updated(dcs, n))
  {
    CountSnoc(nodes, n);
    RacksOf(nodes, dcs, n.dc);
    forall d | d in Updated(dcs, n) && d != n.dc ensures Updated(dcs, n)[d] == dcs[d] {
    }
  }

  /** Also of a datacenter not seen yet: it has no racks. */
  lemma RacksOf(nodes: seq<Node>, dcs: DCs, d: string)
    requires Counts(nodes, dcs)
    ensures forall r :: r in Seen(dcs, d).racks <==> CountAt(nodes, Node(d, r)) > 0
    ensures forall r :: r in Seen(dcs, d).racks ==> Seen(dcs, d).racks[r] == CountAt(nodes, Node(d, r))
  {
    forall r ensures CountAt(nodes, Node(d, r)) <= CountIn(nodes, d) {
      AtIsIn(nodes, Node(d, r));
    }
  }

  lemma {:induction false} AtIsIn(nodes: seq<Node>, n: Node)
    ensures CountAt(nodes, n) <= CountIn(nodes, n.dc)
  {
    if nodes != [] {
      AtIsIn(nodes[..|nodes|-1], n);
    }
  }

  lemma RackIsWell(dci: DCInfo, rack: string)
    requires dci == DCInfo(map[], 0) || Populated(dci)
    ensures var count := if rack in dci.racks then dci.racks[rack] else 0;
      Populated(DCInfo(dci.racks[rack := count + 1], dci.nodes + 1))
  {
    var count := if rack in dci.racks then dci.racks[rack] else 0;
    TotalUpdate(dci.racks, rack, count + 1);
    assert Total(map[]) == 0;
    assert rack in dci.racks[rack := count + 1];
  }

  lemma UpdateIsWell(dcs: DCs, n: Node)
    requires WellBuilt(dcs)
    ensures WellBuilt(Updated(dcs, n))
  {
    RackIsWell(Seen(dcs, n.dc), n.rack);
  }

  lemma UpdateTotal(dcs: DCs, n: Node)
    ensures Total(NodeCount(Updated(dcs, n))) == Total(NodeCount(dcs)) + 1
  {
    var nodes := Seen(dcs, n.dc).nodes;
    TotalUpdate(NodeCount(dcs), n.dc, nodes + 1);
    assert NodeCount(Updated(dcs, n)) == NodeCount(dcs)[n.dc := nodes + 1];
  }

  /** What the topology of these nodes is. */
  ghost predicate TopologyOf(nodes: seq<Node>, dcs: DCs) {
    Counts(nodes, dcs) && WellBuilt(dcs) && Total(NodeCount(dcs)) == |nodes|
  }

  lemma OneMoreNode(nodes: seq<Node>, nodes': seq<Node>, dcs: DCs, n: Node)
    requires TopologyOf(nodes, dcs) && nodes' == nodes + [n]
    ensures TopologyOf(nodes', Updated(dcs, n))
  {
    UpdateCounts(nodes, dcs, n);
    UpdateIsWell(dcs, n);
    UpdateTotal(dcs, n);
  }

  lemma NoNodes()
    ensures TopologyOf([], map[])
  {
    assert NodeCount(map[]) == map[];
  }

  lemma NodeAfter(nodes: seq<Node>, i: nat, dcs: DCs, n: Node)
    requires i < |nodes| && nodes[i] == n && TopologyOf(nodes[..i], dcs)
    ensures TopologyOf(nodes[..i+1], Updated(dcs, n))
  {
    assert nodes[..i+1] == nodes[..i] + [n];
    OneMoreNode(nodes[..i], nodes[..i+1], dcs, n);
  }

  /** One row more. */
  method UpdateDCs(dcs: DCs, n: Node, ghost nodes: seq<Node>, ghost i: nat) returns (updated: DCs)
    requires i < |nodes| && nodes[i] == n && TopologyOf(nodes[..i], dcs)
    ensures TopologyOf(nodes[..i+1], updated)
  {
    NodeAfter(nodes, i, dcs, n);
    updated := Updated(dcs, n);
  }

  /** Aggregates the topology: the peers first, then the node asked. */
  method QueryDCInfo(peers: seq<Node>, local: Node) returns (dcs: DCs)
    ensures TopologyOf(peers + [local], dcs)
  {
    ghost var nodes := peers + [local];
    dcs := QueryPeers(peers, nodes);
    dcs := UpdateDCs(dcs, local, nodes, |peers|);
    assert nodes[..|peers|+1] == nodes;
  }

  method QueryPeers(peers: seq<Node>, ghost nodes: seq<Node>) returns (dcs: DCs)
    requires |peers| <= |nodes| && forall i :: 0 <= i < |peers| ==> peers[i] == nodes[i]
    ensures TopologyOf(nodes[..|peers|], dcs)
  {
    dcs := map[];
    NoNodes();
    assert nodes[..0] == [];
    for i := 0 to |peers|
      invariant TopologyOf(nodes[..i], dcs)
    {
      dcs := UpdateDCs(dcs, peers[i], nodes, i);
    }
  }

  // ---------- The choice ----------

  ghost function TotalRacks(dcs: DCs): nat {
    Total(RackCount(dcs))
  }

  /** The datacenter that is ranked first: more nodes, or as many and the greater name. */
  predicate Before(dcs: DCs, a: string, b: string)
    requires a in dcs && b in dcs
  {
    dcs[a].nodes > dcs[b].nodes || (dcs[a].nodes == dcs[b].nodes && Tags.Less(b, a))
  }

  method CountRacks(dcs: DCs) returns (n: nat)
    ensures n == TotalRacks(dcs)
  {
    n := 0;
    var todo := dcs.Keys;
    assert RackCount(dcs).Keys == dcs.Keys;
    while todo != {}
      invariant todo <= dcs.Keys
      invariant n + Sum(todo, RackCount(dcs)) == TotalRacks(dcs)
      decreases |todo|
    {
      var d :| d in todo;
      SumWithout(todo, RackCount(dcs), d);
      n := n + |dcs[d].racks|;
      todo := todo - {d};
    }
  }

  function Min(a: nat, b: nat): nat {
    if a < b then a else b
  }

  function RFRackValid(dcs: DCs): map<string, nat> {
    RackCount(dcs)
  }

  /** With two datacenters, the one ranked first and the other. */
  method Ordered(dcs: DCs) returns (first: string, second: string)
    requires |dcs| == 2
    ensures first != second && dcs.Keys == {first, second} && !Before(dcs, second, first)
  {
    first :| first in dcs;
    var rest := dcs.Keys - {first};
    assert |rest| == 1;
    second :| second in rest;
    assert |rest - {second}| == 0;
    assert dcs.Keys == {first, second};
    if Before(dcs, second, first) {
      NotBoth(dcs, second, first);
      first, second := second, first;
    }
  }

  lemma NotBoth(dcs: DCs, a: string, b: string)
    requires a in dcs && b in dcs && Before(dcs, a, b)
    ensures !Before(dcs, b, a)
  {
    LessOneWay(a, b);
  }

  lemma {:induction false} LessOneWay(a: string, b: string)
    ensures !(Tags.Less(a, b) && Tags.Less(b, a))
  {
    if a != [] && b != [] {
      LessOneWay(a[1..], b[1..]);
    }
  }

  ghost predicate OneSmallDC(dcs: DCs) {
    |dcs| == 1 && TotalRacks(dcs) <= 2
  }

  ghost predicate TwoSmallDCs(dcs: DCs) {
    |dcs| == 2 && TotalRacks(dcs) == 2
  }

  /** In two datacenters of one rack, the one ranked first can get two. */
  ghost predicate Upgraded(dcs: DCs, rf: map<string, nat>, a: string, b: string) {
    && a != b && dcs.Keys == {a, b} && rf.Keys == {a, b} && !Before(dcs, b, a)
    && rf[a] == (if dcs[a].nodes > 1 then 2 else 1) && rf[b] == 1
  }

  /** The three cases of the choice. */
  ghost predicate Chosen(dcs: DCs, rf: map<string, nat>) {
    && rf.Keys == dcs.Keys
    && (OneSmallDC(dcs) ==> forall d :: d in dcs ==> rf[d] == Min(dcs[d].nodes, 3))
    && (TwoSmallDCs(dcs) ==> exists a, b :: Upgraded(dcs, rf, a, b))
    && (!OneSmallDC(dcs) && !TwoSmallDCs(dcs) ==> rf == RFRackValid(dcs))
  }

  method ChooseDCRF(dcs: DCs) returns (rf: map<string, nat>)
    ensures Chosen(dcs, rf)
    ensures WellBuilt(dcs) ==> WithinNodes(dcs, rf) && Total(rf) >= Min(3, Total(NodeCount(dcs)))
  {
    rf := ChooseByCase(dcs);
    if WellBuilt(dcs) {
      ChosenIsSound(dcs, rf);
    }
  }

  method ChooseByCase(dcs: DCs) returns (rf: map<string, nat>)
    ensures Chosen(dcs, rf)
  {
    var racks := CountRacks(dcs);
    if |dcs| == 1 && racks <= 2 {
      rf := map d | d in dcs :: Min(dcs[d].nodes, 3);
    } else if |dcs| == 2 && racks == 2 {
      rf := ChooseOfTwo(dcs);
    } else {
      rf := RFRackValid(dcs);
    }
  }

  method ChooseOfTwo(dcs: DCs) returns (rf: map<string, nat>)
    requires |dcs| == 2
    ensures rf.Keys == dcs.Keys && exists a, b :: Upgraded(dcs, rf, a, b)
  {
    var a, b := Ordered(dcs);
    rf := map[a := if dcs[a].nodes > 1 then 2 else 1, b := 1];
    assert Upgraded(dcs, rf, a, b);
  }

  // ---------- What the choice guarantees ----------

  lemma {:induction false} SumOfMore(s: set<string>, f: map<string, nat>, g: map<string, nat>)
    requires s <= f.Keys && s <= g.Keys && forall x :: x in s ==> f[x] <= g[x]
    ensures Sum(s, f) <= Sum(s, g)
  {
    if s != {} {
      var x :| x in s;
      SumWithout(s, f, x);
      SumWithout(s, g, x);
      SumOfMore(s - {x}, f, g);
    }
  }

  lemma RacksAtMostNodes(dci: DCInfo)
    requires Populated(dci)
    ensures 1 <= |dci.racks| <= dci.nodes
  {
    SumAtLeast(dci.racks.Keys, dci.racks);
    assert |dci.racks.Keys| == |dci.racks|;
    assert |dci.racks| == 0 ==> dci.racks == map[];
  }

  /** Every datacenter gets between one and all of its nodes. */
  ghost predicate WithinNodes(dcs: DCs, rf: map<string, nat>) {
    rf.Keys == dcs.Keys && forall d :: d in dcs ==> 1 <= rf[d] <= dcs[d].nodes
  }

  lemma ChosenWithinNodes(dcs: DCs, rf: map<string, nat>)
    requires WellBuilt(dcs) && Chosen(dcs, rf)
    ensures WithinNodes(dcs, rf)
  {
    RacksAtMostAllNodes(dcs);
    if TwoSmallDCs(dcs) {
      var a, b :| Upgraded(dcs, rf, a, b);
      UpgradedWithinNodes(dcs, rf, a, b);
    }
  }

  lemma RacksAtMostAllNodes(dcs: DCs)
    requires WellBuilt(dcs)
    ensures forall d :: d in dcs ==> 1 <= |dcs[d].racks| <= dcs[d].nodes
  {
    forall d | d in dcs ensures 1 <= |dcs[d].racks| <= dcs[d].nodes {
      RacksAtMostNodes(dcs[d]);
    }
  }

  lemma UpgradedWithinNodes(dcs: DCs, rf: map<string, nat>, a: string, b: string)
    requires Upgraded(dcs, rf, a, b) && forall d :: d in dcs ==> 1 <= dcs[d].nodes
    ensures WithinNodes(dcs, rf)
  {
  }

  lemma SumOfTwo(f: map<string, nat>, a: string, b: string)
    requires a != b && f.Keys == {a, b}
    ensures Total(f) == f[a] + f[b]
  {
    SumWithout(f.Keys, f, a);
    assert f.Keys - {a} == {b};
    SumWithout({b}, f, b);
    assert {b} - {b} == {};
  }

  lemma TotalOfTwo(dcs: DCs, rf: map<string, nat>, a: string, b: string)
    requires WellBuilt(dcs) && Upgraded(dcs, rf, a, b)
    ensures Total(rf) >= Min(3, Total(NodeCount(dcs)))
  {
    SumOfTwo(rf, a, b);
    SumOfTwo(NodeCount(dcs), a, b);
    RacksAtMostNodes(dcs[a]);
    RacksAtMostNodes(dcs[b]);
  }

  lemma SumOfOne(f: map<string, nat>, a: string)
    requires f.Keys == {a}
    ensures Total(f) == f[a]
  {
    SumWithout(f.Keys, f, a);
    assert f.Keys - {a} == {};
  }

  lemma OnlyOne(dcs: DCs) returns (a: string)
    requires |dcs| == 1
    ensures dcs.Keys == {a}
  {
    a :| a in dcs;
    assert |dcs.Keys - {a}| == 0;
  }

  lemma RacksOfAll(dcs: DCs)
    requires WellBuilt(dcs)
    ensures TotalRacks(dcs) >= |dcs|
  {
    forall d | d in dcs ensures |dcs[d].racks| >= 1 {
      RacksAtMostNodes(dcs[d]);
    }
    assert RackCount(dcs).Keys == dcs.Keys;
    SumAtLeast(dcs.Keys, RackCount(dcs));
    assert |dcs.Keys| == |dcs|;
  }

  /** The racks of a datacenter that nodes stand in. */
  ghost function RacksIn(nodes: seq<Node>, dc: string): (s: set<string>)
    ensures forall r :: r in s <==> Node(dc, r) in nodes
  {
    set n | n in nodes && n.dc == dc :: n.rack
  }

  lemma {:induction false} CountedIsIn(nodes: seq<Node>, n: Node)
    ensures CountAt(nodes, n) > 0 <==> n in nodes
  {
    if nodes != [] {
      CountedIsIn(nodes[..|nodes|-1], n);
      assert nodes == nodes[..|nodes|-1] + [nodes[|nodes|-1]];
    }
  }

  lemma RacksAre(nodes: seq<Node>, dcs: DCs, d: string)
    requires Counts(nodes, dcs) && d in dcs
    ensures dcs[d].racks.Keys == RacksIn(nodes, d)
  {
    forall r ensures r in dcs[d].racks <==> r in RacksIn(nodes, d) {
      CountedIsIn(nodes, Node(d, r));
    }
  }

  /** The different places of nodes in some of the datacenters. */
  ghost function PlacesIn(nodes: seq<Node>, ds: set<string>): (s: set<Node>)
    ensures forall n :: n in s <==> n in nodes && n.dc in ds
  {
    set n | n in nodes && n.dc in ds
  }

  lemma {:induction false} SumOfRacks(nodes: seq<Node>, dcs: DCs, ds: set<string>)
    requires Counts(nodes, dcs) && ds <= dcs.Keys
    ensures ds <= RackCount(dcs).Keys && Sum(ds, RackCount(dcs)) == |PlacesIn(nodes, ds)|
  {
    if ds == {} {
      assert PlacesIn(nodes, ds) == {};
    } else {
      var d :| d in ds;
      SumWithout(ds, RackCount(dcs), d);
      SumOfRacks(nodes, dcs, ds - {d});
      RackCountIs(nodes, dcs, d);
      OneMoreDC(nodes, ds, d);
    }
  }

  lemma RackCountIs(nodes: seq<Node>, dcs: DCs, d: string)
    requires Counts(nodes, dcs) && d in dcs
    ensures d in RackCount(dcs) && RackCount(dcs)[d] == |RacksIn(nodes, d)|
  {
    RacksAre(nodes, dcs, d);
    assert |dcs[d].racks| == |dcs[d].racks.Keys|;
  }

  lemma OneMoreDC(nodes: seq<Node>, ds: set<string>, d: string)
    requires d in ds
    ensures |PlacesIn(nodes, ds)| == |PlacesIn(nodes, ds - {d})| + |RacksIn(nodes, d)|
  {
    PlacesOfOne(nodes, d);
    assert PlacesIn(nodes, ds) == PlacesIn(nodes, ds - {d}) + PlacesIn(nodes, {d});
  }

  lemma PlacesOfOne(nodes: seq<Node>, d: string)
    ensures |PlacesIn(nodes, {d})| == |RacksIn(nodes, d)|
  {
    SameSize(RacksIn(nodes, d), PlacesIn(nodes, {d}), d);
  }

  lemma {:induction false} SameSize(racks: set<string>, places: set<Node>, d: string)
    requires forall n :: n in places <==> n.dc == d && n.rack in racks
    ensures |places| == |racks|
  {
    if racks == {} {
      assert places == {};
    } else {
      var r :| r in racks;
      assert Node(d, r) in places;
      SameSize(racks - {r}, places - {Node(d, r)}, d);
    }
  }

  lemma CountedDCs(nodes: seq<Node>, dcs: DCs)
    requires Counts(nodes, dcs)
    ensures TotalRacks(dcs) == |set n | n in nodes|
  {
    SumOfRacks(nodes, dcs, dcs.Keys);
    assert RackCount(dcs).Keys == dcs.Keys;
    forall n | n in nodes ensures n.dc in dcs {
      CountedIsIn(nodes, n);
      AtIsIn(nodes, n);
    }
    assert PlacesIn(nodes, dcs.Keys) == set n | n in nodes;
  }

  /** In any topology, every datacenter gets between one and all of its nodes, and the factors add up to three where
      there are three nodes. */
  lemma ChoiceIsSound(nodes: seq<Node>, dcs: DCs, rf: map<string, nat>)
    requires TopologyOf(nodes, dcs) && Chosen(dcs, rf)
    ensures WithinNodes(dcs, rf)
    ensures Total(rf) >= if |nodes| < 3 then |nodes| else 3
  {
    ChosenIsSound(dcs, rf);
  }

  /** Where nodes stand in three different racks or more, each datacenter gets as many as it has racks. */
  lemma ChosenByRacks(nodes: seq<Node>, dcs: DCs, rf: map<string, nat>)
    requires TopologyOf(nodes, dcs) && Chosen(dcs, rf) && |set n | n in nodes| >= 3
    ensures rf.Keys == dcs.Keys && forall d :: d in dcs ==> rf[d] == |RacksIn(nodes, d)|
  {
    CountedDCs(nodes, dcs);
    ChosenIsSound(dcs, rf);
    forall d | d in dcs ensures RackCount(dcs)[d] == |RacksIn(nodes, d)| {
      RackCountIs(nodes, dcs, d);
    }
  }

  /** One datacenter of one or two racks gets three, or all of its nodes. */
  lemma ChosenForOne(nodes: seq<Node>, dcs: DCs, rf: map<string, nat>)
    requires TopologyOf(nodes, dcs) && Chosen(dcs, rf) && |dcs| == 1 && |set n | n in nodes| <= 2
    ensures forall d :: d in dcs ==> d in rf && rf[d] == if |nodes| < 3 then |nodes| else 3
  {
    CountedDCs(nodes, dcs);
    var a := OnlyOne(dcs);
    SumOfOne(NodeCount(dcs), a);
  }

  /** Of two datacenters of one rack, only one with as many nodes as the other or more gets two, and it does when it has
      more than one node; of two as large it is the one whose name comes later. */
  lemma ChosenForTwo(nodes: seq<Node>, dcs: DCs, rf: map<string, nat>) returns (a: string, b: string)
    requires TopologyOf(nodes, dcs) && Chosen(dcs, rf) && |dcs| == 2 && |set n | n in nodes| == 2
    ensures a != b && dcs.Keys == rf.Keys == {a, b} && CountIn(nodes, b) <= CountIn(nodes, a)
    ensures CountIn(nodes, b) == CountIn(nodes, a) ==> !Tags.Less(a, b)
    ensures rf[a] == (if CountIn(nodes, a) > 1 then 2 else 1) && rf[b] == 1
  {
    CountedDCs(nodes, dcs);
    a, b :| Upgraded(dcs, rf, a, b);
  }

  lemma ChosenIsSound(dcs: DCs, rf: map<string, nat>)
    requires WellBuilt(dcs) && Chosen(dcs, rf)
    ensures WithinNodes(dcs, rf) && Total(rf) >= Min(3, Total(NodeCount(dcs)))
    ensures TotalRacks(dcs) >= 3 ==> rf == RFRackValid(dcs)
  {
    ChosenWithinNodes(dcs, rf);
    RacksOfAll(dcs);
    if OneSmallDC(dcs) {
      TotalOfOne(dcs, rf);
    } else if TwoSmallDCs(dcs) {
      var a, b :| Upgraded(dcs, rf, a, b);
      TotalOfTwo(dcs, rf, a, b);
    } else if TotalRacks(dcs) < 3 {
      FewRacks(dcs);
    } else {
      EnoughRacks(dcs);
    }
  }

  lemma EnoughRacks(dcs: DCs)
    requires TotalRacks(dcs) >= 3
    ensures Total(RFRackValid(dcs)) >= 3
  {
  }

  lemma TotalOfOne(dcs: DCs, rf: map<string, nat>)
    requires OneSmallDC(dcs) && Chosen(dcs, rf)
    ensures Total(rf) >= Min(3, Total(NodeCount(dcs)))
  {
    var a := OnlyOne(dcs);
    SumOfOne(rf, a);
    SumOfOne(NodeCount(dcs), a);
  }

  /** Only the empty topology is neither small nor has three racks. */
  lemma FewRacks(dcs: DCs)
    requires WellBuilt(dcs) && !OneSmallDC(dcs) && !TwoSmallDCs(dcs) && TotalRacks(dcs) < 3
    ensures Total(NodeCount(dcs)) == 0
  {
    RacksOfAll(dcs);
    assert |dcs| == 0;
    assert dcs.Keys == {};
    assert NodeCount(dcs).Keys == {};
  }
}
