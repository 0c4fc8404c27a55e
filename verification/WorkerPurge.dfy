/** The whole of worker.Purge: plan, host loops and purges of groups together. */
module WorkerPurge {
  import opened Wrappers
  import opened BackupStore
  import opened BackupRuns
  import opened KeptSnapshots
  import opened Purger
  import opened Retention
  import Dispatch

  /** The listing still tells which manifests of the node ID are stored for the cluster in the locations listed. */
  ghost predicate ListingHolds(s: Store, locations: set<string>, cluster: string, ms: seq<ManifestId>, id: string) {
    forall m: ManifestId :: m.node.place.id == id ==>
      (m in ms <==> m in s.manifests && m.node.location in locations && m.node.place.cluster == cluster)
  }

  lemma NotShadowed(s: Store, locations: set<string>, cluster: string, ms: seq<ManifestId>, id: string, m: ManifestId)
    requires ListingHolds(s, locations, cluster, ms, id) && m.node.place.id == id && m in ms
    ensures m in s.manifests && (Shadowed(s, m) <==> ShadowedIn(ms, m))
  {
    assert m.(temporary := false).node == m.node;
  }

  /** What is handed out for a node ID is a group as a purge needs it, even if it mixes locations. */
  lemma HandedIsGroup(
    s: Store, locations: set<string>, cluster: string, ms: seq<ManifestId>, id: string, group: seq<ManifestId>)
    requires ListingHolds(s, locations, cluster, ms, id)
    requires group == Dispatch.OfNode(Retention.Unshadowed(ms, ms), id) && group != []
    ensures Group(s, group[0].node, Ids(group))
  {
    forall m | m in group ensures m in s.manifests && !Shadowed(s, m) {
      NotShadowed(s, locations, cluster, ms, id, m);
    }
    assert group[0] in Ids(group);
    forall m, k | m in s.manifests && !Shadowed(s, m) && k in Ids(group) && m.node == Node(group[0].node.location, k.node.place)
      ensures m in Ids(group)
    {
      assert m in ms;
      NotShadowed(s, locations, cluster, ms, id, m);
    }
  }

  /** A planned purge of what is handed out for a node ID, stopped anywhere, is a purge as runs have it. */
  lemma HandedIsPurged(
    w: World, locations: set<string>, cluster: string, list: seq<RemoteManifest>, rules: Rules, now: nat, plan: Plan,
    id: string, group: seq<ManifestId>, w': World)
    requires ListingHolds(w.store, locations, cluster, InfoOf(list), id) && PlanFor(list, rules, now, plan)
    requires group == Dispatch.OfNode(plan.manifests, id) && group != []
    requires PurgedTo(w.store, group[0].node, Ids(group), plan.tags, plan.oldest, w'.store) && w' == w.(store := w'.store)
    ensures Act(w, PurgeGroup(group[0].node, Ids(group), plan.tags, plan.oldest), w')
  {
    var any := group[0].node;
    HandedIsGroup(w.store, locations, cluster, InfoOf(list), id, group);
    assert group[0] in group;
    forall m | m in w.store.manifests && m.node == any ensures m in InfoOf(list) {
    }
    assert OldestKept(w.store, any, plan.tags, plan.oldest);
  }

  // ---------- All host loops ----------

  /** The action of a host's turn: it purges what it was handed. */
  ghost predicate TurnPurges(plan: Plan, t: Dispatch.Turn, w: World, w': World) {
    match t.answer
    case None => w' == w
    case Some(id) =>
      var group := Dispatch.OfNode(plan.manifests, id);
      && w' == w.(store := w'.store)
      && (group != [] ==> PurgedTo(w.store, group[0].node, Ids(group), plan.tags, plan.oldest, w'.store))
  }

  /** The turns of the host loops with the purges they make, each stopped anywhere. */
  ghost predicate WorkerRun(
    hosts: seq<Dispatch.Host>, plan: Plan, states: seq<Dispatch.State>, turns: seq<Dispatch.Turn>, ws: seq<World>)
  {
    && Dispatch.Run(hosts, plan.manifests, states, turns)
    && |ws| == |states|
    && forall j :: 0 <= j < |turns| ==> TurnPurges(plan, turns[j], ws[j], ws[j+1])
  }

  /** What turn `j` does to the store, for a node ID that is handed out. */
  ghost function TurnAction(plan: Plan, id: string): Action
    requires Dispatch.OfNode(plan.manifests, id) != []
  {
    var group := Dispatch.OfNode(plan.manifests, id);
    PurgeGroup(group[0].node, Ids(group), plan.tags, plan.oldest)
  }

  /** Purging one node ID leaves the listing of the others true. */
  lemma OthersStayListed(
    s: Store, locations: set<string>, cluster: string, ms: seq<ManifestId>, any: Node, group: set<ManifestId>,
    tags: set<string>, oldest: Option<nat>, s': Store, id: string)
    requires PurgedTo(s, any, group, tags, oldest, s') && forall m :: m in group ==> m.node.place.id != id
    requires ListingHolds(s, locations, cluster, ms, id)
    ensures ListingHolds(s', locations, cluster, ms, id)
  {
    forall m | m in s.manifests && m.node.place.id == id ensures m in s'.manifests {
      assert !StaleManifest(group, tags, m);
    }
  }

  lemma HandedNotEmpty(
    hosts: seq<Dispatch.Host>, ms: seq<ManifestId>, states: seq<Dispatch.State>, turns: seq<Dispatch.Turn>, j: nat)
    requires Dispatch.Run(hosts, ms, states, turns) && j < |turns| && turns[j].answer.Some?
    ensures var id := turns[j].answer.value;
      && Dispatch.OfNode(ms, id) != [] && id in states[j].groups && id !in states[j].handed && id in states[j+1].handed
      && forall i :: i in states[j].handed ==> i in states[j+1].handed
  {
    assert Dispatch.Step(hosts, states[j], turns[j], states[j+1]);
    Dispatch.RunKeeps(hosts, ms, states, turns, j);
    Dispatch.GroupsNotEmpty(ms, states[0].groups);
  }

  /** Until a node ID is handed out, the listing of it stays true. */
  lemma {:induction false} ListedUntilHanded(
    hosts: seq<Dispatch.Host>, plan: Plan, states: seq<Dispatch.State>, turns: seq<Dispatch.Turn>, ws: seq<World>,
    locations: set<string>, cluster: string, ms: seq<ManifestId>, j: nat, id: string)
    requires WorkerRun(hosts, plan, states, turns, ws) && j < |ws|
    requires ListingHolds(ws[0].store, locations, cluster, ms, id) && id !in states[j].handed
    ensures ListingHolds(ws[j].store, locations, cluster, ms, id)
  {
    if j > 0 {
      var t := turns[j-1];
      assert Dispatch.Step(hosts, states[j-1], t, states[j]);
      assert id !in states[j-1].handed;
      ListedUntilHanded(hosts, plan, states, turns, ws, locations, cluster, ms, j - 1, id);
      assert TurnPurges(plan, t, ws[j-1], ws[j]);
      if t.answer.Some? {
        HandedNotEmpty(hosts, plan.manifests, states, turns, j - 1);
        var group := Dispatch.OfNode(plan.manifests, t.answer.value);
        OthersStayListed(ws[j-1].store, locations, cluster, ms, group[0].node, Ids(group), plan.tags, plan.oldest,
                         ws[j].store, id);
      }
    }
  }

  /** A whole purge: manifests listed, a plan made from the listing, and the host loops under some interleaving. */
  ghost predicate WholePurge(
    hosts: seq<Dispatch.Host>, locations: set<string>, cluster: string, list: seq<RemoteManifest>, rules: Rules,
    now: nat, plan: Plan, states: seq<Dispatch.State>, turns: seq<Dispatch.Turn>, ws: seq<World>)
  {
    && WorkerRun(hosts, plan, states, turns, ws)
    && PlanFor(list, rules, now, plan)
    && forall id :: ListingHolds(ws[0].store, locations, cluster, InfoOf(list), id)
  }

  /** In a whole purge every turn that is handed a node ID makes a purge as runs have it. */
  lemma WorkerPurges(
    hosts: seq<Dispatch.Host>, locations: set<string>, cluster: string, list: seq<RemoteManifest>, rules: Rules,
    now: nat, plan: Plan, states: seq<Dispatch.State>, turns: seq<Dispatch.Turn>, ws: seq<World>, j: nat)
    requires WholePurge(hosts, locations, cluster, list, rules, now, plan, states, turns, ws)
    requires j < |turns| && turns[j].answer.Some?
    ensures Dispatch.OfNode(plan.manifests, turns[j].answer.value) != []
    ensures Act(ws[j], TurnAction(plan, turns[j].answer.value), ws[j+1])
  {
    var id := turns[j].answer.value;
    HandedNotEmpty(hosts, plan.manifests, states, turns, j);
    ListedUntilHanded(hosts, plan, states, turns, ws, locations, cluster, InfoOf(list), j, id);
    assert TurnPurges(plan, turns[j], ws[j], ws[j+1]);
    HandedIsPurged(ws[j], locations, cluster, list, rules, now, plan, id, Dispatch.OfNode(plan.manifests, id), ws[j+1]);
  }

  ghost predicate Kept(w: World, k: SnapId, f: File) {
    Inv(w) && Held(w, k) && ReadsBack(w, k, f)
  }

  lemma ActKeepsKept(w: World, a: Action, w': World, k: SnapId, f: File)
    requires Kept(w, k, f) && Act(w, a, w') && a.PurgeGroup? && k.tag !in a.tags
    ensures Kept(w', k, f)
  {
    ActKeeps(w, a, w');
    ActKeepsHeld(w, a, w', k);
    ActKeepsFile(w, a, w', k, f);
  }

  lemma TurnKeeps(
    hosts: seq<Dispatch.Host>, locations: set<string>, cluster: string, list: seq<RemoteManifest>, rules: Rules,
    now: nat, plan: Plan, states: seq<Dispatch.State>, turns: seq<Dispatch.Turn>, ws: seq<World>, j: nat, k: SnapId,
    f: File)
    requires WholePurge(hosts, locations, cluster, list, rules, now, plan, states, turns, ws) && j < |turns|
    requires Kept(ws[j], k, f) && k.tag !in plan.tags
    ensures Kept(ws[j+1], k, f)
  {
    if turns[j].answer.Some? {
      WorkerPurges(hosts, locations, cluster, list, rules, now, plan, states, turns, ws, j);
      ActKeepsKept(ws[j], TurnAction(plan, turns[j].answer.value), ws[j+1], k, f);
    } else {
      assert TurnPurges(plan, turns[j], ws[j], ws[j+1]);
    }
  }

  lemma TurnsKeep(
    hosts: seq<Dispatch.Host>, locations: set<string>, cluster: string, list: seq<RemoteManifest>, rules: Rules,
    now: nat, plan: Plan, states: seq<Dispatch.State>, turns: seq<Dispatch.Turn>, ws: seq<World>, k: SnapId, f: File)
    requires WholePurge(hosts, locations, cluster, list, rules, now, plan, states, turns, ws) && k.tag !in plan.tags
    ensures |ws| == |turns| + 1 && forall i: nat :: i < |turns| && Kept(ws[i], k, f) ==> Kept(ws[i+1], k, f)
  {
    forall i: nat | i < |turns| && Kept(ws[i], k, f) ensures Kept(ws[i+1], k, f) {
      TurnKeeps(hosts, locations, cluster, list, rules, now, plan, states, turns, ws, i, k, f);
    }
  }

  /** A whole purge, under every interleaving and wherever each of its parts stops, takes no file from a snapshot
      whose tag it does not purge. */
  lemma WorkerKeepsSnapshots(
    hosts: seq<Dispatch.Host>, locations: set<string>, cluster: string, list: seq<RemoteManifest>, rules: Rules,
    now: nat, plan: Plan, states: seq<Dispatch.State>, turns: seq<Dispatch.Turn>, ws: seq<World>, j: nat, k: SnapId,
    f: File)
    requires WholePurge(hosts, locations, cluster, list, rules, now, plan, states, turns, ws) && j < |ws|
    requires Kept(ws[0], k, f) && k.tag !in plan.tags
    ensures Kept(ws[j], k, f)
  {
    TurnsKeep(hosts, locations, cluster, list, rules, now, plan, states, turns, ws, k, f);
    KeptAlong(ws, k, f, j);
  }

  ghost function KeptAll(ws: seq<World>, k: SnapId, f: File): (kept: seq<bool>)
    ensures |kept| == |ws| && forall i: nat :: i < |ws| ==> kept[i] == Kept(ws[i], k, f)
  {
    seq(|ws|, i requires 0 <= i < |ws| => Kept(ws[i], k, f))
  }

  lemma KeptAlong(ws: seq<World>, k: SnapId, f: File, j: nat)
    requires j < |ws| && Kept(ws[0], k, f) && forall i: nat :: i < |ws| - 1 && Kept(ws[i], k, f) ==> Kept(ws[i+1], k, f)
    ensures Kept(ws[j], k, f)
  {
    AllAlong(KeptAll(ws, k, f), j);
  }

  lemma {:induction false} AllAlong(kept: seq<bool>, j: nat)
    requires j < |kept| && kept[0] && forall i: nat :: i < |kept| - 1 && kept[i] ==> kept[i+1]
    ensures kept[j]
  {
    if j > 0 {
      AllAlong(kept, j - 1);
    }
  }
}
