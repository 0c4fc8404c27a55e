/** Handing the manifests of nodes to hosts, popNodeIDManifestsForLocation and the host loops of Purge. */
module Dispatch {
  import opened Wrappers
  import opened BackupStore

  datatype Host = Host(id: string, location: string)

  type Groups = map<string, seq<ManifestId>>

  /** groupManifestsByNode: every node with its manifests, in the order listed. */
  function OfNode(ms: seq<ManifestId>, id: string): (g: seq<ManifestId>)
    ensures forall m :: m in g <==> m in ms && m.node.place.id == id
  {
    if ms == [] then [] else
      var last := ms[|ms|-1];
      assert ms == ms[..|ms|-1] + [last];
      if last.node.place.id == id then OfNode(ms[..|ms|-1], id) + [last] else OfNode(ms[..|ms|-1], id)
  }

  /** The first manifest of a node in the list comes first, and no manifest twice as often as listed. */
  lemma {:induction false} OfNodeInOrder(ms: seq<ManifestId>, id: string)
    ensures OfNode(ms, id) != [] ==>
      exists i :: 0 <= i < |ms| && ms[i] == OfNode(ms, id)[0] && forall j :: 0 <= j < i ==> ms[j].node.place.id != id
    ensures OfNode(ms, id) == [] ==> forall j :: 0 <= j < |ms| ==> ms[j].node.place.id != id
  {
    if ms != [] {
      var n := |ms| - 1;
      OfNodeInOrder(ms[..n], id);
      assert forall j :: 0 <= j < n ==> ms[..n][j] == ms[j];
    }
  }

  ghost predicate GroupedByNode(ms: seq<ManifestId>, groups: Groups) {
    && (forall id :: id in groups <==> exists m :: m in ms && m.node.place.id == id)
    && (forall id :: id in groups ==> groups[id] == OfNode(ms, id))
  }

  lemma GroupsNotEmpty(ms: seq<ManifestId>, groups: Groups)
    requires GroupedByNode(ms, groups)
    ensures forall id :: id in groups ==> groups[id] != []
  {
    forall id | id in groups ensures groups[id] != [] {
      var m :| m in ms && m.node.place.id == id;
      assert m in OfNode(ms, id);
    }
  }

  /** The host may be handed the node: its own, or one whose first manifest is in the host's location. */
  predicate Suits(groups: Groups, h: Host, id: string)
    requires id in groups
  {
    id == h.id || (groups[id] != [] && groups[id][0].node.location == h.location)
  }

  /** What a pop answers: its own node first, any other that suits, or nothing when none is left. */
  predicate Popped(groups: Groups, h: Host, answer: Option<string>, groups': Groups) {
    match answer
    case Some(id) => id in groups && Suits(groups, h, id) && (h.id in groups ==> id == h.id) && groups' == groups - {id}
    case None => groups' == groups && forall id :: id in groups ==> !Suits(groups, h, id)
  }

  class Dispatcher {
    var groups: Groups

    constructor (ms: seq<ManifestId>)
      ensures GroupedByNode(ms, groups)
    {
      var v: Groups := map[];
      for i := 0 to |ms|
        invariant forall id :: id in v <==> exists m :: m in ms[..i] && m.node.place.id == id
        invariant forall id :: id in v ==> v[id] == OfNode(ms[..i], id)
        invariant forall id :: id !in v ==> OfNode(ms[..i], id) == []
      {
        assert ms[..i+1] == ms[..i] + [ms[i]];
        assert ms[..i+1][..i] == ms[..i];
        var id := ms[i].node.place.id;
        v := v[id := (if id in v then v[id] else []) + [ms[i]]];
      }
      assert ms[..|ms|] == ms;
      groups := v;
    }

    /** The pop that host loops call under a mutex. */
    method Pop(h: Host) returns (answer: Option<string>, manifests: seq<ManifestId>)
      requires forall id :: id in groups ==> groups[id] != []
      modifies this
      ensures Popped(old(groups), h, answer, groups)
      ensures h.id in old(groups) ==> answer == Some(h.id)
      ensures h.id !in old(groups) && answer.Some? ==>
                answer.value in old(groups) && old(groups)[answer.value][0].node.location == h.location
      ensures answer.None? ==> forall id :: id in old(groups) ==> id != h.id && old(groups)[id][0].node.location != h.location
      ensures groups == if answer.Some? then old(groups) - {answer.value} else old(groups)
      ensures manifests == if answer.Some? then old(groups)[answer.value] else []
      ensures forall id :: id in groups ==> groups[id] != []
    {
      if h.id in groups {
        answer, manifests := Some(h.id), groups[h.id];
        groups := groups - {h.id};
        return;
      }
      var todo := groups.Keys;
      while todo != {}
        invariant todo <= groups.Keys && groups == old(groups)
        invariant forall id :: id in groups && id !in todo ==> !Suits(groups, h, id)
        decreases |todo|
      {
        var id :| id in todo;
        todo := todo - {id};
        if groups[id][0].node.location == h.location {
          answer, manifests := Some(id), groups[id];
          groups := groups - {id};
          return;
        }
      }
      answer, manifests := None, [];
    }
  }

  // ---------- Host loops side by side ----------

  datatype Status = Looping | Done | Failed

  /** The shared groups, how far each host is, and which host was handed which node. */
  datatype State = State(groups: Groups, status: seq<Status>, handed: map<string, nat>)

  /** A turn of a host's loop: it pops; with nothing left it ends; when its purge fails it ends as well. */
  datatype Turn = Turn(host: nat, answer: Option<string>, fails: bool)

  predicate Step(hosts: seq<Host>, s: State, t: Turn, s': State) {
    && t.host < |hosts| == |s.status| && s.status[t.host] == Looping
    && Popped(s.groups, hosts[t.host], t.answer, s'.groups)
    && match t.answer
       case None => s'.status == s.status[t.host := Done] && s'.handed == s.handed
       case Some(id) =>
         && s'.handed == s.handed[id := t.host]
         && s'.status == if t.fails then s.status[t.host := Failed] else s.status
  }

  ghost predicate Start(hosts: seq<Host>, ms: seq<ManifestId>, s: State) {
    GroupedByNode(ms, s.groups) && |s.status| == |hosts| && s.handed == map[]
    && forall i :: 0 <= i < |hosts| ==> s.status[i] == Looping
  }

  ghost predicate Inv(hosts: seq<Host>, groups: Groups, s: State) {
    && |s.status| == |hosts|
    && s.groups.Keys + s.handed.Keys == groups.Keys && s.groups.Keys !! s.handed.Keys
    && (forall id :: id in s.groups ==> s.groups[id] == groups[id])
    && (forall id :: id in s.handed ==> s.handed[id] < |hosts| && Suits(groups, hosts[s.handed[id]], id))
    && (forall i, id :: 0 <= i < |hosts| && s.status[i] == Done && id in s.groups ==> !Suits(s.groups, hosts[i], id))
  }

  /** Every turn ends a loop or takes a group away. */
  lemma TurnMakesProgress(hosts: seq<Host>, s: State, t: Turn, s': State)
    requires Step(hosts, s, t, s')
    ensures if t.answer.Some? then |s'.groups| == |s.groups| - 1 else s'.status[t.host] == Done
  {
    if t.answer.Some? {
      assert s'.groups.Keys == s.groups.Keys - {t.answer.value};
      assert |s'.groups| == |s'.groups.Keys| && |s.groups| == |s.groups.Keys|;
    }
  }

  lemma StepKeeps(hosts: seq<Host>, groups: Groups, s: State, t: Turn, s': State)
    requires Inv(hosts, groups, s) && Step(hosts, s, t, s')
    ensures Inv(hosts, groups, s')
  {
    forall i, id | 0 <= i < |hosts| && s'.status[i] == Done && id in s'.groups
      ensures !Suits(s'.groups, hosts[i], id)
    {
      assert s'.groups[id] == s.groups[id];
      assert Suits(s'.groups, hosts[i], id) == Suits(s.groups, hosts[i], id);
    }
  }

  ghost predicate Run(hosts: seq<Host>, ms: seq<ManifestId>, states: seq<State>, turns: seq<Turn>) {
    && |states| == |turns| + 1
    && Start(hosts, ms, states[0])
    && forall i :: 0 <= i < |turns| ==> Step(hosts, states[i], turns[i], states[i+1])
  }

  lemma {:induction false} RunKeeps(hosts: seq<Host>, ms: seq<ManifestId>, states: seq<State>, turns: seq<Turn>, n: nat)
    requires Run(hosts, ms, states, turns) && n < |states|
    ensures Inv(hosts, states[0].groups, states[n])
  {
    if n > 0 {
      RunKeeps(hosts, ms, states, turns, n - 1);
      StepKeeps(hosts, states[0].groups, states[n-1], turns[n-1], states[n]);
    }
  }

  lemma StepLeavesHanded(hosts: seq<Host>, s: State, t: Turn, s': State, id: string)
    requires Step(hosts, s, t, s') && id in s.handed && id !in s.groups
    ensures id in s'.handed && s'.handed[id] == s.handed[id] && id !in s'.groups
  {
  }

  /** Once handed out, a node stays handed to that host and is in no group any more. */
  lemma {:induction false} HandedStays(
    hosts: seq<Host>, ms: seq<ManifestId>, states: seq<State>, turns: seq<Turn>, i: nat, n: nat, id: string)
    requires Run(hosts, ms, states, turns) && i <= n < |states| && id in states[i].handed
    ensures id in states[n].handed && states[n].handed[id] == states[i].handed[id] && id !in states[n].groups
    decreases n
  {
    if i < n {
      HandedStays(hosts, ms, states, turns, i, n - 1, id);
      StepLeavesHanded(hosts, states[n-1], turns[n-1], states[n], id);
    } else {
      RunKeeps(hosts, ms, states, turns, n);
    }
  }

  /** Under every interleaving, no two turns hand out the same node. */
  lemma HandedOnce(
    hosts: seq<Host>, ms: seq<ManifestId>, states: seq<State>, turns: seq<Turn>, i: nat, j: nat, id: string)
    requires Run(hosts, ms, states, turns) && i < j < |turns|
    requires turns[i].answer == Some(id)
    ensures turns[j].answer != Some(id)
  {
    assert Step(hosts, states[i], turns[i], states[i+1]);
    HandedStays(hosts, ms, states, turns, i + 1, j, id);
    assert Step(hosts, states[j], turns[j], states[j+1]);
  }

  /** The loops take together at most as many turns as there are nodes and hosts. */
  lemma {:induction false} LoopsEnd(hosts: seq<Host>, ms: seq<ManifestId>, states: seq<State>, turns: seq<Turn>, n: nat)
    requires Run(hosts, ms, states, turns) && n < |states|
    ensures n + |states[n].groups| + StillLooping(states[n].status) <= |states[0].groups| + |hosts|
    decreases n
  {
    if n > 0 {
      LoopsEnd(hosts, ms, states, turns, n - 1);
      assert Step(hosts, states[n-1], turns[n-1], states[n]);
      TurnCounts(hosts, states[n-1], turns[n-1], states[n]);
    } else {
      AtMostAll(states[0].status);
    }
  }

  lemma TurnCounts(hosts: seq<Host>, s: State, t: Turn, s': State)
    requires Step(hosts, s, t, s')
    ensures |s'.groups| + StillLooping(s'.status) < |s.groups| + StillLooping(s.status)
  {
    TurnMakesProgress(hosts, s, t, s');
    EndOfLoop(s.status, t.host, Done);
    EndOfLoop(s.status, t.host, Failed);
  }

  function StillLooping(status: seq<Status>): nat {
    if status == [] then 0 else
      StillLooping(status[..|status|-1]) + if status[|status|-1] == Looping then 1 else 0
  }

  lemma {:induction false} AtMostAll(status: seq<Status>)
    ensures StillLooping(status) <= |status|
  {
    if status != [] {
      AtMostAll(status[..|status|-1]);
    }
  }

  lemma {:induction false} EndOfLoop(status: seq<Status>, i: nat, end: Status)
    requires i < |status| && status[i] == Looping && end != Looping
    ensures StillLooping(status[i := end]) == StillLooping(status) - 1
  {
    var n := |status| - 1;
    if i < n {
      EndOfLoop(status[..n], i, end);
      assert status[i := end][..n] == status[..n][i := end];
    } else {
      assert status[i := end][..n] == status[..n];
    }
  }

  /** When every host has ended its loop and none failed, and every listed manifest lies in the location of
      some host, each listed manifest was handed to exactly one host, with all the others of its node. */
  lemma AllHandedOut(hosts: seq<Host>, ms: seq<ManifestId>, states: seq<State>, turns: seq<Turn>, m: ManifestId)
    requires Run(hosts, ms, states, turns)
    requires forall st :: st in states[|turns|].status ==> st == Done
    requires m in ms && forall k :: k in ms ==> exists h :: h in hosts && h.location == k.node.location
    ensures m.node.place.id in states[|turns|].handed
    ensures states[|turns|].handed[m.node.place.id] < |hosts|
    ensures exists i :: 0 <= i < |turns| && turns[i].answer == Some(m.node.place.id)
                        && turns[i].host == states[|turns|].handed[m.node.place.id]
  {
    var s := states[|turns|];
    RunKeeps(hosts, ms, states, turns, |turns|);
    var k := HostOf(hosts, ms, states[0].groups, m);
    assert s.status[k] in states[|turns|].status;
    assert m.node.place.id in s.groups ==> Suits(s.groups, hosts[k], m.node.place.id);
    var i := HandedByTurn(hosts, ms, states, turns, |turns|, m.node.place.id);
  }

  /** Some host is in the location of the first manifest of the node. */
  lemma HostOf(hosts: seq<Host>, ms: seq<ManifestId>, groups: Groups, m: ManifestId) returns (k: nat)
    requires GroupedByNode(ms, groups)
    requires m in ms && forall k :: k in ms ==> exists h :: h in hosts && h.location == k.node.location
    ensures k < |hosts| && m.node.place.id in groups && groups[m.node.place.id] != []
    ensures groups[m.node.place.id][0].node.location == hosts[k].location
  {
    GroupsNotEmpty(ms, groups);
    var first := groups[m.node.place.id][0];
    assert first in OfNode(ms, m.node.place.id);
    var h :| h in hosts && h.location == first.node.location;
    k :| 0 <= k < |hosts| && hosts[k] == h;
  }

  lemma {:induction false} HandedByTurn(
    hosts: seq<Host>, ms: seq<ManifestId>, states: seq<State>, turns: seq<Turn>, n: nat, id: string) returns (i: nat)
    requires Run(hosts, ms, states, turns) && n < |states| && id in states[n].handed
    ensures i < n && turns[i].answer == Some(id) && turns[i].host == states[n].handed[id]
  {
    assert n > 0;
    assert Step(hosts, states[n-1], turns[n-1], states[n]);
    if turns[n-1].answer == Some(id) {
      i := n - 1;
    } else {
      i := HandedByTurn(hosts, ms, states, turns, n - 1, id);
    }
  }
}
