/** Activations and the queue of activations, pkg/scheduler/activation.go. */
module Activations {
  import opened Wrappers
  import opened WeekTime

  /** Task properties, of which only presence matters here. */
  type Properties = string

  /** When a key will be executed.  The zero instant stands for an unset time. */
  datatype Activation<K> = Activation(
    time: Instant,
    key: K,
    retry: int,
    properties: Option<Properties>,
    stop: Instant,
    preReschedule: Instant
  )

  /** The activation time of the first run of the execution sequence. */
  function InitialActivation<K>(a: Activation<K>): Instant {
    if a.preReschedule == 0 then a.time else a.preReschedule
  }

  // ---------- Heaps ----------

  function Parent(k: nat): nat {
    if k == 0 then 0 else (k - 1) / 2
  }

  /** Every element of the first `n` is no earlier than its parent. */
  ghost predicate Heap<K>(h: seq<Activation<K>>, n: nat)
    requires n <= |h|
  {
    forall k :: 0 < k < n ==> h[Parent(k)].time <= h[k].time
  }

  /** A heap but for the element at `i`, which may be out of place. */
  ghost predicate HeapBut<K>(h: seq<Activation<K>>, n: nat, i: nat)
    requires n <= |h|
  {
    && (forall k :: 0 < k < n && k != i && Parent(k) != i ==> h[Parent(k)].time <= h[k].time)
    && (forall k :: 0 < k < n && Parent(k) == i && 0 < i < n ==> h[Parent(i)].time <= h[k].time)
  }

  ghost predicate NoEarlierThanParent<K>(h: seq<Activation<K>>, i: nat)
    requires i < |h|
  {
    i > 0 ==> h[Parent(i)].time <= h[i].time
  }

  ghost predicate NoLaterThanChildren<K>(h: seq<Activation<K>>, n: nat, i: nat)
    requires i < n <= |h|
  {
    forall k :: 0 < k < n && Parent(k) == i ==> h[i].time <= h[k].time
  }

  lemma {:induction false} HeadIsEarliest<K>(h: seq<Activation<K>>, n: nat, k: nat)
    requires k < n <= |h| && Heap(h, n)
    ensures h[0].time <= h[k].time
  {
    if k > 0 {
      HeadIsEarliest(h, n, Parent(k));
    }
  }

  function Swapped<K>(h: seq<Activation<K>>, i: nat, j: nat): (s: seq<Activation<K>>)
    requires i < |h| && j < |h|
    ensures |s| == |h| && multiset(s) == multiset(h)
  {
    h[i := h[j]][j := h[i]]
  }

  /** The first `n` elements in some other order, the rest as it was. */
  ghost predicate Shuffled<K>(g: seq<Activation<K>>, h: seq<Activation<K>>, n: nat) {
    n <= |h| == |g| && multiset(h) == multiset(g) && h[n..] == g[n..]
  }

  lemma SwapShuffles<K>(g: seq<Activation<K>>, h: seq<Activation<K>>, n: nat, i: nat, j: nat)
    requires Shuffled(g, h, n) && i < n && j < n
    ensures Shuffled(g, Swapped(h, i, j), n)
  {
    assert Swapped(h, i, j)[n..] == h[n..];
  }

  lemma Settled<K>(h: seq<Activation<K>>, n: nat, i: nat)
    requires i < n <= |h| && HeapBut(h, n, i) && NoEarlierThanParent(h, i) && NoLaterThanChildren(h, n, i)
    ensures Heap(h, n)
  {
  }

  // ---------- The map that a heap stands for ----------

  ghost predicate UniqueKeys<K>(h: seq<Activation<K>>) {
    forall i, j :: 0 <= i < j < |h| ==> h[i].key != h[j].key
  }

  ghost function Contents<K>(h: seq<Activation<K>>): (m: map<K, Activation<K>>)
    requires UniqueKeys(h)
    ensures forall i :: 0 <= i < |h| ==> h[i].key in m && m[h[i].key] == h[i]
    ensures forall k :: k in m ==> m[k] in h && m[k].key == k
  {
    map i | 0 <= i < |h| :: h[i].key := h[i]
  }

  lemma PermutedUnique<K>(g: seq<Activation<K>>, h: seq<Activation<K>>)
    requires multiset(g) == multiset(h) && UniqueKeys(h)
    ensures UniqueKeys(g)
  {
    forall i, j | 0 <= i < j < |g| ensures g[i].key != g[j].key {
      if g[i].key == g[j].key {
        assert g[i] in multiset(h) && g[j] in multiset(h);
        if g[i] == g[j] {
          TwiceIn(g, i, j);
          OnceIn(h, g[i]);
        }
      }
    }
  }

  lemma TwiceIn<T>(s: seq<T>, i: nat, j: nat)
    requires i < j < |s| && s[i] == s[j]
    ensures multiset(s)[s[i]] >= 2
  {
    assert s == s[..j] + [s[j]] + s[j+1..];
    assert s[i] in multiset(s[..j]);
  }

  lemma {:induction false} OnceIn<K>(h: seq<Activation<K>>, a: Activation<K>)
    requires UniqueKeys(h)
    ensures multiset(h)[a] <= 1
  {
    if h != [] {
      var n := |h| - 1;
      assert h == h[..n] + [h[n]];
      OnceIn(h[..n], a);
      assert a in multiset(h[..n]) ==> a in h[..n];
    }
  }

  lemma PermutedContents<K>(g: seq<Activation<K>>, h: seq<Activation<K>>)
    requires multiset(g) == multiset(h) && UniqueKeys(h)
    ensures UniqueKeys(g) && Contents(g) == Contents(h)
  {
    PermutedUnique(g, h);
    forall k | k in Contents(g) ensures k in Contents(h) && Contents(h)[k] == Contents(g)[k] {
      assert Contents(g)[k] in multiset(h);
    }
    forall k | k in Contents(h) ensures k in Contents(g) {
      assert Contents(h)[k] in multiset(g);
    }
  }

  // ---------- The queue ----------

  class ActivationQueue<K(==)> {
    var h: seq<Activation<K>>

    ghost predicate Valid()
      reads this
    {
      Heap(h, |h|) && UniqueKeys(h)
    }

    /** The abstract value: at most one activation for a key. */
    ghost function Queued(): map<K, Activation<K>>
      reads this
      requires Valid()
    {
      Contents(h)
    }

    constructor ()
      ensures Valid() && Queued() == map[]
    {
      h := [];
    }

    /** heap.up */
    method Up(j0: nat, n: nat)
      requires j0 < n <= |h|
      requires HeapBut(h, n, j0) && NoLaterThanChildren(h, n, j0)
      modifies this
      ensures Shuffled(old(h), h, n)
      ensures Heap(h, n)
    {
      var j: nat := j0;
      while true
        invariant j < n && Shuffled(old(h), h, n)
        invariant HeapBut(h, n, j) && NoLaterThanChildren(h, n, j)
        decreases j
      {
        var i := Parent(j);
        if i == j || !(h[j].time < h[i].time) {
          Settled(h, n, j);
          break;
        }
        MoveUp(h, n, j);
        SwapShuffles(old(h), h, n, i, j);
        h := Swapped(h, i, j);
        j := i;
      }
    }

    /** heap.down: the element sinks until no child is earlier; true if it moved. */
    method Down(i0: nat, n: nat) returns (moved: bool)
      requires i0 < n <= |h|
      requires HeapBut(h, n, i0)
      modifies this
      ensures Shuffled(old(h), h, n)
      ensures moved ==> Heap(h, n)
      ensures !moved ==> h == old(h) && NoLaterThanChildren(h, n, i0)
    {
      var i: nat := i0;
      while true
        invariant i0 <= i < n && Shuffled(old(h), h, n)
        invariant HeapBut(h, n, i)
        invariant if i == i0 then h == old(h) else NoEarlierThanParent(h, i)
        decreases n - i
      {
        var j: nat := 2 * i + 1;
        if j >= n {
          break;
        }
        if j + 1 < n && h[j+1].time < h[j].time {
          j := j + 1;
        }
        EarlierChild(h, n, i, j);
        if !(h[j].time < h[i].time) {
          break;
        }
        MoveDown(h, n, i, j);
        SwapShuffles(old(h), h, n, i, j);
        h := Swapped(h, i, j);
        i := j;
      }
      assert NoLaterThanChildren(h, n, i);
      moved := i > i0;
      if moved {
        Settled(h, n, i);
      }
    }

    /** heap.Fix */
    method Fix(i: nat)
      requires i < |h| && HeapBut(h, |h|, i)
      modifies this
      ensures Heap(h, |h|) && multiset(h) == multiset(old(h))
    {
      var moved := Down(i, |h|);
      if !moved {
        Up(i, |h|);
      }
    }

    /** Moves the element at `i` behind the others and puts these in order again. */
    method MoveBehind(i: nat)
      requires i < |h| && Heap(h, |h|)
      modifies this
      ensures |h| == old(|h|) && h[|h|-1] == old(h[i])
      ensures Heap(h, |h| - 1) && multiset(h) == multiset(old(h))
    {
      var n := |h| - 1;
      if n != i {
        LastTakesPlace(h, i);
        SwapLast(h, i);
        h := Swapped(h, i, n);
        var moved := Down(i, n);
        if !moved {
          Up(i, n);
        }
      }
    }

    /** heap.Remove; heap.Pop is the removal at 0. */
    method RemoveAt(i: nat) returns (a: Activation<K>)
      requires i < |h| && Heap(h, |h|)
      modifies this
      ensures a == old(h[i])
      ensures Heap(h, |h|)
      ensures multiset(h + [a]) == multiset(old(h))
    {
      MoveBehind(i);
      var n := |h| - 1;
      a := h[n];
      assert h == h[..n] + [a];
      h := h[..n];
    }

    method Find(key: K) returns (idx: int)
      ensures -1 <= idx < |h|
      ensures if idx >= 0 then h[idx].key == key else forall i :: 0 <= i < |h| ==> h[i].key != key
    {
      for i := 0 to |h|
        invariant forall j :: 0 <= j < i ==> h[j].key != key
      {
        if h[i].key == key {
          return i;
        }
      }
      return -1;
    }

    /** Inserts or replaces the activation of its key; true iff that key is at the head afterwards. */
    method Push(a: Activation<K>) returns (head: bool)
      requires Valid()
      modifies this
      ensures Valid() && Queued() == old(Queued())[a.key := a]
      ensures |h| > 0 && (head <==> h[0].key == a.key)
      ensures head ==> forall k :: k in Queued() ==> a.time <= Queued()[k].time
      ensures !head ==> exists k :: k in old(Queued()) && k != a.key && old(Queued())[k].time <= a.time
    {
      var idx := Find(a.key);
      if idx >= 0 {
        ReplacedContents(h, idx, a);
        ReplacedHeap(h, idx, a);
        h := h[idx := a];
        label replaced:
        Fix(idx);
        PermutedContents(h, old@replaced(h));
      } else {
        AppendedContents(h, a);
        AppendedHeap(h, a);
        h := h + [a];
        label appended:
        Up(|h| - 1, |h|);
        PermutedContents(h, old@appended(h));
      }
      head := h[0].key == a.key;
      HeadBeforeAll(h);
      assert a in Queued().Values by { assert Queued()[a.key] == a; }
    }

    /** Takes out an activation of minimal time. */
    method Pop() returns (r: Option<Activation<K>>)
      requires Valid()
      modifies this
      ensures Valid()
      ensures r.None? <==> old(Queued()) == map[]
      ensures r.None? ==> Queued() == map[]
      ensures r.Some? ==>
                && r.value.key in old(Queued()) && old(Queued())[r.value.key] == r.value == old(h[0])
                && Queued() == old(Queued()) - {r.value.key}
                && forall k :: k in old(Queued()) ==> r.value.time <= old(Queued())[k].time
    {
      if |h| == 0 {
        return None;
      }
      HeadBeforeAll(h);
      var a := RemoveAt(0);
      RemovedContents(h, a, old(h));
      r := Some(a);
    }

    method Top() returns (r: Option<Activation<K>>)
      requires Valid()
      ensures r.None? <==> Queued() == map[]
      ensures r.Some? ==>
                && |h| > 0 && r.value == h[0]
                && r.value.key in Queued() && Queued()[r.value.key] == r.value
                && forall k :: k in Queued() ==> r.value.time <= Queued()[k].time
    {
      if |h| == 0 {
        return None;
      }
      HeadBeforeAll(h);
      r := Some(h[0]);
    }

    /** Deletes exactly the given key; true iff it was at the head. */
    method Remove(key: K) returns (head: bool)
      requires Valid()
      modifies this
      ensures Valid() && Queued() == old(Queued()) - {key}
      ensures head <==> old(|h| > 0 && h[0].key == key)
    {
      var idx := Find(key);
      if idx >= 0 {
        var a := RemoveAt(idx);
        RemovedContents(h, a, old(h));
      }
      head := idx == 0;
    }
  }

  lemma HeadBeforeAll<K>(h: seq<Activation<K>>)
    requires |h| > 0 && Heap(h, |h|) && UniqueKeys(h)
    ensures forall k :: k in Contents(h) ==> h[0].time <= Contents(h)[k].time
  {
    forall k | k in Contents(h) ensures h[0].time <= Contents(h)[k].time {
      var i :| 0 <= i < |h| && h[i] == Contents(h)[k];
      HeadIsEarliest(h, |h|, i);
    }
  }

  lemma LastTakesPlace<K>(h: seq<Activation<K>>, i: nat)
    requires i < |h| - 1 && Heap(h, |h|)
    ensures HeapBut(Swapped(h, i, |h| - 1), |h| - 1, i)
  {
    var n := |h| - 1;
    var s := Swapped(h, i, n);
    forall k | 0 < k < n && Parent(k) == i && 0 < i < n ensures s[Parent(i)].time <= s[k].time {
      assert h[Parent(i)].time <= h[i].time <= h[k].time;
    }
  }

  lemma SwapLast<K>(h: seq<Activation<K>>, i: nat)
    requires i < |h| - 1
    ensures Swapped(h, i, |h| - 1)[|h|-1..] == [h[i]]
  {
  }

  /** A map is the contents of a heap when it has the elements of the heap and no other keys. */
  lemma ContentsAre<K>(h: seq<Activation<K>>, m: map<K, Activation<K>>)
    requires UniqueKeys(h)
    requires forall i :: 0 <= i < |h| ==> h[i].key in m && m[h[i].key] == h[i]
    requires forall k :: k in m ==> exists i :: 0 <= i < |h| && h[i].key == k
    ensures Contents(h) == m
  {
    forall k | k in m ensures k in Contents(h) && Contents(h)[k] == m[k] {
      var i :| 0 <= i < |h| && h[i].key == k;
    }
  }

  lemma IndexOf<K>(h: seq<Activation<K>>, k: K) returns (i: nat)
    requires UniqueKeys(h) && k in Contents(h)
    ensures i < |h| && h[i].key == k && h[i] == Contents(h)[k]
  {
    i :| 0 <= i < |h| && h[i] == Contents(h)[k];
  }

  lemma ReplacedContents<K>(h: seq<Activation<K>>, i: nat, a: Activation<K>)
    requires UniqueKeys(h) && i < |h| && h[i].key == a.key
    ensures UniqueKeys(h[i := a]) && Contents(h[i := a]) == Contents(h)[a.key := a]
  {
    var g, m := h[i := a], Contents(h)[a.key := a];
    forall k | k in m ensures exists j :: 0 <= j < |g| && g[j].key == k {
      if k == a.key {
        assert g[i].key == k;
      } else {
        var j := IndexOf(h, k);
        assert g[j].key == k;
      }
    }
    ContentsAre(g, m);
  }

  lemma ReplacedHeap<K>(h: seq<Activation<K>>, i: nat, a: Activation<K>)
    requires i < |h| && Heap(h, |h|)
    ensures HeapBut(h[i := a], |h|, i)
  {
    forall k | 0 < k < |h| && Parent(k) == i && 0 < i ensures h[Parent(i)].time <= h[k].time {
      assert h[Parent(i)].time <= h[i].time <= h[k].time;
    }
  }

  lemma AppendedContents<K>(h: seq<Activation<K>>, a: Activation<K>)
    requires UniqueKeys(h) && forall i :: 0 <= i < |h| ==> h[i].key != a.key
    ensures UniqueKeys(h + [a]) && Contents(h + [a]) == Contents(h)[a.key := a]
  {
    var g, m := h + [a], Contents(h)[a.key := a];
    assert g[|h|] == a;
    forall k | k in m ensures exists j :: 0 <= j < |g| && g[j].key == k {
      if k == a.key {
        assert g[|h|].key == k;
      } else {
        var j := IndexOf(h, k);
        assert g[j].key == k;
      }
    }
    ContentsAre(g, m);
  }

  lemma AppendedHeap<K>(h: seq<Activation<K>>, a: Activation<K>)
    requires Heap(h, |h|)
    ensures HeapBut(h + [a], |h| + 1, |h|) && NoLaterThanChildren(h + [a], |h| + 1, |h|)
  {
  }

  lemma RemovedContents<K>(g: seq<Activation<K>>, a: Activation<K>, h: seq<Activation<K>>)
    requires multiset(g + [a]) == multiset(h) && UniqueKeys(h)
    ensures UniqueKeys(g) && Contents(g) == Contents(h) - {a.key}
  {
    var f := g + [a];
    PermutedContents(f, h);
    LastRemoved(f, g, a);
  }

  lemma LastRemoved<K>(f: seq<Activation<K>>, g: seq<Activation<K>>, a: Activation<K>)
    requires f == g + [a] && UniqueKeys(f)
    ensures UniqueKeys(g) && Contents(g) == Contents(f) - {a.key}
  {
    assert f[|g|] == a;
    forall i, j | 0 <= i < j < |g| ensures g[i].key != g[j].key {
      assert f[i] == g[i] && f[j] == g[j];
    }
    var m := Contents(f) - {a.key};
    forall i | 0 <= i < |g| ensures g[i].key in m && m[g[i].key] == g[i] {
      assert f[i] == g[i];
    }
    forall k | k in m ensures exists j :: 0 <= j < |g| && g[j].key == k {
      var j := IndexOf(f, k);
      assert g[j].key == k;
    }
    ContentsAre(g, m);
  }

  lemma EarlierChild<K>(h: seq<Activation<K>>, n: nat, i: nat, j: nat)
    requires i < j < n <= |h|
    requires j == (if 2 * i + 2 < n && h[2*i+2].time < h[2*i+1].time then 2 * i + 2 else 2 * i + 1)
    ensures Parent(j) == i
    ensures forall k :: 0 < k < n && Parent(k) == i ==> h[j].time <= h[k].time
  {
  }

  lemma MoveUp<K>(h: seq<Activation<K>>, n: nat, j: nat)
    requires 0 < j < n <= |h| && HeapBut(h, n, j) && NoLaterThanChildren(h, n, j)
    requires h[j].time < h[Parent(j)].time
    ensures
      var s := Swapped(h, Parent(j), j);
      HeapBut(s, n, Parent(j)) && NoLaterThanChildren(s, n, Parent(j))
  {
  }

  lemma MoveDown<K>(h: seq<Activation<K>>, n: nat, i: nat, j: nat)
    requires i < j < n <= |h| && HeapBut(h, n, i) && Parent(j) == i
    requires forall k :: 0 < k < n && Parent(k) == i ==> h[j].time <= h[k].time
    requires h[j].time < h[i].time
    ensures
      var s := Swapped(h, i, j);
      HeapBut(s, n, j) && NoEarlierThanParent(s, j)
  {
  }
}
