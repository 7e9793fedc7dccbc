/** The heap of thread loads (apps/cyclades/src/DatapointPartitions/DatapointPartitions.h:26-29, 67-86): the lightest
    thread is at the front. Popping and pushing are those of a binary heap. */
module LoadHeap {

  datatype Load = Load(thread: nat, weight: nat)

  function Parent(i: nat): (p: nat)
    requires i > 0
    ensures p < i && (i == 2 * p + 1 || i == 2 * p + 2)
  {
    (i - 1) / 2
  }

  /** No entry is lighter than its parent. */
  predicate IsHeap(h: seq<Load>) {
    forall i :: 0 < i < |h| ==> h[Parent(i)].weight <= h[i].weight
  }

  /** So the front is least. */
  lemma {:induction false} FrontLeast(h: seq<Load>, i: nat)
    requires IsHeap(h) && i < |h|
    ensures h[0].weight <= h[i].weight
  {
    if i > 0 {
      FrontLeast(h, Parent(i));
    }
  }

  function Swap(h: seq<Load>, i: nat, j: nat): (r: seq<Load>)
    requires i < |h| && j < |h|
    ensures |r| == |h| && multiset(r) == multiset(h)
  {
    h[i := h[j]][j := h[i]]
  }

  // Upwards.

  /** A heap but for entry i, which may be too light for its place. */
  predicate LightAt(h: seq<Load>, i: nat) {
    && i < |h| && (forall j :: 0 < j < |h| && j != i ==> h[Parent(j)].weight <= h[j].weight)
    && (forall j :: 0 < j < |h| && Parent(j) == i && i > 0 ==> h[Parent(i)].weight <= h[j].weight)
  }

  function SiftUp(h: seq<Load>, i: nat): (r: seq<Load>)
    requires i < |h|
    ensures |r| == |h| && multiset(r) == multiset(h)
    decreases i
  {
    if i > 0 && h[i].weight < h[Parent(i)].weight then SiftUp(Swap(h, i, Parent(i)), Parent(i)) else h
  }

  lemma {:induction false} SiftUpHeap(h: seq<Load>, i: nat)
    requires LightAt(h, i)
    ensures IsHeap(SiftUp(h, i))
    decreases i
  {
    if i > 0 && h[i].weight < h[Parent(i)].weight {
      LighterUp(h, i);
      SiftUpHeap(Swap(h, i, Parent(i)), Parent(i));
    }
  }

  lemma LighterUp(h: seq<Load>, i: nat)
    requires LightAt(h, i) && i > 0 && h[i].weight < h[Parent(i)].weight
    ensures LightAt(Swap(h, i, Parent(i)), Parent(i))
  {
    var p := Parent(i);
    var r := Swap(h, i, p);
    forall j | 0 < j < |r| && j != p ensures r[Parent(j)].weight <= r[j].weight {
      assert Parent(j) == p && j != i ==> h[p].weight <= h[j].weight;
    }
    forall j | 0 < j < |r| && Parent(j) == p && p > 0 ensures r[Parent(p)].weight <= r[j].weight {
      assert h[Parent(p)].weight <= h[p].weight;
    }
  }

  // Downwards.

  /** A heap but for entry i, which may be too heavy for its place. */
  predicate HeavyAt(h: seq<Load>, i: nat) {
    && (forall j :: 0 < j < |h| && Parent(j) != i ==> h[Parent(j)].weight <= h[j].weight)
    && (forall j :: 0 < j < |h| && Parent(j) == i && 0 < i < |h| ==> h[Parent(i)].weight <= h[j].weight)
  }

  /** The lighter child of i, or i if it has none. */
  function LighterChild(h: seq<Load>, i: nat): (c: nat)
    requires i < |h|
    ensures i <= c < |h| && (c > i ==> Parent(c) == i)
    ensures forall j :: 0 < j < |h| && Parent(j) == i ==> c > i && h[c].weight <= h[j].weight
  {
    var l, r := 2 * i + 1, 2 * i + 2;
    if r < |h| && h[r].weight < h[l].weight then r else if l < |h| then l else i
  }

  function SiftDown(h: seq<Load>, i: nat): (r: seq<Load>)
    requires i < |h|
    ensures |r| == |h| && multiset(r) == multiset(h)
    decreases |h| - i
  {
    var c := LighterChild(h, i);
    if h[c].weight < h[i].weight then SiftDown(Swap(h, i, c), c) else h
  }

  lemma {:induction false} SiftDownHeap(h: seq<Load>, i: nat)
    requires i < |h| && HeavyAt(h, i)
    ensures IsHeap(SiftDown(h, i))
    decreases |h| - i
  {
    var c := LighterChild(h, i);
    if h[c].weight < h[i].weight {
      HeavierDown(h, i, c);
      SiftDownHeap(Swap(h, i, c), c);
    }
  }

  lemma HeavierDown(h: seq<Load>, i: nat, c: nat)
    requires i < |h| && HeavyAt(h, i) && c == LighterChild(h, i) && h[c].weight < h[i].weight
    ensures HeavyAt(Swap(h, i, c), c)
  {
    var r := Swap(h, i, c);
    forall j | 0 < j < |r| && Parent(j) != c ensures r[Parent(j)].weight <= r[j].weight {
      assert j == i ==> h[Parent(i)].weight <= h[c].weight;
    }
    forall j | 0 < j < |r| && Parent(j) == c ensures r[Parent(c)].weight <= r[j].weight {
      assert h[c].weight <= h[j].weight;
    }
  }

  // The library calls.

  /** pop_heap and pop_back: the front goes, the rest is a heap again. */
  function Popped(h: seq<Load>): (r: seq<Load>)
    requires h != []
    ensures |r| == |h| - 1
  {
    var n := |h| - 1;
    if n == 0 then [] else SiftDown([h[n]] + h[1..n], 0)
  }

  lemma PoppedHeap(h: seq<Load>)
    requires IsHeap(h) && h != []
    ensures IsHeap(Popped(h)) && multiset(h) == multiset(Popped(h)) + multiset{h[0]}
  {
    hide SiftDown, IsHeap, HeavyAt;
    var n := |h| - 1;
    MovedItems(h);
    if n > 0 {
      MovedHeavy(h);
      SiftDownHeap([h[n]] + h[1..n], 0);
    } else {
      NoHeap();
    }
  }

  lemma NoHeap()
    ensures IsHeap([])
  {
  }

  lemma MovedItems(h: seq<Load>)
    requires h != []
    ensures var n := |h| - 1;
            multiset(h) == multiset(if n == 0 then [] else [h[n]] + h[1..n]) + multiset{h[0]}
  {
    var n := |h| - 1;
    if n > 0 {
      assert h == [h[0]] + h[1..n] + [h[n]];
    } else {
      assert h == [h[0]];
    }
  }

  lemma MovedHeavy(h: seq<Load>)
    requires IsHeap(h) && |h| > 1
    ensures HeavyAt([h[|h| - 1]] + h[1..|h| - 1], 0)
  {
    var moved := [h[|h| - 1]] + h[1..|h| - 1];
    assert forall j :: 0 < j < |moved| ==> moved[j] == h[j];
  }

  /** push_back and push_heap. */
  function Pushed(h: seq<Load>, x: Load): (r: seq<Load>) {
    SiftUp(h + [x], |h|)
  }

  lemma PushedHeap(h: seq<Load>, x: Load)
    requires IsHeap(h)
    ensures IsHeap(Pushed(h, x)) && multiset(Pushed(h, x)) == multiset(h) + multiset{x}
  {
    var next := h + [x];
    assert forall j :: 0 < j < |next| && j != |h| ==> next[Parent(j)] == h[Parent(j)] && next[j] == h[j];
    SiftUpHeap(next, |h|);
  }

  // The heap and the loads.

  function Pairs(loads: seq<nat>): (ps: seq<Load>)
    ensures |ps| == |loads| && forall t :: 0 <= t < |ps| ==> ps[t] == Load(t, loads[t])
  {
    seq(|loads|, t requires 0 <= t < |loads| => Load(t, loads[t]))
  }

  /** The heap holds every thread once, with its load. */
  ghost predicate HeapOf(h: seq<Load>, loads: seq<nat>) {
    IsHeap(h) && multiset(h) == multiset(Pairs(loads))
  }

  /** ClearThreadLoadHeap: all loads zero, in any order. */
  lemma ClearedHeap(n: nat)
    ensures HeapOf(Pairs(seq(n, _ => 0)), seq(n, _ => 0))
  {
  }

  lemma InHeap(h: seq<Load>, loads: seq<nat>, t: nat) returns (i: nat)
    requires HeapOf(h, loads) && t < |loads|
    ensures i < |h| && h[i] == Load(t, loads[t])
  {
    assert Pairs(loads)[t] in multiset(h);
    i :| 0 <= i < |h| && h[i] == Load(t, loads[t]);
  }

  /** The front is a least loaded thread with its load. */
  lemma FrontIsLightest(h: seq<Load>, loads: seq<nat>)
    requires HeapOf(h, loads) && loads != []
    ensures h != [] && h[0].thread < |loads| && h[0].weight == loads[h[0].thread]
    ensures forall t :: 0 <= t < |loads| ==> h[0].weight <= loads[t]
  {
    var _ := InHeap(h, loads, 0);
    assert h[0] in multiset(Pairs(loads));
    forall t | 0 <= t < |loads| ensures h[0].weight <= loads[t] {
      var i := InHeap(h, loads, t);
      FrontLeast(h, i);
    }
  }

  /** The front taken out and put back with a larger load. */
  lemma Reloaded(h: seq<Load>, loads: seq<nat>, more: nat)
    requires HeapOf(h, loads) && loads != []
    ensures h != [] && h[0].thread < |loads|
    ensures var k := h[0].thread;
            HeapOf(Pushed(Popped(h), Load(k, loads[k] + more)), loads[k := loads[k] + more])
  {
    hide IsHeap, Popped, Pushed;
    FrontIsLightest(h, loads);
    var k := h[0].thread;
    var x := Load(k, loads[k] + more);
    PoppedHeap(h);
    PushedHeap(Popped(h), x);
    assert Pairs(loads[k := loads[k] + more]) == Pairs(loads)[k := x];
    Replaced(Pairs(loads), k, x, multiset(Popped(h)));
  }

  lemma Replaced(ps: seq<Load>, k: nat, x: Load, rest: multiset<Load>)
    requires k < |ps| && multiset(ps) == rest + multiset{ps[k]}
    ensures multiset(ps[k := x]) == rest + multiset{x}
  {
    assert ps == ps[..k] + [ps[k]] + ps[k + 1..];
    assert ps[k := x] == ps[..k] + [x] + ps[k + 1..];
  }
}
