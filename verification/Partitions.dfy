/** Which thread processes which datapoint in which batch
    (apps/cyclades/src/DatapointPartitions/DatapointPartitions.h:31-109,
    apps/cyclades/src/Partitioner/CycladesPartitioner.h:68-97). Datapoints are named by their position. */
module Partitions {
  import opened Basics
  import opened Components
  import opened LoadHeap

  /** datapoints_per_thread, batch_indices, and the loads the heap keeps by thread. */
  datatype Parts = Parts(lists: seq<seq<nat>>, marks: seq<seq<nat>>, loads: seq<nat>)

  predicate ValidParts(p: Parts) {
    && 0 < |p.lists| == |p.marks| == |p.loads|
    && (forall t :: 0 <= t < |p.marks| ==> 0 < |p.marks[t]| == |p.marks[0]|)
    && (forall t, i, j :: 0 <= t < |p.marks| && 0 <= i <= j < |p.marks[t]| ==>
           p.marks[t][i] <= p.marks[t][j] <= |p.lists[t]|)
    && (forall t :: 0 <= t < |p.marks| ==> p.loads[t] == |p.lists[t]| - p.marks[t][|p.marks[t]| - 1])
  }

  /** Where a batch ends: at the next mark or, for the last batch, at the end of the list. */
  function EndOf(p: Parts, t: nat, b: nat): nat
    requires ValidParts(p) && t < |p.marks| && b < |p.marks[0]|
  {
    if b == |p.marks[0]| - 1 then |p.lists[t]| else p.marks[t][b + 1]
  }

  /** The datapoints of a thread in a batch. */
  function Slice(p: Parts, t: nat, b: nat): seq<nat>
    requires ValidParts(p) && t < |p.marks| && b < |p.marks[0]|
  {
    p.lists[t][p.marks[t][b]..EndOf(p, t, b)]
  }

  /** The batch being filled. */
  function Current(p: Parts, t: nat): seq<nat>
    requires ValidParts(p) && t < |p.marks|
  {
    Slice(p, t, |p.marks[0]| - 1)
  }

  predicate SameBefore(p: Parts, q: Parts, n: nat) {
    && ValidParts(p) && ValidParts(q) && |p.marks| == |q.marks| && n <= |p.marks[0]| && n <= |q.marks[0]|
    && forall t, b :: 0 <= t < |p.marks| && 0 <= b < n ==> Slice(q, t, b) == Slice(p, t, b)
  }

  predicate Least(loads: seq<nat>, k: nat) {
    k < |loads| && forall t :: 0 <= t < |loads| ==> loads[k] <= loads[t]
  }

  /** A component given to thread k. */
  function Given(p: Parts, k: nat, ds: seq<nat>): Parts
    requires ValidParts(p) && k < |p.marks|
  {
    Parts(p.lists[k := p.lists[k] + ds], p.marks, p.loads[k := p.loads[k] + |ds|])
  }

  /** A new batch begun: every list marked at its end. */
  function Begun(p: Parts): Parts
    requires ValidParts(p)
  {
    Parts(p.lists, seq(|p.marks|, t requires 0 <= t < |p.marks| => p.marks[t] + [|p.lists[t]|]), seq(|p.marks|, _ => 0))
  }

  class DatapointPartitions {
    var p: Parts
    var heap: seq<Load>

    /** thread_load_heap is a heap of all threads with their loads. */
    ghost predicate Heaped()
      reads this
    {
      HeapOf(heap, p.loads)
    }

    constructor (threads: nat)
      requires threads > 0
      ensures ValidParts(p) && |p.marks| == threads && |p.marks[0]| == 1 && Heaped()
      ensures forall t :: 0 <= t < threads ==> Current(p, t) == []
    {
      p := Parts(seq(threads, _ => []), seq(threads, _ => [0]), seq(threads, _ => 0));
      heap := Pairs(seq(threads, _ => 0));
      ClearedHeap(threads);
    }

    method StartNewBatch()
      requires ValidParts(p)
      modifies this
      ensures p == Begun(old(p)) && Heaped()
    {
      var n := |p.marks|;
      var marks := p.marks;
      for t := 0 to n
        invariant |marks| == n
        invariant forall u :: 0 <= u < n ==> marks[u] == if u < t then p.marks[u] + [|p.lists[u]|] else p.marks[u]
      {
        marks := marks[t := marks[t] + [|p.lists[t]|]];
      }
      p := Parts(p.lists, marks, seq(n, _ => 0));
      heap := Pairs(seq(n, _ => 0));
      ClearedHeap(n);
    }

    /** The thread at the front of the heap gets the whole component and is put back with its new load. It is a least
        loaded one; which one among equals depends on the heap. */
    method AddToLeastLoaded(ds: seq<nat>) returns (lightest: nat)
      requires ValidParts(p) && Heaped()
      modifies this
      ensures Least(old(p).loads, lightest) && p == Given(old(p), lightest, ds) && Heaped()
    {
      hide IsHeap, Popped, Pushed, Pairs;
      FrontIsLightest(heap, p.loads);
      Reloaded(heap, p.loads, |ds|);
      lightest := heap[0].thread;
      var weight := heap[0].weight;
      heap := Pushed(Popped(heap), Load(lightest, weight + |ds|));
      p := Parts(p.lists[lightest := p.lists[lightest] + ds], p.marks, p.loads[lightest := weight + |ds|]);
    }

    method NumDatapointsInBatch(thread: nat, batch: nat) returns (n: nat)
      requires ValidParts(p) && thread < |p.marks| && batch < |p.marks[0]|
      ensures n == |Slice(p, thread, batch)|
    {
      if batch == |p.marks[0]| - 1 {
        return |p.lists[thread]| - p.marks[thread][batch];
      }
      return p.marks[thread][batch + 1] - p.marks[thread][batch];
    }

    method GetDatapoint(thread: nat, batch: nat, i: nat) returns (d: nat)
      requires ValidParts(p) && thread < |p.marks| && batch < |p.marks[0]| && i < |Slice(p, thread, batch)|
      ensures d == Slice(p, thread, batch)[i]
    {
      d := p.lists[thread][p.marks[thread][batch] + i];
    }
  }

  /** Beginning a batch leaves all batches so far alone and the new one empty. */
  lemma BegunSlices(p: Parts)
    requires ValidParts(p)
    ensures var q := Begun(p);
            && ValidParts(q) && |q.marks| == |p.marks| && |q.marks[0]| == |p.marks[0]| + 1
            && SameBefore(p, q, |p.marks[0]|)
            && forall t :: 0 <= t < |p.marks| ==> Current(q, t) == []
  {
    var q := Begun(p);
    assert |q.marks[0]| == |p.marks[0]| + 1;
    assert ValidParts(q);
  }

  /** Giving a component to a thread adds it to that thread's current batch and touches nothing else. */
  lemma GivenSlices(p: Parts, k: nat, ds: seq<nat>)
    requires ValidParts(p) && k < |p.marks|
    ensures var q := Given(p, k, ds);
            && ValidParts(q) && |q.marks| == |p.marks| && |q.marks[0]| == |p.marks[0]|
            && SameBefore(p, q, |p.marks[0]| - 1)
            && forall t :: 0 <= t < |p.marks| ==> Current(q, t) == if t == k then Current(p, t) + ds else Current(p, t)
  {
    var q := Given(p, k, ds);
    assert ValidParts(q);
    forall t, b | 0 <= t < |p.marks| && 0 <= b < |p.marks[0]| - 1 ensures Slice(q, t, b) == Slice(p, t, b) {
      assert EndOf(q, t, b) == EndOf(p, t, b) <= |p.lists[t]|;
    }
  }

  // One batch.

  predicate NoRepeats(s: seq<nat>) {
    forall i, j :: 0 <= i < j < |s| ==> s[i] != s[j]
  }

  /** A list holds exactly the batch's datapoints whose component belongs to thread t, each once. */
  ghost predicate Has(cur: seq<nat>, mark: seq<nat>, start: nat, own: map<nat, nat>, t: nat) {
    NoRepeats(cur) && forall d: nat :: d in cur <==> Belongs(mark, start, own, t, d)
  }

  ghost predicate Belongs(mark: seq<nat>, start: nat, own: map<nat, nat>, t: nat, d: nat) {
    start <= d < start + |mark| && mark[d - start] in own && own[mark[d - start]] == t
  }

  ghost predicate Filled(p: Parts, mark: seq<nat>, start: nat, own: map<nat, nat>) {
    && ValidParts(p)
    && (forall r :: r in own ==> own[r] < |p.marks|)
    && forall t :: 0 <= t < |p.marks| ==> Has(Current(p, t), mark, start, own, t)
  }

  ghost predicate Balanced(p: Parts, most: nat)
    requires ValidParts(p)
  {
    forall t, u :: 0 <= t < |p.loads| && 0 <= u < |p.loads| ==> p.loads[t] <= p.loads[u] + most
  }

  function Shifted(ms: seq<nat>, start: nat): (r: seq<nat>)
    ensures |r| == |ms| && forall i :: 0 <= i < |r| ==> r[i] == start + ms[i]
  {
    seq(|ms|, i requires 0 <= i < |ms| => start + ms[i])
  }

  predicate InGroup(mark: seq<nat>, start: nat, r: nat, d: nat) {
    start <= d < start + |mark| && mark[d - start] == r
  }

  lemma ShiftedMembers(mark: seq<nat>, r: nat, start: nat)
    ensures var ds := Shifted(Members(mark, r, |mark|), start);
            NoRepeats(ds) && forall d: nat :: d in ds <==> InGroup(mark, start, r, d)
  {
    MembersAre(mark, r, |mark|);
    var ms := Members(mark, r, |mark|);
    var ds := Shifted(ms, start);
    forall d | d in ds ensures start <= d < start + |mark| && mark[d - start] == r {
      var i :| 0 <= i < |ds| && ds[i] == d;
      assert ms[i] in ms;
    }
    forall d | start <= d < start + |mark| && mark[d - start] == r ensures d in ds {
      assert d - start in ms;
      var i :| 0 <= i < |ms| && ms[i] == d - start;
      assert ds[i] == d;
    }
  }

  lemma HasNext(cur: seq<nat>, mark: seq<nat>, start: nat, own: map<nat, nat>, t: nat, r: nat, k: nat)
    requires Has(cur, mark, start, own, t) && r !in own
    ensures Has(if t == k then cur + Shifted(Members(mark, r, |mark|), start) else cur, mark, start, own[r := k], t)
  {
    var ds := Shifted(Members(mark, r, |mark|), start);
    ShiftedMembers(mark, r, start);
    hide Members, Shifted, NoRepeats, Belongs;
    forall d: nat ensures Belongs(mark, start, own[r := k], t, d) <==>
          Belongs(mark, start, own, t, d) || (t == k && d in ds) {
      BelongsNext(mark, start, own, t, r, k, d);
    }
    if t == k {
      assert forall d :: d in cur + ds <==> d in cur || d in ds;
      forall d | d in cur ensures d !in ds {
        BelongsNext(mark, start, own, t, r, k, d);
      }
      NoRepeatsAppend(cur, ds);
    }
  }

  lemma BelongsNext(mark: seq<nat>, start: nat, own: map<nat, nat>, t: nat, r: nat, k: nat, d: nat)
    requires r !in own
    ensures Belongs(mark, start, own[r := k], t, d) <==>
          Belongs(mark, start, own, t, d) || (t == k && InGroup(mark, start, r, d))
    ensures Belongs(mark, start, own, t, d) ==> !InGroup(mark, start, r, d)
  {
  }

  lemma NoRepeatsAppend(a: seq<nat>, b: seq<nat>)
    requires NoRepeats(a) && NoRepeats(b) && forall d :: d in a ==> d !in b
    ensures NoRepeats(a + b)
  {
    var next := a + b;
    forall i, j | 0 <= i < j < |next| ensures next[i] != next[j] {
      assert i < |a| ==> next[i] in a;
      assert j >= |a| ==> next[j] in b;
    }
  }

  /** No component is larger than this. */
  predicate Bounds(comps: map<nat, seq<nat>>, most: nat) {
    forall r :: r in comps ==> |comps[r]| <= most
  }

  lemma Unfilled(p: Parts, mark: seq<nat>, start: nat)
    requires ValidParts(p) && forall t :: 0 <= t < |p.marks| ==> Current(p, t) == []
    ensures Filled(p, mark, start, map[]) && forall most: nat :: Balanced(p, most)
  {
    forall t | 0 <= t < |p.loads| ensures p.loads[t] == 0 {
      assert |Current(p, t)| == p.loads[t];
    }
  }

  lemma FilledNext(p: Parts, mark: seq<nat>, start: nat, own: map<nat, nat>, r: nat, k: nat)
    requires Filled(p, mark, start, own) && k < |p.marks| && r !in own
    ensures Filled(Given(p, k, Shifted(Members(mark, r, |mark|), start)), mark, start, own[r := k])
  {
    hide Slice, EndOf, SameBefore, Members, Has, Shifted, Given, Current, ValidParts;
    var ds := Shifted(Members(mark, r, |mark|), start);
    var q := Given(p, k, ds);
    GivenSlices(p, k, ds);
    forall t | 0 <= t < |q.marks| ensures Has(Current(q, t), mark, start, own[r := k], t) {
      HasNext(Current(p, t), mark, start, own, t, r, k);
    }
  }

  lemma BalancedNext(p: Parts, ds: seq<nat>, k: nat, most: nat)
    requires ValidParts(p) && Balanced(p, most) && Least(p.loads, k) && |ds| <= most
    ensures ValidParts(Given(p, k, ds)) && Balanced(Given(p, k, ds), most)
  {
    GivenSlices(p, k, ds);
  }

  lemma BalancedStep(p: Parts, comps: map<nat, seq<nat>>, r: nat, start: nat, k: nat)
    requires ValidParts(p) && Least(p.loads, k) && r in comps
    requires forall most :: Bounds(comps, most) ==> Balanced(p, most)
    ensures ValidParts(Given(p, k, Shifted(comps[r], start)))
    ensures forall most :: Bounds(comps, most) ==> Balanced(Given(p, k, Shifted(comps[r], start)), most)
  {
    GivenSlices(p, k, Shifted(comps[r], start));
    forall most | Bounds(comps, most) ensures Balanced(Given(p, k, Shifted(comps[r], start)), most) {
      BalancedNext(p, Shifted(comps[r], start), k, most);
    }
  }

  /** In a batch no thread has more datapoints than another and one component. */
  ghost predicate Even(p: Parts, b: nat, most: nat) {
    && ValidParts(p) && b < |p.marks[0]|
    && forall t, u :: 0 <= t < |p.marks| && 0 <= u < |p.marks| ==> |Slice(p, t, b)| <= |Slice(p, u, b)| + most
  }

  lemma BalancedEven(p: Parts, most: nat)
    requires ValidParts(p) && Balanced(p, most)
    ensures Even(p, |p.marks[0]| - 1, most)
  {
    assert forall t :: 0 <= t < |p.marks| ==> |Current(p, t)| == p.loads[t];
  }

  /** The components of a batch go to the threads, in whatever order the hash map yields them. Afterwards the
      loads of two threads differ by no more than the largest component. */
  method AssignBatch(dp: DatapointPartitions, comps: map<nat, seq<nat>>, start: nat, ghost mark: seq<nat>)
    returns (ghost own: map<nat, nat>)
    requires ValidParts(dp.p) && Grouped(comps, mark, |mark|) && dp.Heaped()
    requires forall t :: 0 <= t < |dp.p.marks| ==> Current(dp.p, t) == []
    modifies dp
    ensures Filled(dp.p, mark, start, own) && forall r :: r in own <==> r in comps
    ensures forall most :: Bounds(comps, most) ==> Balanced(dp.p, most)
    ensures |dp.p.marks| == |old(dp.p).marks| && |dp.p.marks[0]| == |old(dp.p).marks[0]|
    ensures SameBefore(old(dp.p), dp.p, |dp.p.marks[0]| - 1) && dp.Heaped()
  {
    hide HeapOf, Assigned, Given, ValidParts, Least, Filled, Balanced, SameBefore, Grouped, Current;
    own := map[];
    var left := comps.Keys;
    AssignedNone(dp.p, comps, mark, start);
    while left != {}
      invariant forall x :: (x in own <==> x in comps && x !in left) && (x in left ==> x in comps)
      invariant Assigned(old(dp.p), dp.p, comps, mark, start, own) && ValidParts(dp.p) && dp.Heaped()
      decreases |left|
    {
      var r :| r in left;
      ghost var q := dp.p;
      var k := dp.AddToLeastLoaded(Shifted(comps[r], start));
      AssignedNext(old(dp.p), q, comps, mark, start, own, r, k);
      own := own[r := k];
      left := left - {r};
    }
    AssignedMeans(old(dp.p), dp.p, comps, mark, start, own);
  }

  /** Some of the components have been assigned. */
  ghost predicate Assigned(was: Parts, p: Parts, comps: map<nat, seq<nat>>, mark: seq<nat>, start: nat,
                           own: map<nat, nat>) {
    && Filled(p, mark, start, own) && (forall most :: Bounds(comps, most) ==> Balanced(p, most))
    && ValidParts(was) && |p.marks| == |was.marks| && |p.marks[0]| == |was.marks[0]|
    && SameBefore(was, p, |p.marks[0]| - 1)
  }

  lemma AssignedNone(p: Parts, comps: map<nat, seq<nat>>, mark: seq<nat>, start: nat)
    requires ValidParts(p) && forall t :: 0 <= t < |p.marks| ==> Current(p, t) == []
    ensures Assigned(p, p, comps, mark, start, map[])
  {
    Unfilled(p, mark, start);
  }

  lemma AssignedMeans(was: Parts, p: Parts, comps: map<nat, seq<nat>>, mark: seq<nat>, start: nat, own: map<nat, nat>)
    requires Assigned(was, p, comps, mark, start, own)
    ensures Filled(p, mark, start, own) && ValidParts(p) && (forall most :: Bounds(comps, most) ==> Balanced(p, most))
    ensures ValidParts(was) && |p.marks| == |was.marks| && |p.marks[0]| == |was.marks[0]|
    ensures SameBefore(was, p, |p.marks[0]| - 1)
  {
  }

  lemma AssignedNext(was: Parts, p: Parts, comps: map<nat, seq<nat>>, mark: seq<nat>, start: nat, own: map<nat, nat>,
                     r: nat, k: nat)
    requires Assigned(was, p, comps, mark, start, own) && Grouped(comps, mark, |mark|) && r in comps && r !in own
    requires Least(p.loads, k)
    ensures ValidParts(p) && k < |p.marks|
    ensures var q := Given(p, k, Shifted(comps[r], start));
            ValidParts(q) && Assigned(was, q, comps, mark, start, own[r := k])
  {
    var ds := Shifted(comps[r], start);
    FilledNext(p, mark, start, own, r, k);
    BalancedStep(p, comps, r, start, k);
    GivenSlices(p, k, ds);
    hide SameBefore, Filled, Bounds, Balanced;
    SameTrans(was, p, Given(p, k, ds), |p.marks[0]| - 1);
  }

  lemma SameTrans(p: Parts, q: Parts, r: Parts, n: nat)
    requires SameBefore(p, q, n) && SameBefore(q, r, n)
    ensures SameBefore(p, r, n)
  {
  }

  // All batches.

  /** First datapoint of a batch, or the number of datapoints if there is none. */
  function StartOf(b: nat, size: nat, n: nat): (s: nat)
    ensures s <= n
  {
    if b * size < n then b * size else n
  }

  function Cut(coords: Batch, b: nat, size: nat): (r: Batch)
    requires StartOf(b, size, |coords|) <= StartOf(b + 1, size, |coords|)
  {
    coords[StartOf(b, size, |coords|)..StartOf(b + 1, size, |coords|)]
  }

  lemma StartsGrow(b: nat, size: nat, n: nat)
    ensures StartOf(b, size, n) <= StartOf(b + 1, size, n) <= StartOf(b, size, n) + size
    ensures b * size < n ==>
          StartOf(b, size, n) == b * size &&
              StartOf(b + 1, size, n) == if b * size + size < n then b * size + size else n
  {
    assert (b + 1) * size == b * size + size;
  }

  /** Batch b of the partition holds exactly datapoints lo..hi-1, each once, at its owner. */
  ghost predicate BatchDone(p: Parts, b: nat, lo: nat, hi: nat, owner: seq<nat>) {
    && ValidParts(p) && b < |p.marks[0]| && hi <= |owner|
    && forall t :: 0 <= t < |p.marks| ==> OwnSlice(Slice(p, t, b), lo, hi, owner, t)
  }

  ghost predicate OwnSlice(cur: seq<nat>, lo: nat, hi: nat, owner: seq<nat>, t: nat)
    requires hi <= |owner|
  {
    NoRepeats(cur) && forall d :: d in cur <==> lo <= d < hi && owner[d] == t
  }

  /** Datapoints of the same batch at different owners share no coordinate. */
  ghost predicate Apart(coords: Batch, lo: nat, hi: nat, owner: seq<nat>)
    requires hi <= |owner| && hi <= |coords|
  {
    forall d, e :: lo <= d < hi && lo <= e < hi && owner[d] != owner[e] ==> !Shares(coords, d, e)
  }

  /** What ComputeCC yields for batch b. */
  ghost predicate Component(coords: Batch, comps: map<nat, seq<nat>>, mark: seq<nat>) {
    && |mark| == |coords| && Grouped(comps, mark, |mark|)
    && forall a, b :: 0 <= a < |coords| && 0 <= b < |coords| ==> (mark[a] == mark[b] <==> Connected(coords, a, b))
  }

  lemma SharedConnected(coords: Batch, a: nat, b: nat)
    requires Shares(coords, a, b)
    ensures Connected(coords, a, b)
  {
    assert Chain(coords, [a, b]);
  }

  function Owners(mark: seq<nat>, own: map<nat, nat>): (r: seq<nat>)
    requires forall i :: 0 <= i < |mark| ==> mark[i] in own
    ensures |r| == |mark| && forall i :: 0 <= i < |mark| ==> r[i] == own[mark[i]]
  {
    seq(|mark|, i requires 0 <= i < |mark| => own[mark[i]])
  }

  lemma BatchApart(coords: Batch, lo: nat, hi: nat, comps: map<nat, seq<nat>>, mark: seq<nat>, own: map<nat, nat>,
                   owner: seq<nat>)
    requires lo <= hi <= |coords| && |owner| == lo && Component(coords[lo..hi], comps, mark)
    requires forall i :: 0 <= i < |mark| ==> mark[i] in own
    ensures Apart(coords, lo, hi, owner + Owners(mark, own))
  {
    hide Grouped, Connected, Shares, Owners;
    var next := owner + Owners(mark, own);
    forall d, e | lo <= d < hi && lo <= e < hi && next[d] != next[e] ensures !Shares(coords, d, e) {
      assert next[d] == own[mark[d - lo]] && next[e] == own[mark[e - lo]];
      if Shares(coords, d, e) {
        SharesCut(coords, lo, hi, d, e);
        SharedConnected(coords[lo..hi], d - lo, e - lo);
      }
    }
  }

  lemma SharesCut(coords: Batch, lo: nat, hi: nat, d: nat, e: nat)
    requires lo <= d < hi <= |coords| && lo <= e < hi && Shares(coords, d, e)
    ensures Shares(coords[lo..hi], d - lo, e - lo)
  {
    var c :| c in coords[d] && c in coords[e];
    assert c in coords[lo..hi][d - lo] && c in coords[lo..hi][e - lo];
  }

  lemma BatchOwned(p: Parts, mark: seq<nat>, own: map<nat, nat>, owner: seq<nat>)
    requires Filled(p, mark, |owner|, own) && forall i :: 0 <= i < |mark| ==> mark[i] in own
    ensures BatchDone(p, |p.marks[0]| - 1, |owner|, |owner| + |mark|, owner + Owners(mark, own))
  {
    var next, b := owner + Owners(mark, own), |p.marks[0]| - 1;
    forall t | 0 <= t < |p.marks| ensures OwnSlice(Slice(p, t, b), |owner|, |owner| + |mark|, next, t) {
      assert Has(Current(p, t), mark, |owner|, own, t);
    }
  }

  lemma BatchStays(p: Parts, q: Parts, b: nat, lo: nat, hi: nat, owner: seq<nat>, next: seq<nat>)
    requires BatchDone(p, b, lo, hi, owner) && SameBefore(p, q, b + 1) && owner <= next
    ensures BatchDone(q, b, lo, hi, next)
  {
    forall t | 0 <= t < |q.marks| ensures OwnSlice(Slice(q, t, b), lo, hi, next, t) {
      assert OwnSlice(Slice(p, t, b), lo, hi, owner, t);
    }
  }

  lemma ApartStays(coords: Batch, lo: nat, hi: nat, owner: seq<nat>, next: seq<nat>)
    requires hi <= |owner| && hi <= |coords| && Apart(coords, lo, hi, owner) && owner <= next
    ensures Apart(coords, lo, hi, next)
  {
  }

  /** ComputeCC for every batch; the source keeps all results before it assigns any. */
  method AllComponents(coords: Batch, size: nat, model: nat, total: nat)
    returns (comps: seq<map<nat, seq<nat>>>, ghost marks: seq<seq<nat>>)
    requires forall i, c :: 0 <= i < |coords| && c in coords[i] ==> c < model
    ensures |comps| == |marks| == total
    ensures forall b :: 0 <= b < total ==> BatchComponent(coords, size, b, comps[b], marks[b])
  {
    hide Component, StartOf, Connected, Grouped, SplitInto;
    comps, marks := [], [];
    for b := 0 to total
      invariant |comps| == |marks| == b
      invariant forall k :: 0 <= k < b ==> BatchComponent(coords, size, k, comps[k], marks[k])
    {
      StartsGrow(b, size, |coords|);
      var part := Cut(coords, b, size);
      ghost var mark;
      var comp;
      forall i, c | 0 <= i < |part| && c in part[i] ensures c < model {
        assert part[i] == coords[StartOf(b, size, |coords|) + i];
      }
      comp, mark := ComputeCC(part, size, model);
      KnownComponent(part, comp, mark);
      comps, marks := comps + [comp], marks + [mark];
    }
  }

  lemma KnownComponent(coords: Batch, comps: map<nat, seq<nat>>, mark: seq<nat>)
    requires |mark| == |coords| && Grouped(comps, mark, |coords|)
    requires forall a, b :: 0 <= a < |coords| && 0 <= b < |coords| ==> (mark[a] == mark[b] <==> Connected(coords, a, b))
    ensures Component(coords, comps, mark)
  {
  }

  ghost predicate BatchComponent(coords: Batch, size: nat, b: nat, comps: map<nat, seq<nat>>, mark: seq<nat>) {
    && StartOf(b, size, |coords|) <= StartOf(b + 1, size, |coords|) && Component(Cut(coords, b, size), comps, mark)
    && SplitInto(Cut(coords, b, size), comps)
  }

  /** No connected component of these datapoints has more than `most` of them. */
  ghost predicate ComponentsAtMost(coords: Batch, most: nat) {
    forall ds :: IsComponent(coords, ds) ==> |ds| <= most
  }

  /** The lists are the connected components of batch b. */
  ghost predicate Splits(coords: Batch, size: nat, b: nat, comps: map<nat, seq<nat>>) {
    StartOf(b, size, |coords|) <= StartOf(b + 1, size, |coords|) && SplitInto(Cut(coords, b, size), comps)
  }

  /** Batch b is shared out evenly, up to one connected component. */
  ghost predicate SharedOut(coords: Batch, size: nat, p: Parts, b: nat) {
    && StartOf(b, size, |coords|) <= StartOf(b + 1, size, |coords|)
    && forall most :: ComponentsAtMost(Cut(coords, b, size), most) ==> Even(p, b, most)
  }

  lemma EvenShared(coords: Batch, size: nat, p: Parts, b: nat, comps: map<nat, seq<nat>>)
    requires Splits(coords, size, b, comps) && forall most :: Bounds(comps, most) ==> Even(p, b, most)
    ensures SharedOut(coords, size, p, b)
  {
    hide IsComponent, Even;
    forall most | ComponentsAtMost(Cut(coords, b, size), most) ensures Even(p, b, most) {
      assert Bounds(comps, most);
    }
  }

  ghost predicate Done(coords: Batch, size: nat, p: Parts, owner: seq<nat>, b: nat) {
    && StartOf(b + 1, size, |coords|) <= |owner|
    && BatchDone(p, b, StartOf(b, size, |coords|), StartOf(b + 1, size, |coords|), owner)
    && Apart(coords, StartOf(b, size, |coords|), StartOf(b + 1, size, |coords|), owner)
  }

  /** Assigning batch b, then beginning the next. */
  method FillBatch(dp: DatapointPartitions, coords: Batch, size: nat, b: nat, comps: map<nat, seq<nat>>,
                   ghost mark: seq<nat>, ghost owner: seq<nat>)
    returns (ghost next: seq<nat>)
    requires dp.Heaped() && ValidParts(dp.p) && |dp.p.marks[0]| == b + 1
    requires (forall t :: 0 <= t < |dp.p.marks| ==> Current(dp.p, t) == [])
    requires BatchComponent(coords, size, b, comps, mark) && |owner| == StartOf(b, size, |coords|)
    modifies dp
    ensures ValidParts(dp.p) && |dp.p.marks| == |old(dp.p).marks| && |dp.p.marks[0]| == b + 2 && dp.Heaped()
    ensures forall t :: 0 <= t < |dp.p.marks| ==> Current(dp.p, t) == []
    ensures SameBefore(old(dp.p), dp.p, b) && owner <= next && |next| == StartOf(b + 1, size, |coords|)
    ensures Done(coords, size, dp.p, next, b)
    ensures forall most :: Bounds(comps, most) ==> Even(dp.p, b, most)
  {
    hide Slice, EndOf, Has, StartOf, Connected, Members, NoRepeats;
    var lo, hi := StartOf(b, size, |coords|), StartOf(b + 1, size, |coords|);
    ghost var own := AssignBatch(dp, comps, lo, mark);
    OwnedMarks(comps, mark, own);
    next := owner + Owners(mark, own);
    BatchApart(coords, lo, hi, comps, mark, own, owner);
    BatchOwned(dp.p, mark, own, owner);
    ghost var q := dp.p;
    BegunSlices(q);
    dp.StartNewBatch();
    forall most | Bounds(comps, most) ensures Even(dp.p, b, most) {
      BalancedEven(q, most);
      EvenStays(q, dp.p, b, most);
    }
    BatchStays(q, dp.p, b, lo, hi, next, next);
    SameTrans(old(dp.p), q, dp.p, b);
  }

  lemma OwnedMarks(comps: map<nat, seq<nat>>, mark: seq<nat>, own: map<nat, nat>)
    requires Grouped(comps, mark, |mark|) && forall r :: r in own <==> r in comps
    ensures forall i :: 0 <= i < |mark| ==> mark[i] in own
  {
  }

  lemma EvenStays(p: Parts, q: Parts, b: nat, most: nat)
    requires Even(p, b, most) && SameBefore(p, q, b + 1)
    ensures Even(q, b, most)
  {
    assert forall t :: 0 <= t < |q.marks| ==> Slice(q, t, b) == Slice(p, t, b);
  }

  lemma DoneStays(coords: Batch, size: nat, p: Parts, q: Parts, owner: seq<nat>, next: seq<nat>, b: nat)
    requires Done(coords, size, p, owner, b) && SameBefore(p, q, b + 1) && owner <= next
    ensures Done(coords, size, q, next, b)
  {
    var lo, hi := StartOf(b, size, |coords|), StartOf(b + 1, size, |coords|);
    BatchStays(p, q, b, lo, hi, owner, next);
    ApartStays(coords, lo, hi, owner, next);
  }

  lemma SameFewer(p: Parts, q: Parts, n: nat, m: nat)
    requires SameBefore(p, q, n) && m <= n
    ensures SameBefore(p, q, m)
  {
  }

  /** The loop over batches. */
  method FillAll(dp: DatapointPartitions, coords: Batch, size: nat, comps: seq<map<nat, seq<nat>>>,
                 ghost marks: seq<seq<nat>>)
    returns (ghost owner: seq<nat>)
    requires dp.Heaped() && ValidParts(dp.p) && |dp.p.marks[0]| == 1
    requires (forall t :: 0 <= t < |dp.p.marks| ==> Current(dp.p, t) == [])
    requires |marks| == |comps| && forall b :: 0 <= b < |comps| ==> BatchComponent(coords, size, b, comps[b], marks[b])
    modifies dp
    ensures ValidParts(dp.p) && |dp.p.marks| == |old(dp.p).marks| && |dp.p.marks[0]| == |comps| + 1
    ensures forall t :: 0 <= t < |dp.p.marks| ==> Current(dp.p, t) == []
    ensures |owner| == StartOf(|comps|, size, |coords|)
    ensures forall b :: 0 <= b < |comps| ==> Done(coords, size, dp.p, owner, b)
    ensures forall b, most :: 0 <= b < |comps| && Bounds(comps[b], most) ==> Even(dp.p, b, most)
  {
    hide Done, Even, BatchComponent, Slice, EndOf, SameBefore;
    owner := [];
    for b := 0 to |comps|
      invariant ValidParts(dp.p) && |dp.p.marks| == |old(dp.p).marks| && |dp.p.marks[0]| == b + 1 && dp.Heaped()
      invariant forall t :: 0 <= t < |dp.p.marks| ==> Current(dp.p, t) == []
      invariant |owner| == StartOf(b, size, |coords|)
      invariant forall k :: 0 <= k < b ==> Done(coords, size, dp.p, owner, k)
      invariant forall k, most :: 0 <= k < b && Bounds(comps[k], most) ==> Even(dp.p, k, most)
    {
      ghost var q, next := dp.p, owner;
      next := FillBatch(dp, coords, size, b, comps[b], marks[b], owner);
      forall k | 0 <= k < b
        ensures Done(coords, size, dp.p, next, k)
        ensures forall most :: Bounds(comps[k], most) ==> Even(dp.p, k, most)
      {
        SameFewer(q, dp.p, b, k + 1);
        DoneStays(coords, size, q, dp.p, owner, next, k);
        forall most | Bounds(comps[k], most) ensures Even(dp.p, k, most) {
          EvenStays(q, dp.p, k, most);
        }
      }
      owner := next;
    }
  }

  /** ceil(n / size) */
  function BatchCount(n: nat, size: nat): (k: nat)
    requires size > 0
    ensures k * size >= n && (k > 0 ==> (k - 1) * size < n)
  {
    assert ((n + size - 1) / size) * size == n + size - 1 - (n + size - 1) % size;
    (n + size - 1) / size
  }

  /** Every datapoint is in exactly one place: batch d / size, at its owner, once. */
  ghost predicate Placed(p: Parts, n: nat, size: nat, owner: seq<nat>)
    requires size > 0 && ValidParts(p) && |owner| == n
  {
    forall t, b :: 0 <= t < |p.marks| && 0 <= b < |p.marks[0]| ==> PlacedIn(Slice(p, t, b), n, size, owner, t, b)
  }

  ghost predicate PlacedIn(cur: seq<nat>, n: nat, size: nat, owner: seq<nat>, t: nat, b: nat)
    requires size > 0 && |owner| == n
  {
    NoRepeats(cur) && forall d :: d in cur <==> 0 <= d < n && d / size == b && owner[d] == t
  }

  lemma InBatch(d: nat, b: nat, size: nat, n: nat)
    requires size > 0
    ensures d < n && d / size == b <==> StartOf(b, size, n) <= d < StartOf(b + 1, size, n)
  {
    var q := d / size;
    DivBounds(d, size);
    MulMono(if q < b then q + 1 else b, if q < b then b else q, size);
    MulMono(if q < b + 1 then q + 1 else b + 1, if q < b + 1 then b + 1 else q, size);
  }

  lemma DivBounds(d: nat, size: nat)
    requires size > 0
    ensures d / size * size <= d < (d / size + 1) * size
  {
  }

  /** No two threads touch the same coordinate in the same batch. */
  ghost predicate ConflictFree(coords: Batch, size: nat, owner: seq<nat>)
    requires size > 0 && |owner| == |coords|
  {
    forall d, e :: 0 <= d < |coords| && 0 <= e < |coords| && d / size == e / size && owner[d] != owner[e] ==>
          !Shares(coords, d, e)
  }

  lemma DonePlaced(coords: Batch, size: nat, p: Parts, owner: seq<nat>, t: nat, b: nat)
    requires size > 0 && |owner| == |coords| && Done(coords, size, p, owner, b) && t < |p.marks|
    ensures PlacedIn(Slice(p, t, b), |coords|, size, owner, t, b)
  {
    var lo, hi := StartOf(b, size, |coords|), StartOf(b + 1, size, |coords|);
    assert OwnSlice(Slice(p, t, b), lo, hi, owner, t);
    hide Slice, StartOf, NoRepeats;
    forall d ensures d in Slice(p, t, b) <==> 0 <= d < |coords| && d / size == b && owner[d] == t {
      if d >= 0 {
        InBatch(d, b, size, |coords|);
      }
    }
  }

  lemma NonePlaced(n: nat, size: nat, owner: seq<nat>, t: nat, b: nat)
    requires size > 0 && |owner| == n && b == BatchCount(n, size)
    ensures PlacedIn([], n, size, owner, t, b)
  {
    forall d | 0 <= d < n ensures d / size != b {
      assert d / size == b ==> d >= b * size;
    }
  }

  lemma DoneApart(coords: Batch, size: nat, p: Parts, owner: seq<nat>, d: nat, e: nat)
    requires size > 0 && |owner| == |coords| && d < |coords| && e < |coords| && d / size == e / size
    requires owner[d] != owner[e]
    requires Done(coords, size, p, owner, d / size)
    ensures !Shares(coords, d, e)
  {
    InBatch(d, d / size, size, |coords|);
    InBatch(e, d / size, size, |coords|);
  }

  /** The partitioner: every datapoint lands in exactly one (thread, batch); no coordinate is touched by two
      threads in the same batch; the last batch is empty; loads are even up to one component. */
  method Partition(coords: Batch, threads: nat, size: nat, model: nat)
    returns (dp: DatapointPartitions, ghost owner: seq<nat>, comps: seq<map<nat, seq<nat>>>)
    requires threads > 0 && size > 0 && forall i, c :: 0 <= i < |coords| && c in coords[i] ==> c < model
    ensures ValidParts(dp.p) && |dp.p.marks| == threads && |dp.p.marks[0]| == BatchCount(|coords|, size) + 1
    ensures |owner| == |coords| && Placed(dp.p, |coords|, size, owner) && ConflictFree(coords, size, owner)
    ensures forall t :: 0 <= t < threads ==> Current(dp.p, t) == []
    ensures |comps| == BatchCount(|coords|, size)
    ensures forall b :: 0 <= b < |comps| ==> Splits(coords, size, b, comps[b]) && SharedOut(coords, size, dp.p, b)
  {
    hide Splits, SharedOut;
    hide Done, Even, BatchComponent, Slice, EndOf, SameBefore, BatchCount, Placed, ConflictFree;
    dp := new DatapointPartitions(threads);
    var total := BatchCount(|coords|, size);
    ghost var marks;
    comps, marks := AllComponents(coords, size, model, total);
    owner := FillAll(dp, coords, size, comps, marks);
    assert |owner| == |coords|;
    forall b | 0 <= b < |comps| ensures Splits(coords, size, b, comps[b]) && SharedOut(coords, size, dp.p, b) {
      ComponentSplits(coords, size, b, comps[b], marks[b]);
      EvenShared(coords, size, dp.p, b, comps[b]);
    }
    AllPlaced(coords, size, dp.p, owner);
    AllApart(coords, size, dp.p, owner);
  }

  lemma AllPlaced(coords: Batch, size: nat, p: Parts, owner: seq<nat>)
    requires size > 0 && |owner| == |coords| && ValidParts(p) && |p.marks[0]| == BatchCount(|coords|, size) + 1
    requires forall b :: 0 <= b < BatchCount(|coords|, size) ==> Done(coords, size, p, owner, b)
    requires forall t :: 0 <= t < |p.marks| ==> Current(p, t) == []
    ensures Placed(p, |coords|, size, owner)
  {
    hide Done, Slice, EndOf, BatchCount, PlacedIn;
    forall t, b | 0 <= t < |p.marks| && 0 <= b < |p.marks[0]|
      ensures PlacedIn(Slice(p, t, b), |coords|, size, owner, t, b)
    {
      if b < BatchCount(|coords|, size) {
        DonePlaced(coords, size, p, owner, t, b);
      } else {
        NonePlaced(|coords|, size, owner, t, b);
        assert Current(p, t) == Slice(p, t, b);
      }
    }
  }

  lemma AllApart(coords: Batch, size: nat, p: Parts, owner: seq<nat>)
    requires size > 0 && |owner| == |coords|
    requires forall b :: 0 <= b < BatchCount(|coords|, size) ==> Done(coords, size, p, owner, b)
    ensures ConflictFree(coords, size, owner)
  {
    hide Done, BatchCount, Shares;
    forall d, e | 0 <= d < |coords| && 0 <= e < |coords| && d / size == e / size && owner[d] != owner[e]
      ensures !Shares(coords, d, e)
    {
      BatchBelow(d, |coords|, size);
      DoneApart(coords, size, p, owner, d, e);
    }
  }

  lemma ComponentSplits(coords: Batch, size: nat, b: nat, comps: map<nat, seq<nat>>, mark: seq<nat>)
    requires BatchComponent(coords, size, b, comps, mark)
    ensures Splits(coords, size, b, comps)
  {
  }

  lemma BatchBelow(d: nat, n: nat, size: nat)
    requires size > 0 && d < n
    ensures d / size < BatchCount(n, size)
  {
    var k := BatchCount(n, size);
    DivBounds(d, size);
    if k <= d / size {
      MulMono(k, d / size, size);
    }
  }
}
