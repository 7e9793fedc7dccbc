/** From the partitioner to a batch of training (apps/cyclades/src/Trainer/CycladesTrainer.h:44-88). */
module Training {
  import opened BatchRun
  import opened Components
  import opened CoordinateMap
  import opened Partitions

  /** A batch of the partition as a setup: each worker has its slice, its coordinate map, and updates that touch only
      blocks of the datapoint's coordinates. */
  ghost predicate SetUpFrom<V>(c: Setup<nat, V>, coords: Batch, p: Parts, b: nat, nc: nat) {
    && ValidParts(p) && b < |p.marks[0]| && |c.els| == |c.work| == |p.marks|
    && (forall t :: 0 <= t < |c.work| ==> c.work[t] == Slice(p, t, b) && Mapped(coords, p, b, t, nc, c.els[t]))
    && (forall d: nat, e :: d < |coords| && e in c.touch(d) ==> exists x :: x in coords[d] && InBlock(x, nc, e))
  }

  /** So the partitioner delivers what serial equivalence needs. */
  lemma PartitionSeparate<V>(c: Setup<nat, V>, coords: Batch, p: Parts, size: nat, owner: seq<nat>, b: nat, nc: nat)
    requires size > 0 && ValidParts(p) && |owner| == |coords| && Placed(p, |coords|, size, owner)
    requires ConflictFree(coords, size, owner)
    requires SetUpFrom(c, coords, p, b, nc)
    ensures Separate(c)
  {
    hide ConflictFree, Slice, InBlock;
    forall t, u, e | 0 <= t < u < |c.els| && e in c.els[t] ensures e !in c.els[u] {
      MapsApart(coords, p, size, owner, b, t, u, nc, c.els[t], c.els[u], e);
    }
    forall t, k, e | 0 <= t < |c.els| && 0 <= k < |c.work[t]| && e in c.touch(c.work[t][k]) ensures e in c.els[t] {
      var d := c.work[t][k];
      assert d in Slice(p, t, b) && PlacedIn(Slice(p, t, b), |coords|, size, owner, t, b);
      var x :| x in coords[d] && InBlock(x, nc, e);
      assert Uses(coords, p, b, t, x);
    }
  }

  /** What training a batch needs to know: the coordinate maps are those of the partition, each worker has its slice,
      and updates touch only blocks of the coordinates of their datapoint. */
  ghost predicate Prepared<V>(c: Setup<nat, V>, coords: Batch, p: Parts, b: nat, nc: nat,
                              cmap: seq<seq<seq<Interval>>>) {
    && ValidParts(p) && b < |p.marks[0]| && b < |cmap| && |c.els| == |c.work| == |p.marks| == |cmap[b]|
    && (forall t :: 0 <= t < |c.work| ==>
          c.work[t] == Slice(p, t, b) && WorkerMapped(coords, p, b, t, nc, cmap[b][t]) &&
              c.els[t] == Elements(cmap[b][t]))
    && (forall d: nat, e :: d < |coords| && e in c.touch(d) ==> exists x :: x in coords[d] && InBlock(x, nc, e))
  }

  /** For every batch of a partition free of conflicts: whatever the interleaving of the workers, when all have finished
      the parent is as after a serial run of the batch, in any order that keeps each worker's own. */
  lemma BatchIsSerial<V(!new)>(c: Setup<nat, V>, coords: Batch, p: Parts, size: nat, owner: seq<nat>, b: nat, nc: nat,
                               cmap: seq<seq<seq<Interval>>>, s: seq<State<V>>, i: nat, order: seq<nat>)
    requires size > 0 && ValidParts(p) && |owner| == |coords| && Placed(p, |coords|, size, owner)
    requires ConflictFree(coords, size, owner)
    requires Prepared(c, coords, p, b, nc, cmap) && Local(c) && Started(c, s) && i < |s|
    requires forall t :: 0 <= t < |s[i].workers| ==> s[i].workers[t].pc == Finished
    requires Possible(c, order) && forall t :: 0 <= t < |c.work| ==> Count(order, t) == |c.work[t]|
    ensures s[i].parent == Serial(c, order, s[0].parent)
  {
    hide Local, Placed, ConflictFree, Possible, Serial, Mapped, Slice;
    PartitionSeparate(c, coords, p, size, owner, b, nc);
    StartedTrace(c, s);
    SerialEquivalence(c, s, i, order);
  }

  /** A run of a batch from the start, nothing being assumed about whose elements are whose. */
  ghost predicate Started<D, V>(c: Setup<D, V>, s: seq<State<V>>) {
    && s != [] && |s[0].workers| == |c.els|
    && (forall t, e :: 0 <= t < |c.els| && e in c.els[t] ==> e < |s[0].parent|)
    && (forall t :: 0 <= t < |s[0].workers| ==>
          s[0].workers[t].pc == CopyIn && s[0].workers[t].pos == 0 && |s[0].workers[t].data| == |s[0].parent|)
    && forall i :: 0 <= i < |s| - 1 ==> AnyStep(c, s[i], s[i + 1])
  }

  lemma StartedTrace<D(!new), V(!new)>(c: Setup<D, V>, s: seq<State<V>>)
    requires Local(c) && Separate(c) && Started(c, s)
    ensures Trace(c, s)
  {
    hide Local, Separate, AnyStep;
  }

  /** The preparations of the trainer deliver what the theorem asks for. */
  method Prepare(coords: Batch, threads: nat, size: nat, model: nat, nc: nat)
    returns (dp: DatapointPartitions, cmap: seq<seq<seq<Interval>>>, ghost owner: seq<nat>)
    requires threads > 0 && size > 0 && forall i, c :: 0 <= i < |coords| && c in coords[i] ==> c < model
    ensures ValidParts(dp.p) && |dp.p.marks| == threads && |dp.p.marks[0]| == BatchCount(|coords|, size) + 1
    ensures |owner| == |coords| && Placed(dp.p, |coords|, size, owner) && ConflictFree(coords, size, owner)
    ensures forall b :: 0 <= b < BatchCount(|coords|, size) ==> SharedOut(coords, size, dp.p, b)
    ensures |cmap| == |dp.p.marks[0]| && forall b :: 0 <= b < |cmap| ==> |cmap[b]| == threads
    ensures forall b, t :: 0 <= b < |cmap| && 0 <= t < |cmap[b]| ==> WorkerMapped(coords, dp.p, b, t, nc, cmap[b][t])
  {
    hide Slice, ConflictFree, BatchCount, WorkerMapped, Even, EndOf, SharedOut, Splits;
    var comps;
    dp, owner, comps := Partition(coords, threads, size, model);
    forall t, b, d | 0 <= t < |dp.p.marks| && 0 <= b < |dp.p.marks[0]| && d in Slice(dp.p, t, b) ensures d < |coords| {
      assert PlacedIn(Slice(dp.p, t, b), |coords|, size, owner, t, b);
    }
    cmap := SetUpWithPartitions(dp, coords, nc);
  }
}
