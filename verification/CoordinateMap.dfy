/** Which elements of the parameter array a worker copies in a batch (apps/cyclades/src/Model/Model.h:51-70,
    include/tasvir/array.hpp:70-80). A coordinate is a block of nc elements. */
module CoordinateMap {
  import opened Basics
  import opened Components
  import opened Partitions

  type Interval = (nat, nat)

  predicate InIntervals(iv: seq<Interval>, e: nat) {
    exists k :: 0 <= k < |iv| && iv[k].0 <= e < iv[k].1
  }

  /** Element e belongs to the block of coordinate c. */
  predicate InBlock(c: nat, nc: nat, e: nat) {
    c * nc <= e < (c + 1) * nc
  }

  predicate Covers(cs: seq<nat>, nc: nat, e: nat) {
    exists i :: 0 <= i < |cs| && InBlock(cs[i], nc, e)
  }

  predicate Ascending(cs: seq<nat>) {
    forall i, j :: 0 <= i < j < |cs| ==> cs[i] < cs[j]
  }

  /** Intervals in order with gaps between them: nothing left to merge. */
  predicate Separated(iv: seq<Interval>) {
    && (forall k :: 0 <= k < |iv| ==> iv[k].0 <= iv[k].1)
    && (forall k :: 0 <= k < |iv| - 1 ==> iv[k].1 < iv[k + 1].0)
  }

  /** What one coordinate more does to the list. */
  function Extended(iv: seq<Interval>, lo: nat, hi: nat): seq<Interval> {
    if |iv| > 0 && iv[|iv| - 1].1 == lo then iv[|iv| - 1 := (iv[|iv| - 1].0, hi)] else iv + [(lo, hi)]
  }

  lemma ExtendedCovers(iv: seq<Interval>, lo: nat, hi: nat, e: nat)
    requires Separated(iv) && lo <= hi
    ensures InIntervals(Extended(iv, lo, hi), e) <==> InIntervals(iv, e) || lo <= e < hi
  {
    var next, n := Extended(iv, lo, hi), |iv|;
    if InIntervals(iv, e) {
      var k :| 0 <= k < n && iv[k].0 <= e < iv[k].1;
      assert next[k].0 <= e < next[k].1;
    }
    if lo <= e < hi {
      assert next[|next| - 1].0 <= e < next[|next| - 1].1;
    }
    if InIntervals(next, e) && !(lo <= e < hi) {
      var k :| 0 <= k < |next| && next[k].0 <= e < next[k].1;
      assert iv[k].0 <= e < iv[k].1;
    }
  }

  /** The intervals hold exactly the elements of the coordinates. */
  ghost predicate Exact(iv: seq<Interval>, cs: seq<nat>, nc: nat) {
    Separated(iv) && forall e: nat :: InIntervals(iv, e) <==> Covers(cs, nc, e)
  }

  lemma ExactNext(iv: seq<Interval>, cs: seq<nat>, i: nat, nc: nat)
    requires Ascending(cs) && i < |cs| && Exact(iv, cs[..i], nc)
    requires iv != [] ==> iv[|iv| - 1].1 <= cs[i] * nc
    ensures Exact(Extended(iv, cs[i] * nc, (cs[i] + 1) * nc), cs[..i + 1], nc)
  {
    var lo, hi := cs[i] * nc, (cs[i] + 1) * nc;
    MulMono(cs[i], cs[i] + 1, nc);
    assert Separated(Extended(iv, lo, hi));
    hide Covers, InIntervals, Extended;
    forall e: nat ensures InIntervals(Extended(iv, lo, hi), e) <==> Covers(cs[..i + 1], nc, e) {
      ExtendedCovers(iv, lo, hi, e);
      CoversSnoc(cs, i, nc, e);
    }
  }

  /** The merging loop of SetUpWithPartitions over the coordinates of a worker in a batch, in ascending order. */
  method BuildIntervals(cs: seq<nat>, nc: nat) returns (iv: seq<Interval>)
    requires Ascending(cs)
    ensures Exact(iv, cs, nc)
  {
    hide Exact;
    iv := [];
    NoneExact(cs, nc);
    for i := 0 to |cs|
      invariant Exact(iv, cs[..i], nc)
      invariant if i == 0 then iv == [] else iv != [] && iv[|iv| - 1].1 == (cs[i - 1] + 1) * nc
    {
      if i > 0 {
        MulMono(cs[i - 1] + 1, cs[i], nc);
      }
      ExactNext(iv, cs, i, nc);
      if |iv| > 0 && iv[|iv| - 1].1 == cs[i] * nc {
        iv := iv[|iv| - 1 := (iv[|iv| - 1].0, (cs[i] + 1) * nc)];
      } else {
        iv := iv + [(cs[i] * nc, (cs[i] + 1) * nc)];
      }
    }
    assert cs[..|cs|] == cs;
  }

  lemma NoneExact(cs: seq<nat>, nc: nat)
    ensures Exact([], cs[..0], nc)
  {
  }

  lemma CoversSnoc(cs: seq<nat>, i: nat, nc: nat, e: nat)
    requires i < |cs|
    ensures Covers(cs[..i + 1], nc, e) <==> Covers(cs[..i], nc, e) || InBlock(cs[i], nc, e)
  {
    var a, b := cs[..i], cs[..i + 1];
    if Covers(a, nc, e) {
      var k :| 0 <= k < |a| && InBlock(a[k], nc, e);
      assert b[k] == a[k];
    }
    if InBlock(cs[i], nc, e) {
      assert b[i] == cs[i];
    }
    if Covers(b, nc, e) && !InBlock(cs[i], nc, e) {
      var k :| 0 <= k < |b| && InBlock(b[k], nc, e);
      assert a[k] == b[k];
    }
  }

  /** The elements of the intervals, in the order in which CopySelect and ReduceSelect go through them. */
  function Elements(iv: seq<Interval>): seq<nat>
    requires forall k :: 0 <= k < |iv| ==> iv[k].0 <= iv[k].1
  {
    if iv == [] then [] else seq(iv[0].1 - iv[0].0, i requires 0 <= i => iv[0].0 + i) + Elements(iv[1..])
  }

  lemma {:induction false} ElementsAre(iv: seq<Interval>, e: nat)
    requires forall k :: 0 <= k < |iv| ==> iv[k].0 <= iv[k].1
    ensures e in Elements(iv) <==> InIntervals(iv, e)
    decreases |iv|
  {
    if iv != [] {
      ElementsAre(iv[1..], e);
      var first := seq(iv[0].1 - iv[0].0, i requires 0 <= i => iv[0].0 + i);
      assert iv[0].0 <= e < iv[0].1 ==> first[e - iv[0].0] == e;
      if InIntervals(iv, e) {
        var k :| 0 <= k < |iv| && iv[k].0 <= e < iv[k].1;
        assert k > 0 ==> iv[1..][k - 1] == iv[k];
      }
      if InIntervals(iv[1..], e) {
        var k :| 0 <= k < |iv[1..]| && iv[1..][k].0 <= e < iv[1..][k].1;
        assert iv[k + 1] == iv[1..][k];
      }
    }
  }

  /** CopySelect, and ReduceSelect with the arrays exchanged: exactly the elements of the intervals are copied. For the
      worker that owns the parent both arrays are the same, and nothing changes. */
  method CopySelect<V>(src: array<V>, dst: array<V>, iv: seq<Interval>)
    requires src.Length == dst.Length && forall k :: 0 <= k < |iv| ==> iv[k].0 <= iv[k].1 <= src.Length
    modifies dst
    ensures forall e :: 0 <= e < dst.Length ==> dst[e] == if InIntervals(iv, e) then old(src[e]) else old(dst[e])
    ensures src == dst ==> dst[..] == old(dst[..])
  {
    hide InIntervals;
    NoIntervals(iv);
    for i := 0 to |iv|
      invariant src != dst ==> src[..] == old(src[..])
      invariant forall e :: 0 <= e < dst.Length ==>
            dst[e] == if InIntervals(iv[..i], e) then old(src[e]) else old(dst[e])
    {
      ghost var was := dst[..];
      for x := iv[i].0 to iv[i].1
        invariant src != dst ==> src[..] == old(src[..])
        invariant forall e :: 0 <= e < dst.Length ==> dst[e] == if iv[i].0 <= e < x then old(src[e]) else was[e]
      {
        dst[x] := src[x];
      }
      forall e | 0 <= e < dst.Length
        ensures InIntervals(iv[..i + 1], e) <==> InIntervals(iv[..i], e) || iv[i].0 <= e < iv[i].1
      {
        IntervalsSnoc(iv, i, e);
      }
    }
    assert iv[..|iv|] == iv;
  }

  lemma NoIntervals(iv: seq<Interval>)
    ensures forall e: nat :: !InIntervals(iv[..0], e)
  {
  }

  lemma IntervalsSnoc(iv: seq<Interval>, i: nat, e: nat)
    requires i < |iv|
    ensures InIntervals(iv[..i + 1], e) <==> InIntervals(iv[..i], e) || iv[i].0 <= e < iv[i].1
  {
    var a, b := iv[..i], iv[..i + 1];
    if InIntervals(a, e) {
      var k :| 0 <= k < |a| && a[k].0 <= e < a[k].1;
      assert b[k] == a[k];
    }
    if iv[i].0 <= e < iv[i].1 {
      assert b[i] == iv[i];
    }
    if InIntervals(b, e) && !(iv[i].0 <= e < iv[i].1) {
      var k :| 0 <= k < |b| && b[k].0 <= e < b[k].1;
      assert a[k] == b[k];
    }
  }

  /** The blocks of different coordinates do not meet. */
  lemma BlocksApart(c: nat, d: nat, nc: nat, e: nat)
    requires InBlock(c, nc, e) && InBlock(d, nc, e)
    ensures c == d
  {
    if c < d {
      MulMono(c + 1, d, nc);
    } else if d < c {
      MulMono(d + 1, c, nc);
    }
  }

  /** Coordinate c is used by a datapoint of thread t in batch b. */
  ghost predicate Uses(coords: Batch, p: Parts, b: nat, t: nat, c: nat) {
    && ValidParts(p) && t < |p.marks| && b < |p.marks[0]|
    && exists d :: d in Slice(p, t, b) && d < |coords| && c in coords[d]
  }

  /** The elements of the coordinate map of thread t in batch b are the blocks of the coordinates it uses. */
  ghost predicate Mapped(coords: Batch, p: Parts, b: nat, t: nat, nc: nat, els: seq<nat>) {
    forall e :: e in els <==> exists c :: Uses(coords, p, b, t, c) && InBlock(c, nc, e)
  }

  /** So in a partition free of conflicts no element is copied by two workers in the same batch. */
  lemma MapsApart(coords: Batch, p: Parts, size: nat, owner: seq<nat>, b: nat, t: nat, u: nat, nc: nat, els: seq<nat>,
                  fls: seq<nat>, e: nat)
    requires size > 0 && ValidParts(p) && |owner| == |coords| && Placed(p, |coords|, size, owner)
    requires ConflictFree(coords, size, owner)
    requires t < |p.marks| && u < |p.marks| && t != u && b < |p.marks[0]|
    requires Mapped(coords, p, b, t, nc, els) && Mapped(coords, p, b, u, nc, fls) && e in els
    ensures e !in fls
  {
    hide Slice, InBlock;
    if e in fls {
      var c :| Uses(coords, p, b, t, c) && InBlock(c, nc, e);
      var k :| Uses(coords, p, b, u, k) && InBlock(k, nc, e);
      BlocksApart(c, k, nc, e);
      var d :| d in Slice(p, t, b) && d < |coords| && c in coords[d];
      var f :| f in Slice(p, u, b) && f < |coords| && c in coords[f];
      assert PlacedIn(Slice(p, t, b), |coords|, size, owner, t, b) &&
          PlacedIn(Slice(p, u, b), |coords|, size, owner, u, b);
      SharesVia(coords, d, f, c);
    }
  }

  lemma SharesVia(coords: Batch, a: nat, b: nat, c: nat)
    requires a < |coords| && b < |coords| && c in coords[a] && c in coords[b]
    ensures Shares(coords, a, b)
  {
  }

  /** The intervals built from the coordinates a thread uses are its coordinate map. */
  lemma IntervalsMapped(coords: Batch, p: Parts, b: nat, t: nat, cs: seq<nat>, nc: nat, iv: seq<Interval>)
    requires Exact(iv, cs, nc) && forall c: nat :: c in cs <==> Uses(coords, p, b, t, c)
    ensures Mapped(coords, p, b, t, nc, Elements(iv))
  {
    hide Uses, InBlock, InIntervals;
    forall e: nat ensures e in Elements(iv) <==> exists c :: Uses(coords, p, b, t, c) && InBlock(c, nc, e) {
      ElementsAre(iv, e);
      if Covers(cs, nc, e) {
        var i :| 0 <= i < |cs| && InBlock(cs[i], nc, e);
        assert cs[i] in cs && Uses(coords, p, b, t, cs[i]);
      }
      if c :| Uses(coords, p, b, t, c) && InBlock(c, nc, e) {
        var i :| 0 <= i < |cs| && cs[i] == c;
        assert InBlock(cs[i], nc, e);
      }
    }
  }

  // Building the map.

  /** Inserting into an ordered set. */
  function Inserted(cs: seq<nat>, c: nat): seq<nat> {
    if cs == [] || c < cs[0] then [c] + cs else if c == cs[0] then cs else [cs[0]] + Inserted(cs[1..], c)
  }

  lemma {:induction false} InsertedAscending(cs: seq<nat>, c: nat)
    requires Ascending(cs)
    ensures Ascending(Inserted(cs, c)) && forall x :: x in Inserted(cs, c) <==> x == c || x in cs
  {
    if cs != [] {
      AscendingTail(cs);
      hide Ascending;
      var x, rest := cs[0], cs[1..];
      assert cs == [x] + rest;
      if c > x {
        InsertedAscending(rest, c);
        AscendingCons(x, Inserted(rest, c));
      } else if c < x {
        AscendingCons(c, cs);
      }
    }
  }

  lemma AscendingTail(cs: seq<nat>)
    requires Ascending(cs) && cs != []
    ensures Ascending(cs[1..]) && forall x :: x in cs[1..] ==> cs[0] < x
  {
  }

  lemma AscendingCons(x: nat, cs: seq<nat>)
    requires Ascending(cs) && forall y :: y in cs ==> x < y
    ensures Ascending([x] + cs)
  {
    assert forall i :: 0 <= i < |cs| ==> cs[i] in cs;
  }

  /** Some of these datapoints has the coordinate. */
  predicate UsedBy(coords: Batch, ds: seq<nat>, c: nat) {
    exists i :: 0 <= i < |ds| && ds[i] < |coords| && c in coords[ds[i]]
  }

  /** The coordinates are those of the first i datapoints and the first k coordinates of datapoint i. */
  ghost predicate Gathered(coords: Batch, ds: seq<nat>, i: nat, k: nat, cs: seq<nat>) {
    && Ascending(cs) && i <= |ds|
    && forall c: nat :: c in cs <==>
         UsedBy(coords, ds[..i], c) || (i < |ds| && ds[i] < |coords| && k <= |coords[ds[i]]| && c in coords[ds[i]][..k])
  }

  lemma GatherOne(coords: Batch, ds: seq<nat>, i: nat, k: nat, cs: seq<nat>)
    requires Gathered(coords, ds, i, k, cs) && i < |ds| && ds[i] < |coords| && k < |coords[ds[i]]|
    ensures Gathered(coords, ds, i, k + 1, Inserted(cs, coords[ds[i]][k]))
  {
    var row := coords[ds[i]];
    InsertedAscending(cs, row[k]);
    hide UsedBy, Inserted, Ascending;
    assert row[..k + 1] == row[..k] + [row[k]];
  }

  lemma GatherRow(coords: Batch, ds: seq<nat>, i: nat, cs: seq<nat>)
    requires i < |ds| && ds[i] < |coords| && Gathered(coords, ds, i, |coords[ds[i]]|, cs)
    ensures Gathered(coords, ds, i + 1, 0, cs)
  {
    var row := coords[ds[i]];
    assert row[..|row|] == row;
    forall c: nat ensures UsedBy(coords, ds[..i + 1], c) <==> UsedBy(coords, ds[..i], c) || c in row {
      UsedSnoc(coords, ds, i, c);
    }
  }

  lemma UsedSnoc(coords: Batch, ds: seq<nat>, i: nat, c: nat)
    requires i < |ds| && ds[i] < |coords|
    ensures UsedBy(coords, ds[..i + 1], c) <==> UsedBy(coords, ds[..i], c) || c in coords[ds[i]]
  {
    var a, b := ds[..i], ds[..i + 1];
    if UsedBy(coords, a, c) {
      var k :| 0 <= k < |a| && a[k] < |coords| && c in coords[a[k]];
      assert b[k] == a[k];
    }
    if c in coords[ds[i]] {
      assert b[i] == ds[i];
    }
    if UsedBy(coords, b, c) {
      var k :| 0 <= k < |b| && b[k] < |coords| && c in coords[b[k]];
      assert k < i ==> a[k] == b[k];
    }
  }

  /** The set of the coordinates of a list of datapoints, in ascending order. */
  method CoordinateSet(coords: Batch, ds: seq<nat>) returns (cs: seq<nat>)
    requires forall i :: 0 <= i < |ds| ==> ds[i] < |coords|
    ensures Ascending(cs) && forall c: nat :: c in cs <==> UsedBy(coords, ds, c)
  {
    hide UsedBy, Ascending, Inserted;
    cs := [];
    GatherNone(coords, ds);
    for i := 0 to |ds|
      invariant Gathered(coords, ds, i, 0, cs)
    {
      var row := coords[ds[i]];
      for k := 0 to |row|
        invariant Gathered(coords, ds, i, k, cs)
      {
        GatherOne(coords, ds, i, k, cs);
        cs := Inserted(cs, row[k]);
      }
      GatherRow(coords, ds, i, cs);
    }
    assert ds[..|ds|] == ds;
  }

  lemma GatherNone(coords: Batch, ds: seq<nat>)
    ensures Gathered(coords, ds, 0, 0, [])
  {
  }

  lemma UsesSlice(coords: Batch, p: Parts, b: nat, t: nat, c: nat)
    requires ValidParts(p) && t < |p.marks| && b < |p.marks[0]|
    ensures UsedBy(coords, Slice(p, t, b), c) <==> Uses(coords, p, b, t, c)
  {
    hide Slice;
    var ds := Slice(p, t, b);
    if Uses(coords, p, b, t, c) {
      var d :| d in ds && d < |coords| && c in coords[d];
      var i :| 0 <= i < |ds| && ds[i] == d;
    }
  }

  /** The intervals of a worker in a batch hold exactly the elements of the coordinates it uses. */
  ghost predicate WorkerMapped(coords: Batch, p: Parts, b: nat, t: nat, nc: nat, iv: seq<Interval>) {
    Separated(iv) && Mapped(coords, p, b, t, nc, Elements(iv))
  }

  /** The intervals of one worker in one batch. */
  method WorkerMap(dp: DatapointPartitions, coords: Batch, nc: nat, b: nat, t: nat) returns (iv: seq<Interval>)
    requires ValidParts(dp.p) && t < |dp.p.marks| && b < |dp.p.marks[0]|
    requires forall d :: d in Slice(dp.p, t, b) ==> d < |coords|
    ensures WorkerMapped(coords, dp.p, b, t, nc, iv)
  {
    hide Slice, UsedBy, Uses, Ascending, Mapped;
    var n := dp.NumDatapointsInBatch(t, b);
    ghost var all := Slice(dp.p, t, b);
    var ds: seq<nat> := [];
    for i := 0 to n
      invariant ds == all[..i]
    {
      var d := dp.GetDatapoint(t, b, i);
      ds := ds + [d];
    }
    assert ds == all;
    assert forall i :: 0 <= i < |ds| ==> ds[i] in all;
    var cs := CoordinateSet(coords, ds);
    iv := BuildIntervals(cs, nc);
    forall c: nat ensures c in cs <==> Uses(coords, dp.p, b, t, c) {
      UsesSlice(coords, dp.p, b, t, c);
    }
    IntervalsMapped(coords, dp.p, b, t, cs, nc, iv);
  }

  /** SetUpWithPartitions: for every worker and batch exactly the elements of the coordinates it uses. */
  method SetUpWithPartitions(dp: DatapointPartitions, coords: Batch, nc: nat) returns (cmap: seq<seq<seq<Interval>>>)
    requires ValidParts(dp.p)
    requires forall t, b, d :: 0 <= t < |dp.p.marks| && 0 <= b < |dp.p.marks[0]| && d in Slice(dp.p, t, b) ==>
          d < |coords|
    ensures |cmap| == |dp.p.marks[0]| && forall b :: 0 <= b < |cmap| ==> |cmap[b]| == |dp.p.marks|
    ensures forall b, t :: 0 <= b < |cmap| && 0 <= t < |cmap[b]| ==> WorkerMapped(coords, dp.p, b, t, nc, cmap[b][t])
  {
    hide Slice, WorkerMapped;
    cmap := [];
    for b := 0 to |dp.p.marks[0]|
      invariant |cmap| == b && forall k :: 0 <= k < b ==> |cmap[k]| == |dp.p.marks|
      invariant forall k, t :: 0 <= k < b && 0 <= t < |cmap[k]| ==> WorkerMapped(coords, dp.p, k, t, nc, cmap[k][t])
    {
      var row: seq<seq<Interval>> := [];
      for t := 0 to |dp.p.marks|
        invariant |row| == t
        invariant forall u :: 0 <= u < t ==> WorkerMapped(coords, dp.p, b, u, nc, row[u])
      {
        var iv := WorkerMap(dp, coords, nc, b, t);
        row := row + [iv];
      }
      cmap := cmap + [row];
    }
  }
}
