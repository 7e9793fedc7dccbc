/** Shortest paths from one switch with a priority queue (apps/routing_dijkstra/main.cpp:134-189). Costs are unbounded
    here; the source's 32-bit sums agree as long as none of them wraps. */
module Dijkstra {
  import opened Basics

  const INFINITY: nat := 0xFFFF_FFFF

  datatype Link = Link(to: nat, cost: nat)

  /** A row of the forwarding table has one of these per destination. */
  datatype Forward = Forward(to: nat, cost: nat)

  /** An entry of the queue. */
  datatype NextHop = NextHop(from: nat, to: nat, firstHop: nat, totalCost: nat)

  type Graph = seq<seq<Link>>

  predicate ValidGraph(adj: Graph) {
    forall v, k :: 0 <= v < |adj| && 0 <= k < |adj[v]| ==> adj[v][k].to < |adj|
  }

  // A walk is the list of link numbers taken, one at each switch.

  predicate IsWalk(adj: Graph, src: nat, ks: seq<nat>)
    requires ValidGraph(adj) && src < |adj|
    decreases |ks|, 0
  {
    ks == [] || (IsWalk(adj, src, ks[..|ks| - 1]) && ks[|ks| - 1] < |adj[EndOf(adj, src, ks[..|ks| - 1])]|)
  }

  function EndOf(adj: Graph, src: nat, ks: seq<nat>): (v: nat)
    requires ValidGraph(adj) && src < |adj| && IsWalk(adj, src, ks)
    ensures v < |adj|
    decreases |ks|, 1
  {
    if ks == [] then src else adj[EndOf(adj, src, ks[..|ks| - 1])][ks[|ks| - 1]].to
  }

  function CostOf(adj: Graph, src: nat, ks: seq<nat>): nat
    requires ValidGraph(adj) && src < |adj| && IsWalk(adj, src, ks)
  {
    if ks == [] then 0
    else CostOf(adj, src, ks[..|ks| - 1]) + adj[EndOf(adj, src, ks[..|ks| - 1])][ks[|ks| - 1]].cost
  }

  /** Some walk from src to v has this cost and starts with a link to `hop`. */
  ghost predicate Attained(adj: Graph, src: nat, v: nat, hop: nat, cost: nat)
    requires ValidGraph(adj) && src < |adj|
  {
    exists ks :: AttainedBy(adj, src, v, hop, cost, ks)
  }

  predicate AttainedBy(adj: Graph, src: nat, v: nat, hop: nat, cost: nat, ks: seq<nat>)
    requires ValidGraph(adj) && src < |adj|
  {
    && IsWalk(adj, src, ks) && ks != [] && ks[0] < |adj[src]|
    && EndOf(adj, src, ks) == v && CostOf(adj, src, ks) == cost && adj[src][ks[0]].to == hop
  }

  lemma FirstLink(adj: Graph, src: nat, k: nat)
    requires ValidGraph(adj) && src < |adj| && k < |adj[src]|
    ensures Attained(adj, src, adj[src][k].to, adj[src][k].to, adj[src][k].cost)
  {
    assert [k][..0] == [] && IsWalk(adj, src, [k]);
    assert AttainedBy(adj, src, adj[src][k].to, adj[src][k].to, adj[src][k].cost, [k]);
  }

  lemma OneMore(adj: Graph, src: nat, v: nat, hop: nat, cost: nat, k: nat)
    requires ValidGraph(adj) && src < |adj| && v < |adj| && k < |adj[v]| && Attained(adj, src, v, hop, cost)
    ensures Attained(adj, src, adj[v][k].to, hop, cost + adj[v][k].cost)
  {
    var ks :| AttainedBy(adj, src, v, hop, cost, ks);
    var next := ks + [k];
    assert next[..|next| - 1] == ks && next[0] == ks[0];
    assert AttainedBy(adj, src, adj[v][k].to, hop, cost + adj[v][k].cost, next);
  }

  // The invariant.

  /** Every cost in the row and in the queue is that of a walk with the first hop recorded. */
  ghost predicate Sound(adj: Graph, src: nat, row: seq<Forward>, queue: seq<NextHop>)
    requires ValidGraph(adj) && src < |adj| == |row|
  {
    && (forall v :: 0 <= v < |row| ==> row[v].cost <= INFINITY)
    && row[src] == Forward(src, 0)
    && (forall v :: 0 <= v < |row| && v != src && row[v].cost < INFINITY ==>
           Attained(adj, src, v, row[v].to, row[v].cost))
    && (forall q :: 0 <= q < |queue| ==> SoundHop(adj, src, queue[q]))
  }

  ghost predicate SoundHop(adj: Graph, src: nat, h: NextHop)
    requires ValidGraph(adj) && src < |adj|
  {
    h.to < |adj| && Attained(adj, src, h.to, h.firstHop, h.totalCost)
  }

  /** A link cannot improve its target, or the queue has an entry as good as the link. */
  ghost predicate Relaxed(row: seq<Forward>, queue: seq<NextHop>, link: Link, base: nat) {
    link.to < |row| && (row[link.to].cost <= base + link.cost || InQueue(queue, link.to, base + link.cost))
  }

  ghost predicate InQueue(queue: seq<NextHop>, to: nat, cost: nat) {
    exists q :: 0 <= q < |queue| && queue[q].to == to && queue[q].totalCost <= cost
  }

  ghost predicate Settled(adj: Graph, row: seq<Forward>, queue: seq<NextHop>)
    requires |adj| == |row|
  {
    forall v, k :: 0 <= v < |adj| && 0 <= k < |adj[v]| && row[v].cost < INFINITY ==>
          Relaxed(row, queue, adj[v][k], row[v].cost)
  }

  function Total(row: seq<Forward>): nat {
    if row == [] then 0 else row[0].cost + Total(row[1..])
  }

  lemma {:induction false} TotalUpdate(row: seq<Forward>, v: nat, f: Forward)
    requires v < |row|
    ensures Total(row[v := f]) == Total(row) - row[v].cost + f.cost
  {
    if v == 0 {
      assert row[v := f][1..] == row[1..];
    } else {
      assert row[v := f][1..] == row[1..][v - 1 := f];
      TotalUpdate(row[1..], v - 1, f);
    }
  }

  /** When the queue is empty no walk is cheaper than the row. */
  lemma {:induction false} Least(adj: Graph, src: nat, row: seq<Forward>, ks: seq<nat>)
    requires ValidGraph(adj) && src < |adj| == |row| && Sound(adj, src, row, []) && Settled(adj, row, [])
    requires IsWalk(adj, src, ks)
    ensures row[EndOf(adj, src, ks)].cost <= CostOf(adj, src, ks)
    decreases |ks|
  {
    if ks != [] {
      var front, k := ks[..|ks| - 1], ks[|ks| - 1];
      Least(adj, src, row, front);
      var v := EndOf(adj, src, front);
      if row[v].cost < INFINITY {
        assert Relaxed(row, [], adj[v][k], row[v].cost);
      }
    }
  }

  /** The entries pushed for the links of v. */
  function Pushed(adj: Graph, v: nat, firstHop: nat, base: nat): (qs: seq<NextHop>)
    requires v < |adj|
    ensures |qs| == |adj[v]|
  {
    seq(|adj[v]|, k requires 0 <= k < |adj[v]| => NextHop(v, adj[v][k].to, firstHop, base + adj[v][k].cost))
  }

  function First(adj: Graph, src: nat): (qs: seq<NextHop>)
    requires src < |adj|
    ensures |qs| == |adj[src]|
  {
    seq(|adj[src]|, k requires 0 <= k < |adj[src]| => NextHop(src, adj[src][k].to, adj[src][k].to, adj[src][k].cost))
  }

  lemma Begin(adj: Graph, src: nat, row: seq<Forward>)
    requires ValidGraph(adj) && src < |adj| == |row|
    requires forall v :: 0 <= v < |row| ==> row[v] == if v == src then Forward(src, 0) else Forward(INFINITY, INFINITY)
    ensures Sound(adj, src, row, First(adj, src)) && Settled(adj, row, First(adj, src))
  {
    var qs := First(adj, src);
    forall q | 0 <= q < |qs| ensures SoundHop(adj, src, qs[q]) {
      FirstLink(adj, src, q);
    }
    forall v, k | 0 <= v < |adj| && 0 <= k < |adj[v]| && row[v].cost < INFINITY
      ensures Relaxed(row, qs, adj[v][k], row[v].cost)
    {
      assert qs[k].to == adj[v][k].to && qs[k].totalCost == adj[v][k].cost;
    }
  }

  lemma WithoutKeeps(queue: seq<NextHop>, q: nat, to: nat, cost: nat)
    requires q < |queue| && InQueue(queue, to, cost)
    ensures InQueue(Without(queue, q), to, cost) || (queue[q].to == to && queue[q].totalCost <= cost)
  {
    var p :| 0 <= p < |queue| && queue[p].to == to && queue[p].totalCost <= cost;
    if p != q {
      var rest := Without(queue, q);
      var at := if p < q then p else p - 1;
      assert rest[at] == queue[p];
    }
  }

  /** An entry that does not improve the row is dropped. */
  lemma Drop(adj: Graph, src: nat, row: seq<Forward>, queue: seq<NextHop>, q: nat)
    requires ValidGraph(adj) && src < |adj| == |row| && q < |queue| && Sound(adj, src, row, queue)
    requires Settled(adj, row, queue)
    requires row[queue[q].to].cost <= queue[q].totalCost
    ensures Sound(adj, src, row, Without(queue, q)) && Settled(adj, row, Without(queue, q))
  {
    hide Attained;
    var rest := Without(queue, q);
    forall v, k | 0 <= v < |adj| && 0 <= k < |adj[v]| && row[v].cost < INFINITY
      ensures Relaxed(row, rest, adj[v][k], row[v].cost)
    {
      assert Relaxed(row, queue, adj[v][k], row[v].cost);
      if row[adj[v][k].to].cost > row[v].cost + adj[v][k].cost {
        WithoutKeeps(queue, q, adj[v][k].to, row[v].cost + adj[v][k].cost);
      }
    }
  }

  /** An entry that improves the row is entered, and the links of its switch are pushed. */
  lemma Improve(adj: Graph, src: nat, row: seq<Forward>, queue: seq<NextHop>, q: nat)
    requires ValidGraph(adj) && src < |adj| == |row| && q < |queue| && Sound(adj, src, row, queue)
    requires Settled(adj, row, queue)
    requires queue[q].to < |adj| && row[queue[q].to].cost > queue[q].totalCost
    ensures var h := queue[q];
            var row', queue' := row[h.to := Forward(h.firstHop, h.totalCost)],
                Without(queue, q) + Pushed(adj, h.to, h.firstHop, h.totalCost);
            Sound(adj, src, row', queue') && Settled(adj, row', queue')
  {
    hide Attained;
    var h := queue[q];
    var rest, more := Without(queue, q), Pushed(adj, h.to, h.firstHop, h.totalCost);
    var row', queue' := row[h.to := Forward(h.firstHop, h.totalCost)], rest + more;
    assert SoundHop(adj, src, h);
    forall p | 0 <= p < |queue'| ensures SoundHop(adj, src, queue'[p]) {
      if p >= |rest| {
        OneMore(adj, src, h.to, h.firstHop, h.totalCost, p - |rest|);
        assert queue'[p] == more[p - |rest|];
      } else {
        assert queue'[p] == rest[p] == queue[if p < q then p else p + 1];
      }
    }
    forall v, k | 0 <= v < |adj| && 0 <= k < |adj[v]| && row'[v].cost < INFINITY
      ensures Relaxed(row', queue', adj[v][k], row'[v].cost)
    {
      if v == h.to {
        assert queue'[|rest| + k] == more[k];
      } else {
        assert Relaxed(row, queue, adj[v][k], row[v].cost);
        KeepsRelaxed(row, queue, q, more, adj[v][k], row[v].cost);
      }
    }
  }

  lemma KeepsRelaxed(row: seq<Forward>, queue: seq<NextHop>, q: nat, more: seq<NextHop>, link: Link, base: nat)
    requires q < |queue| && Relaxed(row, queue, link, base) && queue[q].to < |row|
    requires row[queue[q].to].cost > queue[q].totalCost
    ensures Relaxed(row[queue[q].to := Forward(queue[q].firstHop, queue[q].totalCost)], Without(queue, q) + more, link,
        base)
  {
    if row[link.to].cost > base + link.cost {
      WithoutKeeps(queue, q, link.to, base + link.cost);
      var rest := Without(queue, q);
      if InQueue(rest, link.to, base + link.cost) {
        var p :| 0 <= p < |rest| && rest[p].to == link.to && rest[p].totalCost <= base + link.cost;
        assert (rest + more)[p] == rest[p];
      }
    }
  }

  /** A top entry of the queue: none is cheaper. */
  predicate Top(queue: seq<NextHop>, q: nat) {
    q < |queue| && forall p :: 0 <= p < |queue| ==> queue[q].totalCost <= queue[p].totalCost
  }

  lemma {:induction false} HasTop(queue: seq<NextHop>)
    requires queue != []
    ensures exists q: nat :: Top(queue, q)
  {
    if |queue| == 1 {
      assert Top(queue, 0);
    } else {
      var rest := queue[1..];
      HasTop(rest);
      var q: nat :| Top(rest, q);
      assert forall p :: 1 <= p < |queue| ==> queue[p] == rest[p - 1];
      assert Top(queue, if queue[0].totalCost <= rest[q].totalCost then 0 else q + 1);
    }
  }

  /** What a finished row says: the least cost of a walk, or infinity if no walk is cheaper than that, and the first
      hop of a walk of that cost. */
  ghost predicate Shortest(adj: Graph, src: nat, row: seq<Forward>)
    requires ValidGraph(adj) && src < |adj|
  {
    && |row| == |adj| && row[src] == Forward(src, 0)
    && (forall ks :: IsWalk(adj, src, ks) ==> row[EndOf(adj, src, ks)].cost <= CostOf(adj, src, ks))
    && (forall v :: 0 <= v < |row| && v != src ==>
          row[v].cost == INFINITY || (row[v].cost < INFINITY && Attained(adj, src, v, row[v].to, row[v].cost)))
  }

  /** The loop for one source. */
  method FromSource(adj: Graph, src: nat, row: array<Forward>)
    requires ValidGraph(adj) && src < |adj| == row.Length
    requires forall v :: 0 <= v < row.Length ==>
          row[v] == if v == src then Forward(src, 0) else Forward(INFINITY, INFINITY)
    modifies row
    ensures Shortest(adj, src, row[..])
  {
    hide Sound, Settled, Attained, IsWalk, EndOf, CostOf;
    var next := First(adj, src);
    Begin(adj, src, row[..]);
    while next != []
      invariant Sound(adj, src, row[..], next) && Settled(adj, row[..], next)
      decreases Total(row[..]), |next|
    {
      HasTop(next);
      ghost var was := row[..];
      var q: nat :| Top(next, q);
      var hop := next[q];
      HopInRange(adj, src, was, next, q);
      var cur := hop.to;
      if row[cur].cost > hop.totalCost {
        Improve(adj, src, was, next, q);
        TotalUpdate(was, cur, Forward(hop.firstHop, hop.totalCost));
        row[cur] := Forward(hop.firstHop, hop.totalCost);
        assert row[..] == was[cur := Forward(hop.firstHop, hop.totalCost)];
        next := Without(next, q) + Pushed(adj, cur, hop.firstHop, hop.totalCost);
      } else {
        Drop(adj, src, was, next, q);
        next := Without(next, q);
      }
    }
    Finished(adj, src, row[..]);
  }

  lemma HopInRange(adj: Graph, src: nat, row: seq<Forward>, queue: seq<NextHop>, q: nat)
    requires ValidGraph(adj) && src < |adj| == |row| && q < |queue| && Sound(adj, src, row, queue)
    ensures queue[q].to < |adj|
  {
    assert SoundHop(adj, src, queue[q]);
  }

  lemma Finished(adj: Graph, src: nat, row: seq<Forward>)
    requires ValidGraph(adj) && src < |adj| == |row| && Sound(adj, src, row, []) && Settled(adj, row, [])
    ensures Shortest(adj, src, row)
  {
    forall ks | IsWalk(adj, src, ks) ensures row[EndOf(adj, src, ks)].cost <= CostOf(adj, src, ks) {
      Least(adj, src, row, ks);
    }
  }

  /** All sources, each with a row set to infinity first. */
  method AllSources(adj: Graph) returns (table: seq<seq<Forward>>)
    requires ValidGraph(adj)
    ensures |table| == |adj| && forall i :: 0 <= i < |adj| ==> Shortest(adj, i, table[i])
  {
    hide Shortest;
    table := [];
    for i := 0 to |adj|
      invariant |table| == i && forall k :: 0 <= k < i ==> Shortest(adj, k, table[k])
    {
      var row := new Forward[|adj|](_ => Forward(INFINITY, INFINITY));
      row[i] := Forward(i, 0);
      FromSource(adj, i, row);
      table := table + [row[..]];
    }
  }
}
