/** Union-find with path compression on a parent array, and the connected components of a batch
    (apps/cyclades/src/Partitioner/CycladesPartitioner.h:29-59). */
module UnionFind {

  /** A witness that following parents ends: ranks grow along parents and stay below `top`. */
  datatype Order = Order(rank: seq<nat>, top: nat)

  ghost predicate Forest(p: seq<nat>, o: Order) {
    && |o.rank| == |p|
    && (forall a :: 0 <= a < |p| ==> p[a] < |p| && o.rank[a] <= o.top)
    && (forall a :: 0 <= a < |p| && p[a] != a ==> o.rank[a] < o.rank[p[a]])
  }

  ghost function Root(p: seq<nat>, o: Order, a: nat): (r: nat)
    requires Forest(p, o) && a < |p|
    ensures r < |p| && p[r] == r
    decreases o.top - o.rank[a]
  {
    if p[a] == a then a else Root(p, o, p[a])
  }

  ghost predicate SameRoots(p: seq<nat>, q: seq<nat>, o: Order) {
    Forest(p, o) && Forest(q, o) && |p| == |q| && forall y :: 0 <= y < |p| ==> Root(p, o, y) == Root(q, o, y)
  }

  lemma {:induction false} RootAbove(p: seq<nat>, o: Order, a: nat)
    requires Forest(p, o) && a < |p|
    ensures Root(p, o, a) == a || o.rank[a] < o.rank[Root(p, o, a)]
    decreases o.top - o.rank[a]
  {
    if p[a] != a {
      RootAbove(p, o, p[a]);
    }
  }

  /** Pointing a node straight at its root changes no class. */
  lemma CompressOne(p: seq<nat>, o: Order, x: nat)
    requires Forest(p, o) && x < |p| && p[x] != x
    ensures SameRoots(p, p[x := Root(p, o, x)], o)
  {
    RootAbove(p, o, x);
    hide Root;
    var q := p[x := Root(p, o, x)];
    assert Forest(q, o);
    forall y | 0 <= y < |p| ensures Root(p, o, y) == Root(q, o, y) {
      CompressRoot(p, o, x, y);
    }
  }

  lemma {:induction false} CompressRoot(p: seq<nat>, o: Order, x: nat, y: nat)
    requires Forest(p, o) && x < |p| && p[x] != x && Forest(p[x := Root(p, o, x)], o) && y < |p|
    ensures Root(p[x := Root(p, o, x)], o, y) == Root(p, o, y)
    decreases o.top - o.rank[y]
  {
    var q := p[x := Root(p, o, x)];
    if y == x {
      assert q[q[y]] == q[y];
    } else if p[y] != y {
      CompressRoot(p, o, x, p[y]);
    }
  }

  /** UnionFind: the root of a node, with every node on the way pointed at it. */
  method Find(p: array<nat>, start: nat, ghost o: Order) returns (a: nat)
    requires Forest(p[..], o) && start < p.Length
    modifies p
    ensures SameRoots(old(p[..]), p[..], o) && a == Root(p[..], o, start)
  {
    hide SameRoots, Root;
    a := start;
    while p[a] != a
      invariant a < p.Length && p[..] == old(p[..]) && Root(p[..], o, a) == Root(p[..], o, start)
      decreases o.top - o.rank[a]
    {
      RootStep(p[..], o, a);
      a := p[a];
    }
    RootStep(p[..], o, a);
    Compress(p, start, a, o);
  }

  /** The second loop of UnionFind. */
  method Compress(p: array<nat>, start: nat, a: nat, ghost o: Order)
    requires Forest(p[..], o) && start < p.Length && a == Root(p[..], o, start)
    modifies p
    ensures SameRoots(old(p[..]), p[..], o) && a == Root(p[..], o, start)
  {
    hide SameRoots, Root, Forest;
    Reflexive(p[..], o);
    var root: nat := start;
    while root != a
      invariant SameRoots(old(p[..]), p[..], o) && Forest(p[..], o) && root < p.Length
      invariant Root(p[..], o, start) == a == Root(p[..], o, root)
      decreases RankGap(o, root)
    {
      ghost var q := p[..];
      var root2: nat := p[root];
      RootStep(q, o, root);
      CompressOne(q, o, root);
      p[root] := a;
      assert p[..] == q[root := Root(q, o, root)];
      Transitive(old(p[..]), q, p[..], o, start, root2);
      root := root2;
    }
  }

  ghost function RankGap(o: Order, a: nat): nat {
    if a < |o.rank| && o.rank[a] <= o.top then o.top - o.rank[a] else 0
  }

  lemma RootStep(p: seq<nat>, o: Order, a: nat)
    requires Forest(p, o) && a < |p|
    ensures p[a] < |p| && Root(p, o, a) == if p[a] == a then a else Root(p, o, p[a])
    ensures p[a] != a ==> RankGap(o, p[a]) < RankGap(o, a)
  {
  }

  lemma Reflexive(p: seq<nat>, o: Order)
    requires Forest(p, o)
    ensures SameRoots(p, p, o)
  {
  }

  lemma Transitive(p: seq<nat>, q: seq<nat>, r: seq<nat>, o: Order, a: nat, b: nat)
    requires SameRoots(p, q, o) && SameRoots(q, r, o) && a < |p| && b < |p|
    ensures SameRoots(p, r, o) && Forest(r, o) && Root(r, o, a) == Root(q, o, a) && Root(r, o, b) == Root(q, o, b)
  {
  }

  function Max(a: nat, b: nat): nat { if a < b then b else a }

  /** Ranks after root r has been hung below root t. */
  ghost function Linked(o: Order, r: nat, t: nat): Order
    requires r < |o.rank| && t < |o.rank|
  {
    if r == t then o else Order(o.rank[t := Max(o.rank[t], o.rank[r] + 1)], o.top + 1)
  }

  /** Hanging a root below another merges exactly their two classes. */
  lemma Link(p: seq<nat>, o: Order, r: nat, t: nat)
    requires Forest(p, o) && r < |p| && t < |p| && p[r] == r && p[t] == t
    ensures Forest(p[r := t], Linked(o, r, t))
    ensures forall y :: 0 <= y < |p| ==>
          Root(p[r := t], Linked(o, r, t), y) == if Root(p, o, y) == r then t else Root(p, o, y)
  {
    if r == t {
      assert p[r := t] == p;
    }
    hide Root;
    assert Forest(p[r := t], Linked(o, r, t));
    forall y | 0 <= y < |p|
      ensures Root(p[r := t], Linked(o, r, t), y) == if Root(p, o, y) == r then t else Root(p, o, y)
    {
      LinkRoot(p, o, r, t, y);
    }
  }

  lemma {:induction false} LinkRoot(p: seq<nat>, o: Order, r: nat, t: nat, y: nat)
    requires Forest(p, o) && r < |p| && t < |p| && p[r] == r && p[t] == t && y < |p|
    requires Forest(p[r := t], Linked(o, r, t))
    ensures Root(p[r := t], Linked(o, r, t), y) == if Root(p, o, y) == r then t else Root(p, o, y)
    decreases o.top - o.rank[y]
  {
    if r == t {
      assert p[r := t] == p;
    } else if y == r {
      assert p[r := t][t] == t;
    } else if p[y] != y {
      LinkRoot(p, o, r, t, p[y]);
    }
  }
}
