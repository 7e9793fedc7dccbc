/** The connected components of a batch: datapoints hang together if a chain of shared coordinates links them
    (apps/cyclades/src/Partitioner/CycladesPartitioner.h:41-59). Nodes 0..n-1 of the union-find are the datapoints,
    node n + c is coordinate c. */
module Components {
  import opened UnionFind

  /** coords[i] are the coordinates of datapoint i. */
  type Batch = seq<seq<nat>>

  predicate Shares(coords: Batch, a: nat, b: nat) {
    a < |coords| && b < |coords| && exists c :: c in coords[a] && c in coords[b]
  }

  /** A chain of datapoints, each sharing a coordinate with the next. */
  predicate Chain(coords: Batch, path: seq<nat>) {
    && path != [] && (forall k :: 0 <= k < |path| ==> path[k] < |coords|)
    && forall k :: 0 <= k < |path| - 1 ==> Shares(coords, path[k], path[k + 1])
  }

  ghost predicate Connected(coords: Batch, a: nat, b: nat) {
    exists path :: Chain(coords, path) && path[0] == a && path[|path| - 1] == b
  }

  // What the union-find array stands for after the edges `es` have been joined.

  type Edge = (nat, nat)

  predicate InRange(es: seq<Edge>, size: nat) {
    forall k :: 0 <= k < |es| ==> es[k].0 < size && es[k].1 < size
  }

  predicate Respects(f: seq<nat>, es: seq<Edge>)
    requires InRange(es, |f|)
  {
    forall k :: 0 <= k < |es| ==> f[es[k].0] == f[es[k].1]
  }

  ghost function Labels(p: seq<nat>, o: Order): (f: seq<nat>)
    requires Forest(p, o)
    ensures |f| == |p| && forall x :: 0 <= x < |p| ==> f[x] == Root(p, o, x) < |p|
  {
    seq(|p|, x requires 0 <= x < |p| => Root(p, o, x))
  }

  /** The roots agree along every edge, and no labelling that does separates a node from its root. */
  ghost predicate Classes(f: seq<nat>, es: seq<Edge>) {
    && InRange(es, |f|) && Respects(f, es) && (forall x :: 0 <= x < |f| ==> f[x] < |f|)
    && forall g: seq<nat> :: |g| == |f| && Respects(g, es) ==> Finer(f, g)
  }

  ghost predicate Finer(f: seq<nat>, g: seq<nat>)
    requires |g| == |f| && forall x :: 0 <= x < |f| ==> f[x] < |f|
  {
    forall x :: 0 <= x < |f| ==> g[x] == g[f[x]]
  }

  /** Labels after the class of label r has been merged into label t. */
  function Merged(f: seq<nat>, r: nat, t: nat): seq<nat> {
    seq(|f|, x requires 0 <= x < |f| => if f[x] == r then t else f[x])
  }

  lemma JoinClasses(f: seq<nat>, es: seq<Edge>, a: nat, b: nat)
    requires Classes(f, es) && a < |f| && b < |f|
    ensures Classes(Merged(f, f[b], f[a]), es + [(a, b)])
  {
    var h, next := Merged(f, f[b], f[a]), es + [(a, b)];
    assert forall k :: 0 <= k < |next| ==> next[k] == if k < |es| then es[k] else (a, b);
    forall g: seq<nat> | |g| == |h| && Respects(g, next) ensures Finer(h, g) {
      assert Respects(g, es) by {
        forall k | 0 <= k < |es| ensures g[es[k].0] == g[es[k].1] {
          assert next[k] == es[k];
        }
      }
      assert Finer(f, g);
      assert next[|es|] == (a, b);
    }
  }

  /** The step of the joining loop on the parent array. */
  lemma JoinRoots(p: seq<nat>, o: Order, es: seq<Edge>, a: nat, b: nat, r: nat, t: nat)
    requires Forest(p, o) && Classes(Labels(p, o), es) && a < |p| && b < |p|
    requires r == Root(p, o, b) && t == Root(p, o, a)
    ensures Forest(p[r := t], Linked(o, r, t)) && Classes(Labels(p[r := t], Linked(o, r, t)), es + [(a, b)])
    ensures Root(p[r := t], Linked(o, r, t), a) == t
  {
    Link(p, o, r, t);
    JoinClasses(Labels(p, o), es, a, b);
    hide Root, Forest;
    assert Labels(p[r := t], Linked(o, r, t)) == Merged(Labels(p, o), r, t);
  }

  lemma SameLabels(p: seq<nat>, q: seq<nat>, o: Order)
    requires SameRoots(p, q, o)
    ensures Labels(p, o) == Labels(q, o)
  {
  }

  lemma Singletons(p: seq<nat>)
    requires forall x :: 0 <= x < |p| ==> p[x] == x
    ensures var o := Order(seq(|p|, _ => 0), 0); Forest(p, o) && Classes(Labels(p, o), [])
  {
  }

  /** The edges joined when datapoints before i, and the first j coordinates of i, have been processed. */
  ghost predicate Joined(coords: Batch, i: nat, j: nat, es: seq<Edge>) {
    && (forall k :: 0 <= k < |es| ==> IsEdge(coords, es[k]))
    && (forall a, k :: 0 <= a < |coords| && 0 <= k < |coords[a]| && (a < i || (a == i && k < j)) ==>
           EdgeOf(coords, a, k) in es)
  }

  predicate IsEdge(coords: Batch, e: Edge) {
    e.0 < |coords| && exists c :: c in coords[e.0] && e.1 == |coords| + c
  }

  function EdgeOf(coords: Batch, a: nat, k: nat): Edge
    requires a < |coords| && k < |coords[a]|
  {
    (a, |coords| + coords[a][k])
  }

  /** The joining loop (lines 50-54): afterwards the roots are the classes of all edges. */
  method JoinAll(coords: Batch, p: array<nat>, model: nat, ghost o0: Order)
    returns (ghost o: Order, ghost es: seq<Edge>)
    requires |coords| + model <= p.Length && forall i, c :: 0 <= i < |coords| && c in coords[i] ==> c < model
    requires Forest(p[..], o0) && Classes(Labels(p[..], o0), [])
    modifies p
    ensures Forest(p[..], o) && Classes(Labels(p[..], o), es) && Joined(coords, |coords|, 0, es)
  {
    hide Forest, Classes, Root, Labels, SameRoots;
    o, es := o0, [];
    for i := 0 to |coords|
      invariant Forest(p[..], o) && Classes(Labels(p[..], o), es) && Joined(coords, i, 0, es)
    {
      o, es := JoinOne(coords, p, model, i, o, es);
    }
  }

  /** One datapoint is joined with all its coordinates. */
  method JoinOne(coords: Batch, p: array<nat>, model: nat, i: nat, ghost o0: Order, ghost es0: seq<Edge>)
    returns (ghost o: Order, ghost es: seq<Edge>)
    requires |coords| + model <= p.Length && i < |coords| && forall c :: c in coords[i] ==> c < model
    requires Forest(p[..], o0) && Classes(Labels(p[..], o0), es0) && Joined(coords, i, 0, es0)
    modifies p
    ensures Forest(p[..], o) && Classes(Labels(p[..], o), es) && Joined(coords, i + 1, 0, es)
  {
    hide Forest, Classes, Root, Labels, SameRoots, Joined;
    o, es := o0, es0;
    ghost var q := p[..];
    var target := Find(p, i, o);
    FoundLabels(q, p[..], o, i, es);
    for j := 0 to |coords[i]|
      invariant Forest(p[..], o) && Classes(Labels(p[..], o), es) && Joined(coords, i, j, es)
      invariant target == Root(p[..], o, i)
    {
      assert coords[i][j] in coords[i];
      var b := |coords| + coords[i][j];
      q := p[..];
      var r := Find(p, b, o);
      FoundLabels(q, p[..], o, i, es);
      q := p[..];
      JoinRoots(q, o, es, i, b, r, target);
      p[r] := target;
      assert p[..] == q[r := target];
      JoinedNext(coords, i, j, es);
      o, es := Linked(o, r, target), es + [EdgeOf(coords, i, j)];
    }
    JoinedRow(coords, i, es);
  }

  lemma FoundLabels(p: seq<nat>, q: seq<nat>, o: Order, a: nat, es: seq<Edge>)
    requires SameRoots(p, q, o) && a < |p| && Classes(Labels(p, o), es)
    ensures Forest(q, o) && Classes(Labels(q, o), es) && Root(q, o, a) == Root(p, o, a)
  {
    SameLabels(p, q, o);
  }

  lemma JoinedNext(coords: Batch, i: nat, j: nat, es: seq<Edge>)
    requires Joined(coords, i, j, es) && i < |coords| && j < |coords[i]|
    ensures Joined(coords, i, j + 1, es + [EdgeOf(coords, i, j)])
  {
    var e := EdgeOf(coords, i, j);
    var next := es + [e];
    assert coords[i][j] in coords[i] && e.1 == |coords| + coords[i][j];
    assert IsEdge(coords, e);
    assert next[|es|] == e;
    assert forall k :: 0 <= k < |next| ==> next[k] == if k < |es| then es[k] else e;
    forall a, k | 0 <= a < |coords| && 0 <= k < |coords[a]| && (a < i || (a == i && k <= j))
      ensures EdgeOf(coords, a, k) in next
    {
      assert EdgeOf(coords, a, k) in es || EdgeOf(coords, a, k) == e;
    }
  }

  lemma JoinedRow(coords: Batch, i: nat, es: seq<Edge>)
    requires i < |coords| && Joined(coords, i, |coords[i]|, es)
    ensures Joined(coords, i + 1, 0, es)
  {
  }

  // Classes are chains.

  /** Datapoints that share a coordinate have the same label. */
  lemma SharesLabel(coords: Batch, f: seq<nat>, es: seq<Edge>, a: nat, b: nat)
    requires Classes(f, es) && Joined(coords, |coords|, 0, es) && |coords| <= |f| && Shares(coords, a, b)
    ensures f[a] == f[b]
  {
    var c :| c in coords[a] && c in coords[b];
    var i :| 0 <= i < |coords[a]| && coords[a][i] == c;
    var j :| 0 <= j < |coords[b]| && coords[b][j] == c;
    assert EdgeOf(coords, a, i) in es && EdgeOf(coords, b, j) in es;
  }

  lemma {:induction false} ChainLabel(coords: Batch, f: seq<nat>, es: seq<Edge>, path: seq<nat>, k: nat)
    requires Classes(f, es) && Joined(coords, |coords|, 0, es) && |coords| <= |f| && Chain(coords, path) && k < |path|
    ensures f[path[k]] == f[path[0]]
  {
    if k > 0 {
      ChainLabel(coords, f, es, path, k - 1);
      SharesLabel(coords, f, es, path[k - 1], path[k]);
    }
  }

  /** The labelling by reachability from datapoint a. */
  ghost function Reached(coords: Batch, a: nat, size: nat): (g: seq<nat>)
    ensures |g| == size
  {
    seq(size, x requires 0 <= x < size =>
      if x < |coords| then if Connected(coords, a, x) then 1 else 0
      else if exists b :: 0 <= b < |coords| && x - |coords| in coords[b] && Connected(coords, a, b) then 1 else 0)
  }

  lemma Extend(coords: Batch, a: nat, b: nat, c: nat)
    requires Connected(coords, a, b) && Shares(coords, b, c)
    ensures Connected(coords, a, c)
  {
    var path :| Chain(coords, path) && path[0] == a && path[|path| - 1] == b;
    var longer := path + [c];
    forall k | 0 <= k < |longer| - 1 ensures Shares(coords, longer[k], longer[k + 1]) {
      if k < |path| - 1 {
        assert Shares(coords, path[k], path[k + 1]);
      }
    }
    assert Chain(coords, longer) && longer[|longer| - 1] == c;
  }

  lemma ReachedRespects(coords: Batch, a: nat, es: seq<Edge>, size: nat)
    requires Joined(coords, |coords|, 0, es) && InRange(es, size)
    ensures Respects(Reached(coords, a, size), es)
  {
    var g := Reached(coords, a, size);
    forall k | 0 <= k < |es| ensures g[es[k].0] == g[es[k].1] {
      var b := es[k].0;
      var c :| c in coords[b] && es[k].1 == |coords| + c;
      assert es[k].1 - |coords| == c;
      if g[es[k].1] == 1 {
        var b' :| 0 <= b' < |coords| && c in coords[b'] && Connected(coords, a, b');
        assert Shares(coords, b', b);
        Extend(coords, a, b', b);
      }
    }
  }

  /** The classes are exactly the connected components. */
  lemma ClassesConnected(coords: Batch, f: seq<nat>, es: seq<Edge>, a: nat, b: nat)
    requires Classes(f, es) && Joined(coords, |coords|, 0, es) && |coords| <= |f| && a < |coords| && b < |coords|
    ensures f[a] == f[b] <==> Connected(coords, a, b)
  {
    if Connected(coords, a, b) {
      var path :| Chain(coords, path) && path[0] == a && path[|path| - 1] == b;
      ChainLabel(coords, f, es, path, |path| - 1);
    }
    if f[a] == f[b] {
      var g := Reached(coords, a, |f|);
      ReachedRespects(coords, a, es, |f|);
      assert Finer(f, g);
      assert Chain(coords, [a]) && Connected(coords, a, a);
      assert g[a] == 1;
    }
  }

  // Collecting the components.

  /** The datapoints before k with label r, in order. */
  function Members(mark: seq<nat>, r: nat, k: nat): (ms: seq<nat>)
    requires k <= |mark|
  {
    if k == 0 then [] else Members(mark, r, k - 1) + if mark[k - 1] == r then [k - 1] else []
  }

  lemma {:induction false} MembersAre(mark: seq<nat>, r: nat, k: nat)
    requires k <= |mark|
    ensures forall x :: x in Members(mark, r, k) <==> 0 <= x < k && mark[x] == r
    ensures forall i, j :: 0 <= i < j < |Members(mark, r, k)| ==> Members(mark, r, k)[i] < Members(mark, r, k)[j]
  {
    if k > 0 {
      MembersAre(mark, r, k - 1);
      var ms := Members(mark, r, k - 1);
      assert forall i :: 0 <= i < |ms| ==> ms[i] in ms;
    }
  }

  /** Every label with its datapoints. */
  ghost predicate Grouped(comps: map<nat, seq<nat>>, mark: seq<nat>, k: nat)
    requires k <= |mark|
  {
    && (forall i :: 0 <= i < k ==> mark[i] in comps)
    && (forall r :: r in comps ==> comps[r] == Members(mark, r, k) != [])
  }

  method Collect(n: nat, p: array<nat>, ghost o: Order) returns (comps: map<nat, seq<nat>>)
    requires Forest(p[..], o) && n <= p.Length
    modifies p
    ensures SameRoots(old(p[..]), p[..], o)
    ensures Grouped(comps, Labels(old(p[..]), o)[..n], n)
  {
    hide Root, SameRoots, Labels, Forest, Grouped;
    comps := map[];
    ghost var f := Labels(old(p[..]), o)[..n];
    NoneGrouped(f);
    Reflexive(p[..], o);
    for i := 0 to n
      invariant SameRoots(old(p[..]), p[..], o) && Forest(p[..], o) && Grouped(comps, f, i)
    {
      ghost var q := p[..];
      var r := Find(p, i, o);
      Transitive(old(p[..]), q, p[..], o, i, i);
      FoundLabel(old(p[..]), p[..], o, i);
      assert r == f[i];
      GroupedNext(comps, f, i);
      comps := comps[r := (if r in comps then comps[r] else []) + [i]];
    }
  }

  lemma FoundLabel(p: seq<nat>, q: seq<nat>, o: Order, i: nat)
    requires SameRoots(p, q, o) && i < |p|
    ensures Labels(p, o)[i] == Root(q, o, i)
  {
  }

  lemma NoneGrouped(f: seq<nat>)
    ensures Grouped(map[], f, 0)
  {
  }

  lemma GroupedNext(comps: map<nat, seq<nat>>, f: seq<nat>, i: nat)
    requires i < |f| && Grouped(comps, f, i)
    ensures Grouped(comps[f[i] := (if f[i] in comps then comps[f[i]] else []) + [i]], f, i + 1)
  {
    if f[i] !in comps {
      NoMembers(comps, f, i);
    }
  }

  lemma NoMembers(comps: map<nat, seq<nat>>, f: seq<nat>, i: nat)
    requires i < |f| && Grouped(comps, f, i) && f[i] !in comps
    ensures Members(f, f[i], i) == []
  {
    if Members(f, f[i], i) != [] {
      var x := SomeMember(f, f[i], i);
    }
  }

  lemma SomeMember(f: seq<nat>, r: nat, i: nat) returns (x: nat)
    requires i <= |f| && Members(f, r, i) != []
    ensures x < i && f[x] == r
  {
    MembersAre(f, r, i);
    x := Members(f, r, i)[0];
    assert x in Members(f, r, i);
  }

  /** ComputeCC: the components are the groups of a labelling that tells two datapoints apart exactly if no chain
      of shared coordinates links them. */
  method ComputeCC(coords: Batch, batchSize: nat, model: nat) returns (comps: map<nat, seq<nat>>, ghost mark: seq<nat>)
    requires |coords| <= batchSize && forall i, c :: 0 <= i < |coords| && c in coords[i] ==> c < model
    ensures |mark| == |coords| && Grouped(comps, mark, |coords|)
    ensures forall a, b :: 0 <= a < |coords| && 0 <= b < |coords| ==> (mark[a] == mark[b] <==> Connected(coords, a, b))
    ensures SplitInto(coords, comps)
  {
    hide Root, SameRoots, Labels, Forest, Classes, Grouped, Joined;
    var tree := new nat[batchSize + model](i => i);
    ghost var o := Order(seq(tree.Length, _ => 0), 0);
    Singletons(tree[..]);
    ghost var es;
    o, es := JoinAll(coords, tree, model, o);
    ghost var f := Labels(tree[..], o);
    LabelsLength(tree[..], o);
    mark := f[..|coords|];
    comps := Collect(|coords|, tree, o);
    forall a, b | 0 <= a < |coords| && 0 <= b < |coords| ensures mark[a] == mark[b] <==> Connected(coords, a, b) {
      ClassesConnected(coords, f, es, a, b);
    }
    GroupsSplit(coords, comps, mark);
  }

  /** The lists are the connected components: every datapoint is in one, and a list holds, in order, exactly the
      datapoints connected to any of its members. */
  ghost predicate SplitInto(coords: Batch, comps: map<nat, seq<nat>>) {
    && (forall i: nat :: i < |coords| ==> InSome(comps, i))
    && (forall r :: r in comps ==> IsComponent(coords, comps[r]))
  }

  predicate InSome(comps: map<nat, seq<nat>>, i: nat) {
    exists r :: r in comps && i in comps[r]
  }

  ghost predicate IsComponent(coords: Batch, ds: seq<nat>) {
    && ds != [] && (forall i, j :: 0 <= i < j < |ds| ==> ds[i] < ds[j])
    && (forall i :: 0 <= i < |ds| ==> ds[i] < |coords|)
    && (forall i, b: nat :: 0 <= i < |ds| && b < |coords| ==> (b in ds <==> Connected(coords, ds[i], b)))
  }

  lemma GroupsSplit(coords: Batch, comps: map<nat, seq<nat>>, mark: seq<nat>)
    requires |mark| == |coords| && Grouped(comps, mark, |coords|)
    requires forall a, b :: 0 <= a < |coords| && 0 <= b < |coords| ==> (mark[a] == mark[b] <==> Connected(coords, a, b))
    ensures SplitInto(coords, comps)
  {
    hide Connected, Members;
    forall i: nat | i < |coords| ensures InSome(comps, i) {
      MembersAre(mark, mark[i], |coords|);
      assert mark[i] in comps && i in comps[mark[i]];
    }
    forall r | r in comps ensures IsComponent(coords, comps[r]) {
      MembersAre(mark, r, |coords|);
      assert forall i :: 0 <= i < |comps[r]| ==> comps[r][i] in comps[r];
    }
  }

  lemma LabelsLength(p: seq<nat>, o: Order)
    requires Forest(p, o)
    ensures |Labels(p, o)| == |p|
  {
  }
}
