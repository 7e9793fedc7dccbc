/** All-pairs shortest paths by a triple loop that updates the matrix in place
    (apps/routing_dynamic/main.cpp:126-148). Costs are unbounded here; the source's sums agree as long as none of
    them wraps. */
module AllPairs {

  datatype Link = Link(to: nat, cost: nat)

  type Matrix = seq<seq<Link>>

  predicate Square(m: Matrix) {
    forall i :: 0 <= i < |m| ==> |m[i]| == |m|
  }

  // A walk is a list of at least two switches; every pair of neighbours is a link of the given matrix.

  predicate IsWalk(m: Matrix, path: seq<nat>) {
    |path| >= 2 && forall k :: 0 <= k < |path| ==> path[k] < |m|
  }

  function CostOf(m: Matrix, path: seq<nat>): nat
    requires Square(m) && (forall k :: 0 <= k < |path| ==> path[k] < |m|)
  {
    if |path| < 2 then 0 else m[path[0]][path[1]].cost + CostOf(m, path[1..])
  }

  /** The walk goes from i to j and passes only switches below k on the way. */
  predicate Through(m: Matrix, path: seq<nat>, i: nat, j: nat, k: nat) {
    && IsWalk(m, path) && path[0] == i && path[|path| - 1] == j
    && forall x :: 0 < x < |path| - 1 ==> path[x] < k
  }

  /** The cell's cost is that of a walk from i to j, and its `to` is the one of the walk's first link. */
  ghost predicate Attained(m: Matrix, c: Link, i: nat, j: nat)
    requires Square(m)
  {
    exists path :: AttainedBy(m, c, i, j, path)
  }

  predicate AttainedBy(m: Matrix, c: Link, i: nat, j: nat, path: seq<nat>)
    requires Square(m)
  {
    Through(m, path, i, j, |m|) && CostOf(m, path) == c.cost && m[i][path[1]].to == c.to
  }

  /** The matrix d is right for walks through switches below k. */
  ghost predicate Right(m: Matrix, d: Matrix, k: nat)
    requires Square(m)
  {
    && Square(d) && |d| == |m|
    && (forall i, j :: 0 <= i < |m| && 0 <= j < |m| ==> Attained(m, d[i][j], i, j))
    && forall i, j, path :: 0 <= i < |m| && 0 <= j < |m| && Through(m, path, i, j, k) ==>
          d[i][j].cost <= CostOf(m, path)
  }

  lemma {:induction false} CostSplit(m: Matrix, path: seq<nat>, x: nat)
    requires Square(m) && (forall k :: 0 <= k < |path| ==> path[k] < |m|) && x < |path|
    ensures CostOf(m, path) == CostOf(m, path[..x + 1]) + CostOf(m, path[x..])
  {
    if x > 0 {
      CostSplit(m, path[1..], x - 1);
      assert path[1..][..x] == path[..x + 1][1..] && path[1..][x - 1..] == path[x..];
    } else {
      assert path[..1] == [path[0]] && path[0..] == path;
    }
  }

  /** The new cell (i, j) in the round for switch k. */
  function Cell(d: Matrix, k: nat, i: nat, j: nat): Link
    requires Square(d) && k < |d| && i < |d| && j < |d|
  {
    if d[i][j].cost > d[i][k].cost + d[k][j].cost then Link(d[i][k].to, d[i][k].cost + d[k][j].cost) else d[i][j]
  }

  /** The matrix after the round for switch k, from the one before it. */
  function Round(d: Matrix, k: nat): (r: Matrix)
    requires Square(d) && k < |d|
    ensures Square(r) && |r| == |d| && forall i, j :: 0 <= i < |d| && 0 <= j < |d| ==> r[i][j] == Cell(d, k, i, j)
  {
    seq(|d|, i requires 0 <= i < |d| => seq(|d|, j requires 0 <= j < |d| => Cell(d, k, i, j)))
  }

  /** Row and column k do not change in round k: a detour through k to k costs something. */
  lemma PivotStays(d: Matrix, k: nat, i: nat)
    requires Square(d) && k < |d| && i < |d|
    ensures Cell(d, k, i, k) == d[i][k] && Cell(d, k, k, i) == d[k][i]
  {
  }

  lemma Join(m: Matrix, a: Link, b: Link, i: nat, k: nat, j: nat)
    requires Square(m) && i < |m| && k < |m| && j < |m| && Attained(m, a, i, k) && Attained(m, b, k, j)
    ensures Attained(m, Link(a.to, a.cost + b.cost), i, j)
  {
    var p :| AttainedBy(m, a, i, k, p);
    var q :| AttainedBy(m, b, k, j, q);
    var path := p + q[1..];
    CostSplit(m, path, |p| - 1);
    assert path[..|p|] == p && path[|p| - 1..] == q;
    assert AttainedBy(m, Link(a.to, a.cost + b.cost), i, j, path);
  }

  /** A walk that passes k: before the first time, and from then on. */
  lemma {:induction false} FirstPass(path: seq<nat>, k: nat, x: nat) returns (y: nat)
    requires 0 < x < |path| - 1 && path[x] == k
    ensures 0 < y < |path| - 1 && path[y] == k && forall z :: 0 < z < y ==> path[z] != k
    decreases x
  {
    if z :| 0 < z < x && path[z] == k {
      y := FirstPass(path, k, z);
    } else {
      y := x;
    }
  }

  lemma {:induction false} RoundBound(m: Matrix, d: Matrix, k: nat, i: nat, j: nat, path: seq<nat>)
    requires Square(m) && Right(m, d, k) && k < |m| && i < |m| && j < |m| && Through(m, path, i, j, k + 1)
    ensures Cell(d, k, i, j).cost <= CostOf(m, path)
    decreases |path|
  {
    if x :| 0 < x < |path| - 1 && path[x] == k {
      var y := FirstPass(path, k, x);
      var a, b := path[..y + 1], path[y..];
      CostSplit(m, path, y);
      assert Through(m, a, i, k, k);
      assert Through(m, b, k, j, k + 1);
      RoundBound(m, d, k, k, j, b);
      PivotStays(d, k, j);
    } else {
      assert Through(m, path, i, j, k);
    }
  }

  /** Each round extends the walks considered by one switch. */
  lemma RoundRight(m: Matrix, d: Matrix, k: nat)
    requires Square(m) && Right(m, d, k) && k < |m|
    ensures Right(m, Round(d, k), k + 1)
  {
    var r := Round(d, k);
    forall i, j | 0 <= i < |m| && 0 <= j < |m| ensures Attained(m, r[i][j], i, j) {
      assert Attained(m, d[i][k], i, k) && Attained(m, d[k][j], k, j) && Attained(m, d[i][j], i, j);
      Join(m, d[i][k], d[k][j], i, k, j);
    }
    forall i, j, path | 0 <= i < |m| && 0 <= j < |m| && Through(m, path, i, j, k + 1)
      ensures r[i][j].cost <= CostOf(m, path)
    {
      RoundBound(m, d, k, i, j, path);
    }
  }

  lemma Direct(m: Matrix)
    requires Square(m)
    ensures Right(m, m, 0)
  {
    forall i, j | 0 <= i < |m| && 0 <= j < |m| ensures Attained(m, m[i][j], i, j) {
      assert [i, j][1..] == [j];
      assert AttainedBy(m, m[i][j], i, j, [i, j]);
    }
    forall i, j, path | 0 <= i < |m| && 0 <= j < |m| && Through(m, path, i, j, 0)
      ensures m[i][j].cost <= CostOf(m, path)
    {
      var second := path[1];
      assert |path| == 2;
      assert path[1..] == [second];
    }
  }

  ghost function ValueOf(a: array2<Link>): (d: Matrix)
    requires a.Length0 == a.Length1
    reads a
    ensures |d| == a.Length0 && Square(d) && forall i, j :: 0 <= i < |d| && 0 <= j < |d| ==> d[i][j] == a[i, j]
  {
    seq(a.Length0, i requires 0 <= i < a.Length0 reads a => seq(a.Length0,
        j requires 0 <= j < a.Length0 reads a => a[i, j]))
  }

  /** The two inner loops, in place. */
  method RoundInPlace(a: array2<Link>, k: nat)
    requires a.Length0 == a.Length1 && k < a.Length0
    modifies a
    ensures ValueOf(a) == Round(old(ValueOf(a)), k)
  {
    ghost var d := ValueOf(a);
    var n := a.Length0;
    for i := 0 to n
      invariant forall x, y :: 0 <= x < n && 0 <= y < n ==> a[x, y] == if x < i then Cell(d, k, x, y) else d[x][y]
    {
      for j := 0 to n
        invariant forall x, y :: 0 <= x < n && 0 <= y < n ==>
                    a[x, y] == if x < i || (x == i && y < j) then Cell(d, k, x, y) else d[x][y]
      {
        PivotStays(d, k, i);
        PivotStays(d, k, j);
        if a[i, j].cost > a[i, k].cost + a[k, j].cost {
          a[i, j] := Link(a[i, k].to, a[i, k].cost + a[k, j].cost);
        }
      }
    }
    assert forall x :: 0 <= x < n ==> ValueOf(a)[x] == Round(d, k)[x];
  }

  /** The triple loop: no walk is cheaper than its cell, and each cell is attained by a walk whose first link has
      its `to`, although rows and columns are overwritten while they are read. */
  method ShortestPaths(m: Matrix) returns (a: array2<Link>)
    requires Square(m)
    ensures a.Length0 == a.Length1 == |m| && Right(m, ValueOf(a), |m|)
  {
    hide Right, Round;
    a := new Link[|m|, |m|]((i, j) requires 0 <= i < |m| && 0 <= j < |m| && Square(m) => m[i][j]);
    Direct(m);
    assert ValueOf(a) == m by { assert forall x :: 0 <= x < |m| ==> ValueOf(a)[x] == m[x]; }
    for k := 0 to |m|
      invariant Right(m, ValueOf(a), k)
    {
      RightSquare(m, ValueOf(a), k);
      RoundRight(m, ValueOf(a), k);
      RoundInPlace(a, k);
    }
  }

  lemma RightSquare(m: Matrix, d: Matrix, k: nat)
    requires Square(m) && Right(m, d, k)
    ensures Square(d) && |d| == |m|
  {
  }

  /** So at the end every walk at all is covered. */
  lemma EveryWalk(m: Matrix, d: Matrix, path: seq<nat>)
    requires Square(m) && Right(m, d, |m|) && IsWalk(m, path)
    ensures d[path[0]][path[|path| - 1]].cost <= CostOf(m, path)
  {
    assert Through(m, path, path[0], path[|path| - 1], |m|);
  }
}
