/** One batch of training: every worker copies its coordinates in from the parent array, applies its updates and
    copies the coordinates out again, all workers at once (apps/cyclades/src/Model/Model.h:90-95,
    include/tasvir/array.hpp:70-80, 127-155, apps/cyclades/src/Trainer/CycladesTrainer.h:72-88). */
module BatchRun {

  // The workers.

  /** Updates of datapoints of type D on arrays of values V: `update` computes, `touch` says which elements. `els` are
      the elements of each worker, `work` its datapoints. One worker, `home`, has the parent for its own array. */
  datatype Setup<!D, !V> = Setup(update: (D, seq<V>) -> seq<V>, touch: D -> set<nat>, els: seq<seq<nat>>,
                                 work: seq<seq<D>>, home: int)

  ghost predicate Agree<V>(a: seq<V>, b: seq<V>, els: seq<nat>) {
    |a| == |b| && forall e :: e in els && 0 <= e < |a| ==> a[e] == b[e]
  }

  /** Updates read and write only their own elements. */
  ghost predicate Local<D(!new), V(!new)>(c: Setup<D, V>) {
    && (forall d, s :: |c.update(d, s)| == |s|)
    && (forall d, s, e :: 0 <= e < |s| && e !in c.touch(d) ==> c.update(d, s)[e] == s[e])
    && (forall d, s, r, e :: AlikeOn(s, r, c.touch(d)) && 0 <= e < |s| && e in c.touch(d) ==>
          c.update(d, s)[e] == c.update(d, r)[e])
  }

  predicate AlikeOn<V(==)>(s: seq<V>, r: seq<V>, touch: set<nat>) {
    |s| == |r| && forall x :: x in touch && x < |s| ==> s[x] == r[x]
  }

  /** Workers have disjoint elements, and a worker's updates touch only its own. */
  ghost predicate Separate<D, V>(c: Setup<D, V>) {
    && |c.els| == |c.work|
    && (forall t, u, e :: 0 <= t < u < |c.els| && e in c.els[t] ==> e !in c.els[u])
    && (forall t, k, e :: 0 <= t < |c.els| && 0 <= k < |c.work[t]| && e in c.touch(c.work[t][k]) ==> e in c.els[t])
  }

  lemma UpdateAgrees<D(!new), V(!new)>(c: Setup<D, V>, t: nat, k: nat, s: seq<V>, r: seq<V>)
    requires Local(c) && Separate(c) && t < |c.els| && k < |c.work[t]| && Agree(s, r, c.els[t])
    ensures Agree(c.update(c.work[t][k], s), c.update(c.work[t][k], r), c.els[t])
  {
  }

  /** An update of worker t leaves the elements of the others alone. */
  lemma UpdateApart<D(!new), V(!new)>(c: Setup<D, V>, t: nat, k: nat, u: nat, s: seq<V>)
    requires Local(c) && Separate(c) && t < |c.els| && u < |c.els| && t != u && k < |c.work[t]|
    ensures Agree(c.update(c.work[t][k], s), s, c.els[u])
  {
  }

  /** The first k updates of worker t, run alone on s. */
  function Alone<D, V>(c: Setup<D, V>, t: nat, k: nat, s: seq<V>): seq<V>
    requires t < |c.work| && k <= |c.work[t]|
  {
    if k == 0 then s else c.update(c.work[t][k - 1], Alone(c, t, k - 1, s))
  }

  lemma {:induction false} AloneLength<D(!new), V(!new)>(c: Setup<D, V>, t: nat, k: nat, s: seq<V>)
    requires Local(c) && t < |c.work| && k <= |c.work[t]|
    ensures |Alone(c, t, k, s)| == |s|
  {
    if k > 0 {
      AloneLength(c, t, k - 1, s);
    }
  }

  // Any interleaving of the workers.

  datatype Pc = CopyIn | Updating | CopyOut | Finished

  datatype Worker<V> = Worker(pc: Pc, pos: nat, data: seq<V>)

  datatype State<V> = State(parent: seq<V>, workers: seq<Worker<V>>)

  /** The array a worker works on. */
  function Own<D, V>(c: Setup<D, V>, y: State<V>, t: nat): seq<V>
    requires t < |y.workers|
  {
    if t == c.home then y.parent else y.workers[t].data
  }

  /** The worker goes on with this in its array. */
  function With<D, V>(c: Setup<D, V>, y: State<V>, t: nat, pc: Pc, pos: nat, data: seq<V>): State<V>
    requires t < |y.workers|
  {
    if t == c.home then State(data, y.workers[t := Worker(pc, pos, y.workers[t].data)])
    else State(y.parent, y.workers[t := Worker(pc, pos, data)])
  }

  /** One element is copied in, one update made, or one element copied out. */
  ghost predicate Step<D, V>(c: Setup<D, V>, y: State<V>, z: State<V>, t: nat) {
    && t < |y.workers| == |c.els| == |c.work| && |Own(c, y, t)| == |y.parent|
    && var w, els := y.workers[t], c.els[t];
       match w.pc
       case CopyIn =>
         if w.pos < |els| then
           els[w.pos] < |y.parent| &&
               z == With(c, y, t, CopyIn, w.pos + 1, Own(c, y, t)[els[w.pos] := y.parent[els[w.pos]]])
         else z == With(c, y, t, Updating, 0, Own(c, y, t))
       case Updating =>
         if w.pos < |c.work[t]| then z == With(c, y, t, Updating, w.pos + 1, c.update(c.work[t][w.pos], Own(c, y, t)))
         else z == With(c, y, t, CopyOut, 0, Own(c, y, t))
       case CopyOut =>
         if w.pos < |els| then
           && els[w.pos] < |y.parent|
           && z == State(y.parent[els[w.pos] := Own(c, y, t)[els[w.pos]]],
               y.workers[t := Worker(CopyOut, w.pos + 1, w.data)])
         else z == With(c, y, t, Finished, 0, Own(c, y, t))
       case Finished => false
  }

  /** The result for worker t: its updates run alone on the parent as it was. */
  function Result<D, V>(c: Setup<D, V>, t: nat, was: seq<V>): seq<V>
    requires t < |c.work|
  {
    Alone(c, t, |c.work[t]|, was)
  }

  /** What a worker's place says about its own array and about its part of the parent. */
  ghost predicate Good<D, V>(c: Setup<D, V>, was: seq<V>, y: State<V>, t: nat)
    requires t < |y.workers| == |c.els| == |c.work|
  {
    var w, els, own := y.workers[t], c.els[t], Own(c, y, t);
    && |own| == |was| == |y.parent|
    && match w.pc
       case CopyIn => w.pos <= |els| && Agree(own, was, els[..w.pos]) && Agree(y.parent, was, els)
       case Updating =>
         && w.pos <= |c.work[t]| && Agree(own, Alone(c, t, w.pos, was), els)
         && (t != c.home ==> Agree(y.parent, was, els))
       case CopyOut =>
         w.pos <= |els| && Agree(own, Result(c, t, was), els) && Agree(y.parent, Result(c, t, was), els[..w.pos])
       case Finished => Agree(y.parent, Result(c, t, was), els)
  }

  /** Elements of no worker keep their value. */
  ghost predicate Rest<D, V>(c: Setup<D, V>, was: seq<V>, parent: seq<V>) {
    && |parent| == |was|
    && forall e :: 0 <= e < |was| && (forall t :: 0 <= t < |c.els| ==> e !in c.els[t]) ==> parent[e] == was[e]
  }

  ghost predicate Inv<D(!new), V(!new)>(c: Setup<D, V>, was: seq<V>, y: State<V>) {
    && Local(c) && Separate(c) && |y.workers| == |c.els| == |c.work|
    && (forall t, e :: 0 <= t < |c.els| && e in c.els[t] ==> e < |was|)
    && (forall t :: 0 <= t < |y.workers| ==> Good(c, was, y, t)) && Rest(c, was, y.parent)
  }

  // A step of a worker, seen from the worker.

  lemma OwnStep<D(!new), V(!new)>(c: Setup<D, V>, was: seq<V>, y: State<V>, z: State<V>, t: nat)
    requires Inv(c, was, y) && Step(c, y, z, t)
    ensures |z.workers| == |y.workers| && Good(c, was, z, t)
  {
    hide Local, Rest, Good, Agree;
    match y.workers[t].pc
    case CopyIn => OwnCopyIn(c, was, y, z, t);
    case Updating => OwnUpdate(c, was, y, z, t);
    case CopyOut => OwnCopyOut(c, was, y, z, t);
  }

  lemma OwnCopyIn<D(!new), V(!new)>(c: Setup<D, V>, was: seq<V>, y: State<V>, z: State<V>, t: nat)
    requires t < |y.workers| == |c.els| == |c.work| && Good(c, was, y, t) && y.workers[t].pc == CopyIn
    requires Step(c, y, z, t)
    ensures |z.workers| == |y.workers| && Good(c, was, z, t)
  {
    hide Agree;
    var w, els := y.workers[t], c.els[t];
    assert els[..|els|] == els;
    if w.pos < |els| {
      AgreeSnoc(Own(c, y, t), was, els, w.pos, y.parent);
      assert t == c.home ==> y.parent[els[w.pos] := y.parent[els[w.pos]]] == y.parent;
    }
  }

  lemma OwnUpdate<D(!new), V(!new)>(c: Setup<D, V>, was: seq<V>, y: State<V>, z: State<V>, t: nat)
    requires t < |y.workers| == |c.els| == |c.work| && Good(c, was, y, t) && y.workers[t].pc == Updating
    requires Step(c, y, z, t)
    requires Local(c) && Separate(c)
    ensures |z.workers| == |y.workers| && Good(c, was, z, t)
  {
    hide Agree, Local, Separate;
    var w, els := y.workers[t], c.els[t];
    AloneLength(c, t, w.pos, was);
    if w.pos < |c.work[t]| {
      UpdateAgrees(c, t, w.pos, Own(c, y, t), Alone(c, t, w.pos, was));
      UpdateLength(c, c.work[t][w.pos], Own(c, y, t));
    } else {
      NothingAgrees(y.parent, Result(c, t, was), els);
    }
  }

  lemma OwnCopyOut<D(!new), V(!new)>(c: Setup<D, V>, was: seq<V>, y: State<V>, z: State<V>, t: nat)
    requires t < |y.workers| == |c.els| == |c.work| && Good(c, was, y, t) && y.workers[t].pc == CopyOut
    requires Step(c, y, z, t)
    ensures |z.workers| == |y.workers| && Good(c, was, z, t)
  {
    hide Agree;
    var w, els := y.workers[t], c.els[t];
    assert els[..|els|] == els;
    if w.pos < |els| {
      AgreeSnoc(y.parent, Result(c, t, was), els, w.pos, Own(c, y, t));
      assert t == c.home ==> y.parent[els[w.pos] := y.parent[els[w.pos]]] == y.parent;
    }
  }

  /** Copying element els[k] from a source that has the right value there. */
  lemma AgreeSnoc<V>(a: seq<V>, b: seq<V>, els: seq<nat>, k: nat, src: seq<V>)
    requires k < |els| && els[k] < |a| == |src| && Agree(a, b, els[..k]) && Agree(src, b, els)
    ensures Agree(a[els[k] := src[els[k]]], b, els[..k + 1])
  {
    assert els[..k + 1] == els[..k] + [els[k]];
  }

  lemma NothingAgrees<V>(a: seq<V>, b: seq<V>, els: seq<nat>)
    requires |a| == |b|
    ensures Agree(a, b, els[..0])
  {
  }

  lemma UpdateLength<D(!new), V(!new)>(c: Setup<D, V>, d: D, s: seq<V>)
    requires Local(c)
    ensures |c.update(d, s)| == |s|
  {
  }

  // The same step, seen from the others.

  /** The parent changes in the worker's own elements at most. */
  lemma ParentApart<D(!new), V(!new)>(c: Setup<D, V>, y: State<V>, z: State<V>, t: nat, u: nat)
    requires Local(c) && Separate(c) && Step(c, y, z, t) && u < |y.workers| && u != t
    ensures |z.workers| == |y.workers| && z.workers[u] == y.workers[u] && Agree(z.parent, y.parent, c.els[u])
  {
    var w := y.workers[t];
    if w.pc.Updating? && w.pos < |c.work[t]| {
      UpdateApart(c, t, w.pos, u, Own(c, y, t));
    }
    hide Local;
  }

  lemma OtherStep<D(!new), V(!new)>(c: Setup<D, V>, was: seq<V>, y: State<V>, z: State<V>, t: nat, u: nat)
    requires Inv(c, was, y) && Step(c, y, z, t) && u < |y.workers| && u != t
    ensures |z.workers| == |y.workers| && Good(c, was, z, u)
  {
    hide Local, Separate, Step, Agree;
    ParentApart(c, y, z, t, u);
    assert Good(c, was, y, u);
    var w, els := y.workers[u], c.els[u];
    AgreeLength(z.parent, y.parent, els);
    KeepAgree(z.parent, y.parent, was, els);
    KeepAgree(z.parent, y.parent, Result(c, u, was), els);
    if w.pc.CopyIn? {
      KeepPrefix(z.parent, y.parent, was, els, w.pos);
    } else if w.pc.CopyOut? {
      KeepPrefix(z.parent, y.parent, Result(c, u, was), els, w.pos);
    } else if w.pc.Updating? {
      KeepAgree(z.parent, y.parent, Alone(c, u, w.pos, was), els);
    }
  }

  lemma AgreeLength<V>(a: seq<V>, b: seq<V>, els: seq<nat>)
    requires Agree(a, b, els)
    ensures |a| == |b|
  {
  }

  lemma KeepAgree<V>(z: seq<V>, y: seq<V>, r: seq<V>, els: seq<nat>)
    requires Agree(z, y, els)
    ensures Agree(y, r, els) ==> Agree(z, r, els)
  {
  }

  lemma KeepPrefix<V>(z: seq<V>, y: seq<V>, r: seq<V>, els: seq<nat>, k: nat)
    requires Agree(z, y, els) && k <= |els|
    ensures Agree(y, r, els[..k]) ==> Agree(z, r, els[..k])
  {
    assert forall e :: e in els[..k] ==> e in els;
  }

  lemma StepRest<D(!new), V(!new)>(c: Setup<D, V>, was: seq<V>, y: State<V>, z: State<V>, t: nat)
    requires Local(c) && Separate(c) && Rest(c, was, y.parent) && Step(c, y, z, t)
    ensures Rest(c, was, z.parent)
  {
    var w := y.workers[t];
    if t == c.home && w.pc.Updating? && w.pos < |c.work[t]| {
      UpdateRest(c, t, w.pos, was, y.parent);
    }
    hide Local, Separate;
  }

  lemma UpdateRest<D(!new), V(!new)>(c: Setup<D, V>, t: nat, k: nat, was: seq<V>, s: seq<V>)
    requires Local(c) && Separate(c) && t < |c.work| && k < |c.work[t]| && Rest(c, was, s)
    ensures Rest(c, was, c.update(c.work[t][k], s))
  {
  }

  lemma StepInv<D(!new), V(!new)>(c: Setup<D, V>, was: seq<V>, y: State<V>, z: State<V>, t: nat)
    requires Inv(c, was, y) && Step(c, y, z, t)
    ensures Inv(c, was, z)
  {
    hide Good, Local, Separate, Rest, Step;
    OwnStep(c, was, y, z, t);
    StepRest(c, was, y, z, t);
    forall u | 0 <= u < |z.workers| ensures Good(c, was, z, u) {
      if u != t {
        OtherStep(c, was, y, z, t, u);
      }
    }
  }

  /** All workers about to copy in. */
  ghost predicate Init<D(!new), V(!new)>(c: Setup<D, V>, y: State<V>) {
    && Local(c) && Separate(c) && |y.workers| == |c.els|
    && (forall t, e :: 0 <= t < |c.els| && e in c.els[t] ==> e < |y.parent|)
    && forall t :: 0 <= t < |y.workers| ==>
          y.workers[t].pc == CopyIn && y.workers[t].pos == 0 && |y.workers[t].data| == |y.parent|
  }

  lemma InitInv<D(!new), V(!new)>(c: Setup<D, V>, y: State<V>)
    requires Init(c, y)
    ensures Inv(c, y.parent, y)
  {
    hide Local;
    forall t | 0 <= t < |y.workers| ensures Good(c, y.parent, y, t) {
      assert c.els[t][..0] == [];
    }
  }

  ghost predicate AnyStep<D, V>(c: Setup<D, V>, y: State<V>, z: State<V>) {
    exists t :: Step(c, y, z, t)
  }

  ghost predicate Trace<D(!new), V(!new)>(c: Setup<D, V>, s: seq<State<V>>) {
    s != [] && Init(c, s[0]) && forall i :: 0 <= i < |s| - 1 ==> AnyStep(c, s[i], s[i + 1])
  }

  lemma {:induction false} TraceInv<D(!new), V(!new)>(c: Setup<D, V>, s: seq<State<V>>, i: nat)
    requires Trace(c, s) && i < |s|
    ensures Inv(c, s[0].parent, s[i])
  {
    hide Inv, Step, Init;
    if i == 0 {
      InitInv(c, s[0]);
    } else {
      TraceInv(c, s, i - 1);
      var t :| Step(c, s[i - 1], s[i], t);
      StepInv(c, s[0].parent, s[i - 1], s[i], t);
    }
  }

  // Serial runs.

  function Count(order: seq<nat>, t: nat): (n: nat)
    ensures n <= |order|
  {
    if order == [] then 0 else Count(order[..|order| - 1], t) + if order[|order| - 1] == t then 1 else 0
  }

  /** An order in which one thread runs updates: entry t stands for the next datapoint of worker t, so each
      worker's own order is kept. */
  ghost predicate Possible<D, V>(c: Setup<D, V>, order: seq<nat>) {
    (forall i :: 0 <= i < |order| ==> order[i] < |c.work|) && forall t :: 0 <= t < |c.work| ==>
          Count(order, t) <= |c.work[t]|
  }

  lemma PossibleInit<D, V>(c: Setup<D, V>, order: seq<nat>)
    requires Possible(c, order) && order != []
    ensures Possible(c, order[..|order| - 1])
    ensures var t := order[|order| - 1]; t < |c.work| && Count(order[..|order| - 1], t) < |c.work[t]|
  {
    forall t | 0 <= t < |c.work| ensures Count(order[..|order| - 1], t) <= Count(order, t) {
    }
  }

  ghost function Serial<D, V>(c: Setup<D, V>, order: seq<nat>, was: seq<V>): seq<V>
    requires Possible(c, order)
    decreases |order|
  {
    if order == [] then was
    else
      PossibleInit(c, order);
      var before, t := order[..|order| - 1], order[|order| - 1];
      c.update(c.work[t][Count(before, t)], Serial(c, before, was))
  }

  /** On the elements of worker u a serial run does what u would do alone. */
  lemma {:induction false} SerialAlone<D(!new), V(!new)>(c: Setup<D, V>, order: seq<nat>, was: seq<V>, u: nat)
    requires Local(c) && Separate(c) && Possible(c, order) && u < |c.work| == |c.els|
    ensures Agree(Serial(c, order, was), Alone(c, u, Count(order, u), was), c.els[u])
    decreases |order|
  {
    if order != [] {
      PossibleInit(c, order);
      hide Local, Separate, Agree;
      var before, t := order[..|order| - 1], order[|order| - 1];
      SerialAlone(c, before, was, u);
      var s := Serial(c, before, was);
      if t == u {
        UpdateAgrees(c, t, Count(before, t), s, Alone(c, u, Count(before, u), was));
      } else {
        UpdateApart(c, t, Count(before, t), u, s);
        AgreeTrans(Serial(c, order, was), s, Alone(c, u, Count(before, u), was), c.els[u]);
      }
    }
  }

  lemma AgreeTrans<V>(a: seq<V>, b: seq<V>, c: seq<V>, els: seq<nat>)
    requires Agree(a, b, els) && Agree(b, c, els)
    ensures Agree(a, c, els)
  {
  }

  lemma {:induction false} SerialRest<D(!new), V(!new)>(c: Setup<D, V>, order: seq<nat>, was: seq<V>)
    requires Local(c) && Separate(c) && Possible(c, order)
    ensures Rest(c, was, Serial(c, order, was))
    decreases |order|
  {
    if order != [] {
      PossibleInit(c, order);
      var before, t := order[..|order| - 1], order[|order| - 1];
      SerialRest(c, before, was);
      UpdateRest(c, t, Count(before, t), was, Serial(c, before, was));
    }
  }

  /** Serial equivalence: whatever the interleaving, when all workers have finished the parent is what one thread
      would have computed from it by running all the updates, in any order that keeps each worker's own. */
  lemma SerialEquivalence<D(!new), V(!new)>(c: Setup<D, V>, s: seq<State<V>>, i: nat, order: seq<nat>)
    requires Trace(c, s) && i < |s| && (forall t :: 0 <= t < |s[i].workers| ==> s[i].workers[t].pc == Finished)
    requires Possible(c, order) && forall t :: 0 <= t < |c.work| ==> Count(order, t) == |c.work[t]|
    ensures s[i].parent == Serial(c, order, s[0].parent)
  {
    var was, end := s[0].parent, s[i].parent;
    TraceInv(c, s, i);
    SerialRest(c, order, was);
    var r := Serial(c, order, was);
    hide Local, Trace, Serial;
    assert |end| == |r| == |was|;
    forall e | 0 <= e < |end| ensures end[e] == r[e] {
      if t :| 0 <= t < |c.els| && e in c.els[t] {
        assert Good(c, was, s[i], t);
        SerialAlone(c, order, was, t);
      }
    }
  }
}
