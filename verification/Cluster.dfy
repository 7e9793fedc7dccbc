/** The owner of an area together with all its subscribers, as a state machine over every interleaving of writes,
    publications, external syncs, rotations, packet arrivals, internal syncs of the subscribers and version
    reports (src/sync_internal.c:110-121, 149-214, src/sync_external.c:5-140, src/service.c:132-137). */
module Cluster {
  import opened LogBits
  import opened Framing
  import opened RunLength
  import opened SyncWalk
  import opened SyncArea
  import opened DiffLogs
  import opened Replica

  datatype State = State(hist: History, st: LogState, spans: seq<Span>, rw: seq<Line>, subs: seq<Subscriber>)

  /** Application writes: every line written is logged. */
  ghost predicate Write(y: State, z: State) {
    && z == y.(rw := z.rw, st := y.st.(dirty := z.st.dirty))
    && |z.rw| == |y.rw| && |z.st.dirty| == |y.st.dirty|
    && (forall line: nat :: Dirty(y.st.dirty, line) ==> Dirty(z.st.dirty, line))
    && (forall line :: 0 <= line < |y.rw| && y.rw[line] != z.rw[line] ==> Dirty(z.st.dirty, line))
  }

  /** An internal sync at the owner publishes RW as the next version. */
  ghost predicate Publish(y: State, z: State, now: nat) {
    && WellFormed(y.st) && |y.st.dirty| > 0 && |y.spans| == NR_AREA_LOGS
    && z == y.(hist := y.hist + [y.rw], st := MarkHeader(PublishLog(y.st)),
        spans := PublishSpan(y.spans, |y.hist|, now))
  }

  /** The pivot is one that the choice of src/sync_external.c:112-122 allows for these reported versions. */
  ghost predicate PivotFits(y: State, pivot: nat) {
    && 0 < pivot <= NR_AREA_LOGS == |y.spans|
    && (pivot < NR_AREA_LOGS ==> forall k :: 0 <= k < |y.subs| ==> y.spans[pivot].verEnd <= y.subs[k].reported)
  }

  function FlightOf(y: State, pivot: nat, runs: seq<Run>): Flight
    requires pivot <= |y.spans|
  {
    Flight(|y.hist| - 1, if pivot < |y.spans| then y.spans[pivot].verEnd else 0, runs, y.hist[|y.hist| - 1])
  }

  /** An external sync at the owner: the runs of the OR of the logs below the pivot go to every subscriber. */
  ghost predicate Send(y: State, z: State, pivot: nat, runs: seq<Run>) {
    && WellFormed(y.st) && PivotFits(y, pivot) && |y.hist| > 1
    && MaximalRuns(UnitBits(Seen(y.st, 0, |y.st.dirty|, pivot)), 0, runs)
    && (forall x :: x in runs ==> InMemory(x, |y.hist[|y.hist| - 1]|))
    && |z.subs| == |y.subs|
    && z == y.(st := Sweep(y.st, 0, |y.st.dirty|, pivot, true), subs := z.subs,
               spans := if runs != [] then SplitSpan(y.spans) else y.spans)
    && forall k :: 0 <= k < |y.subs| ==>
         z.subs[k] == if runs == [] then y.subs[k] else Expect(y.subs[k], FlightOf(y, pivot, runs))
  }

  ghost predicate Rotate(y: State, z: State, i: nat) {
    && WellFormed(y.st) && 0 < i && i + 1 < NR_AREA_LOGS == |y.spans|
    && z == y.(st := RotateLog(y.st, i), spans := RotateSpan(y.spans, i))
  }

  /** A step of one subscriber: a packet arrives, an internal sync takes place, or its node area brings the
      owner the version of its RO copy, possibly an old one. */
  ghost predicate SubscriberStep(s: Subscriber, t: Subscriber) {
    || (Sized(s) && s.net != [] && Fits(s.net[0], |s.rw|) && (t == Deliver(s, true) || t == Deliver(s, false)))
    || (Drainable(s) && t == SyncInternal(s))
    || (s.reported <= t.reported <= s.roVersion && t == s.(reported := t.reported))
  }

  ghost predicate Local(y: State, z: State, k: nat) {
    k < |y.subs| == |z.subs| && z == y.(subs := y.subs[k := z.subs[k]]) && SubscriberStep(y.subs[k], z.subs[k])
  }

  ghost predicate Step(y: State, z: State) {
    || Write(y, z)
    || (exists now :: Publish(y, z, now))
    || (exists pivot, runs :: Send(y, z, pivot, runs))
    || (exists i :: Rotate(y, z, i))
    || (exists k: nat :: Local(y, z, k))
  }

  /** The owner's side of the invariant. */
  ghost predicate OwnerInv(y: State) {
    && Covers(y.st, y.spans, y.hist) && |y.rw| == 64 * |y.st.dirty|
    && forall line :: 0 <= line < |y.rw| && y.rw[line] != y.hist[|y.hist| - 1][line] ==> Dirty(y.st.dirty, line)
  }

  ghost predicate Inv(y: State) {
    OwnerInv(y) && forall k :: 0 <= k < |y.subs| ==> SubInv(y.subs[k], y.hist)
  }

  /** All data alike, no version yet, nothing under way. */
  ghost predicate Init(y: State) {
    && WellFormed(y.st) && |y.hist| == 1 && y.rw == y.hist[0] && |y.rw| == 64 * |y.st.dirty|
    && y.spans == seq(NR_AREA_LOGS, _ => Span(0, 0, 0, 0))
    && forall k :: 0 <= k < |y.subs| ==>
         y.subs[k] == Subscriber(y.rw, y.rw, seq(|y.rw|, _ => false), false, false, false, 0, 0, 0, 0, 0, [], [], 0)
  }

  lemma InitInv(y: State)
    requires Init(y)
    ensures Inv(y)
  {
    forall k | 0 <= k < |y.subs| ensures SubInv(y.subs[k], y.hist) {
      assert Idle(y.subs[k], y.hist, [], []);
    }
  }

  lemma SubConsistent(s: Subscriber, hist: History)
    requires SubInv(s, hist)
    ensures Consistent(s, hist)
  {
  }

  lemma WriteKeeps(y: State, z: State)
    requires OwnerInv(y) && Write(y, z)
    ensures OwnerInv(z)
  {
    hide Holds;
  }

  lemma PublishKeepsOwner(y: State, z: State, now: nat)
    requires OwnerInv(y) && Publish(y, z, now)
    ensures OwnerInv(z)
  {
    PublishCovers(y.st, y.spans, y.hist, y.rw, now);
    MarkCovers(PublishLog(y.st), z.spans, z.hist);
  }

  lemma PublishKeepsInv(y: State, z: State, now: nat)
    requires Inv(y) && Publish(y, z, now)
    ensures Inv(z)
  {
    PublishKeepsOwner(y, z, now);
    hide OwnerInv, SubInv;
    forall k | 0 <= k < |y.subs| ensures SubInv(z.subs[k], z.hist) {
      PublishFits(y);
      SubConsistent(y.subs[k], y.hist);
      GrowKeeps(y.subs[k], y.hist, y.rw);
    }
  }

  lemma PublishFits(y: State)
    requires OwnerInv(y)
    ensures |y.rw| == |y.hist[|y.hist| - 1]|
  {
  }

  /** By delta sufficiency the stream is good for every version from its base on. */
  lemma FlightSent(y: State, pivot: nat, runs: seq<Run>)
    requires OwnerInv(y) && PivotFits(y, pivot) && |y.hist| > 1 && runs != []
    requires MaximalRuns(UnitBits(Seen(y.st, 0, |y.st.dirty|, pivot)), 0, runs)
    ensures Sent(FlightOf(y, pivot, runs), y.hist)
  {
    var f, now := FlightOf(y, pivot, runs), |y.hist| - 1;
    if pivot < NR_AREA_LOGS {
      SpanBelow(y.spans, now, pivot);
    }
    forall h | f.base <= h <= f.version ensures Updates(f, y.hist[h]) {
      PivotBrings(y.st, y.spans, y.hist, pivot, runs, h);
    }
  }

  lemma SendKeepsOwner(y: State, z: State, pivot: nat, runs: seq<Run>)
    requires OwnerInv(y) && Send(y, z, pivot, runs)
    ensures OwnerInv(z)
  {
    hide MaximalRuns, Seen, UnitBits, Sweep, Holds;
    if runs == [] {
      NothingSeen(y.st, pivot, runs);
    }
    SendCovers(y.st, y.spans, y.hist, pivot, runs != []);
    SweepAt(y.st, 0, |y.st.dirty|, pivot, true);
    assert forall u :: 0 <= u < |y.st.dirty| ==> z.st.dirty[u] == y.st.dirty[u];
  }

  lemma SendKeepsInv(y: State, z: State, pivot: nat, runs: seq<Run>)
    requires Inv(y) && Send(y, z, pivot, runs)
    ensures Inv(z)
  {
    hide OwnerInv, SubInv, MaximalRuns, Seen, UnitBits, Sweep, Sent;
    SendKeepsOwner(y, z, pivot, runs);
    if runs != [] {
      FlightSent(y, pivot, runs);
    }
    forall k | 0 <= k < |y.subs| ensures SubInv(z.subs[k], z.hist) {
      if runs != [] {
        SubConsistent(y.subs[k], y.hist);
        SendKeeps(y.subs[k], y.hist, FlightOf(y, pivot, runs));
      }
    }
  }

  /** Whatever the subscribers do, every step keeps the owner's side. */
  lemma OwnerKeeps(y: State, z: State)
    requires OwnerInv(y) && Step(y, z)
    ensures OwnerInv(z)
  {
    hide OwnerInv, MaximalRuns, SubscriberStep;
    if Write(y, z) {
      WriteKeeps(y, z);
    } else if now :| Publish(y, z, now) {
      PublishKeepsOwner(y, z, now);
    } else if pivot, runs :| Send(y, z, pivot, runs) {
      SendKeepsOwner(y, z, pivot, runs);
    } else if i :| Rotate(y, z, i) {
      RotateKeeps(y, z, i);
    } else {
      SubscribersOnly(y, z);
    }
  }

  lemma RotateKeeps(y: State, z: State, i: nat)
    requires OwnerInv(y) && Rotate(y, z, i)
    ensures OwnerInv(z)
  {
    RotateCovers(y.st, y.spans, y.hist, i);
    hide Covers;
  }

  lemma SubscribersOnly(y: State, z: State)
    requires OwnerInv(y) && z == y.(subs := z.subs)
    ensures OwnerInv(z)
  {
    hide Covers;
  }

  lemma ReportKeeps(s: Subscriber, hist: History, r: nat)
    requires SubInv(s, hist) && s.reported <= r <= s.roVersion
    ensures SubInv(s.(reported := r), hist)
  {
    if tail: seq<Packet>, fl: seq<Flight> :| Idle(s, hist, tail, fl) {
      assert Idle(s.(reported := r), hist, tail, fl);
    } else {
      var cur, done, rest, fl :| Receiving(s, hist, cur, done, rest, fl);
      assert Receiving(s.(reported := r), hist, cur, done, rest, fl);
    }
  }

  /** A step of one subscriber keeps its invariant and never takes its RO copy back to an older version. */
  lemma SubscriberKeeps(s: Subscriber, t: Subscriber, hist: History)
    requires SubInv(s, hist) && SubscriberStep(s, t)
    ensures SubInv(t, hist) && s.roVersion <= t.roVersion
    ensures s.pending ==> t.ro == s.ro
  {
    hide SubInv, Drain, Store, LogLines;
    if t == s.(reported := t.reported) && s.reported <= t.reported <= s.roVersion {
      ReportKeeps(s, hist, t.reported);
    } else if Drainable(s) && t == SyncInternal(s) {
      SyncKeeps(s, hist);
    } else {
      DeliverKeeps(s, hist, true);
      DeliverKeeps(s, hist, false);
    }
  }

  /** Every step keeps the invariant. */
  lemma StepInv(y: State, z: State)
    requires Inv(y) && Step(y, z)
    ensures Inv(z)
  {
    hide SubInv, Covers, MaximalRuns, SubscriberStep;
    if Write(y, z) {
      WriteKeeps(y, z);
    } else if now :| Publish(y, z, now) {
      PublishKeepsInv(y, z, now);
    } else if pivot, runs :| Send(y, z, pivot, runs) {
      SendKeepsInv(y, z, pivot, runs);
    } else if i :| Rotate(y, z, i) {
      RotateKeeps(y, z, i);
    } else {
      var k: nat :| Local(y, z, k);
      SubscriberKeeps(y.subs[k], z.subs[k], y.hist);
    }
  }

  /** A step takes no subscriber back, rewrites no published version and does not publish a pending stream. */
  ghost predicate Forward(y: State, z: State) {
    && |y.subs| == |z.subs| && y.hist <= z.hist
    && forall k :: 0 <= k < |y.subs| ==> y.subs[k].roVersion <= z.subs[k].roVersion
  }

  lemma StepForward(y: State, z: State)
    requires Inv(y) && Step(y, z)
    ensures Forward(y, z)
    ensures forall k :: 0 <= k < |y.subs| && y.subs[k].pending ==> z.subs[k].ro == y.subs[k].ro
  {
    hide SubInv, Covers, MaximalRuns, SubscriberStep;
    if k: nat :| Local(y, z, k) {
      SubscriberKeeps(y.subs[k], z.subs[k], y.hist);
    }
  }

  /** A run: states linked by steps, from an initial one. */
  ghost predicate Trace(t: seq<State>) {
    t != [] && Init(t[0]) && forall i :: 0 <= i < |t| - 1 ==> Step(t[i], t[i + 1])
  }

  lemma {:induction false} TraceInv(t: seq<State>, i: nat)
    requires Trace(t) && i < |t|
    ensures Inv(t[i])
  {
    hide Init, Step, Inv;
    if i == 0 {
      InitInv(t[0]);
    } else {
      TraceInv(t, i - 1);
      StepInv(t[i - 1], t[i]);
    }
  }

  lemma {:induction false} TraceForward(t: seq<State>, i: nat, j: nat)
    requires Trace(t) && i <= j < |t|
    ensures Forward(t[i], t[j])
    decreases j
  {
    hide Init, Step, Inv;
    if i < j {
      TraceForward(t, i, j - 1);
      TraceInv(t, j - 1);
      StepForward(t[j - 1], t[j]);
    }
  }

  /** Replica snapshot consistency: in every run, each subscriber's RO copy is the owner's data at exactly the
      version in its RO header, that version never goes back, and what a version means never changes. */
  lemma SnapshotConsistency(t: seq<State>, i: nat, j: nat, k: nat)
    requires Trace(t) && i <= j < |t| && k < |t[i].subs|
    ensures |t[j].subs| == |t[i].subs|
    ensures var s := t[i].subs[k]; s.roVersion < |t[i].hist| && s.ro == t[i].hist[s.roVersion]
    ensures t[i].subs[k].roVersion <= t[j].subs[k].roVersion
    ensures t[i].hist <= t[j].hist
    ensures !t[i].subs[k].ignore
  {
    hide Init, Step, SubInv;
    TraceInv(t, i);
    TraceForward(t, i, j);
    SubConsistent(t[i].subs[k], t[i].hist);
  }

  /** Delta sufficiency in every reachable state: the logs below an admissible pivot hold every line that
      differs between any subscriber's reported version and the current one. */
  lemma TraceDelta(t: seq<State>, i: nat, pivot: nat, k: nat, line: nat)
    requires Trace(t) && i < |t| && PivotFits(t[i], pivot) && k < |t[i].subs| && line < |t[i].rw|
    ensures var y, u := t[i], t[i].subs[k].reported;
            && WellFormed(y.st) && u < |y.hist| && line < |y.hist[u]| == |y.hist[|y.hist| - 1]|
            && (y.hist[u][line] != y.hist[|y.hist| - 1][line] ==> InFirst(y.st, pivot, line))
  {
    hide Init, Step, SubInv, Holds;
    TraceInv(t, i);
    SubConsistent(t[i].subs[k], t[i].hist);
    DeltaSufficient(t[i].st, t[i].spans, t[i].hist, pivot, t[i].subs[k].reported, line);
  }

  /** Nothing sent is lost on the way: once all packets have arrived, the next internal sync of the subscriber
      makes its RO copy the last version sent. */
  lemma Convergence(t: seq<State>, i: nat, k: nat)
    requires Trace(t) && i < |t| && k < |t[i].subs| && t[i].subs[k].queue + t[i].subs[k].net == []
    ensures var s := t[i].subs[k];
            && Drainable(s) && s.sent < |t[i].hist| && SyncInternal(s).ro == t[i].hist[s.sent]
            && SyncInternal(s).roVersion == s.sent
  {
    var s := t[i].subs[k];
    hide Init, Step, SubInv, SyncInternal;
    TraceInv(t, i);
    ArrivedHolds(s, t[i].hist);
    SyncKeeps(s, t[i].hist);
  }
}
