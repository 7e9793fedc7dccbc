/** The owner's code performs the steps of the cluster: an internal sync publishes, an external sync sends and rotates
    (src/sync_internal.c:149-214, src/sync_external.c:63-140). */
module Owner {
  import opened LogBits
  import opened Framing
  import opened RunLength
  import opened SyncWalk
  import opened SyncArea
  import opened DiffLogs
  import Replica
  import Cluster
  import Cooperative = InternalSync

  /** The area in memory is the owner's part of the cluster's state. */
  ghost predicate Stands(a: Area, y: Cluster.State)
    reads a, a.ro, a.rw, a.dirty, a.diff
  {
    && a.Shape() && a.local && a.units > 0 && |a.spans| == NR_AREA_LOGS && Cluster.Inv(y)
    && y.st == a.State() && y.spans == a.spans && y.rw == a.rw[..]
    && a.ro[..] == y.hist[|y.hist| - 1] && a.version == |y.hist| - 1
  }

  ghost predicate Path(s: seq<Cluster.State>) {
    s != [] && forall i :: 0 <= i < |s| - 1 ==> Cluster.Step(s[i], s[i + 1])
  }

  lemma {:induction false} PathInv(s: seq<Cluster.State>, i: nat)
    requires Path(s) && i < |s| && Cluster.Inv(s[0])
    ensures Cluster.Inv(s[i])
  {
    hide Cluster.Inv, Cluster.Step;
    if i > 0 {
      PathInv(s, i - 1);
      Cluster.StepInv(s[i - 1], s[i]);
    }
  }

  lemma PathSnoc(s: seq<Cluster.State>, z: Cluster.State)
    requires Path(s) && Cluster.Step(s[|s| - 1], z)
    ensures Path(s + [z])
  {
    hide Cluster.Step;
    var t := s + [z];
    forall i | 0 <= i < |t| - 1 ensures Cluster.Step(t[i], t[i + 1]) {
      assert i < |s| - 1 ==> t[i] == s[i] && t[i + 1] == s[i + 1];
    }
  }

  /** The rotations due, as steps. */
  lemma {:induction false} RotatePath(s: seq<Cluster.State>, i: nat, now: nat) returns (t: seq<Cluster.State>)
    requires s != [] && Path(s) && i + 1 < NR_AREA_LOGS
    requires WellFormed(s[|s| - 1].st) && |s[|s| - 1].spans| == NR_AREA_LOGS
    ensures s <= t && Path(t)
    ensures var y := s[|s| - 1];
            t[|t| - 1] == y.(st := RotatedLogs(y.st, y.spans, i, now), spans := RotatedSpans(y.spans, i, now))
    decreases i
  {
    hide Cluster.Step, Path, RotateLog, RotateSpan, RotateDue;
    var y := s[|s| - 1];
    if i == 0 {
      t := s;
    } else if RotateDue(y.spans[i], i, now) {
      var z := y.(st := RotateLog(y.st, i), spans := RotateSpan(y.spans, i));
      RotateStep(y, z, i);
      PathSnoc(s, z);
      assert (s + [z])[|s|] == z && (s + [z])[0] == s[0];
      t := RotatePath(s + [z], i - 1, now);
      assert s <= s + [z] <= t;
    } else {
      t := RotatePath(s, i - 1, now);
    }
  }

  lemma RotateStep(y: Cluster.State, z: Cluster.State, i: nat)
    requires WellFormed(y.st) && 0 < i && i + 1 < NR_AREA_LOGS == |y.spans|
    requires z == y.(st := RotateLog(y.st, i), spans := RotateSpan(y.spans, i))
    ensures Cluster.Step(y, z) && |z.spans| == NR_AREA_LOGS
  {
    assert Cluster.Rotate(y, z, i);
  }

  /** The subscribers with a stream on its way to each of them. */
  ghost function Informed(y: Cluster.State, pivot: nat, runs: seq<Run>): (subs: seq<Replica.Subscriber>)
    requires pivot <= |y.spans| && forall x :: x in runs ==> InMemory(x, |y.hist[|y.hist| - 1]|)
    ensures |subs| == |y.subs|
  {
    seq(|y.subs|, k requires 0 <= k < |y.subs| =>
      if runs == [] then y.subs[k] else Replica.Expect(y.subs[k], Cluster.FlightOf(y, pivot, runs)))
  }

  /** Walk and rotations are a sending step followed by rotation steps. */
  lemma SendPath(y: Cluster.State, pivot: nat, runs: seq<Run>, now: nat, st': LogState, spans': seq<Span>)
    returns (s: seq<Cluster.State>)
    requires Cluster.Inv(y) && Cluster.PivotFits(y, pivot) && |y.hist| > 1
    requires MaximalRuns(UnitBits(Seen(y.st, 0, |y.st.dirty|, pivot)), 0, runs)
    requires forall x :: x in runs ==> InMemory(x, |y.hist[|y.hist| - 1]|)
    requires Moved(y.st, y.spans, st', spans', pivot, runs, now)
    ensures |s| > 1 && Path(s) && s[0] == y && Cluster.Send(y, s[1], pivot, runs) &&
            Rotations(s[1], s[|s| - 1], runs, now)
    ensures s[|s| - 1] == y.(st := st', spans := spans', subs := Informed(y, pivot, runs))
  {
    hide Cluster.Step, Cluster.Inv, Sweep, MaximalRuns, RotatedLogs, RotatedSpans, Seen, UnitBits;
    var z := y.(st := Sweep(y.st, 0, |y.st.dirty|, pivot, true), subs := Informed(y, pivot, runs),
                spans := if runs != [] then SplitSpan(y.spans) else y.spans);
    assert Cluster.Send(y, z, pivot, runs);
    SendIsStep(y, z, pivot, runs);
    s := [y, z];
    if runs != [] {
      s := RotatePath(s, 2, now);
    }
  }

  lemma SendIsStep(y: Cluster.State, z: Cluster.State, pivot: nat, runs: seq<Run>)
    requires Cluster.Send(y, z, pivot, runs)
    ensures Cluster.Step(y, z)
  {
  }

  /** The versions in the slots that are taken; the others are passed over (src/sync_external.c:114-116). */
  function Listed(users: seq<User>): seq<nat> {
    if users == [] then [] else (if users[0].listed then [users[0].version] else []) + Listed(users[1..])
  }

  lemma {:induction false} ListedAt(users: seq<User>, v: nat)
    requires v in Listed(users)
    ensures exists i :: 0 <= i < |users| && users[i].listed && users[i].version == v
  {
    if !(users[0].listed && users[0].version == v) {
      ListedAt(users[1..], v);
      var i :| 0 <= i < |users[1..]| && users[1..][i].listed && users[1..][i].version == v;
      assert users[i + 1] == users[1..][i];
    }
  }

  /** The listed users are the subscribers, with the versions they report. */
  ghost predicate ListsAll(users: seq<User>, subs: seq<Replica.Subscriber>) {
    |Listed(users)| == |subs| && forall k :: 0 <= k < |subs| ==> Listed(users)[k] == subs[k].reported
  }

  lemma PivotListed(y: Cluster.State, users: seq<User>, pivot: nat)
    requires ListsAll(users, y.subs) && Admissible(y.spans, users, pivot) && pivot > 0
    ensures Cluster.PivotFits(y, pivot)
  {
    if pivot < NR_AREA_LOGS {
      forall k | 0 <= k < |y.subs| ensures y.spans[pivot].verEnd <= y.subs[k].reported {
        ListedAt(users, Listed(users)[k]);
      }
    }
  }

  /** External sync of an area whose listed users are the subscribers: unless it is not due, nothing has been published
      or everybody is past log 0, it is a sending step with the pivot chosen, followed by the rotations due. What it
      leaves in memory is the end of that path, and the packets it puts on the ring are those that went to every
      subscriber. */
  method ExternalSync(a: Area, l: SyncList, users: seq<User>, init: bool, due: bool, lastExtEnd: nat, now: nat,
                      ghost y: Cluster.State)
    returns (ghost s: seq<Cluster.State>, ghost pivot: nat, ghost runs: seq<Run>)
    requires Stands(a, y) && |y.hist| - 1 < NO_VERSION && l.Valid() && l.Items() == [] && l.changed == 0
    requires ListsAll(users, y.subs)
    modifies a, a.diff[0], a.diff[1], a.diff[2], a.diff[3], a.dirty, a.ro, l, l.l
    ensures Path(s) && s[0] == y && Stands(a, s[|s| - 1]) && l.Valid() && l.Items() == [] && l.changed == 0
    ensures var ran := due && |y.hist| > 1;
            && (ran ==> Chosen(y.spans, users, lastExtEnd, init, pivot))
            && (if ran && pivot > 0 then |s| > 1 && Cluster.Send(y, s[1], pivot, runs) &&
                                         Rotations(s[1], s[|s| - 1], runs, now)
                else s == [y])
    ensures old(a.tx) <= a.tx && |s[|s| - 1].subs| == |y.subs|
    ensures forall k :: 0 <= k < |y.subs| ==> s[|s| - 1].subs[k].net == y.subs[k].net + a.tx[|old(a.tx)|..]
  {
    hide Cluster.Step, Cluster.Inv, Covers, MaximalRuns, Seen, UnitBits, Stream, Moved, Brings, WellFramed, Path;
    hide ListsAll, Chosen, Cluster.Send, Rotations;
    OwnerParts(y);
    ghost var ran;
    var bytes;
    ghost var tx := a.tx;
    bytes, ran, runs, pivot := SyncExternalArea(a, l, users, init, due, lastExtEnd, now, y.hist);
    if ran && pivot > 0 {
      PivotListed(y, users, pivot);
      s := SendPath(y, pivot, runs, now, a.State(), a.spans);
    } else {
      s := [y];
      assert Path(s) by { OnePath(y); }
    }
    PathInv(s, |s| - 1);
    NetGrows(y, s[|s| - 1].subs, pivot, runs, tx, a.tx, a.version, a.ro[..]);
  }

  /** After a walk that sent something the logs due are rotated, the older one first; nothing else changes. */
  ghost predicate Rotations(y: Cluster.State, z: Cluster.State, runs: seq<Run>, now: nat) {
    if runs == [] then z == y
    else
      && WellFormed(y.st) && |y.spans| == NR_AREA_LOGS
      && z == y.(st := RotatedLogs(y.st, y.spans, 2, now), spans := RotatedSpans(y.spans, 2, now))
  }

  lemma OnePath(y: Cluster.State)
    ensures Path([y])
  {
  }

  lemma OwnerParts(y: Cluster.State)
    requires Cluster.Inv(y)
    ensures Covers(y.st, y.spans, y.hist) && Spanned(y.spans, |y.hist| - 1)
  {
  }

  lemma NetGrows(y: Cluster.State, subs: seq<Replica.Subscriber>, pivot: nat, runs: seq<Run>, tx: seq<Packet>,
                 tx': seq<Packet>, v: nat, mem: seq<Line>)
    requires pivot <= |y.spans| && v == |y.hist| - 1 && mem == y.hist[v] && forall x :: x in runs ==> InMemory(x, |mem|)
    requires subs == if runs == [] then y.subs else Informed(y, pivot, runs)
    requires tx' == tx + Stream(v, runs, 0, true, mem)
    ensures tx <= tx' && |subs| == |y.subs|
    ensures forall k :: 0 <= k < |y.subs| ==> subs[k].net == y.subs[k].net + tx'[|tx|..]
  {
    hide Stream;
    var more := Stream(v, runs, 0, true, mem);
    assert tx'[|tx|..] == more;
    if runs == [] {
      EmptyStream([], v, mem);
      assert forall k :: 0 <= k < |y.subs| ==> y.subs[k].net + more == y.subs[k].net;
    } else {
      assert Replica.Packets(Cluster.FlightOf(y, pivot, runs)) == more;
    }
  }

  /** Internal sync of an area the owner has to itself: a publication if anything is dirty, nothing otherwise. */
  method InternalSync(a: Area, l: SyncList, chunk: nat, now: nat, ghost y: Cluster.State)
    returns (ghost s: seq<Cluster.State>)
    requires Stands(a, y) && chunk > 0 && l.Valid() && l.Items() == [] && l.changed == 0
    modifies a`tx, a`extBytes, a`spans, a`version, a.diff[0], a.diff[1], a.dirty, a.ro, l, l.l
    ensures Path(s) && s[0] == y && Stands(a, s[|s| - 1]) && l.Valid() && l.Items() == [] && l.changed == 0
    ensures if NoneDirty(y.st.dirty) then s == [y] else |s| == 2 && Cluster.Publish(y, s[1], now)
  {
    hide Cluster.Step, Cluster.Inv, Covers, Path, PublishLog, MarkHeader, PublishSpan, NoneDirty;
    OwnerParts(y);
    OwnerLogged(y, a);
    ghost var hist' := SyncInternalArea(a, l, chunk, now, y.hist);
    if NoneDirty(y.st.dirty) {
      s := [y];
      OnePath(y);
    } else {
      ghost var z := y.(hist := hist', st := a.State(), spans := a.spans);
      PublishStep(y, z, now);
      OnePath(y);
      PathSnoc([y], z);
      s := [y] + [z];
    }
    PathInv(s, |s| - 1);
  }

  lemma PublishStep(y: Cluster.State, z: Cluster.State, now: nat)
    requires Cluster.Publish(y, z, now)
    ensures Cluster.Step(y, z)
  {
  }

  lemma OwnerLogged(y: Cluster.State, a: Area)
    requires Cluster.Inv(y) && a.Shape() && y.st == a.State() && y.rw == a.rw[..] && a.ro[..] == y.hist[|y.hist| - 1]
    ensures Logged(a)
  {
  }

  // The same for an area that all threads of the node sync together.

  /** The lines whose bits are set. */
  ghost function LinesIn(log: seq<Unit>): set<nat> {
    set line: nat | line < 64 * |log| && Dirty(log, line)
  }

  /** The job's memory is the owner's part of the cluster's state. */
  ghost predicate Mirrors(j: Cooperative.State, y: Cluster.State) {
    && WellFormed(y.st) && j.job.rw == y.rw && j.ro == y.hist[|y.hist| - 1] && j.version == |y.hist| - 1
    && j.dirty == LinesIn(y.st.dirty) && j.log0 == LinesIn(y.st.logs[0])
  }

  lemma PublishedLines(st: LogState)
    requires WellFormed(st) && |st.dirty| > 0
    ensures var r := MarkHeader(PublishLog(st));
            LinesIn(r.dirty) == {} && LinesIn(r.logs[0]) == LinesIn(st.logs[0]) + LinesIn(st.dirty) + {1}
  {
    var r, mid := MarkHeader(PublishLog(st)), PublishLog(st);
    SweepAt(st, 0, |st.dirty|, 0, true);
    forall line: nat | line < 64 * |st.dirty|
      ensures !Dirty(r.dirty, line)
      ensures Dirty(r.logs[0], line) <==> Dirty(st.logs[0], line) || Dirty(st.dirty, line) || line == 1
    {
      assert LaneOf(mid, line / 64)[0] == Or(st.dirty[line / 64], st.logs[0][line / 64]);
    }
    hide Dirty, Sweep, MarkHeader;
    assert forall line :: line in LinesIn(r.logs[0]) <==> line in LinesIn(st.logs[0]) + LinesIn(st.dirty) + {1};
  }

  /** A finished cooperative sync of a local area, whatever the interleaving, is one publication step if anything was
      dirty, and no step otherwise. */
  lemma CooperativeSync(s: seq<Cooperative.State>, i: nat, y: Cluster.State, now: nat) returns (z: Cluster.State)
    requires Cooperative.Trace(s) && i < |s| && s[i].stage2 && s[0].job.local
    requires Cluster.OwnerInv(y) && |y.st.dirty| > 0 && Mirrors(s[0], y)
    ensures Mirrors(s[i], z) && if s[0].dirty == {} then z == y else Cluster.Publish(y, z, now)
  {
    hide Cooperative.Step, Cooperative.Inv, Cooperative.Decided;
    Cooperative.TraceInv(s, i);
    Cooperative.DoneMeansSynced(s, i);
    assert Cooperative.Init(s[0]);
    hide Cooperative.Trace, Covers, LinesIn, PublishLog, MarkHeader;
    if s[0].dirty == {} {
      assert s[0].ro == s[0].job.rw;
      z := y;
    } else {
      z := y.(hist := y.hist + [y.rw], st := MarkHeader(PublishLog(y.st)),
              spans := PublishSpan(y.spans, |y.hist|, now));
      PublishedLines(y.st);
    }
  }
}
