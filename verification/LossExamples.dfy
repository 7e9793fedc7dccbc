/** Two runs of the system with loss, from empty logs, that end with a mixture of versions published: one in which the
    guard fires, and one in which it does not (src/sync_external.c:18-49, 101-140, src/sync_internal.c:194-203). */
module LossExamples {
  import opened LogBits
  import opened Framing
  import opened RunLength
  import opened SyncWalk
  import opened SyncArea
  import opened DiffLogs
  import opened Replica
  import opened Lossy
  import opened Gaps
  import opened LossRuns
  import opened LineLogs
  import Cluster

  /** A memory that is `a` everywhere but in the lines of the map. */
  function Mem(a: Line, m: map<nat, Line>): (r: seq<Line>)
    ensures |r| == LINES
  {
    seq(LINES, l => if l in m then m[l] else a)
  }

  // The system with one subscriber at some point of a run.

  /** The owner's side, and the subscriber: how it was after its last internal sync, the packets taken since, those on
      their way, what it has reported and the last version sent to it. */
  datatype Point = Point(hist: History, x: Sets, spans: seq<Span>, rw: seq<Line>, s: Subscriber, got: seq<Packet>,
                         net: seq<Packet>, reported: nat, sent: nat, last: Flight)

  ghost predicate Ok(o: Point) {
    |o.spans| == NR_AREA_LOGS && Steady(o.s) && forall m :: m in o.got ==> Fits(m, |o.s.rw|)
  }

  function Fed(o: Point): (r: Subscriber)
    requires Sized(o.s) && forall m :: m in o.got ==> Fits(m, |o.s.rw|)
    ensures Sized(r) && |r.rw| == |o.s.rw|
  {
    Aside(Feed(o.s, o.got, false), o.net, o.reported, o.sent)
  }

  ghost function System(o: Point): State
    requires Ok(o)
  {
    State(Cluster.State(o.hist, Logs(o.x), o.spans, o.rw, [Fed(o)]), o.last)
  }

  /** An external sync takes the first log that ended no later than the version reported (src/sync_external.c:118-122),
      and nothing sets off the guard. */
  ghost predicate Proper(a: State, b: State) {
    || (exists pivot, runs :: LossRuns.Send(a, b, pivot, runs) && Least(a.y, pivot))
    || (|a.y.subs| > 0 && b.last == a.last &&
        (Own(a.y, b.y) || Tame(a.y, b.y, 0, 0) || (exists i :: Lost(a.y, b.y, 0, i))))
  }

  /** Every log below the pivot holds a version that some subscriber has not reported. */
  ghost predicate Least(y: Cluster.State, pivot: nat) {
    && |y.subs| > 0
    && forall p :: 0 <= p < pivot && p < |y.spans| ==>
         exists k :: 0 <= k < |y.subs| && y.spans[p].verEnd > y.subs[k].reported
  }

  lemma ProperIsQuiet(a: State, b: State)
    requires Proper(a, b)
    ensures Quiet(a, b, 0) && Step(a, b)
  {
    hide LossRuns.Send, Own, Cluster.Local, Silent;
    if b.last == a.last && Tame(a.y, b.y, 0, 0) {
      assert Cluster.Local(a.y, b.y, 0);
    }
  }

  /** The beginning: 512 lines of a, empty logs, a subscriber that has everything. */
  function Start(a: Line): Point {
    var mem := Mem(a, map[]);
    Point([mem], NONE, seq(NR_AREA_LOGS, _ => Span(0, 0, 0, 0)), mem,
          Subscriber(mem, mem, seq(LINES, _ => false), false, false, false, 0, 0, 0, 0, 0, [], [], 0),
          [], [], 0, 0, Flight(0, 0, [], mem))
  }

  /** A run from there to o. */
  ghost predicate Leads(t: seq<State>, a: Line, o: Point) {
    && Ok(Start(a)) && Ok(o) && t != [] && t[0] == System(Start(a)) && t[|t| - 1] == System(o)
    && forall i :: 0 <= i < |t| - 1 ==> Proper(t[i], t[i + 1])
  }

  lemma Begin(a: Line) returns (t: seq<State>)
    ensures Leads(t, a, Start(a)) && Init(System(Start(a)))
  {
    t := [System(Start(a))];
    assert WellFormed(Logs(NONE));
  }

  lemma Snoc(t: seq<State>, a: Line, o: Point, z: Point) returns (r: seq<State>)
    requires Leads(t, a, o) && Ok(z) && Proper(System(o), System(z))
    ensures Leads(r, a, z)
  {
    hide Proper, System, Ok;
    r := t + [System(z)];
    forall i | 0 <= i < |r| - 1 ensures Proper(r[i], r[i + 1]) {
      assert i < |t| - 1 ==> r[i] == t[i] && r[i + 1] == t[i + 1];
    }
  }

  lemma LeadsRun(t: seq<State>, a: Line, o: Point)
    requires Leads(t, a, o)
    ensures Ok(Start(a)) && Ok(o) && Trace(t) && t[0] == System(Start(a)) && t[|t| - 1] == System(o)
    ensures LossRuns.Inv(System(o)) && forall i :: 0 <= i < |t| - 1 ==> Quiet(t[i], t[i + 1], 0)
  {
    hide Proper, Init, Step, LossRuns.Inv, System, Ok, Quiet;
    var _ := Begin(a);
    forall i | 0 <= i < |t| - 1 ensures Step(t[i], t[i + 1]) && Quiet(t[i], t[i + 1], 0) {
      ProperIsQuiet(t[i], t[i + 1]);
    }
    TraceInv(t, |t| - 1);
  }

  // Steps.

  function Written(o: Point, d: set<nat>, mem: seq<Line>): Point { o.(x := o.x.(dirty := d), rw := mem) }

  lemma Write(t: seq<State>, a: Line, o: Point, d: set<nat>, mem: seq<Line>) returns (r: seq<State>)
    requires Leads(t, a, o) && o.x.dirty == {} && |o.rw| == |mem| == LINES
    requires forall l: nat :: l < LINES && o.rw[l] != mem[l] ==> l in d
    ensures Leads(r, a, Written(o, d, mem))
  {
    hide Feed;
    var z := Written(o, d, mem);
    var b, c := System(o).y, System(z).y;
    assert Cluster.Write(b, c) by {
      forall line: nat | line < LINES ensures !Dirty(b.st.dirty, line) {
        DirtyIs({}, line);
      }
      forall line: nat | line < LINES && b.rw[line] != mem[line] ensures Dirty(c.st.dirty, line) {
        DirtyIs(d, line);
      }
    }
    hide Leads, Cluster.Write, System;
    SameLast(o, z);
    r := Snoc(t, a, o, z);
  }

  lemma SameLast(o: Point, z: Point)
    requires Ok(o) && Ok(z)
    ensures System(o).last == o.last && System(z).last == z.last && |System(o).y.subs| == |System(z).y.subs| == 1
  {
  }

  function Issued(o: Point, now: nat): Point
    requires |o.spans| == NR_AREA_LOGS
  {
    o.(hist := o.hist + [o.rw], x := o.x.(dirty := {}, log0 := o.x.dirty + o.x.log0 + {1}),
       spans := PublishSpan(o.spans, |o.hist|, now))
  }

  lemma Publish(t: seq<State>, a: Line, o: Point, now: nat) returns (r: seq<State>)
    requires Leads(t, a, o)
    ensures Ok(o) && Leads(r, a, Issued(o, now))
  {
    SweepIs(o.x, 0);
    MarkIs(o.x.(dirty := {}, log0 := o.x.dirty + o.x.log0));
    hide Logs, Sweep, MarkHeader, Feed;
    var z := Issued(o, now);
    assert Cluster.Publish(System(o).y, System(z).y, now);
    hide Leads;
    r := Snoc(t, a, o, z);
  }

  function Rotated(o: Point): Point
    requires |o.spans| == NR_AREA_LOGS
  {
    o.(x := o.x.(log1 := {}, log2 := o.x.log1 + o.x.log2), spans := RotateSpan(o.spans, 1))
  }

  lemma Rotate(t: seq<State>, a: Line, o: Point) returns (r: seq<State>)
    requires Leads(t, a, o)
    ensures Ok(o) && Leads(r, a, Rotated(o))
  {
    RotateIs(o.x);
    hide Logs, RotateLog, Feed;
    var z := Rotated(o);
    assert Cluster.Rotate(System(o).y, System(z).y, 1);
    hide Leads;
    r := Snoc(t, a, o, z);
  }

  /** The stream of the lines below the pivot. */
  function LineFlight(o: Point, pivot: nat, offs: seq<nat>): Flight {
    Flight(|o.hist| - 1, if pivot < |o.spans| then o.spans[pivot].verEnd else 0, Lines(offs), o.hist[|o.hist| - 1])
  }

  function Dispatched(o: Point, pivot: nat, offs: seq<nat>): Point
    requires |o.spans| == NR_AREA_LOGS && forall x :: x in Lines(offs) ==> InMemory(x, |o.hist[|o.hist| - 1]|)
  {
    var f := LineFlight(o, pivot, offs);
    o.(x := o.x.(log0 := {}, log1 := o.x.log0 + o.x.log1), spans := SplitSpan(o.spans),
       net := o.net + Packets(f), sent := f.version, last := f)
  }

  /** The pivot is the first log that ended no later than the version reported. */
  predicate First(o: Point, pivot: nat) {
    && 0 < pivot < NR_AREA_LOGS == |o.spans| && o.spans[pivot].verEnd <= o.reported
    && forall p :: 0 <= p < pivot ==> o.spans[p].verEnd > o.reported
  }

  lemma Send(t: seq<State>, a: Line, o: Point, pivot: nat, offs: seq<nat>) returns (r: seq<State>)
    requires Leads(t, a, o) && |o.hist| > 1 && First(o, pivot)
    requires offs != [] && Apart(offs) && forall l :: l in Below(o.x, pivot) <==> l in offs
    ensures Ok(o) && Sent(LineFlight(o, pivot, offs), o.hist) && |o.hist[|o.hist| - 1]| == LINES
    ensures Leads(r, a, Dispatched(o, pivot, offs))
  {
    var f := LineFlight(o, pivot, offs);
    LeadsRun(t, a, o);
    HistSize(System(o));
    SweepIs(o.x, pivot);
    LinesSeen(o.x, pivot, offs);
    assert forall k :: 0 <= k < |f.runs| ==> InMemory(f.runs[k], LINES);
    hide Leads, Logs, Sweep, MaximalRuns, Seen, UnitBits, Below, Apart, Packets, Feed;
    var b := System(o);
    assert Cluster.PivotFits(b.y, pivot);
    SentFlight(b, pivot, f.runs);
    assert Cluster.FlightOf(b.y, pivot, f.runs) == f;
    hide Sent;
    var z := Dispatched(o, pivot, offs);
    var c := System(z);
    assert Cluster.Send(b.y, c.y, pivot, f.runs);
    assert Least(b.y, pivot) by {
      forall p | 0 <= p < pivot ensures exists k :: 0 <= k < |b.y.subs| && b.y.spans[p].verEnd > b.y.subs[k].reported {
        assert b.y.subs[0] == Fed(o);
      }
    }
    assert LossRuns.Send(b, c, pivot, f.runs);
    r := Snoc(t, a, o, z);
  }

  lemma HistSize(b: State)
    requires LossRuns.Inv(b)
    ensures |b.y.hist[|b.y.hist| - 1]| == 64 * |b.y.st.dirty|
  {
  }

  lemma SentFlight(b: State, pivot: nat, runs: seq<Run>)
    requires LossRuns.Inv(b) && Cluster.PivotFits(b.y, pivot) && |b.y.hist| > 1 && runs != [] && WellFormed(b.y.st)
    requires MaximalRuns(UnitBits(Seen(b.y.st, 0, |b.y.st.dirty|, pivot)), 0, runs)
    ensures Sent(Cluster.FlightOf(b.y, pivot, runs), b.y.hist)
  {
    Cluster.FlightSent(b.y, pivot, runs);
  }

  function Dropped(o: Point): Point
    requires o.net != []
  {
    o.(net := o.net[1..])
  }

  lemma Drop(t: seq<State>, a: Line, o: Point) returns (r: seq<State>)
    requires Leads(t, a, o) && o.net != []
    ensures Leads(r, a, Dropped(o))
  {
    hide Logs, Feed;
    var z := Dropped(o);
    assert o.net[..0] + o.net[0 + 1..] == o.net[1..];
    assert Lost(System(o).y, System(z).y, 0, 0);
    hide Leads;
    r := Snoc(t, a, o, z);
  }

  /** A step of the subscriber. */
  lemma Local(o: Point, z: Point)
    requires Ok(o) && Ok(z) && z == o.(s := z.s, got := z.got, net := z.net, reported := z.reported)
    requires Cluster.SubscriberStep(Fed(o), Fed(z))
    ensures Step(System(o), System(z)) && (Silent(Fed(o), Fed(z)) ==> Proper(System(o), System(z)))
  {
    hide Logs, Silent, Cluster.SubscriberStep, Fed;
    assert [Fed(o)][0 := Fed(z)] == [Fed(z)];
    assert Cluster.Local(System(o).y, System(z).y, 0);
    if Silent(Fed(o), Fed(z)) {
      assert Tame(System(o).y, System(z).y, 0, 0);
    }
  }

  function Took(o: Point): Point
    requires o.net != []
  {
    o.(got := o.got + [o.net[0]], net := o.net[1..])
  }

  lemma TookIs(o: Point)
    requires Ok(o) && o.net != [] && Fits(o.net[0], |o.s.rw|)
    ensures Ok(Took(o)) && Deliver(Fed(o), false) == Fed(Took(o))
    ensures Step(System(o), System(Took(o)))
    ensures !Fires(Feed(o.s, o.got, false), o.net[0]) ==> Proper(System(o), System(Took(o)))
  {
    hide Handle, Feed, System, Proper, Step;
    FeedSnoc(o.s, o.got, o.net[0], false);
    HandleAside(Feed(o.s, o.got, false), o.net[0], false, o.net[1..], o.reported, o.sent);
    Local(o, Took(o));
  }

  /** A packet is received and does not set off the guard. */
  lemma Take(t: seq<State>, a: Line, o: Point) returns (r: seq<State>)
    requires Leads(t, a, o) && o.net != []
    requires Fits(o.net[0], |o.s.rw|) && Sized(o.s) && (forall m :: m in o.got ==> Fits(m, |o.s.rw|))
    requires !Fires(Feed(o.s, o.got, false), o.net[0])
    ensures Leads(r, a, Took(o))
  {
    assert Ok(o);
    hide Leads, Feed, Fires, Proper, System;
    TookIs(o);
    r := Snoc(t, a, o, Took(o));
  }

  function Reported(o: Point, v: nat): Point { o.(reported := v) }

  lemma Report(t: seq<State>, a: Line, o: Point) returns (r: seq<State>)
    requires Leads(t, a, o) && o.reported <= o.s.roVersion
    ensures Leads(r, a, Reported(o, o.s.roVersion))
  {
    assert Ok(o);
    hide Leads, Feed, System, Proper;
    FeedKeeps(o.s, o.got);
    Local(o, Reported(o, o.s.roVersion));
    r := Snoc(t, a, o, Reported(o, o.s.roVersion));
  }

  /** Packets received early in the interval are not queued, and the published version stays. */
  lemma {:induction false} FeedKeeps(s: Subscriber, got: seq<Packet>)
    requires Steady(s) && (forall m :: m in got ==> Fits(m, |s.rw|))
    ensures var r := Feed(s, got, false);
            && Drainable(r) && !r.enqueue && r.queue == [] && r.roVersion == s.roVersion
            && forall i :: 0 <= i < |r.ro| ==> r.ro[i] == r.rw[i] || r.dirty[i]
    decreases |got|
  {
    if got != [] {
      var init, m := got[..|got| - 1], got[|got| - 1];
      FeedKeeps(s, init);
      var q := Feed(s, init, false);
      StoreLogged(q.ro, q.rw, q.dirty, m);
      hide Store, LogLines, Feed;
      FeedSnoc(s, init, m, false);
      assert got == init + [m];
    }
  }

  function Synced(o: Point): Point
    requires Sized(o.s) && (forall m :: m in o.got ==> Fits(m, |o.s.rw|)) && Drainable(Feed(o.s, o.got, false))
  {
    o.(s := SyncInternal(Feed(o.s, o.got, false)), got := [])
  }

  lemma SyncedIs(o: Point)
    requires Ok(o)
    ensures Drainable(Feed(o.s, o.got, false)) && Ok(Synced(o)) && Step(System(o), System(Synced(o)))
    ensures Proper(System(o), System(Synced(o)))
  {
    hide Feed, System, Proper, Step;
    FeedKeeps(o.s, o.got);
    var q := Feed(o.s, o.got, false);
    SyncAside(q, o.net, o.reported, o.sent);
    assert q.pending || SyncInternal(q) == Published(q) by {
      assert Drain(Published(q), []) == Published(q);
    }
    assert !q.pending ==> Merge(q) == q.rw;
    FeedNothing(SyncInternal(q), false);
    assert QuietSync(Fed(o));
    Local(o, Synced(o));
  }

  lemma Sync(t: seq<State>, a: Line, o: Point) returns (r: seq<State>)
    requires Leads(t, a, o)
    ensures Ok(o) && Drainable(Feed(o.s, o.got, false)) && Leads(r, a, Synced(o))
  {
    assert Ok(o);
    hide Leads, Feed, System, Proper;
    SyncedIs(o);
    r := Snoc(t, a, o, Synced(o));
  }

  // The two runs. Lines p, p + 2 and p + 4 are any lines of the area that are apart from each other and the header.

  /** The packets of a stream are for these single lines. */
  ghost predicate Singles(f: Flight, hist: History, offs: seq<nat>) {
    && Sent(f, hist) && |Packets(f)| == |offs|
    && forall i :: 0 <= i < |offs| ==>
         var m := Packets(f)[i];
         m.line == offs[i] && |m.data| == 1 && Fits(m, |f.mem|) && TotalBytes(Packets(f)[..i]) == 64 * i
  }

  /** An external sync that sends single lines: the point after it. */
  lemma SendLines(t: seq<State>, a: Line, o: Point, pivot: nat, offs: seq<nat>) returns (r: seq<State>, z: Point)
    requires Leads(t, a, o) && |o.hist| > 1 && First(o, pivot) && o.net == []
    requires offs != [] && Apart(offs) && forall l :: l in Below(o.x, pivot) <==> l in offs
    ensures Leads(r, a, z) && |o.spans| == NR_AREA_LOGS && Singles(z.last, z.hist, offs)
    ensures var f := z.last;
            && z == o.(x := o.x.(log0 := {}, log1 := o.x.log0 + o.x.log1), spans := SplitSpan(o.spans),
                       net := Packets(f), sent := f.version, last := f)
            && f.version == |o.hist| - 1 && f.mem == o.hist[|o.hist| - 1] && |f.mem| == LINES
  {
    hide Leads, SplitSpan, Below, First, Singles, Sent, Packets, Ok;
    LeadsOk(t, a, o);
    r := Send(t, a, o, pivot, offs);
    SinglesAre(LineFlight(o, pivot, offs), o.hist, offs);
    hide Apart;
    z := Dispatched(o, pivot, offs);
    assert [] + Packets(z.last) == Packets(z.last);
  }

  lemma SinglesAre(f: Flight, hist: History, offs: seq<nat>)
    requires Sent(f, hist) && f.runs == Lines(offs) && |f.mem| == LINES && Apart(offs)
    ensures Singles(f, hist, offs)
  {
    LinePackets(f.version, offs, 0, f.mem);
    forall i | 0 <= i < |offs| ensures TotalBytes(Packets(f)[..i]) == 64 * i && Fits(Packets(f)[i], |f.mem|) {
      PacketAt(f, hist, i);
    }
  }

  /** Version 1 is written, published and sent. */
  lemma FirstVersion(a: Line, mem: seq<Line>, d: set<nat>, offs: seq<nat>, now: nat) returns (t: seq<State>, o: Point)
    requires |mem| == LINES && forall l: nat :: l < LINES && mem[l] != a ==> l in d
    requires offs != [] && Apart(offs) && forall l :: l in d + {1} <==> l in offs
    ensures Leads(t, a, o) && o.hist == [Mem(a, map[]), mem] && Singles(o.last, o.hist, offs) && o.last.version == 1
    ensures o == Start(a).(hist := o.hist, x := Sets({}, {}, d + {1}, {}, {}), spans := o.spans, rw := mem,
                           net := Packets(o.last), sent := 1, last := o.last)
    ensures o.spans == SplitSpan(PublishSpan(Start(a).spans, 1, now)) && o.last.mem == mem
  {
    hide Leads, Apart, Singles;
    t := Begin(a);
    var o1 := Written(Start(a), d, mem);
    t := Write(t, a, Start(a), d, mem);
    t := Publish(t, a, o1, now);
    var o2 := Issued(o1, now);
    t, o := SendLines(t, a, o2, 1, offs);
    assert o1.x.dirty + o1.x.log0 + {1} == d + {1} && o2.x.log0 + o2.x.log1 == d + {1};
  }

  lemma CarriedLines(got: seq<Packet>, offs: seq<nat>, l: nat)
    requires |got| == |offs| && forall i :: 0 <= i < |got| ==> got[i].line == offs[i] && |got[i].data| == 1
    ensures Carried(got, l) <==> l in offs
  {
    if l in offs {
      var i :| 0 <= i < |offs| && offs[i] == l;
      assert got[i].line <= l < got[i].line + |got[i].data|;
    }
  }

  lemma TraceSnoc(t: seq<State>, c: State) returns (r: seq<State>)
    requires Trace(t) && Step(t[|t| - 1], c)
    ensures Trace(r) && r[0] == t[0] && r[|r| - 1] == c
  {
    hide Step, Init;
    r := t + [c];
    forall i | 0 <= i < |r| - 1 ensures Step(r[i], r[i + 1]) {
      assert i < |t| - 1 ==> r[i] == t[i] && r[i + 1] == t[i + 1];
    }
  }

  /** A stream of n packets of a new version has been sent since the last internal sync. */
  ghost predicate Coming(o: Point, n: nat) {
    && Steady(o.s) && o.got == [] && Sent(o.last, o.hist) && o.net == Packets(o.last) && |o.net| == n
    && |o.last.mem| == |o.s.rw| && o.s.lastVersion != o.last.version
  }

  /** Of three packets the second is lost; then comes an internal sync. */
  lemma LoseSecond(t: seq<State>, a: Line, o: Point) returns (r: seq<State>, z: Point)
    requires Leads(t, a, o) && Coming(o, 3)
    ensures Ok(o) && Ok(Start(a)) && Ok(z) && Trace(r) && r[0] == System(Start(a)) && r[|r| - 1] == System(z)
    ensures var got := [o.net[0], o.net[2]];
            && (forall m :: m in got ==> Fits(m, |o.s.rw|)) && Drainable(Feed(o.s, got, false))
            && z == o.(s := SyncInternal(Feed(o.s, got, false)), got := [], net := [])
  {
    assert Ok(o);
    hide Leads, Packets, Feed, Fires, SyncInternal, Trace, System, Step, Proper, Ok, LossRuns.Inv, Quiet;
    var ps := o.net;
    PacketAt(o.last, o.hist, 0);
    PacketAt(o.last, o.hist, 2);
    FiresAtStart(o.s, o.hist, o.last, 0);
    hide Sent, Carries;
    FeedNothing(o.s, false);
    r := Take(t, a, o);
    r := Drop(r, a, Took(o));
    var y := Dropped(Took(o));
    assert y.got == [ps[0]] && y.net == [ps[2]];
    LeadsRun(r, a, y);
    TookIs(y);
    r := TraceSnoc(r, System(Took(y)));
    assert Took(y).got == [ps[0], ps[2]] && Took(y).net == [];
    SyncedIs(Took(y));
    z := Synced(Took(y));
    r := TraceSnoc(r, System(z));
  }

  /** Version 1 changes lines 1, p and p + 2. Of the three packets the one of line p is lost. The guard fires at the
      third, and the next internal sync publishes a mixture: line p + 2 is new and line p is old. */
  lemma LossPublishesMixture(p: nat, a: Line, b: Line) returns (t: seq<State>)
    requires a != b && 3 <= p < LINES - 2
    ensures Trace(t) && Ok(Start(a)) && t[0] == System(Start(a))
    ensures var y := t[|t| - 1].y;
            && y.hist == [Mem(a, map[]), Mem(a, map[1 := b, p := b, p + 2 := b])] && |y.subs| == 1
            && y.subs[0].ro != y.hist[0] && y.subs[0].ro != y.hist[1]
  {
    hide Leads, Packets, Feed, SyncInternal, Trace, Sent, LogOf, SplitSpan, PublishSpan;
    var offs, o, z := [1, p, p + 2], Start(a), Start(a);
    assert forall l :: l in {1, p, p + 2} + {1} <==> l in offs;
    t, o := FirstVersion(a, Mem(a, map[1 := b, p := b, p + 2 := b]), {1, p, p + 2}, offs, 0);
    t, z := LoseSecond(t, a, o);
    GapMixture(p, a, b, o);
    FeedNothing(z.s, false);
  }

  lemma GapMixture(p: nat, a: Line, b: Line, o: Point)
    requires a != b && 3 <= p < LINES - 2 && Coming(o, 3) && o.s.rw == Mem(a, map[])
    requires o.hist == [Mem(a, map[]), Mem(a, map[1 := b, p := b, p + 2 := b])] && o.last.mem == o.hist[1]
    requires Singles(o.last, o.hist, [1, p, p + 2])
    ensures var got := [o.net[0], o.net[2]];
            && (forall m :: m in got ==> Fits(m, |o.s.rw|)) && Drainable(Feed(o.s, got, false))
            && var ro := SyncInternal(Feed(o.s, got, false)).ro; ro != o.hist[0] && ro != o.hist[1]
  {
    hide Packets, Feed, Fires, SyncInternal, Sent, Steady;
    var s, hist, f, ps := o.s, o.hist, o.last, o.net;
    var got := ps[..1] + [ps[2]];
    assert got + [] == got == [ps[0], ps[2]];
    StreamGap(s, hist, f, f, 1, 2, [], hist[0], false);
    StreamGap(s, hist, f, f, 1, 2, [], hist[1], false);
    hide Drainable;
    CarriedLines(got, [1, p + 2], p);
    CarriedLines(got, [1, p + 2], p + 2);
    assert hist[0][p] == a && hist[1][p] == b && hist[0][p + 2] == a && hist[1][p + 2] == b;
  }

  lemma WholeInOrder(hist: History, f: Flight)
    requires Sent(f, hist)
    ensures Packets(f) != [] && InOrder(Packets(f), f.version, f.mem) && LastAtEnd(Packets(f), true)
  {
    PacketsSome(f, hist);
    assert Mixed(hist, f, f, 0, 0);
    hide Packets, Sent, InOrder, Mixed;
    MixtureInOrder(hist, f, f, 0, 0);
    assert Packets(f)[..0] + Packets(f)[0..] == Packets(f);
  }

  /** The first two packets of the stream arrive. */
  lemma TakeTwo(t: seq<State>, a: Line, o: Point, n: nat) returns (r: seq<State>, z: Point)
    requires Leads(t, a, o) && Coming(o, n) && n >= 2
    ensures z == o.(got := o.net[..2], net := o.net[2..]) && Leads(r, a, z) && Ok(z)
  {
    hide Leads, Packets, Feed, Fires, System, InOrder;
    var s, f, ps := o.s, o.last, o.net;
    WholeInOrder(o.hist, f);
    FeedSilent(s, f.version, f.mem, ps, 0, false);
    FeedSilent(s, f.version, f.mem, ps, 1, false);
    PacketAt(f, o.hist, 0);
    PacketAt(f, o.hist, 1);
    hide Sent, Carries;
    assert ps[..0] == [] && ps[..1] == [ps[0]];
    r := Take(t, a, o);
    var y := Took(o);
    assert y.got == [ps[0]] && y.net == ps[1..];
    r := Take(r, a, y);
    z := Took(y);
    assert z.got == ps[..2] && z.net == ps[2..];
    LeadsRun(r, a, z);
  }

  /** A whole stream, or what passes for one, is followed by an internal sync. */
  lemma SyncedMem(o: Point, v: nat, mem: seq<Line>)
    requires Ok(o) && |mem| == |o.s.rw| && o.s.lastVersion != v
    requires o.got != [] && InOrder(o.got, v, mem) && LastAtEnd(o.got, true) && MissingAlike(o.s.rw, mem, o.got)
    ensures Drainable(Feed(o.s, o.got, false))
    ensures var z := SyncInternal(Feed(o.s, o.got, false));
            Steady(z) && z.rw == z.ro == mem && z.roVersion == z.lastVersion == v
  {
    var s, got := o.s, o.got;
    hide Feed, InOrder, Replay, MissingAlike, Genuine;
    SilentOver(s, v, mem, got, false);
    FeedKeeps(s, got);
    ReplayGives(s.rw, v, mem, got, mem);
    assert ArrivedAlike(mem, mem, got);
    var r := Feed(s, got, false);
    assert Drain(Published(r), []) == Published(r);
    assert Merge(r) == r.rw;
  }

  function MemOne(a: Line, b: Line, p: nat): seq<Line> { Mem(a, map[1 := b, p := b]) }

  function MemTwo(a: Line, b: Line, c: Line, p: nat): seq<Line> { Mem(a, map[1 := c, p := b, p + 2 := c, p + 4 := c]) }

  /** Version 1 changes lines 1 and p. It is sent, rotated to log 2, received and published; nothing is reported yet. */
  lemma OneArrived(p: nat, a: Line, b: Line, now: nat) returns (t: seq<State>, o: Point)
    requires 3 <= p < LINES - 4
    ensures Leads(t, a, o) && o.hist == [Mem(a, map[]), MemOne(a, b, p)] && o.rw == o.hist[1]
    ensures o.x == Sets({}, {}, {}, {1, p}, {})
    ensures o.spans == RotateSpan(SplitSpan(PublishSpan(Start(a).spans, 1, now)), 1)
    ensures o.s.rw == o.hist[1] && o.s.roVersion == o.s.lastVersion == 1
    ensures o.got == [] && o.net == [] && o.reported == 0
  {
    hide Leads, Sent, Packets, SplitSpan, Feed, SyncInternal, PublishSpan, RotateSpan, InOrder;
    var offs, mem := [1, p], MemOne(a, b, p);
    assert forall l :: l in {1, p} + {1} <==> l in offs;
    t, o := FirstVersion(a, mem, {1, p}, offs, now);
    t := Rotate(t, a, o);
    o := Rotated(o);
    assert o.x == Sets({}, {}, {}, {1, p}, {});
    var s, f := o.s, o.last;
    WholeInOrder(o.hist, f);
    assert MissingAlike(s.rw, mem, o.net) by {
      forall l: nat | l < LINES && !Carried(o.net, l) ensures s.rw[l] == mem[l] {
        CarriedLines(o.net, offs, l);
      }
    }
    ghost var ps := o.net;
    t, o := TakeTwo(t, a, o, 2);
    assert o.got == ps && o.net == [];
    SyncedMem(o, 1, mem);
    t := Sync(t, a, o);
    o := Synced(o);
  }

  /** The intervals when version 2 has been published: log 0 holds it, log 2 holds version 1. */
  lemma SpansAre(zero: seq<Span>, now: nat, later: nat)
    requires zero == seq(NR_AREA_LOGS, _ => Span(0, 0, 0, 0))
    ensures var r := PublishSpan(RotateSpan(SplitSpan(PublishSpan(zero, 1, now)), 1), 2, later);
            && |r| == NR_AREA_LOGS && r[0].verEnd == 2 && r[1].verEnd == r[2].verEnd == 1 && r[3].verEnd == 0
            && SplitSpan(r)[0].verEnd == SplitSpan(r)[1].verEnd == 2 && SplitSpan(r)[2].verEnd == 1
  {
  }

  ghost function Versions(a: Line, b: Line, c: Line, p: nat): History {
    [Mem(a, map[]), MemOne(a, b, p), MemTwo(a, b, c, p)]
  }

  /** Version 2 changes lines 1, p + 2 and p + 4. It is sent, with what log 2 holds, as lines 1, p, p + 2 and p + 4. */
  lemma TwoSent(p: nat, a: Line, b: Line, c: Line, now: nat, later: nat) returns (t: seq<State>, o: Point)
    requires 3 <= p < LINES - 4
    ensures Leads(t, a, o) && o.hist == Versions(a, b, c, p) && Coming(o, 4) && o.last.version == 2
    ensures Singles(o.last, o.hist, [1, p, p + 2, p + 4]) && o.last.mem == o.hist[2]
    ensures o.s.rw == o.hist[1] && o.s.roVersion == o.s.lastVersion == 1 && o.reported == 0 && First(Reported(o, 1), 2)
    ensures o.x.log0 == {} && o.x.log1 == {1, p + 2, p + 4}
  {
    hide Leads, SplitSpan, PublishSpan, RotateSpan, Packets, Sent, Steady, Mem;
    var m2, d, offs := MemTwo(a, b, c, p), {1, p + 2, p + 4}, [1, p, p + 2, p + 4];
    t, o := OneArrived(p, a, b, now);
    SpansAre(Start(a).spans, now, later);
    assert forall l: nat :: l < LINES && o.rw[l] != m2[l] ==> l in d by { OnlyThese(a, b, c, p); }
    t := Write(t, a, o, d, m2);
    o := Written(o, d, m2);
    t := Publish(t, a, o, later);
    o := Issued(o, later);
    assert o.x == Sets({}, d, {}, {1, p}, {}) && o.hist == Versions(a, b, c, p);
    LeadsOk(t, a, o);
    t, o := SendLines(t, a, o, 3, offs);
  }

  lemma OnlyThese(a: Line, b: Line, c: Line, p: nat)
    ensures forall l: nat :: l < LINES && MemOne(a, b, p)[l] != MemTwo(a, b, c, p)[l] ==> l in {1, p + 2, p + 4}
  {
  }

  lemma LeadsOk(t: seq<State>, a: Line, o: Point)
    requires Leads(t, a, o)
    ensures Steady(o.s) && Sized(o.s) && |o.spans| == NR_AREA_LOGS
  {
  }

  /** Two of the four packets arrive and two are lost. Then version 1 is reported, and version 2 is sent again, now as
      lines 1, p + 2 and p + 4. */
  lemma TwoResent(t: seq<State>, a: Line, o: Point, p: nat) returns (r: seq<State>, z: Point)
    requires Leads(t, a, o) && Coming(o, 4) && |o.hist| > 1 && 3 <= p < LINES - 4
    requires o.x.log0 == {} && o.x.log1 == {1, p + 2, p + 4}
    requires o.s.roVersion == 1 && o.reported == 0 && First(Reported(o, 1), 2)
    ensures Leads(r, a, z) && Ok(z) && z.hist == o.hist && z.s == o.s && z.got == o.net[..2]
    ensures Singles(z.last, z.hist, [1, p + 2, p + 4]) && z.net == Packets(z.last)
    ensures z.last.version == |z.hist| - 1 && z.last.mem == z.hist[|z.hist| - 1]
  {
    hide Leads, Packets, Sent, Feed, Coming, SplitSpan;
    r, z := TakeTwo(t, a, o, 4);
    assert z.net != [] && z.net[1..] != [] && z.net[1..][1..] == [] by { ComingSize(o, 4); }
    r := Drop(r, a, z);
    z := Dropped(z);
    r := Drop(r, a, z);
    z := Dropped(z);
    r := Report(r, a, z);
    z := Reported(z, 1);
    assert forall l :: l in Below(z.x, 2) <==> l in [1, p + 2, p + 4];
    r, z := SendLines(r, a, z, 2, [1, p + 2, p + 4]);
  }

  lemma ComingSize(o: Point, n: nat)
    requires Coming(o, n)
    ensures |o.net| == n
  {
  }

  /** Of three packets only the last arrives, which the counts allow, and an internal sync follows. */
  lemma TakeThird(t: seq<State>, a: Line, o: Point, f: Flight) returns (r: seq<State>, z: Point)
    requires Leads(t, a, o) && Ok(o) && Mixed(o.hist, f, o.last, 2, 2) && |o.net| == 3 && o.net == Packets(o.last)
    requires o.got == Packets(f)[..2] && |f.mem| == |o.s.rw| && o.s.lastVersion != f.version
    ensures var got := Mixture(f, o.last, 2, 2);
            && (forall m :: m in got ==> Fits(m, |o.s.rw|)) && Drainable(Feed(o.s, got, false))
            && z == o.(s := SyncInternal(Feed(o.s, got, false)), got := [], net := []) && Leads(r, a, z)
  {
    hide Leads, Packets, Feed, Fires, System, InOrder, SyncInternal, TotalBytes;
    var got := Mixture(f, o.last, 2, 2);
    MixtureInOrder(o.hist, f, o.last, 2, 2);
    PacketAt(o.last, o.hist, 2);
    hide Sent, Carries;
    FeedSilent(o.s, f.version, f.mem, got, 2, false);
    r := Drop(t, a, o);
    r := Drop(r, a, Dropped(o));
    var y := Dropped(Dropped(o));
    assert y.net == [o.net[2]] && got[..2] == y.got && got == y.got + y.net;
    r := Take(r, a, y);
    assert Took(y).got == got && Took(y).net == [];
    r := Sync(r, a, Took(y));
    z := Synced(Took(y));
  }

  /** Of the first stream of version 2 the packets of lines 1 and p arrive, of the second only that of line p + 4. Its
      count fits, no guard fires in the whole run, and a mixture is published as version 2: line p + 4 is new and line
      p + 2 is old. */
  lemma ResendHidesLoss(p: nat, a: Line, b: Line, c: Line) returns (t: seq<State>)
    requires a != c && 3 <= p < LINES - 4
    ensures Trace(t) && Ok(Start(a)) && t[0] == System(Start(a))
    ensures forall i :: 0 <= i < |t| - 1 ==> Quiet(t[i], t[i + 1], 0)
    ensures var y := t[|t| - 1].y;
            && y.hist == Versions(a, b, c, p) && |y.subs| == 1
            && y.subs[0].roVersion == 2 && forall u :: 0 <= u < |y.hist| ==> y.subs[0].ro != y.hist[u]
  {
    hide Leads, Sent, Packets, Steady, Feed, SyncInternal, Mem, Quiet, Trace, Drainable, LogOf, First, Start;
    var o, z;
    t, o := TwoSent(p, a, b, c, 10 * S2US, 11 * S2US);
    var f := o.last;
    t, z := TwoResent(t, a, o, p);
    assert Mixed(z.hist, f, z.last, 2, 2);
    ResendMixture(p, a, b, c, o.s, f, z.last);
    t, z := TakeThird(t, a, z, f);
    LeadsRun(t, a, z);
    LeadsOk(t, a, z);
    FeedNothing(z.s, false);
  }

  lemma ResendMixture(p: nat, a: Line, b: Line, c: Line, s: Subscriber, f: Flight, g: Flight)
    requires a != c && 3 <= p < LINES - 4 && Steady(s) && s.rw == MemOne(a, b, p) && s.lastVersion == 1
    requires var hist := Versions(a, b, c, p);
             && f.version == 2 && f.mem == hist[2] && Singles(f, hist, [1, p, p + 2, p + 4])
             && g.version == 2 && Singles(g, hist, [1, p + 2, p + 4])
    ensures var hist, got := Versions(a, b, c, p), Mixture(f, g, 2, 2);
            && (forall q :: q in got ==> Fits(q, |s.rw|)) && Drainable(Feed(s, got, false))
            && var z := SyncInternal(Feed(s, got, false));
               z.roVersion == 2 && forall u :: 0 <= u < |hist| ==> z.ro != hist[u]
  {
    hide Packets, Feed, SyncInternal, Steady, TotalBytes;
    var hist, got := Versions(a, b, c, p), Mixture(f, g, 2, 2);
    assert got + [] == got;
    MixPublishes(s, hist, f, g, 2, 2, [], hist[0], false);
    MixPublishes(s, hist, f, g, 2, 2, [], hist[1], false);
    MixPublishes(s, hist, f, g, 2, 2, [], hist[2], false);
    hide Drainable, Sent;
    CarriedLines(got, [1, p, p + 4], p + 2);
    CarriedLines(got, [1, p, p + 4], p + 4);
    assert hist[0][p + 4] == hist[1][p + 4] == s.rw[p + 2] == a && hist[2][p + 4] == hist[2][p + 2] == c;
  }
}
