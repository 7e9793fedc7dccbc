/** The owner and its subscribers when packets are lost: the runs of `Cluster` with one more step
    (src/sync_external.c:5-140). What holds whatever is lost, when loss is harmless, and what is published otherwise. */
module LossRuns {
  import opened Framing
  import opened RunLength
  import opened DiffLogs
  import opened Replica
  import opened Lossy
  import opened Gaps
  import Cluster

  /** The system, and as history the last stream sent. */
  datatype State = State(y: Cluster.State, last: Flight)

  /** A packet on its way to subscriber k is lost. */
  ghost predicate Lost(y: Cluster.State, z: Cluster.State, k: nat, i: nat) {
    k < |y.subs| && i < |y.subs[k].net| && z == y.(subs := y.subs[k := Lose(y.subs[k], i)])
  }

  /** The owner writes, publishes or rotates. */
  ghost predicate Own(y: Cluster.State, z: Cluster.State) {
    Cluster.Write(y, z) || (exists now :: Cluster.Publish(y, z, now)) || (exists i :: Cluster.Rotate(y, z, i))
  }

  ghost predicate Send(a: State, b: State, pivot: nat, runs: seq<Run>) {
    && Cluster.Send(a.y, b.y, pivot, runs)
    && b.last == if runs == [] then a.last else Cluster.FlightOf(a.y, pivot, runs)
  }

  ghost predicate Step(a: State, b: State) {
    || (exists pivot, runs :: Send(a, b, pivot, runs))
    || (b.last == a.last &&
        (Own(a.y, b.y) || (exists k: nat :: Cluster.Local(a.y, b.y, k)) || (exists k, i :: Lost(a.y, b.y, k, i))))
  }

  ghost predicate Init(a: State) {
    Cluster.Init(a.y) && a.last == Flight(0, 0, [], a.y.hist[0])
  }

  ghost predicate Trace(t: seq<State>) {
    t != [] && Init(t[0]) && forall i :: 0 <= i < |t| - 1 ==> Step(t[i], t[i + 1])
  }

  // What holds whatever is lost.

  predicate Official(p: Packet, hist: History) {
    p.version < |hist| && Carries(p, p.version, hist[p.version])
  }

  /** Every packet on its way carries lines of the version it names; every line of RO and RW is that line of some
      version; RW differs from RO in dirty lines only. */
  ghost predicate Sound(s: Subscriber, hist: History) {
    && Sized(s) && (forall v :: 0 <= v < |hist| ==> |hist[v]| == |s.ro|)
    && (forall i :: 0 <= i < |s.ro| ==> s.ro[i] == s.rw[i] || s.dirty[i])
    && (!s.enqueue ==> s.queue == [])
    && (forall p :: p in s.queue ==> Official(p, hist)) && (forall p :: p in s.net ==> Official(p, hist))
    && Patch(s.ro, hist, 0, |hist| - 1) && Patch(s.rw, hist, 0, |hist| - 1)
  }

  lemma StoreSound(w: seq<Line>, hist: History, p: Packet)
    requires Patch(w, hist, 0, |hist| - 1) && Official(p, hist) && |hist[p.version]| == |w|
    ensures Fits(p, |w|) && Patch(Store(w, p), hist, 0, |hist| - 1)
  {
    var r, top := Store(w, p), |hist| - 1;
    forall l: nat | l < |r| ensures Between(r, hist, l, 0, top) {
      if p.line <= l < p.line + |p.data| {
        assert IsLine(r, hist, l, p.version);
      } else {
        assert Between(w, hist, l, 0, top) && r[l] == w[l];
        var h :| 0 <= h <= |hist| - 1 && IsLine(w, hist, l, h);
        assert IsLine(r, hist, l, h);
      }
    }
  }

  lemma HandleSound(s: Subscriber, hist: History, m: Packet, late: bool)
    requires Sound(s, hist) && Official(m, hist)
    ensures Fits(m, |s.rw|) && Sound(Handle(s, m, late, true), hist)
  {
    StoreSound(s.rw, hist, m);
    StoreLogged(s.ro, s.rw, s.dirty, m);
    hide Store, LogLines, Patch, Official;
  }

  lemma SoundNet(s: Subscriber, hist: History, net: seq<Packet>)
    requires Sound(s, hist) && forall p :: p in net ==> Official(p, hist)
    ensures Sound(s.(net := net), hist)
  {
  }

  lemma DeliverSound(s: Subscriber, hist: History, late: bool)
    requires Sound(s, hist) && s.net != []
    ensures Fits(s.net[0], |s.rw|) && Sound(Deliver(s, late), hist)
  {
    var rest := s.net[1..];
    assert forall p :: p in rest ==> p in s.net;
    SoundNet(s, hist, rest);
    assert Official(s.net[0], hist);
    HandleSound(s.(net := rest), hist, s.net[0], late);
    hide Handle;
  }

  lemma {:induction false} DrainSound(s: Subscriber, hist: History, q: seq<Packet>)
    requires Sound(s, hist) && forall p :: p in q ==> Official(p, hist)
    ensures (forall p :: p in q ==> Fits(p, |s.rw|)) && Sound(Drain(s, q), hist)
    decreases |q|
  {
    hide Handle, Official;
    if q != [] {
      HandleSound(s, hist, q[0], false);
      HandleSizes(s, q[0]);
      DrainSound(Handle(s, q[0], false, true), hist, q[1..]);
      assert forall p :: p in q ==> p == q[0] || p in q[1..];
    }
  }

  lemma HandleSizes(s: Subscriber, m: Packet)
    requires Sized(s) && Fits(m, |s.rw|)
    ensures |Handle(s, m, false, true).rw| == |s.rw|
  {
  }

  lemma SyncSound(s: Subscriber, hist: History)
    requires Sound(s, hist)
    ensures Drainable(s) && Sound(SyncInternal(s), hist)
    ensures !s.pending ==> Merge(s) == s.rw
  {
    DrainSound(s, hist, s.queue);
    if !s.pending {
      assert Merge(s) == s.rw;
      hide Drain, Patch, Official;
      DrainSound(Published(s), hist, s.queue);
    }
  }

  lemma GrowSound(s: Subscriber, hist: History, next: seq<Line>)
    requires Sound(s, hist) && |next| == |s.ro|
    ensures Sound(s, hist + [next])
  {
    PatchKept(s.ro, hist, next, 0, |hist| - 1);
    PatchKept(s.rw, hist, next, 0, |hist| - 1);
    PatchGrows(s.ro, hist + [next], 0, |hist| - 1, |hist|);
    PatchGrows(s.rw, hist + [next], 0, |hist| - 1, |hist|);
    hide Patch;
    assert forall p {:trigger Official(p, hist)} :: Official(p, hist) ==> Official(p, hist + [next]);
  }

  lemma SendSound(s: Subscriber, hist: History, f: Flight)
    requires Sound(s, hist) && Sent(f, hist)
    ensures Sound(Expect(s, f), hist)
  {
    forall p | p in Packets(f) ensures Official(p, hist) {
      var k :| 0 <= k < |Packets(f)| && Packets(f)[k] == p;
      PacketAt(f, hist, k);
    }
    hide Packets, Patch, Official;
  }

  /** The owner's side of the system, and every subscriber sound. */
  ghost predicate Inv(a: State) {
    && Cluster.OwnerInv(a.y) && a.last.version < |a.y.hist|
    && forall k :: 0 <= k < |a.y.subs| ==> Sound(a.y.subs[k], a.y.hist)
  }

  lemma InitInv(a: State)
    requires Init(a)
    ensures Inv(a)
  {
    var hist := a.y.hist;
    Cluster.InitInv(a.y);
    forall k | 0 <= k < |a.y.subs| ensures Sound(a.y.subs[k], hist) {
      forall l: nat | l < |a.y.rw| ensures Between(a.y.rw, hist, l, 0, 0) {
        assert IsLine(a.y.rw, hist, l, 0);
      }
    }
  }

  lemma SubscriberSound(s: Subscriber, t: Subscriber, hist: History)
    requires Sound(s, hist) && Cluster.SubscriberStep(s, t)
    ensures Sound(t, hist)
  {
    hide Drain, Handle, Patch, Official;
    SyncSound(s, hist);
    if s.net != [] {
      DeliverSound(s, hist, true);
      DeliverSound(s, hist, false);
    }
  }

  lemma LoseSound(s: Subscriber, hist: History, i: nat)
    requires Sound(s, hist) && i < |s.net|
    ensures Sound(Lose(s, i), hist)
  {
    assert forall p :: p in Lose(s, i).net ==> p in s.net;
    SoundNet(s, hist, Lose(s, i).net);
  }

  /** The history only grows, and the step is one the owner's side survives. */
  lemma StepOwner(a: State, b: State)
    requires Inv(a) && Step(a, b)
    ensures Cluster.OwnerInv(b.y) && a.y.hist <= b.y.hist && |b.y.subs| == |a.y.subs| && b.last.version < |b.y.hist|
  {
    hide Cluster.OwnerInv, Sound, Cluster.SubscriberStep, MaximalRuns;
    if k, i :| Lost(a.y, b.y, k, i) {
      Cluster.SubscribersOnly(a.y, b.y);
    } else {
      Cluster.OwnerKeeps(a.y, b.y);
    }
  }

  /** Every step, loss included, keeps it. */
  lemma StepInv(a: State, b: State)
    requires Inv(a) && Step(a, b)
    ensures Inv(b)
  {
    StepOwner(a, b);
    forall k | 0 <= k < |b.y.subs| ensures Sound(b.y.subs[k], b.y.hist) {
      StepSound(a, b, k);
    }
    hide Sound, Cluster.OwnerInv, Step;
  }

  lemma StepSound(a: State, b: State, k: nat)
    requires Inv(a) && Step(a, b) && k < |a.y.subs| == |b.y.subs|
    ensures Sound(b.y.subs[k], b.y.hist)
  {
    hide Sound, Cluster.OwnerInv, Cluster.SubscriberStep, MaximalRuns, Sent, Lose;
    var s, hist := a.y.subs[k], a.y.hist;
    if pivot, runs :| Send(a, b, pivot, runs) {
      if runs != [] {
        Cluster.FlightSent(a.y, pivot, runs);
        SendSound(s, hist, Cluster.FlightOf(a.y, pivot, runs));
      }
    } else if n: nat :| Cluster.Local(a.y, b.y, n) {
      if n == k {
        SubscriberSound(s, b.y.subs[k], hist);
      }
    } else if n, i :| Lost(a.y, b.y, n, i) {
      if n == k {
        LoseSound(s, hist, i);
      }
    } else if now :| Cluster.Publish(a.y, b.y, now) {
      Cluster.PublishFits(a.y);
      SoundSize(s, hist);
      GrowSound(s, hist, a.y.rw);
    }
  }

  lemma SoundSize(s: Subscriber, hist: History)
    requires Sound(s, hist)
    ensures |s.ro| == |hist[|hist| - 1]|
  {
  }

  lemma {:induction false} TraceInv(t: seq<State>, i: nat)
    requires Trace(t) && i < |t|
    ensures Inv(t[i]) && |t[i].y.subs| == |t[0].y.subs|
  {
    hide Inv, Step, Init;
    if i == 0 {
      InitInv(t[0]);
    } else {
      TraceInv(t, i - 1);
      StepInv(t[i - 1], t[i]);
      StepOwner(t[i - 1], t[i]);
    }
  }

  /** Whatever is lost and whatever the guard does, every line a reader sees is that line of a published version. */
  lemma LinesPublished(t: seq<State>, i: nat, k: nat, l: nat)
    requires Trace(t) && i < |t| && k < |t[i].y.subs| && l < |t[i].y.subs[k].ro|
    ensures exists v :: 0 <= v < |t[i].y.hist| && IsLine(t[i].y.subs[k].ro, t[i].y.hist, l, v)
  {
    TraceInv(t, i);
    hide Trace, Cluster.OwnerInv;
    var s, hist := t[i].y.subs[k], t[i].y.hist;
    assert Sound(s, hist);
    assert Between(s.ro, hist, l, 0, |hist| - 1);
  }

  /** A subscriber that is not queueing its packets can be at any point of any run where a gap is found. */
  lemma RunSteady(t: seq<State>, i: nat, k: nat)
    requires Trace(t) && i < |t| && k < |t[i].y.subs| && !t[i].y.subs[k].enqueue
    ensures Steady(t[i].y.subs[k]) && forall v :: 0 <= v < |t[i].y.hist| ==> |t[i].y.hist[v]| == |t[i].y.subs[k].rw|
    ensures forall p :: p in t[i].y.subs[k].net ==> Official(p, t[i].y.hist)
  {
    TraceInv(t, i);
    hide Trace, Cluster.OwnerInv, Patch, Official;
    assert Sound(t[i].y.subs[k], t[i].y.hist);
  }

  /** In every run: when the guard fires at a packet, further packets of the same version make no difference, and the
      next internal sync publishes version u exactly if the lines of the packet are alike in u and in the version of the
      packet, and all other lines of RW are those of u. */
  lemma GuardInRun(t: seq<State>, i: nat, k: nat, n: nat, late: bool, u: nat)
    requires Trace(t) && i < |t| && k < |t[i].y.subs| && u < |t[i].y.hist|
    requires var s := t[i].y.subs[k];
             && 0 < n <= |s.net| && Fires(s, s.net[0])
             && forall j :: 0 <= j < n ==> s.net[j].version == s.net[0].version
    ensures var s, hist := t[i].y.subs[k], t[i].y.hist;
            var m := s.net[0];
            && Sized(s) && (forall p :: p in s.net ==> Fits(p, |s.rw|)) && m.version < |hist|
            && var r := Receive(s, n, late); r.ignore && Publishes(s, r, hist[m.version], [m], hist[u])
  {
    RunSteady(t, i, k);
    var s, hist := t[i].y.subs[k], t[i].y.hist;
    var m, rest := s.net[0], s.net[1..n];
    assert forall p :: p in s.net ==> Official(p, hist);
    assert s.net[..n] == [m] + rest && Official(m, hist);
    forall j | 0 <= j < |rest| ensures Carries(rest[j], m.version, hist[m.version]) {
      assert rest[j] == s.net[j + 1] && Official(rest[j], hist);
    }
    hide Trace, Publishes, Handle, Feed, Receive;
    GuardPublishes(s, m.version, hist[m.version], m, rest, hist[u], late);
    ReceiveFeeds(s, n, late);
    PublishesNet(s, s.net[n..], Feed(s, s.net[..n], late), hist[m.version], [m], hist[u]);
  }

  /** What is still on its way makes no difference to an internal sync. */
  lemma PublishesNet(s: Subscriber, net: seq<Packet>, r: Subscriber, mem: seq<Line>, got: seq<Packet>, x: seq<Line>)
    requires Publishes(s, r, mem, got, x)
    ensures Publishes(s, r.(net := net), mem, got, x)
  {
    hide MissingAlike, ArrivedAlike;
    SyncAside(r, net, r.reported, r.sent);
  }

  /** Packets in the net, the version reported and the last version sent are not looked at. */
  function Aside(s: Subscriber, net: seq<Packet>, reported: nat, sent: nat): Subscriber {
    s.(net := net, reported := reported, sent := sent)
  }

  lemma HandleAside(s: Subscriber, m: Packet, late: bool, net: seq<Packet>, reported: nat, sent: nat)
    requires Sized(s) && Fits(m, |s.rw|)
    ensures Handle(Aside(s, net, reported, sent), m, late, true) ==
            Aside(Handle(s, m, late, true), net, reported, sent)
  {
    hide Store, LogLines;
  }

  lemma {:induction false} DrainAside(s: Subscriber, q: seq<Packet>, net: seq<Packet>, reported: nat, sent: nat)
    requires Sized(s) && forall m :: m in q ==> Fits(m, |s.rw|)
    ensures Drain(Aside(s, net, reported, sent), q) == Aside(Drain(s, q), net, reported, sent)
    decreases |q|
  {
    hide Handle;
    if q != [] {
      HandleAside(s, q[0], false, net, reported, sent);
      HandleSizes(s, q[0]);
      DrainAside(Handle(s, q[0], false, true), q[1..], net, reported, sent);
    }
  }

  lemma SyncAside(s: Subscriber, net: seq<Packet>, reported: nat, sent: nat)
    requires Drainable(s)
    ensures SyncInternal(Aside(s, net, reported, sent)) == Aside(SyncInternal(s), net, reported, sent)
  {
    hide Drain;
    if !s.pending {
      DrainAside(Published(s), s.queue, net, reported, sent);
      assert Published(Aside(s, net, reported, sent)) == Aside(Published(s), net, reported, sent);
    }
  }

  // Runs in which the guard of one subscriber stays silent.

  /** A step of a subscriber in which no packet sets off the guard. */
  ghost predicate Silent(s: Subscriber, r: Subscriber) {
    || (Sized(s) && s.net != [] && Fits(s.net[0], |s.rw|) && !Fires(s, s.net[0]) &&
        (r == Deliver(s, true) || r == Deliver(s, false)))
    || (QuietSync(s) && r == SyncInternal(s))
    || (s.reported <= r.reported <= s.roVersion && r == s.(reported := r.reported))
  }

  /** A step in which nothing sets off the guard of subscriber k. */
  ghost predicate Quiet(a: State, b: State, k: nat) {
    k < |a.y.subs| && (
      || (exists pivot, runs :: Send(a, b, pivot, runs))
      || (b.last == a.last &&
          (Own(a.y, b.y) || (exists n: nat :: Tame(a.y, b.y, n, k)) || (exists n, i :: Lost(a.y, b.y, n, i)))))
  }

  /** A step of subscriber n, a silent one if it is k. */
  ghost predicate Tame(y: Cluster.State, z: Cluster.State, n: nat, k: nat) {
    Cluster.Local(y, z, n) && (n == k ==> Silent(y.subs[n], z.subs[n]))
  }

  lemma QuietIsStep(a: State, b: State, k: nat)
    requires Quiet(a, b, k)
    ensures Step(a, b)
  {
    hide Send, Own, Cluster.Local;
    if n: nat :| b.last == a.last && Tame(a.y, b.y, n, k) {
    }
  }

  /** Besides, a version sent again is sent as the same stream. */
  ghost predicate Calm(a: State, b: State, k: nat) {
    Quiet(a, b, k) && SameStream(b.last, a.last)
  }

  lemma SilentLossy(s: Subscriber, r: Subscriber, hist: History, last: Flight)
    requires LossInv(s, hist, last) && Silent(s, r)
    ensures LossInv(r, hist, last) && s.roVersion <= r.roVersion
  {
    hide LossInv, Drain, Store, LogLines, QuietDrain, Fires;
    if QuietSync(s) && r == SyncInternal(s) {
      SyncLossy(s, hist, last);
    } else if r == s.(reported := r.reported) && s.reported <= r.reported <= s.roVersion {
      ReportLossy(s, hist, last, r.reported);
    } else {
      DeliverLossy(s, hist, last, true);
      DeliverLossy(s, hist, last, false);
    }
  }

  /** By the choice of the pivot a stream is good for the version every subscriber has reported. */
  lemma BaseReported(y: Cluster.State, pivot: nat, runs: seq<Run>, k: nat)
    requires Cluster.PivotFits(y, pivot) && k < |y.subs|
    ensures Cluster.FlightOf(y, pivot, runs).base <= y.subs[k].reported
  {
  }

  lemma CalmStep(a: State, b: State, k: nat)
    requires Inv(a) && Calm(a, b, k) && LossInv(a.y.subs[k], a.y.hist, a.last)
    ensures |b.y.subs| == |a.y.subs|
    ensures LossInv(b.y.subs[k], b.y.hist, b.last) && a.y.subs[k].roVersion <= b.y.subs[k].roVersion
  {
    hide Sound, Cluster.OwnerInv, Cluster.SubscriberStep, MaximalRuns, Sent, Silent, LossInv;
    var s, hist := a.y.subs[k], a.y.hist;
    if pivot, runs :| Send(a, b, pivot, runs) {
      if runs != [] {
        Cluster.FlightSent(a.y, pivot, runs);
        BaseReported(a.y, pivot, runs, k);
        SendLossy(s, hist, a.last, b.last);
      }
    } else if n: nat :| Tame(a.y, b.y, n, k) {
      if n == k {
        SilentLossy(s, b.y.subs[k], hist, a.last);
      }
    } else if n, i :| Lost(a.y, b.y, n, i) {
      if n == k {
        LoseKeeps(s, hist, a.last, i);
      }
    } else if now :| Cluster.Publish(a.y, b.y, now) {
      Cluster.PublishFits(a.y);
      UnderWay(s, hist, a.last);
      GrowLossy(s, hist, a.last, a.y.rw);
    }
  }

  ghost predicate CalmRun(t: seq<State>, k: nat) {
    t != [] && Init(t[0]) && k < |t[0].y.subs| && forall i :: 0 <= i < |t| - 1 ==> Calm(t[i], t[i + 1], k)
  }

  lemma CalmIsRun(t: seq<State>, k: nat)
    requires CalmRun(t, k)
    ensures Trace(t)
  {
    hide Step, Quiet;
    forall i | 0 <= i < |t| - 1 ensures Step(t[i], t[i + 1]) {
      assert Calm(t[i], t[i + 1], k);
      QuietIsStep(t[i], t[i + 1], k);
    }
  }

  lemma InitLossy(a: State, k: nat)
    requires Init(a) && k < |a.y.subs|
    ensures LossInv(a.y.subs[k], a.y.hist, a.last)
  {
    assert Waiting(a.y.subs[k], a.y.hist, a.last, []);
  }

  lemma {:induction false} CalmInv(t: seq<State>, k: nat, i: nat)
    requires CalmRun(t, k) && i < |t|
    ensures |t[i].y.subs| == |t[0].y.subs| && LossInv(t[i].y.subs[k], t[i].y.hist, t[i].last)
  {
    CalmIsRun(t, k);
    hide LossInv, Step, Init, Calm, Inv;
    TraceInv(t, i);
    if i == 0 {
      InitLossy(t[0], k);
    } else {
      CalmInv(t, k, i - 1);
      TraceInv(t, i - 1);
      CalmStep(t[i - 1], t[i], k);
    }
  }

  /** What a version means never changes, and subscriber k does not go back. */
  ghost predicate Onward(a: State, b: State, k: nat) {
    && k < |a.y.subs| == |b.y.subs| && a.y.hist <= b.y.hist && a.y.subs[k].roVersion <= b.y.subs[k].roVersion
  }

  lemma OnwardOn(a: State, b: State, c: State, k: nat)
    requires Onward(a, b, k) && Onward(b, c, k)
    ensures Onward(a, c, k)
  {
  }

  lemma OnwardSame(a: State, k: nat)
    requires k < |a.y.subs|
    ensures Onward(a, a, k)
  {
  }

  lemma CalmOne(t: seq<State>, k: nat, i: nat)
    requires CalmRun(t, k) && i + 1 < |t|
    ensures Onward(t[i], t[i + 1], k)
  {
    hide LossInv, Step, Init, Calm, Inv;
    CalmIsRun(t, k);
    TraceInv(t, i);
    CalmInv(t, k, i);
    CalmStep(t[i], t[i + 1], k);
    StepOwner(t[i], t[i + 1]);
  }

  lemma {:induction false} CalmForward(t: seq<State>, k: nat, i: nat, j: nat)
    requires CalmRun(t, k) && i <= j < |t|
    ensures Onward(t[i], t[j], k)
    decreases j
  {
    hide CalmRun, Onward;
    if i < j {
      CalmForward(t, k, i, j - 1);
      CalmOne(t, k, j - 1);
      OnwardOn(t[i], t[j - 1], t[j], k);
    } else {
      CalmSubs(t, k, i);
      OnwardSame(t[i], k);
    }
  }

  lemma CalmSubs(t: seq<State>, k: nat, i: nat)
    requires CalmRun(t, k) && i < |t|
    ensures k < |t[i].y.subs|
  {
    hide LossInv, Calm;
    CalmInv(t, k, i);
  }

  /** Loss is harmless to a subscriber as long as its guard does not fire and a version that is sent again is sent as
      the same stream: whatever is lost, RO is the owner's data at the version in its header, and that version never
      goes back. A stream that lost its end is given up when a newer one begins, and that one repairs all its lines. */
  lemma LossHarmless(t: seq<State>, k: nat, i: nat, j: nat)
    requires CalmRun(t, k) && i <= j < |t|
    ensures k < |t[i].y.subs| == |t[j].y.subs|
    ensures var s, hist := t[i].y.subs[k], t[i].y.hist;
            s.roVersion < |hist| && s.ro == hist[s.roVersion] && !s.ignore
    ensures t[i].y.subs[k].roVersion <= t[j].y.subs[k].roVersion && t[i].y.hist <= t[j].y.hist
  {
    CalmForward(t, k, i, j);
    CalmInv(t, k, i);
    hide LossInv, CalmRun;
    UnderWay(t[i].y.subs[k], t[i].y.hist, t[i].last);
  }
}
