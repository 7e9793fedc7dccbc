/** A subscriber when packets are lost on the way (src/sync_external.c:18-49). The receiver notices a gap by the byte
    count of the next packet of the stream; the packet is stored all the same. */
module Lossy {
  import opened Basics
  import opened LogBits
  import opened Framing
  import opened RunLength
  import opened SyncWalk
  import opened DiffLogs
  import opened Replica

  /** The guard of src/sync_external.c:27: the byte count does not fit. */
  predicate Fires(s: Subscriber, m: Packet) {
    && !s.enqueue
    && (if s.lastVersion != m.version then m.prev != 0 else !s.ignore && s.pending && s.bytes != m.prev)
  }

  // The receiver's own state, whatever is on its way.

  /** Each line is that of some version in the interval. */
  ghost predicate Patch(rw: seq<Line>, hist: History, lo: nat, hi: nat) {
    forall l: nat :: l < |rw| ==> Between(rw, hist, l, lo, hi)
  }

  ghost predicate Between(rw: seq<Line>, hist: History, l: nat, lo: nat, hi: nat) {
    exists h :: lo <= h <= hi && IsLine(rw, hist, l, h)
  }

  predicate IsLine(rw: seq<Line>, hist: History, l: nat, h: nat) {
    l < |rw| && h < |hist| && l < |hist[h]| && rw[l] == hist[h][l]
  }

  /** No stream is being received. */
  ghost predicate Ready(s: Subscriber, hist: History) {
    Consistent(s, hist) && !s.pending && s.lastVersion == s.held && s.rw == hist[s.held]
  }

  /** The first d packets of stream f have arrived, on top of w, which may hold lines of streams given up. */
  ghost predicate Partial(s: Subscriber, hist: History, f: Flight, d: nat, w: seq<Line>) {
    && Consistent(s, hist) && s.pending && !s.enqueue && s.queue == []
    && Sent(f, hist) && f.base <= s.held < f.version == s.lastVersion
    && d < |Packets(f)| && s.bytes == TotalBytes(Packets(f)[..d])
    && |w| == |s.ro| && Patch(w, hist, s.held, f.version)
    && (forall p :: p in Packets(f)[..d] ==> Fits(p, |w|)) && s.rw == Replay(w, Packets(f)[..d])
  }

  ghost predicate AnyPartial(s: Subscriber, hist: History) {
    exists f: Flight, d: nat, w: seq<Line> :: Partial(s, hist, f, d, w)
  }

  /** Packet k of a stream continues the count of exactly the packets before it. */
  lemma PacketAt(f: Flight, hist: History, k: nat)
    requires Sent(f, hist) && k < |Packets(f)|
    ensures Packets(f)[k].prev == TotalBytes(Packets(f)[..k]) && Carries(Packets(f)[k], f.version, f.mem)
    ensures Packets(f)[k].last <==> k == |Packets(f)| - 1
  {
    PacketsFramed(f, hist);
    ChainedAt(Packets(f), f.version, 0, f.mem, k);
  }

  lemma {:induction false} CountGrows(f: Flight, hist: History, d: nat, k: nat)
    requires Sent(f, hist) && d < k <= |Packets(f)|
    ensures TotalBytes(Packets(f)[..d]) < TotalBytes(Packets(f)[..k])
    decreases k
  {
    var ps := Packets(f);
    PacketAt(f, hist, k - 1);
    TotalBytesSnoc(ps[..k - 1], ps[k - 1]);
    assert ps[..k] == ps[..k - 1] + [ps[k - 1]];
    hide Packets, Sent;
    if d < k - 1 {
      CountGrows(f, hist, d, k - 1);
    }
  }

  /** In the middle of a stream the guard fires exactly at a packet that is not the next one. */
  lemma FiresAtGap(s: Subscriber, hist: History, f: Flight, d: nat, w: seq<Line>, k: nat)
    requires Partial(s, hist, f, d, w) && k < |Packets(f)|
    ensures Fires(s, Packets(f)[k]) <==> k != d
  {
    PacketAt(f, hist, k);
    if d < k {
      CountGrows(f, hist, d, k);
    } else if k < d {
      CountGrows(f, hist, k, d);
    }
  }

  /** At the first packet of a newer version it fires exactly if packets before it are missing. */
  lemma FiresAtStart(s: Subscriber, hist: History, f: Flight, k: nat)
    requires Sent(f, hist) && !s.enqueue && s.lastVersion != f.version && k < |Packets(f)|
    ensures Fires(s, Packets(f)[k]) <==> k != 0
  {
    PacketAt(f, hist, k);
    if 0 < k {
      CountGrows(f, hist, 0, k);
    }
  }

  lemma PatchGrows(rw: seq<Line>, hist: History, lo: nat, hi: nat, top: nat)
    requires Patch(rw, hist, lo, hi) && hi <= top < |hist|
    ensures Patch(rw, hist, lo, top)
  {
    forall l: nat | l < |rw| ensures Between(rw, hist, l, lo, top) {
      assert Between(rw, hist, l, lo, hi);
    }
  }

  /** Packets stored on top of a patchwork leave a patchwork. */
  lemma {:induction false} ReplayPatch(w: seq<Line>, hist: History, lo: nat, f: Flight, ps: seq<Packet>)
    requires Sent(f, hist) && lo <= f.version && |w| == |f.mem| && Patch(w, hist, lo, f.version)
    requires forall i :: 0 <= i < |ps| ==> Carries(ps[i], f.version, f.mem)
    ensures (forall p :: p in ps ==> Fits(p, |w|)) && Patch(Replay(w, ps), hist, lo, f.version)
    decreases |ps|
  {
    if ps != [] {
      StorePatch(w, hist, lo, f, ps[0]);
      ReplayPatch(Store(w, ps[0]), hist, lo, f, ps[1..]);
      assert forall p :: p in ps ==> p == ps[0] || p in ps[1..];
    }
  }

  lemma StorePatch(w: seq<Line>, hist: History, lo: nat, f: Flight, p: Packet)
    requires f.version < |hist| && f.mem == hist[f.version] && lo <= f.version && |w| == |f.mem|
    requires Patch(w, hist, lo, f.version) && Carries(p, f.version, f.mem)
    ensures Patch(Store(w, p), hist, lo, f.version)
  {
    var r := Store(w, p);
    forall l: nat | l < |r| ensures Between(r, hist, l, lo, f.version) {
      if p.line <= l < p.line + |p.data| {
        assert IsLine(r, hist, l, f.version);
      } else {
        assert Between(w, hist, l, lo, f.version) && r[l] == w[l];
        var h :| lo <= h <= f.version && IsLine(w, hist, l, h);
        assert IsLine(r, hist, l, h);
      }
    }
  }

  /** A whole stream turns a patchwork of versions it is good for into the version sent. */
  lemma PatchRepaired(f: Flight, hist: History, held: nat, w: seq<Line>)
    requires Sent(f, hist) && f.base <= held <= f.version && |w| == |f.mem| && Patch(w, hist, held, f.version)
    ensures (forall p :: p in Packets(f) ==> Fits(p, |w|)) && Replay(w, Packets(f)) == f.mem
  {
    StreamReplay(w, f.version, f.runs, 0, true, f.mem);
    forall l | 0 <= l < |f.mem| ensures Replay(w, Packets(f))[l] == f.mem[l] {
      CopyRunsAt(w, f.mem, f.runs, l);
      assert Between(w, hist, l, held, f.version);
      var h :| held <= h <= f.version && IsLine(w, hist, l, h);
      assert Updates(f, hist[h]);
    }
  }

  // One packet.

  /** The next packet of the stream: received so far is one packet more, or the version is complete. */
  lemma TakeNext(s: Subscriber, hist: History, f: Flight, d: nat, w: seq<Line>, late: bool)
    requires Partial(s, hist, f, d, w)
    ensures Fits(Packets(f)[d], |s.rw|)
    ensures var r := Handle(s, Packets(f)[d], late, true);
            if d + 1 < |Packets(f)| then Partial(r, hist, f, d + 1, w) && r.queue == []
              else Ready(r, hist) && r.held == f.version && r.queue == []
  {
    var ps, m := Packets(f), Packets(f)[d];
    PacketAt(f, hist, d);
    TotalBytesSnoc(ps[..d], m);
    assert ps[..d + 1] == ps[..d] + [m];
    ReplayAppend(w, ps[..d], [m]);
    assert Replay(s.rw, [m]) == Store(s.rw, m);
    StoreLogged(s.ro, s.rw, s.dirty, m);
    if d + 1 == |ps| {
      assert ps[..d + 1] == ps;
      PatchRepaired(f, hist, s.held, w);
    }
    hide Sent, Packets, Replay, Store, LogLines, Patch;
  }

  /** A newer stream begins, on top of whatever is left of an older one. */
  lemma BeginNewer(s: Subscriber, hist: History, f: Flight, late: bool)
    requires Ready(s, hist) || AnyPartial(s, hist)
    requires Sent(f, hist) && f.base <= s.held && s.lastVersion < f.version && !s.enqueue && s.queue == []
    ensures Packets(f) != [] && Sized(s) && Fits(Packets(f)[0], |s.rw|)
    ensures Partial(Announced(s, f.version), hist, f, 0, s.rw)
    ensures Handle(s, Packets(f)[0], late, true) == Handle(Announced(s, f.version), Packets(f)[0], late, true)
  {
    PacketsFramed(f, hist);
    PacketAt(f, hist, 0);
    assert Packets(f)[..0] == [];
    RwIsPatch(s, hist);
    PatchGrows(s.rw, hist, s.held, s.lastVersion, f.version);
    hide Sent, Packets, Patch, Store, LogLines;
  }

  /** At any time RW is made of lines of versions since the one held. */
  lemma RwIsPatch(s: Subscriber, hist: History)
    requires Ready(s, hist) || AnyPartial(s, hist)
    ensures s.held <= s.lastVersion < |hist| && Patch(s.rw, hist, s.held, s.lastVersion)
  {
    if Ready(s, hist) {
      forall l: nat | l < |s.rw| ensures Between(s.rw, hist, l, s.held, s.held) {
        assert IsLine(s.rw, hist, l, s.held);
      }
    } else {
      var g: Flight, d: nat, w: seq<Line> :| Partial(s, hist, g, d, w);
      var ps := Packets(g)[..d];
      forall i | 0 <= i < |ps| ensures Carries(ps[i], g.version, g.mem) {
        PacketAt(g, hist, i);
      }
      ReplayPatch(w, hist, s.held, g, ps);
    }
  }

  // What is on its way: of each stream, the packets not lost.

  datatype Left = Left(f: Flight, idx: seq<nat>)

  predicate LeftOk(x: Left) {
    && (forall r :: r in x.f.runs ==> InMemory(r, |x.f.mem|))
    && (forall i :: 0 <= i < |x.idx| ==> x.idx[i] < |Packets(x.f)|)
    && (forall i, j :: 0 <= i < j < |x.idx| ==> x.idx[i] < x.idx[j])
  }

  predicate AllOk(ls: seq<Left>) {
    forall k :: 0 <= k < |ls| ==> LeftOk(ls[k])
  }

  function Kept(x: Left): (ps: seq<Packet>)
    requires LeftOk(x)
    ensures |ps| == |x.idx|
  {
    seq(|x.idx|, i requires 0 <= i < |x.idx| => Packets(x.f)[x.idx[i]])
  }

  function All(ls: seq<Left>): seq<Packet>
    requires AllOk(ls)
  {
    if ls == [] then [] else Kept(ls[0]) + All(ls[1..])
  }

  /** Streams of the same version are the same stream. */
  predicate SameStream(f: Flight, g: Flight) {
    f.version == g.version ==> f == g
  }

  /** The streams on their way come in version order, none older than `from`, none newer than the last one sent, all
      good for the version held; a version may be sent again, as the same stream. */
  ghost predicate Rising(ls: seq<Left>, hist: History, from: nat, held: nat, last: Flight) {
    && from <= last.version
    && (forall k :: 0 <= k < |ls| ==> Sent(ls[k].f, hist) && ls[k].f.base <= held)
    && (forall k :: 0 <= k < |ls| ==> from <= ls[k].f.version <= last.version && SameStream(ls[k].f, last))
    && (forall j, k :: 0 <= j < k < |ls| ==> ls[j].f.version <= ls[k].f.version && SameStream(ls[j].f, ls[k].f))
  }

  /** Nothing is being received; streams, perhaps with gaps, are on their way. */
  ghost predicate Waiting(s: Subscriber, hist: History, last: Flight, ls: seq<Left>) {
    && Ready(s, hist) && AllOk(ls) && Rising(ls, hist, s.held, s.held, last) && s.queue + s.net == All(ls)
    && (!s.enqueue ==> s.queue == [])
  }

  /** Stream f is being received; more of it, perhaps with gaps, the same again and newer streams are on their way. */
  ghost predicate Busy(s: Subscriber, hist: History, last: Flight, f: Flight, d: nat, w: seq<Line>, idx: seq<nat>,
                       ls: seq<Left>) {
    && Partial(s, hist, f, d, w) && LeftOk(Left(f, idx)) && AllOk(ls) && Rising(ls, hist, f.version, s.held, last)
    && SameStream(f, last) && (forall k :: 0 <= k < |ls| ==> SameStream(f, ls[k].f))
    && s.net == Kept(Left(f, idx)) + All(ls)
  }

  /** The invariant of a subscriber to which `last` was the last stream sent. */
  ghost predicate LossInv(s: Subscriber, hist: History, last: Flight) {
    || (exists ls: seq<Left> :: Waiting(s, hist, last, ls))
    || (exists f: Flight, d: nat, w: seq<Line>, idx: seq<nat>, ls: seq<Left> :: Busy(s, hist, last, f, d, w, idx, ls))
  }

  lemma {:induction false} AllFits(ls: seq<Left>, hist: History, from: nat, held: nat, last: Flight, n: nat)
    requires AllOk(ls) && Rising(ls, hist, from, held, last) && forall v :: 0 <= v < |hist| ==> |hist[v]| == n
    ensures forall p :: p in All(ls) ==> Fits(p, n)
    decreases |ls|
  {
    if ls != [] {
      KeptFits(ls[0], hist, n);
      AllFits(ls[1..], hist, from, held, last, n);
    }
  }

  lemma KeptFits(x: Left, hist: History, n: nat)
    requires LeftOk(x) && Sent(x.f, hist) && |x.f.mem| == n
    ensures forall p :: p in Kept(x) ==> Fits(p, n)
  {
    forall p | p in Kept(x) ensures Fits(p, n) {
      var i :| 0 <= i < |x.idx| && Kept(x)[i] == p;
      PacketAt(x.f, hist, x.idx[i]);
    }
  }

  lemma UnderWay(s: Subscriber, hist: History, last: Flight)
    requires LossInv(s, hist, last)
    ensures Sized(s) && Consistent(s, hist) && forall p :: p in s.queue + s.net ==> Fits(p, |s.rw|)
  {
    if ls: seq<Left> :| Waiting(s, hist, last, ls) {
      AllFits(ls, hist, s.held, s.held, last, |s.ro|);
    } else {
      var f: Flight, d: nat, w: seq<Line>, idx: seq<nat>, ls: seq<Left> :| Busy(s, hist, last, f, d, w, idx, ls);
      AllFits(ls, hist, f.version, s.held, last, |s.ro|);
      KeptFits(Left(f, idx), hist, |s.ro|);
    }
  }

  // Receiving what is on its way, as long as the guard does not fire.

  /** A packet is handled the same whatever else is in the net. */
  lemma HandleNet(s: Subscriber, m: Packet, late: bool, net: seq<Packet>)
    requires Sized(s) && Fits(m, |s.rw|)
    ensures Handle(s.(net := net), m, late, true) == Handle(s, m, late, true).(net := net)
    ensures Handle(s, m, late, true).net == s.net && Handle(s, m, late, true).sent == s.sent
  {
    hide Store, LogLines;
  }

  lemma KeptTail(x: Left)
    requires LeftOk(x) && x.idx != []
    ensures LeftOk(Left(x.f, x.idx[1..])) && Kept(x) == [Packets(x.f)[x.idx[0]]] + Kept(Left(x.f, x.idx[1..]))
  {
    hide Packets;
    assert Kept(x)[1..] == Kept(Left(x.f, x.idx[1..]));
  }

  /** The next packet of the stream arrives. */
  lemma TakeKept(s: Subscriber, hist: History, last: Flight, f: Flight, d: nat, w: seq<Line>, idx: seq<nat>,
                 ls: seq<Left>, late: bool)
    requires Busy(s, hist, last, f, d, w, idx, ls) && idx != [] && idx[0] == d
    ensures s.net != [] && s.net[0] == Packets(f)[d] && Fits(s.net[0], |s.rw|) && LossInv(Deliver(s, late), hist, last)
  {
    hide Partial, Ready, Rising, Packets, Handle, SameStream;
    KeptTail(Left(f, idx));
    PartialSized(s, hist, f, d, w);
    TakeNext(s, hist, f, d, w, late);
    var more := Kept(Left(f, idx[1..])) + All(ls);
    assert s.net[1..] == more;
    HandleNet(s, Packets(f)[d], late, more);
    var r := Handle(s, Packets(f)[d], late, true);
    RisingHeld(s, r, hist, last, f, d, w, late, ls);
    if d + 1 < |Packets(f)| {
      PartialNet(r, hist, f, d + 1, w, more);
      assert Busy(r.(net := more), hist, last, f, d + 1, w, idx[1..], ls);
    } else {
      NoneAfterLast(f, idx);
      assert more == All(ls);
      ReadyNet(r, hist, more);
      assert r.queue + more == All(ls);
      assert Waiting(r.(net := more), hist, last, ls);
    }
  }

  lemma NoneAfterLast(f: Flight, idx: seq<nat>)
    requires LeftOk(Left(f, idx)) && idx != [] && idx[0] == |Packets(f)| - 1
    ensures idx[1..] == []
  {
    var x := Left(f, idx);
    var i := |x.idx| - 1;
    assert x.idx[i] < |Packets(f)|;
    assert i == 0;
  }

  lemma PartialSized(s: Subscriber, hist: History, f: Flight, d: nat, w: seq<Line>)
    requires Partial(s, hist, f, d, w)
    ensures Sized(s) && Sent(f, hist) && d < |Packets(f)|
  {
  }

  lemma PartialNet(s: Subscriber, hist: History, f: Flight, d: nat, w: seq<Line>, net: seq<Packet>)
    requires Partial(s, hist, f, d, w)
    ensures Partial(s.(net := net), hist, f, d, w)
  {
  }

  lemma ReadyNet(s: Subscriber, hist: History, net: seq<Packet>)
    requires Ready(s, hist)
    ensures Ready(s.(net := net), hist)
  {
  }

  /** Newer streams stay newer and good. */
  lemma RisingHeld(s: Subscriber, r: Subscriber, hist: History, last: Flight, f: Flight, d: nat, w: seq<Line>,
                   late: bool, ls: seq<Left>)
    requires Partial(s, hist, f, d, w) && Rising(ls, hist, f.version, s.held, last) && Fits(Packets(f)[d], |s.rw|)
    requires r == Handle(s, Packets(f)[d], late, true)
    ensures Rising(ls, hist, f.version, r.held, last) && s.held <= r.held
  {
    PacketAt(f, hist, d);
    hide Sent, Packets, Store, LogLines, Patch, Replay;
  }

  lemma RisingTail(ls: seq<Left>, hist: History, from: nat, held: nat, last: Flight)
    requires Rising(ls, hist, from, held, last) && ls != []
    ensures Rising(ls[1..], hist, from, held, last) && Rising(ls[1..], hist, ls[0].f.version, held, last)
    ensures Sent(ls[0].f, hist) && ls[0].f.base <= held && from <= ls[0].f.version && SameStream(ls[0].f, last)
    ensures forall k :: 0 <= k < |ls[1..]| ==> SameStream(ls[0].f, ls[1..][k].f)
  {
  }

  /** The first packet of a newer stream arrives. */
  lemma TakeFirst(s: Subscriber, hist: History, last: Flight, ls: seq<Left>, late: bool)
    requires Ready(s, hist) || AnyPartial(s, hist)
    requires !s.enqueue && s.queue == [] && AllOk(ls) && ls != [] && s.lastVersion < ls[0].f.version
    requires Rising(ls, hist, s.lastVersion, s.held, last)
    requires ls[0].idx != [] && s.net == All(ls) && s.net != [] && !Fires(s, s.net[0])
    ensures Sized(s) && Fits(s.net[0], |s.rw|) && LossInv(Deliver(s, late), hist, last)
  {
    var f, idx := ls[0].f, ls[0].idx;
    hide Partial, Ready, AnyPartial, Packets, Handle, LossInv, Rising, SameStream;
    KeptTail(ls[0]);
    RisingTail(ls, hist, s.lastVersion, s.held, last);
    assert s.net[0] == Packets(f)[idx[0]];
    FiresAtStart(s, hist, f, idx[0]);
    assert idx[0] == 0;
    BeginNewer(s, hist, f, late);
    hide Sent, LeftOk;
    var b := Announced(s, f.version);
    assert s.net == Kept(Left(f, idx)) + All(ls[1..]);
    assert Busy(b, hist, last, f, 0, s.rw, idx, ls[1..]);
    TakeKept(b, hist, last, f, 0, s.rw, idx, ls[1..], late);
    HandleNet(s, Packets(f)[0], late, s.net[1..]);
    HandleNet(b, Packets(f)[0], late, s.net[1..]);
    assert Deliver(s, late) == Deliver(b, late);
  }

  /** A packet of the version held is dropped. */
  lemma DropKept(s: Subscriber, hist: History, last: Flight, ls: seq<Left>, late: bool)
    requires Waiting(s, hist, last, ls) && !s.enqueue && ls != [] && ls[0].idx != [] && ls[0].f.version == s.held
    ensures s.net != [] && Fits(s.net[0], |s.rw|) && LossInv(Deliver(s, late), hist, last)
  {
    hide Packets, Kept, Ready, Rising, Handle, Deliver, All;
    var x := ls[0];
    RisingTail(ls, hist, s.held, s.held, last);
    assert LeftOk(x);
    PacketAt(x.f, hist, x.idx[0]);
    hide Sent, Carries, LeftOk;
    var ms := DropHead(ls);
    assert s.queue + s.net == s.net && s.net[1..] == All(ms);
    RisingHead(ls, ms, hist, s.held, s.held, last);
    DropHeld(s, hist, x.f, late);
    ReadyNet(s, hist, s.net[1..]);
    assert [] + s.net[1..] == s.net[1..];
    assert Waiting(s.(net := s.net[1..]), hist, last, ms);
  }

  lemma DropHead(ls: seq<Left>) returns (ms: seq<Left>)
    requires AllOk(ls) && ls != [] && ls[0].idx != []
    ensures AllOk(ms) && SameStreams(ls, ms) && All(ls) == [Packets(ls[0].f)[ls[0].idx[0]]] + All(ms)
  {
    hide Packets, Kept;
    KeptTail(ls[0]);
    ms := [Left(ls[0].f, ls[0].idx[1..])] + ls[1..];
    assert ms[1..] == ls[1..];
  }

  lemma RisingHead(ls: seq<Left>, ms: seq<Left>, hist: History, from: nat, held: nat, last: Flight)
    requires Rising(ls, hist, from, held, last) && SameStreams(ls, ms)
    ensures Rising(ms, hist, from, held, last)
  {
  }

  lemma DropHeld(s: Subscriber, hist: History, f: Flight, late: bool)
    requires Ready(s, hist) && !s.enqueue && Sent(f, hist) && f.version == s.held
    requires s.net != [] && Carries(s.net[0], f.version, f.mem)
    ensures Sized(s) && Fits(s.net[0], |s.rw|) && Deliver(s, late) == s.(net := s.net[1..])
  {
    hide Store, LogLines;
  }

  /** Streams lost altogether are passed over. */
  lemma {:induction false} TakeWaiting(s: Subscriber, hist: History, last: Flight, ls: seq<Left>, late: bool)
    requires Waiting(s, hist, last, ls) && !s.enqueue && s.net != [] && !Fires(s, s.net[0])
    ensures Sized(s) && Fits(s.net[0], |s.rw|) && LossInv(Deliver(s, late), hist, last)
    decreases |ls|
  {
    hide Partial, Ready, AnyPartial, Packets, Handle, LeftOk, LossInv;
    assert s.queue + s.net == s.net;
    var x := ls[0];
    ReadyVersion(s, hist);
    if x.idx == [] {
      assert Kept(x) == [] && All(ls) == All(ls[1..]);
      RisingTail(ls, hist, s.held, s.held, last);
      TakeWaiting(s, hist, last, ls[1..], late);
    } else if x.f.version == s.held {
      DropKept(s, hist, last, ls, late);
    } else {
      TakeFirst(s, hist, last, ls, late);
    }
  }

  lemma ReadyVersion(s: Subscriber, hist: History)
    requires Ready(s, hist)
    ensures s.lastVersion == s.held && Sized(s)
  {
  }

  /** Behind what is left of the stream being received: the same stream again, or a newer one. */
  lemma {:induction false} TakeBehind(s: Subscriber, hist: History, last: Flight, f: Flight, d: nat, w: seq<Line>,
                                      ls: seq<Left>, late: bool)
    requires Busy(s, hist, last, f, d, w, [], ls) && s.net != [] && !Fires(s, s.net[0])
    ensures Sized(s) && Fits(s.net[0], |s.rw|) && LossInv(Deliver(s, late), hist, last)
    decreases |ls|
  {
    hide Partial, Ready, AnyPartial, Packets, Handle, LossInv, Rising, Sent, LeftOk;
    assert Kept(Left(f, [])) == [] && s.net == All(ls);
    var x := ls[0];
    RisingTail(ls, hist, f.version, s.held, last);
    PartialVersion(s, hist, f, d, w);
    if x.idx == [] {
      assert Kept(x) == [] && All(ls) == All(ls[1..]);
      assert Kept(Left(f, [])) + All(ls[1..]) == All(ls[1..]);
      TakeBehind(s, hist, last, f, d, w, ls[1..], late);
    } else if x.f.version == f.version {
      assert x == Left(f, x.idx);
      assert Busy(s, hist, last, f, d, w, x.idx, ls[1..]);
      TakeBusy(s, hist, last, f, d, w, x.idx, ls[1..], late);
    } else {
      TakeFirst(s, hist, last, ls, late);
    }
  }

  lemma PartialVersion(s: Subscriber, hist: History, f: Flight, d: nat, w: seq<Line>)
    requires Partial(s, hist, f, d, w)
    ensures s.lastVersion == f.version && AnyPartial(s, hist) && !s.enqueue && s.queue == []
  {
  }

  /** Of the stream being received, or sent again, only the next packet is taken without the guard firing. */
  lemma TakeBusy(s: Subscriber, hist: History, last: Flight, f: Flight, d: nat, w: seq<Line>, idx: seq<nat>,
                 ls: seq<Left>, late: bool)
    requires Busy(s, hist, last, f, d, w, idx, ls) && idx != [] && s.net != [] && !Fires(s, s.net[0])
    ensures Sized(s) && Fits(s.net[0], |s.rw|) && LossInv(Deliver(s, late), hist, last)
  {
    KeptTail(Left(f, idx));
    assert s.net[0] == Packets(f)[idx[0]];
    FiresAtGap(s, hist, f, d, w, idx[0]);
    hide Packets;
    TakeKept(s, hist, last, f, d, w, idx, ls, late);
  }

  /** Any packet that does not set off the guard keeps the invariant, whatever was lost before it. */
  lemma DeliverLossy(s: Subscriber, hist: History, last: Flight, late: bool)
    requires LossInv(s, hist, last) && s.net != [] && !Fires(s, s.net[0])
    ensures Sized(s) && Fits(s.net[0], |s.rw|) && LossInv(Deliver(s, late), hist, last)
  {
    UnderWay(s, hist, last);
    assert s.net[0] in s.queue + s.net;
    hide Partial, Ready, Packets, Rising, All, Kept;
    if ls: seq<Left> :| Waiting(s, hist, last, ls) {
      if s.enqueue {
        QueueLossy(s, hist, last, ls, late);
      } else {
        TakeWaiting(s, hist, last, ls, late);
      }
    } else {
      var f: Flight, d: nat, w: seq<Line>, idx: seq<nat>, ls: seq<Left> :| Busy(s, hist, last, f, d, w, idx, ls);
      if idx == [] {
        TakeBehind(s, hist, last, f, d, w, ls, late);
      } else {
        TakeBusy(s, hist, last, f, d, w, idx, ls, late);
      }
    }
  }

  lemma QueueLossy(s: Subscriber, hist: History, last: Flight, ls: seq<Left>, late: bool)
    requires Waiting(s, hist, last, ls) && s.enqueue && s.net != [] && Fits(s.net[0], |s.rw|)
    ensures LossInv(Deliver(s, late), hist, last)
  {
    hide Sent, Packets, All;
    assert s.queue + s.net == (s.queue + [s.net[0]]) + s.net[1..];
    assert Waiting(Deliver(s, late), hist, last, ls);
  }

  // Losing packets.

  /** A packet is lost on the way. */
  function Lose(s: Subscriber, k: nat): Subscriber
    requires k < |s.net|
  {
    s.(net := s.net[..k] + s.net[k + 1..])
  }

  lemma KeptWithout(x: Left, k: nat)
    requires LeftOk(x) && k < |x.idx|
    ensures LeftOk(Left(x.f, Without(x.idx, k))) && Kept(Left(x.f, Without(x.idx, k))) == Without(Kept(x), k)
  {
    hide Packets;
    var y := Left(x.f, Without(x.idx, k));
    assert forall i :: 0 <= i < |y.idx| ==> y.idx[i] == x.idx[if i < k then i else i + 1];
  }

  /** The streams and their order stay. */
  predicate SameStreams(a: seq<Left>, b: seq<Left>) {
    |a| == |b| && forall k :: 0 <= k < |a| ==> a[k].f == b[k].f
  }

  lemma {:induction false} AllWithout(ls: seq<Left>, k: nat) returns (ms: seq<Left>)
    requires AllOk(ls) && k < |All(ls)|
    ensures AllOk(ms) && SameStreams(ls, ms) && All(ms) == Without(All(ls), k)
    decreases |ls|
  {
    hide LeftOk, Kept;
    var x, rest := ls[0], ls[1..];
    var n := |Kept(x)|;
    if k < n {
      KeptLength(x);
      KeptWithout(x, k);
      var y := Left(x.f, Without(x.idx, k));
      ms := [y] + rest;
      assert ms[1..] == rest;
      WithoutLeft(Kept(x), All(rest), k);
    } else {
      var more := AllWithout(rest, k - n);
      ms := [x] + more;
      assert ms[1..] == more;
      WithoutRight(Kept(x), All(rest), k);
    }
  }

  lemma KeptLength(x: Left)
    requires LeftOk(x)
    ensures |Kept(x)| == |x.idx|
  {
  }

  lemma WithoutLeft<T>(a: seq<T>, b: seq<T>, k: nat)
    requires k < |a|
    ensures Without(a + b, k) == Without(a, k) + b
  {
  }

  lemma WithoutRight<T>(a: seq<T>, b: seq<T>, k: nat)
    requires |a| <= k < |a| + |b|
    ensures Without(a + b, k) == a + Without(b, k - |a|)
  {
  }

  /** Loss alone never breaks the invariant. */
  lemma LoseKeeps(s: Subscriber, hist: History, last: Flight, k: nat)
    requires LossInv(s, hist, last) && k < |s.net|
    ensures LossInv(Lose(s, k), hist, last)
  {
    hide Partial, Ready, Packets, LeftOk, Kept, All;
    if ls: seq<Left> :| Waiting(s, hist, last, ls) {
      WithoutRight(s.queue, s.net, |s.queue| + k);
      var ms := AllWithout(ls, |s.queue| + k);
      ReadyNet(s, hist, Without(s.net, k));
      assert Waiting(Lose(s, k), hist, last, ms);
    } else {
      var f: Flight, d: nat, w: seq<Line>, idx: seq<nat>, ls: seq<Left> :| Busy(s, hist, last, f, d, w, idx, ls);
      LoseBusy(s, hist, last, f, d, w, idx, ls, k);
    }
  }

  lemma LoseBusy(s: Subscriber, hist: History, last: Flight, f: Flight, d: nat, w: seq<Line>, idx: seq<nat>,
                 ls: seq<Left>, k: nat)
    requires Busy(s, hist, last, f, d, w, idx, ls) && k < |s.net|
    ensures LossInv(Lose(s, k), hist, last)
  {
    hide Partial, Packets, All, LeftOk, Kept;
    PartialNet(s, hist, f, d, w, Without(s.net, k));
    var x := Left(f, idx);
    KeptLength(x);
    if k < |idx| {
      KeptWithout(x, k);
      WithoutLeft(Kept(x), All(ls), k);
      var less := Without(idx, k);
      assert Busy(Lose(s, k), hist, last, f, d, w, less, ls);
    } else {
      WithoutRight(Kept(x), All(ls), k);
      var ms := AllWithout(ls, k - |idx|);
      assert Busy(Lose(s, k), hist, last, f, d, w, idx, ms);
    }
  }

  // Internal syncs, new versions and new streams.

  lemma PublishReady(s: Subscriber, hist: History, net: seq<Packet>)
    requires Ready(s, hist)
    ensures Published(s).ro == hist[s.held] && Ready(Published(s).(net := net), hist)
  {
    assert Published(s).ro == s.rw;
  }

  /** No packet of the queue sets off the guard when it is drained. */
  ghost predicate QuietDrain(s: Subscriber, q: seq<Packet>)
    requires Sized(s) && forall m :: m in q ==> Fits(m, |s.rw|)
    decreases |q|
  {
    q == [] || (!Fires(s, q[0]) && QuietDrain(Handle(s, q[0], false, true), q[1..]))
  }

  lemma {:induction false} DrainLossy(s: Subscriber, hist: History, last: Flight, q: seq<Packet>)
    requires LossInv(s.(net := q + s.net), hist, last) && !s.enqueue && s.queue == []
    requires Sized(s) && (forall m :: m in q ==> Fits(m, |s.rw|)) && QuietDrain(s, q)
    ensures LossInv(Drain(s, q), hist, last)
    ensures var r := Drain(s, q);
            r.ro == s.ro && r.roVersion == s.roVersion && r.net == s.net && r.queue == [] && !r.enqueue
    decreases |q|
  {
    hide LossInv, Handle, Deliver, Fits;
    var t := s.(net := q + s.net);
    if q == [] {
      assert t == s;
    } else {
      assert t.net[0] == q[0] && t.net == [q[0]] + (q[1..] + s.net);
      FiresNet(s, q[0], t.net);
      DeliverLossy(t, hist, last, false);
      HandleOwn(s, q[0], t.net, q[1..] + s.net);
      DrainLossy(Handle(s, q[0], false, true), hist, last, q[1..]);
    }
  }

  lemma FiresNet(s: Subscriber, m: Packet, net: seq<Packet>)
    ensures Fires(s.(net := net), m) <==> Fires(s, m)
  {
  }

  /** An internal sync is quiet. */
  ghost predicate QuietSync(s: Subscriber) {
    Drainable(s) && (s.pending || QuietDrain(Published(s), s.queue))
  }

  lemma SyncLossy(s: Subscriber, hist: History, last: Flight)
    requires LossInv(s, hist, last) && QuietSync(s)
    ensures LossInv(SyncInternal(s), hist, last) && s.held < |hist|
    ensures var r := SyncInternal(s);
            if s.pending then r == s else r.roVersion == s.held >= s.roVersion && r.ro == hist[s.held]
  {
    UnderWay(s, hist, last);
    hide Drain, Handle;
    if !s.pending {
      var ls: seq<Left> :| Waiting(s, hist, last, ls);
      PublishReady(s, hist, s.queue + s.net);
      var p := Published(s);
      assert [] + (s.queue + s.net) == All(ls);
      assert Waiting(p.(net := s.queue + s.net), hist, last, ls);
      hide LossInv, Waiting, Ready;
      assert p.(net := s.queue + p.net) == p.(net := s.queue + s.net);
      LossByWaiting(p.(net := s.queue + s.net), hist, last, ls);
      DrainLossy(p, hist, last, s.queue);
    }
  }

  lemma LossByWaiting(s: Subscriber, hist: History, last: Flight, ls: seq<Left>)
    requires Waiting(s, hist, last, ls)
    ensures LossInv(s, hist, last)
  {
  }

  lemma PatchKept(w: seq<Line>, hist: History, next: seq<Line>, lo: nat, hi: nat)
    requires Patch(w, hist, lo, hi)
    ensures Patch(w, hist + [next], lo, hi)
  {
    forall l: nat | l < |w| ensures Between(w, hist + [next], l, lo, hi) {
      assert Between(w, hist, l, lo, hi);
      var h :| lo <= h <= hi && IsLine(w, hist, l, h);
      assert IsLine(w, hist + [next], l, h);
    }
  }

  lemma RisingKept(ls: seq<Left>, hist: History, next: seq<Line>, from: nat, held: nat, last: Flight)
    requires Rising(ls, hist, from, held, last)
    ensures Rising(ls, hist + [next], from, held, last)
  {
    forall k | 0 <= k < |ls| ensures Sent(ls[k].f, hist + [next]) {
      SentGrows(ls[k].f, hist, next);
    }
  }

  lemma GrowLossy(s: Subscriber, hist: History, last: Flight, next: seq<Line>)
    requires LossInv(s, hist, last) && |next| == |s.ro|
    ensures LossInv(s, hist + [next], last)
  {
    hide Packets, All, Kept, LeftOk, Replay;
    if ls: seq<Left> :| Waiting(s, hist, last, ls) {
      RisingKept(ls, hist, next, s.held, s.held, last);
      hide Rising;
      assert Waiting(s, hist + [next], last, ls);
    } else {
      var f: Flight, d: nat, w: seq<Line>, idx: seq<nat>, ls: seq<Left> :| Busy(s, hist, last, f, d, w, idx, ls);
      RisingKept(ls, hist, next, f.version, s.held, last);
      PartialGrows(s, hist, next, f, d, w);
      hide Rising, Partial;
      assert Busy(s, hist + [next], last, f, d, w, idx, ls);
    }
  }

  lemma PartialGrows(s: Subscriber, hist: History, next: seq<Line>, f: Flight, d: nat, w: seq<Line>)
    requires Partial(s, hist, f, d, w) && |next| == |s.ro|
    ensures Partial(s, hist + [next], f, d, w)
  {
    SentGrows(f, hist, next);
    PatchKept(w, hist, next, s.held, f.version);
    hide Patch, Replay, Packets, Sent;
  }

  /** All packets of a stream. */
  function Whole(f: Flight): Left
    requires forall r :: r in f.runs ==> InMemory(r, |f.mem|)
  {
    Left(f, seq(|Packets(f)|, i => i))
  }

  lemma {:induction false} AllSnoc(ls: seq<Left>, f: Flight)
    requires AllOk(ls) && forall r :: r in f.runs ==> InMemory(r, |f.mem|)
    ensures AllOk(ls + [Whole(f)]) && All(ls + [Whole(f)]) == All(ls) + Packets(f)
  {
    hide Packets;
    if ls == [] {
      assert [] + [Whole(f)] == [Whole(f)] && [Whole(f)][1..] == [];
      assert Kept(Whole(f)) == Packets(f);
      assert All([Whole(f)]) == Kept(Whole(f)) + All([]);
    } else {
      assert (ls + [Whole(f)])[1..] == ls[1..] + [Whole(f)];
      AllSnoc(ls[1..], f);
    }
  }

  lemma RisingSnoc(ls: seq<Left>, hist: History, from: nat, held: nat, last: Flight, f: Flight)
    requires Rising(ls, hist, from, held, last) && Sent(f, hist) && f.base <= held
    requires last.version < f.version || f == last
    ensures Rising(ls + [Whole(f)], hist, from, held, f)
  {
  }

  /** A stream of a newer version, or the last stream again, joins what is on its way. */
  lemma SendLossy(s: Subscriber, hist: History, last: Flight, f: Flight)
    requires LossInv(s, hist, last) && Sent(f, hist) && f.base <= s.reported
    requires last.version < f.version || f == last
    ensures LossInv(Expect(s, f), hist, f)
  {
    hide Packets, All, Kept, LeftOk, Partial, Rising;
    if ls: seq<Left> :| Waiting(s, hist, last, ls) {
      AllSnoc(ls, f);
      RisingSnoc(ls, hist, s.held, s.held, last, f);
      Assoc(s.queue, s.net, Packets(f));
      hide Rising, Sent;
      assert Waiting(Expect(s, f), hist, f, ls + [Whole(f)]);
    } else {
      var g: Flight, d: nat, w: seq<Line>, idx: seq<nat>, ls: seq<Left> :| Busy(s, hist, last, g, d, w, idx, ls);
      SendBusy(s, hist, last, f, g, d, w, idx, ls);
    }
  }

  lemma SendBusy(s: Subscriber, hist: History, last: Flight, f: Flight, g: Flight, d: nat, w: seq<Line>, idx: seq<nat>,
                 ls: seq<Left>)
    requires Busy(s, hist, last, g, d, w, idx, ls) && Sent(f, hist) && f.base <= s.reported
    requires last.version < f.version || f == last
    ensures Busy(Expect(s, f), hist, f, g, d, w, idx, ls + [Whole(f)])
  {
    hide Packets, All, Kept, LeftOk, Partial;
    PartialExpect(s, hist, g, d, w, f);
    AllSnoc(ls, f);
    RisingSnoc(ls, hist, g.version, s.held, last, f);
    Assoc(Kept(Left(g, idx)), All(ls), Packets(f));
    hide Sent;
  }

  lemma PartialExpect(s: Subscriber, hist: History, g: Flight, d: nat, w: seq<Line>, f: Flight)
    requires Partial(s, hist, g, d, w) && forall x :: x in f.runs ==> InMemory(x, |f.mem|)
    ensures Partial(Expect(s, f), hist, g, d, w) && s.reported <= s.held
  {
    hide Packets, Replay, Patch, Sent;
  }

  lemma ReportLossy(s: Subscriber, hist: History, last: Flight, r: nat)
    requires LossInv(s, hist, last) && s.reported <= r <= s.roVersion
    ensures LossInv(s.(reported := r), hist, last)
  {
    hide Packets, All, Kept, LeftOk, Replay, Patch, Sent, Rising;
    if ls: seq<Left> :| Waiting(s, hist, last, ls) {
      assert Waiting(s.(reported := r), hist, last, ls);
    } else {
      var f: Flight, d: nat, w: seq<Line>, idx: seq<nat>, ls: seq<Left> :| Busy(s, hist, last, f, d, w, idx, ls);
      assert Busy(s.(reported := r), hist, last, f, d, w, idx, ls);
    }
  }
}
