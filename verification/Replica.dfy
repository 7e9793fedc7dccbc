/** The owner of an area and its subscribers as one system: the owner publishes versions and sends streams
    (src/sync_internal.c:194-203, src/sync_external.c:98-140), every subscriber receives packets in order
    (src/sync_external.c:5-59) and now and then copies RW to RO (src/sync_internal.c:55-57, 149-214,
    src/service.c:132-137). Delivery is lossless and in order, as the receiver assumes. */
module Replica {
  import opened LogBits
  import opened Framing
  import opened RunLength
  import opened SyncWalk
  import opened SyncArea
  import opened DiffLogs

  /** A subscriber's copy of the area, its header flags and the packets on their way to it. */
  datatype Subscriber = Subscriber(
    rw: seq<Line>, ro: seq<Line>, dirty: seq<bool>,
    pending: bool, ignore: bool, enqueue: bool,
    lastVersion: nat,          // last_sync_ext_v_
    bytes: nat,                // last_sync_ext_bytes_
    held: nat,                 // version in the RW header
    roVersion: nat,            // version in the RO header
    reported: nat,             // what its node area says at the owner
    queue: seq<Packet>,        // ring_mem_pending
    net: seq<Packet>,          // sent but not yet received
    sent: nat)                 // history: version of the last stream sent to it

  predicate Sized(s: Subscriber) {
    |s.rw| == |s.ro| == |s.dirty|
  }

  /** The dirty bits after logging the lines of a message. */
  function LogLines(dirty: seq<bool>, m: Packet): (r: seq<bool>)
    ensures |r| == |dirty|
  {
    seq(|dirty|, i requires 0 <= i < |dirty| => dirty[i] || m.line <= i < m.line + |m.data|)
  }

  /** tasvir_handle_msg_mem. `late` says whether more than half of the sync interval has passed, `room` whether
      the pending ring takes another message. */
  function Handle(s: Subscriber, m: Packet, late: bool, room: bool): (r: Subscriber)
    requires Sized(s) && Fits(m, |s.rw|)
    ensures Sized(r) && |r.rw| == |s.rw| && r.ro == s.ro && r.net == s.net
  {
    if s.enqueue then
      if room then s.(queue := s.queue + [m]) else s.(enqueue := false, ignore := true)
    else
      var s1 := if s.lastVersion != m.version
                then s.(lastVersion := m.version, bytes := 0, ignore := false, pending := true) else s;
      if s1.ignore || !s1.pending then s1
      else
        var s2 := if s1.bytes != m.prev then s1.(pending := false, ignore := true) else s1;
        var s3 := s2.(dirty := LogLines(s2.dirty, m), rw := Store(s2.rw, m), bytes := s2.bytes + m.bytes);
        if m.last then s3.(pending := false, enqueue := late, held := m.version) else s3
  }

  /** An internal sync at the subscriber: a pending area is passed over; otherwise the dirty lines go to RO and
      the messages queued meanwhile are handled, none of them late. */
  function Merge(s: Subscriber): (ro: seq<Line>)
    requires Sized(s)
    ensures |ro| == |s.ro|
  {
    seq(|s.ro|, i requires 0 <= i < |s.ro| => if s.dirty[i] then s.rw[i] else s.ro[i])
  }

  function Drain(s: Subscriber, q: seq<Packet>): (r: Subscriber)
    requires Sized(s) && forall m :: m in q ==> Fits(m, |s.rw|)
    ensures Sized(r) && |r.rw| == |s.rw|
    decreases |q|
  {
    if q == [] then s else Drain(Handle(s, q[0], false, true), q[1..])
  }

  function Published(s: Subscriber): Subscriber
    requires Sized(s)
  {
    s.(ro := Merge(s), roVersion := s.held, dirty := seq(|s.dirty|, _ => false), enqueue := false, queue := [])
  }

  /** What is queued fits the area. */
  predicate Drainable(s: Subscriber) {
    Sized(s) && forall m :: m in s.queue ==> Fits(m, |s.rw|)
  }

  function SyncInternal(s: Subscriber): Subscriber
    requires Drainable(s)
  {
    if s.pending then s else Drain(Published(s), s.queue)
  }

  // Streams in flight.

  /** A stream as it was sent: version, the oldest version it is good for, its runs and the owner's data. */
  datatype Flight = Flight(version: nat, base: nat, runs: seq<Run>, mem: seq<Line>)

  ghost predicate Sent(f: Flight, hist: History) {
    && 0 < f.version < |hist| && f.base <= f.version && f.mem == hist[f.version]
    && f.runs != [] && (forall x :: x in f.runs ==> InMemory(x, |f.mem|) && x.len > 0)
    && (forall h :: f.base <= h <= f.version ==> |hist[h]| == |f.mem| && Updates(f, hist[h]))
  }

  /** The runs cover every line in which `data` differs from the data sent. */
  ghost predicate Updates(f: Flight, data: seq<Line>) {
    |data| == |f.mem| && forall line :: 0 <= line < |data| ==> data[line] == f.mem[line] || Covered(f.runs, line)
  }

  function Packets(f: Flight): seq<Packet>
    requires forall x :: x in f.runs ==> InMemory(x, |f.mem|)
  {
    Stream(f.version, f.runs, 0, true, f.mem)
  }

  ghost predicate AllSent(fl: seq<Flight>, hist: History) {
    forall k :: 0 <= k < |fl| ==> Sent(fl[k], hist)
  }

  ghost function Flat(fl: seq<Flight>, hist: History): seq<Packet>
    requires AllSent(fl, hist)
  {
    if fl == [] then [] else Packets(fl[0]) + Flat(fl[1..], hist)
  }

  /** Streams arrive in version order, none older than `from`, none based on a version the subscriber lacks; the
      last one is of version `to`. */
  ghost predicate Ordered(fl: seq<Flight>, from: nat, held: nat, to: nat) {
    && to == (if fl == [] then from else fl[|fl| - 1].version)
    && (forall k :: 0 <= k < |fl| ==> from <= fl[k].version && fl[k].base <= held)
    && (forall j, k :: 0 <= j < k < |fl| ==> fl[j].version <= fl[k].version)
  }

  lemma PacketsFramed(f: Flight, hist: History)
    requires Sent(f, hist)
    ensures WellFramed(Packets(f), f.version, f.mem)
  {
    StreamChained(f.version, f.runs, 0, true, f.mem);
    StreamLast(f.version, f.runs, 0, true, f.mem);
  }

  /** Applying a whole stream to any version it is good for gives the version it was sent at. */
  lemma PacketsUpdate(f: Flight, hist: History, held: nat)
    requires Sent(f, hist) && f.base <= held <= f.version
    ensures (forall p :: p in Packets(f) ==> Fits(p, |f.mem|)) && Replay(hist[held], Packets(f)) == f.mem
  {
    StreamReplay(hist[held], f.version, f.runs, 0, true, f.mem);
    assert Updates(f, hist[held]);
    forall line | 0 <= line < |f.mem| ensures Replay(hist[held], Packets(f))[line] == f.mem[line] {
      CopyRunsAt(hist[held], f.mem, f.runs, line);
    }
  }

  // The invariant of one subscriber.

  /** RO is the owner's data at the version in the RO header, and RW differs from it in dirty lines only. */
  ghost predicate Consistent(s: Subscriber, hist: History) {
    && Sized(s) && !s.ignore && s.reported <= s.roVersion <= s.held < |hist|
    && (forall v :: 0 <= v < |hist| ==> |hist[v]| == |s.ro|)
    && s.ro == hist[s.roVersion]
    && (forall i :: 0 <= i < |s.ro| ==> s.ro[i] == s.rw[i] || s.dirty[i])
  }

  /** No stream is being received: RW is a published version; what is queued or in the net is a rest of
      packets of that same version, to be dropped, and then whole streams. */
  ghost predicate Idle(s: Subscriber, hist: History, tail: seq<Packet>, fl: seq<Flight>) {
    && Consistent(s, hist) && !s.pending && s.lastVersion == s.held && s.rw == hist[s.held]
    && (forall p :: p in tail ==> p.version == s.held && Fits(p, |s.ro|))
    && (!s.enqueue ==> s.queue == [])
    && AllSent(fl, hist) && Ordered(fl, s.held, s.held, s.sent) && s.queue + s.net == tail + Flat(fl, hist)
  }

  /** A stream has arrived in part: RW is the version held, overwritten by the packets received so far. */
  ghost predicate Receiving(s: Subscriber, hist: History, cur: Flight, done: seq<Packet>, rest: seq<Packet>,
                            fl: seq<Flight>) {
    && Consistent(s, hist) && s.pending && !s.enqueue && s.queue == []
    && Sent(cur, hist) && Packets(cur) == done + rest && rest != []
    && s.lastVersion == cur.version && cur.base <= s.held < cur.version && s.bytes == TotalBytes(done)
    && (forall p :: p in done ==> Fits(p, |s.ro|)) && s.rw == Replay(hist[s.held], done)
    && AllSent(fl, hist) && Ordered(fl, cur.version, s.held, s.sent) && s.net == rest + Flat(fl, hist)
  }

  ghost predicate SubInv(s: Subscriber, hist: History) {
    || (exists tail, fl :: Idle(s, hist, tail, fl))
    || (exists cur, done, rest, fl :: Receiving(s, hist, cur, done, rest, fl))
  }

  /** Receiving one packet from the net. */
  function Deliver(s: Subscriber, late: bool): Subscriber
    requires Sized(s) && s.net != [] && Fits(s.net[0], |s.rw|)
  {
    Handle(s.(net := s.net[1..]), s.net[0], late, true)
  }

  lemma FlatFits(fl: seq<Flight>, hist: History, n: nat)
    requires AllSent(fl, hist) && forall v :: 0 <= v < |hist| ==> |hist[v]| == n
    ensures forall p :: p in Flat(fl, hist) ==> Fits(p, n)
  {
    if fl != [] {
      PacketsFramed(fl[0], hist);
      ChainedFits(Packets(fl[0]), fl[0].version, 0, fl[0].mem);
      FlatFits(fl[1..], hist, n);
    }
  }

  /** A packet of the version already held changes nothing. */
  lemma DropOne(s: Subscriber, hist: History, tail: seq<Packet>, fl: seq<Flight>, late: bool)
    requires Idle(s, hist, tail, fl) && !s.enqueue && tail != []
    ensures s.net != [] && Fits(s.net[0], |s.rw|) && Idle(Deliver(s, late), hist, tail[1..], fl)
  {
    hide Flat, Sent;
    assert s.net == tail + Flat(fl, hist);
    assert s.net[1..] == tail[1..] + Flat(fl, hist);
  }

  /** A whole stream of the version already held, resent, is only more to be dropped. */
  lemma DropResent(s: Subscriber, hist: History, fl: seq<Flight>)
    requires Idle(s, hist, [], fl) && fl != [] && fl[0].version == s.held
    ensures Idle(s, hist, Packets(fl[0]), fl[1..])
  {
    PacketsFramed(fl[0], hist);
    ChainedFits(Packets(fl[0]), s.held, 0, fl[0].mem);
    PacketVersions(Packets(fl[0]), s.held, 0, fl[0].mem);
    hide Sent, WellFramed, Packets;
    assert [] + Flat(fl, hist) == Flat(fl, hist);
  }

  lemma {:induction false} PacketVersions(ps: seq<Packet>, v: nat, start: nat, mem: seq<Line>)
    requires Chained(ps, v, start, mem)
    ensures forall p :: p in ps ==> p.version == v
  {
    if ps != [] {
      PacketVersions(ps[1..], v, start + ps[0].bytes, mem);
      assert forall p :: p in ps ==> p == ps[0] || p in ps[1..];
    }
  }

  // One packet received.

  /** What storing packet m does: RO stays consistent, because every stored line is logged. */
  lemma StoreLogged(ro: seq<Line>, rw: seq<Line>, dirty: seq<bool>, m: Packet)
    requires |ro| == |rw| == |dirty| && Fits(m, |rw|)
    requires forall i :: 0 <= i < |ro| ==> ro[i] == rw[i] || dirty[i]
    ensures forall i :: 0 <= i < |ro| ==> ro[i] == Store(rw, m)[i] || LogLines(dirty, m)[i]
  {
  }

  /** One more packet of the stream being received, apart from the end of the stream. */
  function Absorb(s: Subscriber, m: Packet): (r: Subscriber)
    requires Sized(s) && Fits(m, |s.rw|)
  {
    s.(dirty := LogLines(s.dirty, m), rw := Store(s.rw, m), bytes := s.bytes + m.bytes)
  }

  lemma {:induction false} TotalBytesSnoc(ps: seq<Packet>, p: Packet)
    ensures TotalBytes(ps + [p]) == TotalBytes(ps) + p.bytes
  {
    if ps == [] {
      assert [] + [p] == [p];
    } else {
      assert (ps + [p])[1..] == ps[1..] + [p];
      TotalBytesSnoc(ps[1..], p);
    }
  }

  /** The next packet continues the byte count, and ends the stream exactly if it is the only one left. */
  lemma NextPacket(f: Flight, hist: History, done: seq<Packet>, rest: seq<Packet>)
    requires Sent(f, hist) && Packets(f) == done + rest && rest != []
    ensures rest[0].prev == TotalBytes(done) && rest[0].version == f.version && Fits(rest[0], |f.mem|)
    ensures rest[0].last <==> |rest| == 1
  {
    PacketsFramed(f, hist);
    ChainedAt(Packets(f), f.version, 0, f.mem, |done|);
    assert Packets(f)[|done|] == rest[0] && Packets(f)[..|done|] == done;
  }

  lemma AbsorbKeeps(s: Subscriber, hist: History, cur: Flight, done: seq<Packet>, rest: seq<Packet>, fl: seq<Flight>)
    requires Receiving(s, hist, cur, done, rest, fl)
    ensures Fits(rest[0], |s.rw|) && Consistent(Absorb(s, rest[0]), hist)
    ensures var r := Absorb(s, rest[0]); var past := done + [rest[0]];
            && r.bytes == TotalBytes(past)
            && (forall p :: p in past ==> Fits(p, |s.ro|)) && r.rw == Replay(hist[s.held], past)
  {
    NextPacket(cur, hist, done, rest);
    TotalBytesSnoc(done, rest[0]);
    ReplayAppend(hist[s.held], done, [rest[0]]);
    assert Replay(s.rw, [rest[0]]) == Store(s.rw, rest[0]);
    StoreLogged(s.ro, s.rw, s.dirty, rest[0]);
  }

  lemma DeliverAbsorbs(s: Subscriber, rest: seq<Packet>, more: seq<Packet>, late: bool)
    requires Sized(s) && s.pending && !s.enqueue && !s.ignore && s.net == rest + more && rest != []
    requires Fits(rest[0], |s.rw|)
    requires rest[0].version == s.lastVersion && rest[0].prev == s.bytes
    ensures var a, d := Absorb(s, rest[0]), Deliver(s, late);
            && a.net == s.net && a.ro == s.ro
            && (!rest[0].last ==> d == a.(net := rest[1..] + more))
            && (rest[0].last ==>
                   d == a.(net := rest[1..] + more, pending := false, enqueue := late, held := s.lastVersion))
  {
    hide Store, LogLines;
    assert s.net[1..] == rest[1..] + more;
  }

  /** Receiving in the middle of a stream: the stream goes on, or RW is now exactly the version sent. */
  lemma ReceiveOne(s: Subscriber, hist: History, cur: Flight, done: seq<Packet>, rest: seq<Packet>, fl: seq<Flight>,
                   late: bool)
    requires Receiving(s, hist, cur, done, rest, fl)
    ensures s.net != [] && s.net[0] == rest[0] && Fits(s.net[0], |s.rw|)
    ensures if |rest| > 1 then Receiving(Deliver(s, late), hist, cur, done + [rest[0]], rest[1..], fl)
            else Idle(Deliver(s, late), hist, [], fl)
  {
    hide Flat, Packets, Replay, Deliver, Handle, Store, LogLines;
    NextPacket(cur, hist, done, rest);
    AbsorbKeeps(s, hist, cur, done, rest, fl);
    DeliverAbsorbs(s, rest, Flat(fl, hist), late);
    if |rest| == 1 {
      PacketsUpdate(cur, hist, s.held);
      assert done + [rest[0]] == Packets(cur);
    } else {
      assert done + rest == (done + [rest[0]]) + rest[1..];
    }
  }

  /** The first packet of a newer version finds the header as if the stream had been announced before. */
  function Announced(s: Subscriber, v: nat): Subscriber {
    s.(lastVersion := v, bytes := 0, pending := true)
  }

  lemma BeginStream(s: Subscriber, hist: History, fl: seq<Flight>)
    requires Idle(s, hist, [], fl) && !s.enqueue && fl != [] && fl[0].version != s.held
    ensures Receiving(Announced(s, fl[0].version), hist, fl[0], [], Packets(fl[0]), fl[1..])
  {
    hide Sent, WellFramed, Packets, Consistent;
    PacketsSome(fl[0], hist);
    ConsistentAnnounced(s, hist, fl[0].version);
    assert [] + Flat(fl, hist) == Flat(fl, hist);
    assert [] + Packets(fl[0]) == Packets(fl[0]);
  }

  lemma PacketsSome(f: Flight, hist: History)
    requires Sent(f, hist)
    ensures (forall x :: x in f.runs ==> InMemory(x, |f.mem|)) && Packets(f) != []
  {
    PacketsFramed(f, hist);
  }

  lemma ConsistentAnnounced(s: Subscriber, hist: History, v: nat)
    requires Consistent(s, hist)
    ensures Consistent(Announced(s, v), hist) && s.held < |hist|
  {
  }

  lemma BeginOne(s: Subscriber, hist: History, fl: seq<Flight>, late: bool)
    requires Idle(s, hist, [], fl) && !s.enqueue && fl != [] && fl[0].version != s.held
    ensures s.net != [] && Fits(s.net[0], |s.rw|) && SubInv(Deliver(s, late), hist)
  {
    var b := Announced(s, fl[0].version);
    BeginStream(s, hist, fl);
    NextPacket(fl[0], hist, [], Packets(fl[0]));
    ReceiveOne(b, hist, fl[0], [], Packets(fl[0]), fl[1..], late);
    assert Deliver(s, late) == Deliver(b, late);
  }

  /** An area that queues its packets only moves one from the net to the queue. */
  lemma EnqueueOne(s: Subscriber, hist: History, tail: seq<Packet>, fl: seq<Flight>, late: bool)
    requires Idle(s, hist, tail, fl) && s.enqueue && s.net != [] && Fits(s.net[0], |s.rw|)
    ensures Idle(Deliver(s, late), hist, tail, fl)
  {
    assert s.queue + s.net == (s.queue + [s.net[0]]) + s.net[1..];
  }

  lemma IdleFits(s: Subscriber, hist: History, tail: seq<Packet>, fl: seq<Flight>)
    requires Idle(s, hist, tail, fl)
    ensures forall p :: p in s.queue + s.net ==> Fits(p, |s.rw|)
  {
    FlatFits(fl, hist, |s.ro|);
  }

  /** Everything under way fits the area. */
  lemma UnderWayFits(s: Subscriber, hist: History)
    requires SubInv(s, hist)
    ensures Sized(s)
    ensures (forall p :: p in s.queue ==> Fits(p, |s.rw|)) && (forall p :: p in s.net ==> Fits(p, |s.rw|))
  {
    if tail: seq<Packet>, fl: seq<Flight> :| Idle(s, hist, tail, fl) {
      IdleFits(s, hist, tail, fl);
    } else {
      var cur, done, rest, fl :| Receiving(s, hist, cur, done, rest, fl);
      FlatFits(fl, hist, |s.ro|);
      PacketsFramed(cur, hist);
      ChainedFits(Packets(cur), cur.version, 0, cur.mem);
      assert forall p :: p in rest ==> p in Packets(cur);
    }
  }

  lemma DeliverNext(s: Subscriber, hist: History, fl: seq<Flight>, late: bool)
    requires Idle(s, hist, [], fl) && !s.enqueue && s.net != [] && Fits(s.net[0], |s.rw|)
    ensures SubInv(Deliver(s, late), hist)
  {
    assert s.queue + s.net == s.net && [] + Flat(fl, hist) == Flat(fl, hist);
    hide Deliver, Handle, Packets;
    if fl[0].version == s.held {
      PacketsFramed(fl[0], hist);
      DropResent(s, hist, fl);
      DropOne(s, hist, Packets(fl[0]), fl[1..], late);
    } else {
      BeginOne(s, hist, fl, late);
    }
  }

  /** Receiving any packet keeps the invariant of the subscriber. */
  lemma DeliverKeeps(s: Subscriber, hist: History, late: bool)
    requires SubInv(s, hist) && s.net != []
    ensures Sized(s) && Fits(s.net[0], |s.rw|) && SubInv(Deliver(s, late), hist)
  {
    hide Deliver, Handle, Idle, Receiving;
    UnderWayFits(s, hist);
    if tail: seq<Packet>, fl: seq<Flight> :| Idle(s, hist, tail, fl) {
      DeliverIdle(s, hist, tail, fl, late);
    } else {
      var cur, done, rest, fl :| Receiving(s, hist, cur, done, rest, fl);
      ReceiveOne(s, hist, cur, done, rest, fl, late);
    }
  }

  lemma DeliverIdle(s: Subscriber, hist: History, tail: seq<Packet>, fl: seq<Flight>, late: bool)
    requires Idle(s, hist, tail, fl) && s.net != [] && Fits(s.net[0], |s.rw|)
    ensures SubInv(Deliver(s, late), hist)
  {
    hide Deliver, Handle, Sent, Flat, Packets, Consistent, Receiving;
    if s.enqueue {
      EnqueueOne(s, hist, tail, fl, late);
    } else if tail != [] {
      DropOne(s, hist, tail, fl, late);
    } else {
      DeliverNext(s, hist, fl, late);
    }
  }

  // Internal sync at the subscriber.

  /** RO becomes RW, which is a published version. */
  lemma PublishedIdle(s: Subscriber, hist: History, tail: seq<Packet>, fl: seq<Flight>)
    requires Idle(s, hist, tail, fl)
    ensures Published(s).ro == hist[s.held]
    ensures Idle(Published(s).(net := s.queue + s.net), hist, tail, fl)
  {
    hide Sent, Flat;
    var p := Published(s);
    assert p.ro == s.rw;
    assert p.queue + (s.queue + s.net) == s.queue + s.net;
  }

  /** Handling a message is receiving it from the net. */
  lemma HandleOwn(s: Subscriber, m: Packet, net: seq<Packet>, rest: seq<Packet>)
    requires Sized(s) && Fits(m, |s.rw|) && !s.enqueue && net == [m] + rest
    ensures var n := Handle(s, m, false, true);
            && Deliver(s.(net := net), false) == n.(net := rest)
            && !n.enqueue && n.queue == s.queue && n.net == s.net && n.ro == s.ro && n.roVersion == s.roVersion
  {
    hide Store, LogLines;
    assert net[1..] == rest;
  }

  /** Draining the queue is receiving its packets before those in the net. */
  lemma {:induction false} DrainKeeps(s: Subscriber, hist: History, q: seq<Packet>)
    requires SubInv(s.(net := q + s.net), hist) && !s.enqueue && s.queue == []
    requires forall m :: m in q ==> Fits(m, |s.rw|)
    ensures Sized(s) && SubInv(Drain(s, q), hist)
    ensures var r := Drain(s, q);
            r.ro == s.ro && r.roVersion == s.roVersion && r.net == s.net && r.queue == [] && !r.enqueue
    decreases |q|
  {
    hide SubInv, Handle, Deliver, Fits;
    var t := s.(net := q + s.net);
    UnderWayFits(t, hist);
    if q == [] {
      assert t == s;
    } else {
      DeliverKeeps(t, hist, false);
      HandleOwn(s, q[0], t.net, q[1..] + s.net);
      DrainKeeps(Handle(s, q[0], false, true), hist, q[1..]);
    }
  }

  /** An internal sync keeps the invariant; a pending stream is not published, otherwise RO becomes exactly the
      version held. */
  lemma SyncKeeps(s: Subscriber, hist: History)
    requires SubInv(s, hist)
    ensures Drainable(s) && SubInv(SyncInternal(s), hist)
    ensures var r := SyncInternal(s);
            if s.pending then r == s
            else r.roVersion == s.held >= s.roVersion && s.held < |hist| && r.ro == hist[s.held]
  {
    UnderWayFits(s, hist);
    if !s.pending {
      var tail, fl :| Idle(s, hist, tail, fl);
      PublishedIdle(s, hist, tail, fl);
      hide Drain, Idle, Receiving;
      assert Published(s).(net := s.queue + Published(s).net) == Published(s).(net := s.queue + s.net);
      DrainKeeps(Published(s), hist, s.queue);
    }
  }

  /** Once everything sent has arrived, no stream is pending and RW is the last version sent. */
  lemma ArrivedHolds(s: Subscriber, hist: History)
    requires SubInv(s, hist) && s.queue + s.net == []
    ensures !s.pending && s.held == s.sent && s.sent < |hist|
  {
    assert s.net == [] && s.queue == [];
    if tail: seq<Packet>, fl: seq<Flight> :| Idle(s, hist, tail, fl) {
      if fl != [] {
        PacketsFramed(fl[0], hist);
      }
    }
  }

  // A new version, and a new stream.

  lemma {:induction false} FlatGrows(fl: seq<Flight>, hist: History, next: seq<Line>)
    requires AllSent(fl, hist)
    ensures AllSent(fl, hist + [next]) && Flat(fl, hist + [next]) == Flat(fl, hist)
  {
    forall k | 0 <= k < |fl| ensures Sent(fl[k], hist + [next]) {
      SentGrows(fl[k], hist, next);
    }
    hide Sent;
    if fl != [] {
      FlatGrows(fl[1..], hist, next);
    }
  }

  lemma SentGrows(f: Flight, hist: History, next: seq<Line>)
    requires Sent(f, hist)
    ensures Sent(f, hist + [next])
  {
    forall h | f.base <= h <= f.version ensures Updates(f, (hist + [next])[h]) {
      assert (hist + [next])[h] == hist[h];
    }
  }

  /** A version published by the owner leaves the subscriber's invariant alone. */
  lemma GrowKeeps(s: Subscriber, hist: History, next: seq<Line>)
    requires SubInv(s, hist) && |next| == |s.ro|
    ensures SubInv(s, hist + [next])
  {
    if tail: seq<Packet>, fl: seq<Flight> :| Idle(s, hist, tail, fl) {
      FlatGrows(fl, hist, next);
      hide Sent, Flat;
      assert Idle(s, hist + [next], tail, fl);
    } else {
      var cur, done, rest, fl :| Receiving(s, hist, cur, done, rest, fl);
      FlatGrows(fl, hist, next);
      SentGrows(cur, hist, next);
      hide Sent, Flat, Packets, Replay;
      assert Receiving(s, hist + [next], cur, done, rest, fl);
    }
  }

  lemma {:induction false} FlatSnoc(fl: seq<Flight>, f: Flight, hist: History)
    requires AllSent(fl, hist) && Sent(f, hist)
    ensures AllSent(fl + [f], hist) && Flat(fl + [f], hist) == Flat(fl, hist) + Packets(f)
  {
    hide Packets;
    if fl == [] {
      assert [] + [f] == [f] && [f][1..] == [];
      assert Flat([f], hist) == Packets(f) + Flat([], hist);
    } else {
      assert (fl + [f])[1..] == fl[1..] + [f];
      FlatSnoc(fl[1..], f, hist);
    }
  }

  function Expect(s: Subscriber, f: Flight): Subscriber
    requires forall x :: x in f.runs ==> InMemory(x, |f.mem|)
  {
    s.(net := s.net + Packets(f), sent := f.version)
  }

  /** A stream sent to the subscriber joins what is under way. */
  lemma SendKeeps(s: Subscriber, hist: History, f: Flight)
    requires SubInv(s, hist) && Sent(f, hist) && f.version == |hist| - 1 && f.base <= s.reported
    ensures SubInv(Expect(s, f), hist)
  {
    if tail: seq<Packet>, fl: seq<Flight> :| Idle(s, hist, tail, fl) {
      SendIdle(s, hist, f, tail, fl);
    } else {
      var cur, done, rest, fl :| Receiving(s, hist, cur, done, rest, fl);
      SendReceiving(s, hist, f, cur, done, rest, fl);
    }
  }

  lemma SendIdle(s: Subscriber, hist: History, f: Flight, tail: seq<Packet>, fl: seq<Flight>)
    requires Idle(s, hist, tail, fl) && Sent(f, hist) && f.version == |hist| - 1 && f.base <= s.reported
    ensures Idle(Expect(s, f), hist, tail, fl + [f])
  {
    FlatSnoc(fl, f, hist);
    SendOrdered(fl, f, hist, s.held, s.held, s.sent);
    var ps := Packets(f);
    hide Sent, Flat, Ordered, Packets, AllSent;
    Assoc(tail, Flat(fl, hist), ps);
    Assoc(s.queue, s.net, ps);
  }

  lemma SendReceiving(s: Subscriber, hist: History, f: Flight, cur: Flight, done: seq<Packet>, rest: seq<Packet>,
                      fl: seq<Flight>)
    requires Receiving(s, hist, cur, done, rest, fl) && Sent(f, hist) && f.version == |hist| - 1 && f.base <= s.reported
    ensures Receiving(Expect(s, f), hist, cur, done, rest, fl + [f])
  {
    FlatSnoc(fl, f, hist);
    SendOrdered(fl, f, hist, cur.version, s.held, s.sent);
    var ps := Packets(f);
    hide Sent, Flat, Ordered, Packets, AllSent, Replay;
    Assoc(rest, Flat(fl, hist), ps);
  }

  lemma SendOrdered(fl: seq<Flight>, f: Flight, hist: History, from: nat, held: nat, to: nat)
    requires AllSent(fl, hist) && Ordered(fl, from, held, to) && f.version == |hist| - 1
    requires from < |hist| && f.base <= held
    ensures Ordered(fl + [f], from, held, f.version)
  {
  }
}
