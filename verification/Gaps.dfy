/** What a receiver makes of packets of one version when some are missing (src/sync_external.c:18-49): exactly what the
    next internal sync publishes, whether the guard notices the gap or not. */
module Gaps {
  import opened Framing
  import opened DiffLogs
  import opened Replica
  import opened Lossy

  // What packets of one version make of RW.

  /** Some packet carries the line. */
  predicate Carried(ps: seq<Packet>, l: nat) {
    exists i :: 0 <= i < |ps| && ps[i].line <= l < ps[i].line + |ps[i].data|
  }

  ghost predicate Genuine(ps: seq<Packet>, v: nat, mem: seq<Line>) {
    forall i :: 0 <= i < |ps| ==> Carries(ps[i], v, mem)
  }

  lemma {:induction false} ReplayAt(w: seq<Line>, v: nat, mem: seq<Line>, ps: seq<Packet>, l: nat)
    requires |w| == |mem| && Genuine(ps, v, mem) && l < |mem|
    ensures forall p :: p in ps ==> Fits(p, |w|)
    ensures Replay(w, ps)[l] == if Carried(ps, l) then mem[l] else w[l]
    decreases |ps|
  {
    if ps != [] {
      ReplayAt(Store(w, ps[0]), v, mem, ps[1..], l);
      CarriedCons(ps, l);
      assert forall p :: p in ps ==> p == ps[0] || p in ps[1..];
    }
  }

  lemma CarriedCons(ps: seq<Packet>, l: nat)
    requires ps != []
    ensures Carried(ps, l) <==> ps[0].line <= l < ps[0].line + |ps[0].data| || Carried(ps[1..], l)
  {
    var rest := ps[1..];
    if Carried(rest, l) {
      var i :| 0 <= i < |rest| && rest[i].line <= l < rest[i].line + |rest[i].data|;
      assert ps[i + 1] == rest[i];
    }
    if Carried(ps, l) {
      var i :| 0 <= i < |ps| && ps[i].line <= l < ps[i].line + |ps[i].data|;
      assert i > 0 ==> rest[i - 1] == ps[i];
    }
  }

  /** Where no packet arrived, the two memories are alike. */
  ghost predicate MissingAlike(was: seq<Line>, x: seq<Line>, ps: seq<Packet>) {
    forall l: nat :: l < |was| && l < |x| && !Carried(ps, l) ==> was[l] == x[l]
  }

  /** Where a packet arrived, the two memories are alike. */
  ghost predicate ArrivedAlike(mem: seq<Line>, x: seq<Line>, ps: seq<Packet>) {
    forall l: nat :: l < |mem| && l < |x| && Carried(ps, l) ==> mem[l] == x[l]
  }

  /** Packets of a memory stored on top of w give x exactly if x is like the memory where packets arrived and like w
      where none did. */
  lemma ReplayGives(w: seq<Line>, v: nat, mem: seq<Line>, ps: seq<Packet>, x: seq<Line>)
    requires |w| == |mem| == |x| && Genuine(ps, v, mem)
    ensures forall p :: p in ps ==> Fits(p, |w|)
    ensures Replay(w, ps) == x <==> MissingAlike(w, x, ps) && ArrivedAlike(mem, x, ps)
  {
    GenuineFits(ps, v, mem);
    var r := Replay(w, ps);
    hide Carried, Genuine;
    forall l: nat | l < |mem| ensures r[l] == if Carried(ps, l) then mem[l] else w[l] {
      ReplayAt(w, v, mem, ps, l);
    }
    if MissingAlike(w, x, ps) && ArrivedAlike(mem, x, ps) {
      assert r == x;
    }
  }

  lemma GenuineFits(ps: seq<Packet>, v: nat, mem: seq<Line>)
    requires Genuine(ps, v, mem)
    ensures forall p :: p in ps ==> Fits(p, |mem|)
  {
  }

  // Feeding packets of one version to a subscriber.

  function Feed(s: Subscriber, ps: seq<Packet>, late: bool): (r: Subscriber)
    requires Sized(s) && forall p :: p in ps ==> Fits(p, |s.rw|)
    ensures Sized(r) && |r.rw| == |s.rw|
    decreases |ps|
  {
    if ps == [] then s else Handle(Feed(s, ps[..|ps| - 1], late), ps[|ps| - 1], late, true)
  }

  lemma FeedSnoc(s: Subscriber, ps: seq<Packet>, m: Packet, late: bool)
    requires Sized(s) && (forall p :: p in ps ==> Fits(p, |s.rw|)) && Fits(m, |s.rw|)
    ensures (forall p :: p in ps + [m] ==> Fits(p, |s.rw|))
    ensures Feed(s, ps + [m], late) == Handle(Feed(s, ps, late), m, late, true)
  {
    assert (ps + [m])[..|ps|] == ps;
  }

  /** A subscriber that does not queue its packets. RW may be anything, such as the remains of streams given up. */
  ghost predicate Steady(s: Subscriber) {
    Sized(s) && !s.enqueue && s.queue == [] && forall i :: 0 <= i < |s.ro| ==> s.ro[i] == s.rw[i] || s.dirty[i]
  }

  /** The packets `ps` have made RW what it is. */
  ghost predicate Made(r: Subscriber, s: Subscriber, v: nat, mem: seq<Line>, ps: seq<Packet>) {
    && Sized(r) && r.lastVersion == v && r.ro == s.ro && |mem| == |s.rw| == |r.rw|
    && (forall i :: 0 <= i < |r.ro| ==> r.ro[i] == r.rw[i] || r.dirty[i])
    && Genuine(ps, v, mem) && (forall p :: p in ps ==> Fits(p, |s.rw|)) && r.rw == Replay(s.rw, ps)
  }

  /** The stream is being received. */
  ghost predicate Taking(r: Subscriber, s: Subscriber, v: nat, mem: seq<Line>, ps: seq<Packet>) {
    && Made(r, s, v, mem, ps) && r.pending && !r.ignore && !r.enqueue && r.queue == []
    && r.bytes == TotalBytes(ps) && r.held == s.held
  }

  /** The stream is over, rightly or not; whatever is queued is of the same version. */
  ghost predicate Over(r: Subscriber, s: Subscriber, v: nat, mem: seq<Line>, ps: seq<Packet>, q: seq<Packet>) {
    Made(r, s, v, mem, ps) && !r.pending && r.queue == q && Genuine(q, v, mem)
  }

  lemma MadeSnoc(w: seq<Line>, v: nat, mem: seq<Line>, ps: seq<Packet>, m: Packet)
    requires |w| == |mem| && Genuine(ps, v, mem) && Carries(m, v, mem)
    ensures Genuine(ps + [m], v, mem) && (forall p :: p in ps + [m] ==> Fits(p, |mem|))
    ensures forall p :: p in ps ==> Fits(p, |mem|)
    ensures Replay(w, ps + [m]) == Store(Replay(w, ps), m)
  {
    GenuineFits(ps, v, mem);
    ReplayAppend(w, ps, [m]);
    assert Replay(Replay(w, ps), [m]) == Store(Replay(w, ps), m);
  }

  /** One more packet: the guard fires exactly if the count does not fit; the packet is stored in any case; the end of
      the stream, or of the count, makes an end. */
  lemma TakeAny(r: Subscriber, s: Subscriber, v: nat, mem: seq<Line>, ps: seq<Packet>, m: Packet, late: bool)
    requires Taking(r, s, v, mem, ps) && Carries(m, v, mem)
    ensures Fits(m, |r.rw|) && (Fires(r, m) <==> m.prev != TotalBytes(ps))
    ensures var q := Handle(r, m, late, true);
            && (m.prev == TotalBytes(ps) && !m.last ==> Taking(q, s, v, mem, ps + [m]))
            && (m.prev != TotalBytes(ps) || m.last ==>
                  Over(q, s, v, mem, ps + [m], []) && q.ignore == (m.prev != TotalBytes(ps)))
            && q.held == if m.last then v else s.held
  {
    MadeSnoc(s.rw, v, mem, ps, m);
    StoreLogged(r.ro, r.rw, r.dirty, m);
    TotalBytesSnoc(ps, m);
    hide Store, LogLines, Genuine, Replay, TotalBytes;
  }

  /** The packet counts run on from zero. */
  ghost predicate InOrder(ps: seq<Packet>, v: nat, mem: seq<Line>) {
    Genuine(ps, v, mem) && forall i :: 0 <= i < |ps| ==> ps[i].prev == TotalBytes(ps[..i])
  }

  lemma InOrderGenuine(ps: seq<Packet>, v: nat, mem: seq<Line>)
    requires InOrder(ps, v, mem)
    ensures Genuine(ps, v, mem)
  {
  }

  predicate NoneLast(ps: seq<Packet>) {
    forall i :: 0 <= i < |ps| ==> !ps[i].last
  }

  lemma InOrderInit(ps: seq<Packet>, v: nat, mem: seq<Line>)
    requires InOrder(ps, v, mem) && ps != []
    ensures var n := |ps| - 1; InOrder(ps[..n], v, mem) && ps[n].prev == TotalBytes(ps[..n]) && Carries(ps[n], v, mem)
  {
    var n := |ps| - 1;
    forall i | 0 <= i < n ensures ps[..n][i].prev == TotalBytes(ps[..n][..i]) {
      assert ps[..n][..i] == ps[..i];
    }
  }

  /** Before the first packet of a new version the header is as if the stream had been announced. */
  function Opened(s: Subscriber, v: nat): Subscriber {
    s.(lastVersion := v, bytes := 0, ignore := false, pending := true)
  }

  lemma OpenedTakes(s: Subscriber, v: nat, mem: seq<Line>, m: Packet, late: bool)
    requires Steady(s) && |mem| == |s.rw| && s.lastVersion != v && Carries(m, v, mem)
    ensures Taking(Opened(s, v), s, v, mem, []) && (Fires(s, m) <==> Fires(Opened(s, v), m))
    ensures Fits(m, |s.rw|) && Handle(s, m, late, true) == Handle(Opened(s, v), m, late, true)
  {
    hide Store, LogLines;
  }

  /** What the packets so far have led to: nothing yet, or a stream being received. */
  ghost function Begun(s: Subscriber, v: nat, ps: seq<Packet>, late: bool): (r: Subscriber)
    requires Sized(s) && forall p :: p in ps ==> Fits(p, |s.rw|)
    ensures Sized(r) && |r.rw| == |s.rw|
  {
    if ps == [] then Opened(s, v) else Feed(s, ps, late)
  }

  /** The next packet is handled as if the stream had been announced, whether it is the first or not. */
  lemma BegunNext(s: Subscriber, v: nat, mem: seq<Line>, ps: seq<Packet>, m: Packet, late: bool)
    requires Steady(s) && |mem| == |s.rw| && s.lastVersion != v && Genuine(ps, v, mem) && Carries(m, v, mem)
    ensures Fits(m, |s.rw|)
    ensures (forall p :: p in ps ==> Fits(p, |s.rw|)) && (forall p :: p in ps + [m] ==> Fits(p, |s.rw|))
    ensures Feed(s, ps + [m], late) == Handle(Begun(s, v, ps, late), m, late, true)
    ensures Fires(Feed(s, ps, late), m) <==> Fires(Begun(s, v, ps, late), m)
  {
    hide Handle, Fires;
    GenuineFits(ps, v, mem);
    FeedSnoc(s, ps, m, late);
    OpenedTakes(s, v, mem, m, late);
  }

  /** Packets in order are taken one after the other, and no guard fires. */
  lemma {:induction false} FeedInOrder(s: Subscriber, v: nat, mem: seq<Line>, ps: seq<Packet>, late: bool)
    requires Steady(s) && |mem| == |s.rw| && s.lastVersion != v && InOrder(ps, v, mem) && NoneLast(ps)
    ensures (forall p :: p in ps ==> Fits(p, |s.rw|)) && Taking(Begun(s, v, ps, late), s, v, mem, ps)
    decreases |ps|
  {
    hide Taking, Handle, Genuine, Carries, Feed;
    if ps == [] {
      assert Taking(Opened(s, v), s, v, mem, []) by { OpenedStart(s, v, mem); }
    } else {
      var n := |ps| - 1;
      var init, m := ps[..n], ps[n];
      InOrderInit(ps, v, mem);
      FeedInOrder(s, v, mem, init, late);
      BegunNext(s, v, mem, init, m, late);
      TakeAny(Begun(s, v, init, late), s, v, mem, init, m, late);
      assert ps == init + [m];
    }
  }

  /** No packet of a list in order sets off the guard. */
  lemma FeedSilent(s: Subscriber, v: nat, mem: seq<Line>, got: seq<Packet>, n: nat, late: bool)
    requires Steady(s) && |mem| == |s.rw| && s.lastVersion != v && InOrder(got, v, mem) && LastAtEnd(got, true)
    requires n < |got|
    ensures (forall p :: p in got[..n] ==> Fits(p, |s.rw|)) && !Fires(Feed(s, got[..n], late), got[n])
  {
    hide Taking, Handle, Feed, Fires, Carries, TotalBytes;
    forall i | 0 <= i < n ensures got[..n][..i] == got[..i] {
    }
    assert InOrder(got[..n], v, mem) && NoneLast(got[..n]);
    FeedInOrder(s, v, mem, got[..n], late);
    BegunNext(s, v, mem, got[..n], got[n], late);
    TakeAny(Begun(s, v, got[..n], late), s, v, mem, got[..n], got[n], late);
  }

  lemma OpenedStart(s: Subscriber, v: nat, mem: seq<Line>)
    requires Steady(s) && |mem| == |s.rw|
    ensures Taking(Opened(s, v), s, v, mem, [])
  {
  }

  // After the end.

  /** Once a stream is over, rightly or not, packets of the same version change nothing but the queue. */
  lemma RestDropped(r: Subscriber, s: Subscriber, v: nat, mem: seq<Line>, ps: seq<Packet>, q: seq<Packet>, m: Packet,
                    late: bool)
    requires Over(r, s, v, mem, ps, q) && Carries(m, v, mem)
    ensures Fits(m, |r.rw|)
    ensures var z := Handle(r, m, late, true);
            Over(z, s, v, mem, ps, z.queue) && z.held == r.held && z.ignore == r.ignore
  {
    hide Replay;
  }

  lemma {:induction false} RestIgnored(s: Subscriber, v: nat, mem: seq<Line>, got: seq<Packet>, rest: seq<Packet>,
                                       late: bool)
    requires Sized(s) && |mem| == |s.rw| && Genuine(got, v, mem) && Genuine(rest, v, mem)
    requires (forall p :: p in got ==> Fits(p, |s.rw|)) && Over(Feed(s, got, late), s, v, mem, got, [])
    ensures forall p :: p in got + rest ==> Fits(p, |s.rw|)
    ensures var r, z := Feed(s, got, late), Feed(s, got + rest, late);
            Over(z, s, v, mem, got, z.queue) && z.held == r.held && z.ignore == r.ignore
    decreases |rest|
  {
    hide Over, Handle, Feed;
    GenuineFits(rest, v, mem);
    if rest == [] {
      assert got + rest == got;
      assert Over(Feed(s, got, late), s, v, mem, got, Feed(s, got, late).queue) by { OverQueue(s, v, mem, got, late); }
    } else {
      var n := |rest| - 1;
      RestIgnored(s, v, mem, got, rest[..n], late);
      var mid := Feed(s, got + rest[..n], late);
      RestDropped(mid, s, v, mem, got, mid.queue, rest[n], late);
      FeedSnoc(s, got + rest[..n], rest[n], late);
      assert got + rest == got + rest[..n] + [rest[n]];
    }
  }

  lemma OverQueue(s: Subscriber, v: nat, mem: seq<Line>, got: seq<Packet>, late: bool)
    requires Sized(s) && (forall p :: p in got ==> Fits(p, |s.rw|)) && Over(Feed(s, got, late), s, v, mem, got, [])
    ensures Over(Feed(s, got, late), s, v, mem, got, Feed(s, got, late).queue)
  {
  }

  /** Queued packets of the version that is over leave the area as it is. */
  lemma {:induction false} DrainSame(r: Subscriber, v: nat, mem: seq<Line>, q: seq<Packet>)
    requires Sized(r) && |mem| == |r.rw| && Genuine(q, v, mem) && !r.pending && !r.enqueue && r.lastVersion == v
    ensures (forall p :: p in q ==> Fits(p, |r.rw|)) && Drain(r, q) == r
    decreases |q|
  {
    GenuineFits(q, v, mem);
    if q != [] {
      assert Handle(r, q[0], false, true) == r;
      DrainSame(r, v, mem, q[1..]);
    }
  }

  /** The next internal sync copies RW to RO. */
  lemma OverPublishes(r: Subscriber, s: Subscriber, v: nat, mem: seq<Line>, ps: seq<Packet>, q: seq<Packet>)
    requires Over(r, s, v, mem, ps, q)
    ensures Drainable(r) && (forall p :: p in ps ==> Fits(p, |s.rw|))
    ensures SyncInternal(r).ro == Replay(s.rw, ps) && SyncInternal(r).roVersion == r.held
  {
    GenuineFits(q, v, mem);
    assert Merge(r) == r.rw;
    DrainSame(Published(r), v, mem, q);
  }

  /** What an internal sync publishes after the packets `got`: it is x exactly if x is like the version sent where a
      packet arrived and like RW as it was where none did. */
  ghost predicate Publishes(s: Subscriber, r: Subscriber, mem: seq<Line>, got: seq<Packet>, x: seq<Line>) {
    && Drainable(r) && !r.pending
    && (SyncInternal(r).ro == x <==> MissingAlike(s.rw, x, got) && ArrivedAlike(mem, x, got))
    && (SyncInternal(r).ro == mem <==> MissingAlike(s.rw, mem, got))
  }

  lemma OverMeans(r: Subscriber, s: Subscriber, v: nat, mem: seq<Line>, ps: seq<Packet>, q: seq<Packet>, x: seq<Line>)
    requires Over(r, s, v, mem, ps, q) && |x| == |mem|
    ensures Publishes(s, r, mem, ps, x) && SyncInternal(r).roVersion == r.held
  {
    OverPublishes(r, s, v, mem, ps, q);
    ReplayGives(s.rw, v, mem, ps, x);
    ReplayGives(s.rw, v, mem, ps, mem);
    hide SyncInternal, Replay;
    assert ArrivedAlike(mem, mem, ps);
  }

  /** A gap. Packets in order, then one whose count does not fit: because packets before it are lost, or because the
      version is sent again after a loss. The guard fires, that packet is stored, all further packets of the version are
      ignored, and the next internal sync publishes the new version exactly if the lines missing are in RW already; more
      generally it publishes x exactly if x is put together the same way. */
  lemma GapPublishes(s: Subscriber, v: nat, mem: seq<Line>, ps: seq<Packet>, m: Packet, rest: seq<Packet>, x: seq<Line>,
                     late: bool)
    requires Steady(s) && |mem| == |s.rw| == |x| && s.lastVersion != v
    requires InOrder(ps, v, mem) && NoneLast(ps)
    requires Carries(m, v, mem) && m.prev != TotalBytes(ps) && Genuine(rest, v, mem)
    ensures (forall p :: p in ps ==> Fits(p, |s.rw|)) && (forall p :: p in ps + [m] + rest ==> Fits(p, |s.rw|))
    ensures Fires(Feed(s, ps, late), m)
    ensures var r := Feed(s, ps + [m] + rest, late); r.ignore && Publishes(s, r, mem, ps + [m], x)
  {
    hide Taking, Handle, Over, InOrder, Feed, Publishes, Fires;
    FeedInOrder(s, v, mem, ps, late);
    InOrderGenuine(ps, v, mem);
    BegunNext(s, v, mem, ps, m, late);
    TakeAny(Begun(s, v, ps, late), s, v, mem, ps, m, late);
    MadeSnoc(s.rw, v, mem, ps, m);
    RestIgnored(s, v, mem, ps + [m], rest, late);
    var r := Feed(s, ps + [m] + rest, late);
    OverMeans(r, s, v, mem, ps + [m], r.queue, x);
  }

  /** The same at any moment of a stream or between streams, for the packet the guard fires at. */
  lemma GuardPublishes(s: Subscriber, v: nat, mem: seq<Line>, m: Packet, rest: seq<Packet>, x: seq<Line>, late: bool)
    requires Steady(s) && |mem| == |s.rw| == |x| && Carries(m, v, mem) && Fires(s, m) && Genuine(rest, v, mem)
    ensures forall p :: p in [m] + rest ==> Fits(p, |s.rw|)
    ensures var r := Feed(s, [m] + rest, late); r.ignore && Publishes(s, r, mem, [m], x)
  {
    hide Publishes, SyncInternal, Replay;
    StoreLogged(s.ro, s.rw, s.dirty, m);
    FeedSnoc(s, [], m, late);
    MadeSnoc(s.rw, v, mem, [], m);
    assert Replay(s.rw, []) == s.rw && [] + [m] == [m] by { ReplayNone(s.rw); }
    hide Store, LogLines;
    assert Over(Feed(s, [m], late), s, v, mem, [m], []);
    hide Over, Handle, Feed;
    RestIgnored(s, v, mem, [m], rest, late);
    var r := Feed(s, [m] + rest, late);
    OverMeans(r, s, v, mem, [m], r.queue, x);
  }

  lemma ReplayNone(w: seq<Line>)
    ensures Replay(w, []) == w
  {
  }

  /** No gap, as far as the counts tell. Packets of one version whose counts run on, the end marked at the final one,
      whichever streams of that version they come from: the guard stays silent, the stream is taken for complete, and
      the next internal sync publishes, as this version, the version itself exactly if the lines missing are in RW
      already. */
  lemma SilentPublishes(s: Subscriber, v: nat, mem: seq<Line>, got: seq<Packet>, rest: seq<Packet>, x: seq<Line>,
                        late: bool)
    requires Steady(s) && |mem| == |s.rw| == |x| && s.lastVersion != v
    requires got != [] && InOrder(got, v, mem) && LastAtEnd(got, true) && Genuine(rest, v, mem)
    ensures forall p :: p in got + rest ==> Fits(p, |s.rw|)
    ensures var r := Feed(s, got + rest, late);
            !r.ignore && Publishes(s, r, mem, got, x) && SyncInternal(r).roVersion == v
  {
    hide Taking, Handle, Over, Feed, Publishes, InOrder, SyncInternal;
    SilentOver(s, v, mem, got, late);
    RestIgnored(s, v, mem, got, rest, late);
    var r := Feed(s, got + rest, late);
    OverMeans(r, s, v, mem, got, r.queue, x);
  }

  lemma SilentOver(s: Subscriber, v: nat, mem: seq<Line>, got: seq<Packet>, late: bool)
    requires Steady(s) && |mem| == |s.rw| && s.lastVersion != v
    requires got != [] && InOrder(got, v, mem) && LastAtEnd(got, true)
    ensures Genuine(got, v, mem) && forall p :: p in got ==> Fits(p, |s.rw|)
    ensures var r := Feed(s, got, late); Over(r, s, v, mem, got, []) && !r.ignore && r.held == v
  {
    hide Taking, Handle, Over, Feed, InOrder;
    var n := |got| - 1;
    var init, m := got[..n], got[n];
    InOrderInit(got, v, mem);
    InOrderGenuine(init, v, mem);
    InOrderGenuine(got, v, mem);
    FeedInOrder(s, v, mem, init, late);
    BegunNext(s, v, mem, init, m, late);
    TakeAny(Begun(s, v, init, late), s, v, mem, init, m, late);
    assert got == init + [m];
  }

  // Packets from the net.

  /** The first n packets of the net are received. */
  function Receive(s: Subscriber, n: nat, late: bool): (r: Subscriber)
    requires Sized(s) && n <= |s.net| && forall p :: p in s.net ==> Fits(p, |s.rw|)
    ensures Sized(r) && |r.rw| == |s.rw| && r.net == s.net[n..]
  {
    if n == 0 then s else Deliver(Receive(s, n - 1, late), late)
  }

  lemma {:induction false} ReceiveFeeds(s: Subscriber, n: nat, late: bool)
    requires Sized(s) && n <= |s.net| && forall p :: p in s.net ==> Fits(p, |s.rw|)
    ensures Receive(s, n, late) == Feed(s, s.net[..n], late).(net := s.net[n..])
  {
    hide Handle, Feed, Fits;
    if n > 0 {
      ReceiveFeeds(s, n - 1, late);
      var m, net := s.net[n - 1], s.net[n..];
      assert s.net[..n] == s.net[..n - 1] + [m] && s.net[n - 1..][1..] == net && s.net[n - 1..][0] == m;
      FeedSnoc(s, s.net[..n - 1], m, late);
      HandleNet(Feed(s, s.net[..n - 1], late), m, late, net);
    } else {
      FeedNothing(s, late);
      assert s.net[..0] == [] && s.net[0..] == s.net;
    }
  }

  lemma FeedNothing(s: Subscriber, late: bool)
    requires Sized(s)
    ensures Feed(s, [], late) == s
  {
  }

  // The same for streams as the owner sends them.

  /** The beginning of a stream is in order. */
  lemma PrefixInOrder(f: Flight, hist: History, i: nat)
    requires Sent(f, hist) && i < |Packets(f)|
    ensures InOrder(Packets(f)[..i], f.version, f.mem) && NoneLast(Packets(f)[..i])
  {
    var ps := Packets(f);
    forall k | 0 <= k < i
      ensures ps[..i][k].prev == TotalBytes(ps[..i][..k]) && Carries(ps[..i][k], f.version, f.mem) && !ps[..i][k].last
    {
      PacketAt(f, hist, k);
      assert ps[..i][..k] == ps[..k];
    }
  }

  /** Of a stream the first i packets arrive and then packet k, not the next one; or of the version sent twice the first
      i packets of one stream and then packet k of the other, whose count does not fit. */
  lemma StreamGap(s: Subscriber, hist: History, f: Flight, g: Flight, i: nat, k: nat, rest: seq<Packet>, x: seq<Line>,
                  late: bool)
    requires Steady(s) && Sent(f, hist) && Sent(g, hist) && f.version == g.version && s.lastVersion != f.version
    requires |f.mem| == |s.rw| == |x| && i < |Packets(f)| && k < |Packets(g)| && Genuine(rest, f.version, f.mem)
    requires TotalBytes(Packets(f)[..i]) != TotalBytes(Packets(g)[..k])
    ensures var ps, m := Packets(f)[..i], Packets(g)[k];
            && (forall p :: p in ps ==> Fits(p, |s.rw|)) && (forall p :: p in ps + [m] + rest ==> Fits(p, |s.rw|))
            && Fires(Feed(s, ps, late), m)
            && var r := Feed(s, ps + [m] + rest, late); r.ignore && Publishes(s, r, f.mem, ps + [m], x)
  {
    hide Packets, Publishes, Feed, Fires;
    PrefixInOrder(f, hist, i);
    PacketAt(g, hist, k);
    hide Sent;
    GapPublishes(s, f.version, f.mem, Packets(f)[..i], Packets(g)[k], rest, x, late);
  }

  /** Of one stream, any two places have different counts, so it is a gap exactly if the packet is not the next. */
  lemma CountTells(f: Flight, hist: History, i: nat, k: nat)
    requires Sent(f, hist) && i <= |Packets(f)| && k <= |Packets(f)|
    ensures TotalBytes(Packets(f)[..i]) == TotalBytes(Packets(f)[..k]) <==> i == k
  {
    hide Packets, Sent;
    if i < k {
      CountGrows(f, hist, i, k);
    } else if k < i {
      CountGrows(f, hist, k, i);
    }
  }

  /** Two streams f and g of one version: the first i packets of f arrive, its end is lost, and so is the beginning of g
      up to a packet k where the counts happen to agree. */
  ghost predicate Mixed(hist: History, f: Flight, g: Flight, i: nat, k: nat) {
    && Sent(f, hist) && Sent(g, hist) && f.version == g.version && i < |Packets(f)| && k < |Packets(g)|
    && TotalBytes(Packets(f)[..i]) == TotalBytes(Packets(g)[..k])
  }

  function Mixture(f: Flight, g: Flight, i: nat, k: nat): seq<Packet>
    requires (forall x :: x in f.runs ==> InMemory(x, |f.mem|)) && (forall x :: x in g.runs ==> InMemory(x, |g.mem|))
    requires i <= |Packets(f)| && k <= |Packets(g)|
  {
    Packets(f)[..i] + Packets(g)[k..]
  }

  lemma {:induction false} MixtureCount(hist: History, f: Flight, g: Flight, i: nat, k: nat, j: nat)
    requires Mixed(hist, f, g, i, k) && k <= j <= |Packets(g)|
    ensures TotalBytes(Packets(f)[..i] + Packets(g)[k..j]) == TotalBytes(Packets(g)[..j])
    decreases j
  {
    hide Packets, TotalBytes;
    var ps, qs := Packets(f), Packets(g);
    if j == k {
      assert ps[..i] + qs[k..k] == ps[..i];
    } else {
      MixtureCount(hist, f, g, i, k, j - 1);
      assert ps[..i] + qs[k..j] == (ps[..i] + qs[k..j - 1]) + [qs[j - 1]];
      assert qs[..j] == qs[..j - 1] + [qs[j - 1]];
      TotalBytesSnoc(ps[..i] + qs[k..j - 1], qs[j - 1]);
      TotalBytesSnoc(qs[..j - 1], qs[j - 1]);
    }
  }

  lemma MixtureAt(hist: History, f: Flight, g: Flight, i: nat, k: nat, n: nat)
    requires Mixed(hist, f, g, i, k) && n < |Mixture(f, g, i, k)|
    ensures var got := Mixture(f, g, i, k);
            && got[n].prev == TotalBytes(got[..n]) && Carries(got[n], f.version, f.mem)
            && (got[n].last <==> n == |got| - 1)
  {
    hide Packets, TotalBytes, Carries;
    var got, ps, qs := Mixture(f, g, i, k), Packets(f), Packets(g);
    if n < i {
      PacketAt(f, hist, n);
      assert got[..n] == ps[..n];
    } else {
      PacketAt(g, hist, k + n - i);
      MixtureCount(hist, f, g, i, k, k + n - i);
      assert got[..n] == ps[..i] + qs[k..k + n - i];
    }
  }

  lemma MixtureInOrder(hist: History, f: Flight, g: Flight, i: nat, k: nat)
    requires Mixed(hist, f, g, i, k)
    ensures var got := Mixture(f, g, i, k); got != [] && InOrder(got, f.version, f.mem) && LastAtEnd(got, true)
  {
    hide Packets, TotalBytes, Carries;
    var got := Mixture(f, g, i, k);
    forall n | 0 <= n < |got|
      ensures got[n].prev == TotalBytes(got[..n]) && Carries(got[n], f.version, f.mem)
      ensures got[n].last <==> n == |got| - 1
    {
      MixtureAt(hist, f, g, i, k, n);
    }
  }

  /** The guard does not notice such a mixture; what is published, as the new version, is the new version exactly if the
      lines missing are in RW already. */
  lemma MixPublishes(s: Subscriber, hist: History, f: Flight, g: Flight, i: nat, k: nat, rest: seq<Packet>,
                     x: seq<Line>, late: bool)
    requires Steady(s) && Mixed(hist, f, g, i, k) && s.lastVersion != f.version
    requires |f.mem| == |s.rw| == |x| && Genuine(rest, f.version, f.mem)
    ensures var got := Mixture(f, g, i, k);
            && (forall p :: p in got + rest ==> Fits(p, |s.rw|))
            && var r := Feed(s, got + rest, late);
               !r.ignore && Publishes(s, r, f.mem, got, x) && SyncInternal(r).roVersion == f.version
  {
    hide Packets, Publishes, Feed, InOrder, SyncInternal;
    MixtureInOrder(hist, f, g, i, k);
    SilentPublishes(s, f.version, f.mem, Mixture(f, g, i, k), rest, x, late);
  }
}
