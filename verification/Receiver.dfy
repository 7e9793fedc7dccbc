/** tasvir_handle_msg_mem on the header and the data of a subscribed area (src/sync_external.c:5-59). */
module Receiver {
  import opened Framing
  import opened Replica

  class Header {
    var pending: bool
    var ignore: bool
    var enqueue: bool
    var lastVersion: nat       // last_sync_ext_v_
    var bytes: nat             // last_sync_ext_bytes_
    var held: nat              // version
    var queue: seq<Packet>     // ring_mem_pending
    const rw: array<Line>
    const dirty: array<bool>

    constructor (rw: array<Line>, dirty: array<bool>)
      ensures this.rw == rw && this.dirty == dirty
      ensures !pending && !ignore && !enqueue && lastVersion == bytes == held == 0 && queue == []
    {
      this.rw, this.dirty := rw, dirty;
      pending, ignore, enqueue, lastVersion, bytes, held, queue := false, false, false, 0, 0, 0, [];
    }

    /** The subscriber it is, `s` giving what the header does not hold. */
    ghost function Value(s: Subscriber): Subscriber
      reads this, rw, dirty
    {
      s.(rw := rw[..], dirty := dirty[..], pending := pending, ignore := ignore, enqueue := enqueue,
         lastVersion := lastVersion, bytes := bytes, held := held, queue := queue)
    }

    /** Copies the lines of the message to RW and logs them. */
    method StoreLines(m: Packet)
      requires rw.Length == dirty.Length && Fits(m, rw.Length)
      modifies rw, dirty
      ensures rw[..] == Store(old(rw[..]), m) && dirty[..] == LogLines(old(dirty[..]), m)
    {
      for i := 0 to |m.data|
        invariant forall k :: 0 <= k < rw.Length ==>
              rw[k] == if m.line <= k < m.line + i then m.data[k - m.line] else old(rw[k])
        invariant forall k :: 0 <= k < dirty.Length ==> dirty[k] == (old(dirty[k]) || m.line <= k < m.line + i)
      {
        rw[m.line + i] := m.data[i];
        dirty[m.line + i] := true;
      }
    }

    /** One message. `late` says whether more than half of the internal sync interval has passed, `room` whether the
        ring of pending messages takes another one. */
    method HandleMsgMem(m: Packet, late: bool, room: bool, ghost s: Subscriber)
      requires rw.Length == dirty.Length == |s.ro| && Fits(m, rw.Length)
      modifies this, rw, dirty
      ensures Value(s) == Handle(old(Value(s)), m, late, room)
    {
      if enqueue {
        if room {
          queue := queue + [m];
          return;
        }
        enqueue := false;
        ignore := true;
        return;
      }
      if lastVersion != m.version {
        lastVersion, bytes, ignore, pending := m.version, 0, false, true;
      }
      if ignore || !pending {
        return;
      }
      if bytes != m.prev {
        pending, ignore := false, true;
      }
      StoreLines(m);
      bytes := bytes + m.bytes;
      if m.last {
        pending, enqueue, held := false, late, m.version;
      }
    }
  }
}
