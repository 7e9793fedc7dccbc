/** One area: its RW and RO lines, its dirty log and its four diff logs, with the functions that move
    changes from one to the next (src/sync.c, src/sync_external.c:63-140, src/sync_internal.c:173-213). */
module SyncArea {
  import opened LogBits
  import opened Framing
  import opened RunLength
  import opened SyncWalk

  const NR_AREA_LOGS: nat := 4

  /** What a diff log covers: the versions in (verStart, verEnd] (include/tasvir/types.h:137-143). */
  datatype Span = Span(verStart: nat, startUs: nat, verEnd: nat, endUs: nat)

  class Area {
    const units: nat               // offset_log_end in log units; whole vectors of eight
    const dirty: array<Unit>       // this area's slice of the log region
    const diff: seq<array<Unit>>   // diff_log[0..4].data
    const ro: array<Line>
    const rw: array<Line>
    var local: bool
    var version: nat               // version of the RO copy
    var extBytes: nat              // last_sync_ext_bytes_ of the RO header
    var tx: seq<Packet>            // ring_ext_tx
    var spans: seq<Span>           // version and time intervals of the diff logs

    ghost predicate Shape()
    {
      && units % 8 == 0 && dirty.Length == units
      && |diff| == NR_AREA_LOGS && (forall p :: 0 <= p < |diff| ==> diff[p].Length == units && diff[p] != dirty)
      && (forall p, q :: 0 <= p < q < |diff| ==> diff[p] != diff[q])
      && ro.Length == rw.Length == 64 * units && ro != rw
    }

    constructor (units: nat, local: bool, init: Line)
      requires units % 8 == 0
      ensures Shape() && this.units == units && this.local == local && version == 0 && extBytes == 0 && tx == []
      ensures spans == seq(NR_AREA_LOGS, _ => Span(0, 0, 0, 0))
      ensures fresh(dirty) && fresh(ro) && fresh(rw) && forall p :: 0 <= p < |diff| ==> fresh(diff[p])
      ensures forall u :: 0 <= u < units ==> dirty[u] == Zero() && forall p :: 0 <= p < |diff| ==> diff[p][u] == Zero()
      ensures forall i :: 0 <= i < 64 * units ==> ro[i] == rw[i] == init
    {
      this.units, this.local, version, extBytes, tx := units, local, 0, 0, [];
      spans := seq(NR_AREA_LOGS, _ => Span(0, 0, 0, 0));
      dirty := new Unit[units](_ => Zero());
      var d0 := new Unit[units](_ => Zero());
      var d1 := new Unit[units](_ => Zero());
      var d2 := new Unit[units](_ => Zero());
      var d3 := new Unit[units](_ => Zero());
      diff := [d0, d1, d2, d3];
      ro := new Line[64 * units](_ => init);
      rw := new Line[64 * units](_ => init);
    }

    /** Adds a packet to the burst; a full burst of 32 goes to the transmit ring. */
    method Enqueue(burst: seq<Packet>, p: Packet) returns (rest: seq<Packet>)
      modifies this`tx
      ensures tx + rest == (old(tx) + burst) + [p]
    {
      rest := burst + [p];
      if |rest| >= PKT_BURST {
        tx := tx + rest;
        rest := [];
      }
    }

    /** tasvir_msg_mem_generate: cuts a run into packets of at most 21 lines. */
    method MsgMemGenerate(run: Run, last: bool)
      requires Shape() && InMemory(run, ro.Length)
      modifies this`tx, this`extBytes
      ensures tx == old(tx) + Fragments(version, run, old(extBytes), last, ro[..])
      ensures extBytes == old(extBytes) + 64 * run.len
    {
      var burst: seq<Packet> := [];
      var left, prev := run, extBytes;
      ghost var mem := ro[..];
      ghost var all := tx + Fragments(version, run, extBytes, last, mem);
      ghost var sent := tx;
      while left.len > 0
        invariant InMemory(left, ro.Length) && prev + 64 * left.len == old(extBytes) + 64 * run.len
        invariant tx + burst == sent && sent + Fragments(version, left, prev, last, mem) == all
        decreases left.len
      {
        NextFragment(version, left, prev, last, mem, sent);
        var p := FirstPacket(left, prev, last);
        burst := Enqueue(burst, p);
        sent := sent + [p];
        prev := prev + p.bytes;
        left := Rest(left);
      }
      extBytes := prev;
      tx := tx + burst;
    }

    /** Fills in one message from the RO copy. */
    method FirstPacket(left: Run, prev: nat, last: bool) returns (p: Packet)
      requires Shape() && InMemory(left, ro.Length)
      ensures p == Head(version, left, prev, last, ro[..])
    {
      var n := Min(LINES_PER_MSG, left.len);
      p := Packet(version, left.off, 64 * n, prev, last && left.len - n == 0, ro[left.off..left.off + n]);
    }

    /** tasvir_store_vec_rep on one run. */
    method CopyLines(run: Run)
      requires Shape() && InMemory(run, ro.Length)
      modifies ro
      ensures ro[..] == CopyRun(old(ro[..]), rw[..], run)
    {
      for i := 0 to run.len
        invariant forall k :: 0 <= k < ro.Length ==>
                    ro[k] == if run.off <= k < run.off + i then rw[k] else old(ro[k])
      {
        ro[run.off + i] := rw[run.off + i];
      }
    }

    ghost predicate InArea(runs: seq<Run>)
    {
      RunsBefore(runs, 64 * units)
    }

    /** Internal side of tasvir_sync_process_changes: RW lines go to RO. */
    method CopyItems(l: SyncList)
      requires Shape() && l.Valid() && InArea(l.Items())
      modifies ro, l`changed
      ensures ro[..] == CopyRuns(old(ro[..]), rw[..], l.Items())
      ensures l.changed == old(l.changed) + 64 * SumLen(l.Items())
    {
      ghost var items, before := l.Items(), ro[..];
      for i := 0 to l.cnt
        invariant ro[..] == CopyRuns(before, rw[..], items[..i])
        invariant l.changed == old(l.changed) + 64 * SumLen(items[..i])
      {
        assert items[..i + 1] == items[..i] + [items[i]];
        CopyRunsAppend(before, rw[..], items[..i], [items[i]]);
        SumLenAppend(items[..i], [items[i]]);
        CopyLines(l.l[i]);
        l.changed := l.changed + 64 * l.l[i].len;
      }
      assert items[..l.cnt] == items;
    }

    /** External side of tasvir_sync_process_changes: the items leave as packets. */
    method SendItems(l: SyncList, reset: bool)
      requires Shape() && l.Valid() && InArea(l.Items())
      modifies this`tx, this`extBytes, l`changed
      ensures l.changed == old(l.changed) + 64 * SumLen(l.Items())
      ensures tx == old(tx) + Stream(version, l.Items(), old(extBytes), reset, ro[..])
      ensures extBytes == old(extBytes) + 64 * SumLen(l.Items())
    {
      hide Fragments;
      ghost var items, mem, from, sent := l.Items(), ro[..], extBytes, tx;
      for i := 0 to l.cnt
        invariant tx == sent + Stream(version, items[..i], from, reset && i == l.cnt, mem)
        invariant extBytes == from + 64 * SumLen(items[..i])
        invariant l.changed == old(l.changed) + 64 * SumLen(items[..i])
      {
        var last := reset && i == l.cnt - 1;
        StreamSnoc(version, items, i, from, last, mem, sent);
        MsgMemGenerate(l.l[i], last);
        l.changed := l.changed + 64 * l.l[i].len;
      }
      assert items[..l.cnt] == items;
    }

    /** tasvir_sync_process_changes. */
    method ProcessChanges(l: SyncList, reset: bool, external: bool) returns (bytes: nat)
      requires Shape() && l.Valid() && InArea(l.Items())
      modifies ro, this`tx, this`extBytes, l`cnt, l`changed
      ensures l.Valid() && l.Items() == []
      ensures bytes == old(l.changed) + 64 * SumLen(old(l.Items())) && l.changed == if reset then 0 else bytes
      ensures external ==> ro[..] == old(ro[..])
      ensures external ==> tx == old(tx) + Stream(version, old(l.Items()), old(extBytes), reset, old(ro[..]))
      ensures external ==> extBytes == old(extBytes) + 64 * SumLen(old(l.Items()))
      ensures !external ==> ro[..] == CopyRuns(old(ro[..]), rw[..], old(l.Items()))
      ensures !external ==> tx == old(tx) && extBytes == old(extBytes)
    {
      if external {
        SendItems(l, reset);
      } else {
        CopyItems(l);
      }
      l.cnt := 0;
      bytes := l.changed;
      if reset {
        l.changed := 0;
      }
    }

    /** The four diff logs at one unit. */
    ghost function Lane(u: nat): (ls: seq<Unit>)
      reads diff
      requires Shape() && u < units
      ensures |ls| == NR_AREA_LOGS
    {
      [diff[0][u], diff[1][u], diff[2][u], diff[3][u]]
    }

    /** One lane of the vector load: the dirty log, or the OR of the first `pivot` diff logs; with two or
        more of them log 1 takes over log 0 on the way (src/sync.c:110-115). */
    method LoadUnit(u: nat, pivot: nat) returns (x: Unit)
      requires Shape() && u < units && pivot <= NR_AREA_LOGS
      modifies diff[1]
      ensures x == old(LogValue(dirty[u], Lane(u), pivot))
      ensures forall k :: 0 <= k < units && k != u ==> diff[1][k] == old(diff[1][k])
      ensures diff[1][u] == if pivot >= 2 then old(Or(diff[0][u], diff[1][u])) else old(diff[1][u])
    {
      ghost var lane := Lane(u);
      x := if pivot > 0 then diff[0][u] else dirty[u];
      var p := 1;
      while p < pivot
        invariant 1 <= p <= pivot || p == 1
        invariant x == LogValue(dirty[u], lane, if pivot == 0 then 0 else p)
        invariant forall k :: 0 <= k < units && k != u ==> diff[1][k] == old(diff[1][k])
        invariant diff[1][u] == if p >= 2 then Or(lane[0], lane[1]) else lane[1]
      {
        x := Or(x, diff[p][u]);
        if p == 1 {
          diff[1][u] := x;
        }
        p := p + 1;
      }
    }

    /** One lane of the two stores that follow a non-zero vector (src/sync.c:123-128). */
    method ClearUnit(u: nat, x: Unit, pivot: nat)
      requires Shape() && u < units && pivot <= NR_AREA_LOGS
      modifies dirty, diff[0], diff[1]
      ensures forall k :: 0 <= k < units && k != u ==>
                dirty[k] == old(dirty[k]) && diff[0][k] == old(diff[0][k]) && diff[1][k] == old(diff[1][k])
      ensures pivot == 0 ==> dirty[u] == Zero() && diff[1][u] == old(diff[1][u])
      ensures pivot == 0 ==> diff[0][u] == if local then Or(x, old(diff[0][u])) else old(diff[0][u])
      ensures pivot > 0 ==> dirty[u] == old(dirty[u]) && diff[0][u] == Zero()
      ensures pivot > 0 ==> diff[1][u] == if pivot < 2 && local then Or(x, old(diff[1][u])) else old(diff[1][u])
    {
      if local && pivot < 2 {
        diff[pivot][u] := Or(x, diff[pivot][u]);
      }
      if pivot > 0 {
        diff[0][u] := Zero();
      } else {
        dirty[u] := Zero();
      }
    }

    /** The state of unit u: dirty bits and the four diff logs. */
    ghost predicate At(u: nat, d: Unit, lane: seq<Unit>)
      reads dirty, diff
      requires Shape() && u < units
    {
      dirty[u] == d && Lane(u) == lane
    }

    method LoadLanes(li: nat, pivot: nat) returns (v: seq<Unit>)
      requires Shape() && li + 8 <= units && pivot <= NR_AREA_LOGS
      modifies diff[1]
      ensures |v| == 8 && forall u :: li <= u < li + 8 ==>
                && v[u - li] == LogValue(old(dirty[u]), old(Lane(u)), pivot)
                && diff[1][u] == if pivot >= 2 then Or(old(diff[0][u]), old(diff[1][u])) else old(diff[1][u])
      ensures forall u :: 0 <= u < units && !(li <= u < li + 8) ==> diff[1][u] == old(diff[1][u])
    {
      v := [];
      for j := 0 to 8
        invariant |v| == j
        invariant forall u :: li <= u < li + j ==>
                    && v[u - li] == LogValue(old(dirty[u]), old(Lane(u)), pivot)
                    && diff[1][u] == if pivot >= 2 then Or(old(diff[0][u]), old(diff[1][u])) else old(diff[1][u])
        invariant forall u :: 0 <= u < units && !(li <= u < li + j) ==> diff[1][u] == old(diff[1][u])
      {
        assert Lane(li + j) == old(Lane(li + j));
        var x := LoadUnit(li + j, pivot);
        v := v + [x];
      }
    }

    method ClearLanes(li: nat, pivot: nat, v: seq<Unit>)
      requires Shape() && li + 8 <= units && pivot <= NR_AREA_LOGS && |v| == 8 && (pivot > 0 ==> local)
      modifies dirty, diff[0], diff[1]
      ensures forall u :: 0 <= u < units && !(li <= u < li + 8) ==> At(u, old(dirty[u]), old(Lane(u)))
      ensures forall u :: li <= u < li + 8 ==>
                At(u, if pivot > 0 then old(dirty[u]) else Zero(), Cleared(old(Lane(u)), v[u - li], pivot, local))
    {
      for j := 0 to 8
        invariant forall u :: 0 <= u < units && !(li <= u < li + j) ==> At(u, old(dirty[u]), old(Lane(u)))
        invariant forall u :: li <= u < li + j ==>
                    At(u, if pivot > 0 then old(dirty[u]) else Zero(), Cleared(old(Lane(u)), v[u - li], pivot, local))
      {
        assert At(li + j, old(dirty[li + j]), old(Lane(li + j)));
        ClearUnit(li + j, v[j], pivot);
      }
    }

    /** Loading one vector of eight units and moving its bits on: the dirty bits of an internal walk go to
        log 0, the bits of log 0 go to log 1 in an external one; nothing is lost and the source is clear. */
    method LoadVector(li: nat, pivot: nat) returns (v: seq<Unit>)
      requires Shape() && li + 8 <= units && pivot <= NR_AREA_LOGS && (pivot > 0 ==> local)
      modifies dirty, diff[0], diff[1]
      ensures v == Seen(old(State()), li, 8, pivot) && State() == Sweep(old(State()), li, li + 8, pivot, local)
    {
      ghost var st := State();
      v := LoadLanes(li, pivot);
      forall u | li <= u < li + 8
        ensures Lane(u) == Loaded(old(Lane(u)), pivot)
        ensures Cleared(Lane(u), v[u - li], pivot, local) == MovedLane(old(dirty[u]), old(Lane(u)), pivot, local)
        ensures IsZero(v[u - li]) ==> Lane(u) == MovedLane(old(dirty[u]), old(Lane(u)), pivot, local)
        ensures IsZero(v[u - li]) ==> dirty[u] == MovedDirty(old(dirty[u]), pivot)
      {
        MovedFromLoaded(old(dirty[u]), old(Lane(u)), v[u - li], pivot, local);
      }
      forall u | 0 <= u < units && !(li <= u < li + 8) ensures Lane(u) == old(Lane(u)) {
      }
      if !AllZero(v) {
        ClearLanes(li, pivot, v);
      }
      SweptState(st, li, pivot, local);
    }

    /** Everything a walk reads and changes, as a value. */
    ghost function Snapshot(l: SyncList, w: Walk): Snap
      reads this, dirty, diff, ro, l, l.l
      requires Shape() && l.Valid()
    {
      Snap(State(), Out(ro[..], tx, extBytes, l.changed), l.Items(), w)
    }

    /** Hands the list on when it is half full (src/sync.c:175-176). */
    method FlushIfHalfFull(l: SyncList, external: bool, ghost w: Walk)
      requires Shape() && l.Valid() && InArea(l.Items())
      modifies ro, this`tx, this`extBytes, l`cnt, l`changed
      ensures l.Valid() && Snapshot(l, w) == Flushed(old(Snapshot(l, w)), rw[..], version, external)
    {
      if l.cnt >= LIST_LEN / 2 {
        var _ := ProcessChanges(l, false, external);
      }
    }

    /** Walking a vector that has been loaded. */
    method WalkLoaded(l: SyncList, vec: seq<Unit>, external: bool, w0: Walk) returns (w: Walk)
      requires Shape() && |vec| == 8 && l.Valid() && Room(l.cnt, w0) && InArea(l.Items())
      requires End(w0) + 512 <= 64 * units
      modifies ro, this`tx, this`extBytes, l, l.l
      ensures l.Valid() && InArea(old(l.Items()) + WalkAll(w0, vec).1)
      ensures Snapshot(l, w) == Walked(old(Snapshot(l, w0)), vec, rw[..], version, external)
    {
      WalkAllWithin(w0, vec);
      if AllZero(vec) {
        WalkZeroUnits(w0, vec);
        assert l.Items() + [] == l.Items();
        w := w0.(zeros := w0.zeros + 512);
      } else {
        VectorBound(w0, vec);
        w := WalkVector(l, vec, w0);
        FlushIfHalfFull(l, external, w);
      }
    }

    /** One turn of the outer loop: eight units are loaded, walked and, if need be, flushed. */
    method ParseVector(l: SyncList, li: nat, pivot: nat, w0: Walk) returns (w: Walk)
      requires Shape() && li + 8 <= units && pivot <= NR_AREA_LOGS && (pivot > 0 ==> local)
      requires l.Valid() && Ready(Snapshot(l, w0), li, units)
      modifies dirty, diff[0], diff[1], ro, this`tx, this`extBytes, l, l.l
      ensures l.Valid() && Snapshot(l, w) == Next(old(Snapshot(l, w0)), li, pivot, local, rw[..], version)
    {
      var vec := LoadVector(li, pivot);
      w := WalkLoaded(l, vec, pivot > 0, w0);
    }

    /** The outer loop of tasvir_sync_parse_log over `vectors` times eight units from `start`. */
    method ParseUnits(l: SyncList, start: nat, vectors: nat, pivot: nat) returns (w: Walk)
      requires Shape() && start + 8 * vectors <= units && pivot <= NR_AREA_LOGS && (pivot > 0 ==> local)
      requires l.Valid() && l.cnt <= 256 && InArea(l.Items())
      modifies dirty, diff[0], diff[1], ro, this`tx, this`extBytes, l, l.l
      ensures l.Valid() && Snapshot(l, w) ==
              Parse(old(Snapshot(l, Walk(0, 0, 0, 64 * start))), start, vectors, pivot, local, rw[..], version)
    {
      hide Next, Emit, Sweep, Seen;
      w := Walk(0, 0, 0, 64 * start);
      ghost var end := Parse(Snapshot(l, w), start, vectors, pivot, local, rw[..], version);
      var li, left := start, vectors;
      while left > 0
        invariant li + 8 * left == start + 8 * vectors && l.Valid() && Ready(Snapshot(l, w), li, units)
        invariant Parse(Snapshot(l, w), li, left, pivot, local, rw[..], version) == end
      {
        NextReady(Snapshot(l, w), li, pivot, local, rw[..], version);
        w := ParseVector(l, li, pivot, w);
        li, left := li + 8, left - 1;
      }
    }

    /** The outputs of a flush. */
    ghost function Output(l: SyncList): Out
      reads this, ro, l
    {
      Out(ro[..], tx, extBytes, l.changed)
    }

    /** tasvir_sync_parse_log; `first` and `vectors` are its offset and length in vectors of 32 KiB. Across all
        flushes exactly the maximal runs of set bits are handed on or left on the list, in order; the walked
        units are moved on and cleared; the result is 64 times the number of set bits. An external walk sends
        everything and shifts the version boundary between logs 0 and 1. */
    method ParseLog(l: SyncList, first: nat, vectors: nat, pivot: nat)
      returns (bytes: nat, ghost runs: seq<Run>, ghost given: seq<Run>)
      requires Shape() && 8 * first + 8 * vectors <= units
      requires pivot <= NR_AREA_LOGS && |spans| == NR_AREA_LOGS && l.Valid() && l.cnt <= 256 && InArea(l.Items())
      requires pivot > 0 ==> local && l.Items() == [] && l.changed == 0
      modifies dirty, diff[0], diff[1], ro, this`tx, this`extBytes, this`spans, l, l.l
      ensures State() == Sweep(old(State()), 8 * first, 8 * first + 8 * vectors, pivot, local)
      ensures Emitted(old(State()), first, vectors, pivot, runs, bytes)
      ensures l.Valid() && l.cnt <= 256 && InArea(runs) && InArea(given) && InArea(l.Items())
      ensures pivot == 0 ==> given + l.Items() == old(l.Items()) + runs && spans == old(spans)
      ensures pivot == 0 ==> Output(l) == Emit(old(Output(l)), rw[..], version, given, false, false)
      ensures pivot > 0 ==> l.Items() == [] && l.changed == 0 && ro[..] == old(ro[..])
      ensures pivot > 0 ==> tx == old(tx) + Stream(version, runs, old(extBytes), true, ro[..])
      ensures pivot > 0 ==> spans == if bytes > 0 then SplitSpan(old(spans)) else old(spans)
    {
      hide Emit, Sweep, Seen, Emitted, Stream;
      ghost var o, items := Output(l), l.Items();
      var total;
      total, runs, given := WalkLog(l, first, vectors, pivot);
      bytes := 64 * total;
      if pivot > 0 {
        assert items + runs == runs;
        SendLast(l, total, o, given, runs);
      }
    }

    /** The walk itself, with the run that was pending at its end put on the list. */
    method WalkLog(l: SyncList, first: nat, vectors: nat, pivot: nat)
      returns (total: nat, ghost runs: seq<Run>, ghost given: seq<Run>)
      requires Shape() && 8 * first + 8 * vectors <= units && pivot <= NR_AREA_LOGS && (pivot > 0 ==> local)
      requires l.Valid() && l.cnt <= 256 && InArea(l.Items())
      modifies dirty, diff[0], diff[1], ro, this`tx, this`extBytes, l, l.l
      ensures State() == Sweep(old(State()), 8 * first, 8 * first + 8 * vectors, pivot, local)
      ensures Emitted(old(State()), first, vectors, pivot, runs, 64 * total) && (total == 0 ==> runs == [])
      ensures l.Valid() && l.cnt <= 256 && given + l.Items() == old(l.Items()) + runs && (total > 0 ==> l.Items() != [])
      ensures InArea(runs) && InArea(given) && InArea(l.Items())
      ensures Output(l) == Emit(old(Output(l)), rw[..], version, given, pivot > 0, false)
    {
      hide Parse, Emit, Sweep, Seen, Emitted, WalkAll, RunLength.MaximalRuns;
      ghost var s := Snapshot(l, Walk(0, 0, 0, 512 * first));
      ghost var vals := Seen(s.st, 8 * first, 8 * vectors, pivot);
      given := ParseAccounted(s, 8 * first, vectors, pivot, local, rw[..], version);
      var w := ParseUnits(l, 8 * first, vectors, pivot);
      runs := FinalRuns(s.st, first, vectors, pivot, vals, w);
      FinalRun(l.Items(), s.items, WalkAll(s.w, vals).1, given, w);
      total := w.total + w.ones;
      if w.ones > 0 {
        l.Put(w.off, w.ones);
      }
      SuffixBefore(given, l.Items(), s.items, runs, 64 * units);
    }

    /** The end of an external walk (src/sync.c:187-191). */
    method SendLast(l: SyncList, total: nat, ghost o: Out, ghost given: seq<Run>, ghost runs: seq<Run>)
      requires Shape() && l.Valid() && InArea(l.Items()) && InArea(given) && |o.ro| == rw.Length && o.changed == 0
      requires given + l.Items() == runs && (total > 0 ==> l.Items() != []) && (total == 0 ==> runs == [])
      requires Output(l) == Emit(o, rw[..], version, given, true, false) && |spans| == NR_AREA_LOGS
      modifies ro, this`tx, this`extBytes, this`spans, l
      ensures l.Valid() && l.Items() == [] && l.changed == 0 && ro[..] == o.ro
      ensures InArea(runs) && tx == o.tx + Stream(version, runs, o.sent, true, o.ro)
      ensures spans == if total > 0 then SplitSpan(old(spans)) else old(spans)
    {
      if total > 0 {
        EmitAppend(o, rw[..], version, given, l.Items(), true, true);
        var _ := ProcessChanges(l, true, true);
        spans := SplitSpan(spans);
      } else {
        assert given == [] && l.Items() == [];
      }
    }

    /** The dirty log and the diff logs as values. */
    ghost function State(): (st: LogState)
      reads dirty, diff
      requires Shape()
      ensures WellFormed(st) && |st.dirty| == units
    {
      LogState(dirty[..], [diff[0][..], diff[1][..], diff[2][..], diff[3][..]])
    }

    lemma SweptState(st: LogState, li: nat, pivot: nat, local: bool)
      requires Shape() && WellFormed(st) && |st.dirty| == units && li + 8 <= units
      requires forall u :: 0 <= u < units ==>
                 if li <= u < li + 8 then At(u, MovedDirty(st.dirty[u], pivot),
                     MovedLane(st.dirty[u], LaneOf(st, u), pivot, local))
                 else At(u, st.dirty[u], LaneOf(st, u))
      ensures State() == Sweep(st, li, li + 8, pivot, local)
    {
      SweepAt(st, li, li + 8, pivot, local);
      SameState(State(), Sweep(st, li, li + 8, pivot, local));
    }
  }

  datatype LogState = LogState(dirty: seq<Unit>, logs: seq<seq<Unit>>)

  predicate WellFormed(st: LogState) {
    |st.logs| == NR_AREA_LOGS && forall p :: 0 <= p < NR_AREA_LOGS ==> |st.logs[p]| == |st.dirty|
  }

  /** The four diff logs at unit u. */
  function LaneOf(st: LogState, u: nat): (ls: seq<Unit>)
    requires WellFormed(st) && u < |st.dirty|
    ensures |ls| == NR_AREA_LOGS
  {
    [st.logs[0][u], st.logs[1][u], st.logs[2][u], st.logs[3][u]]
  }

  /** The units a walk over start..start+n sees. */
  function Seen(st: LogState, start: nat, n: nat, pivot: nat): (vs: seq<Unit>)
    requires WellFormed(st) && start + n <= |st.dirty| && pivot <= NR_AREA_LOGS
    ensures |vs| == n
  {
    seq<Unit>(n, i requires 0 <= i < n => LogValue(st.dirty[start + i], LaneOf(st, start + i), pivot))
  }

  /** The logs after the units lo..hi have been walked. */
  function Sweep(st: LogState, lo: nat, hi: nat, pivot: nat, local: bool): (r: LogState)
    requires WellFormed(st)
    ensures WellFormed(r) && |r.dirty| == |st.dirty|
  {
    LogState(
      seq<Unit>(|st.dirty|, u requires 0 <= u < |st.dirty| =>
        if lo <= u < hi then MovedDirty(st.dirty[u], pivot) else st.dirty[u]),
      [SweepLog(st, 0, lo, hi, pivot, local), SweepLog(st, 1, lo, hi, pivot, local),
       SweepLog(st, 2, lo, hi, pivot, local), SweepLog(st, 3, lo, hi, pivot, local)])
  }

  function SweepLog(st: LogState, p: nat, lo: nat, hi: nat, pivot: nat, local: bool): (r: seq<Unit>)
    requires WellFormed(st) && p < NR_AREA_LOGS
    ensures |r| == |st.dirty|
  {
    seq<Unit>(|st.dirty|, u requires 0 <= u < |st.dirty| =>
      if lo <= u < hi then MovedLane(st.dirty[u], LaneOf(st, u), pivot, local)[p] else st.logs[p][u])
  }

  lemma SweepAt(st: LogState, lo: nat, hi: nat, pivot: nat, local: bool)
    requires WellFormed(st)
    ensures var r := Sweep(st, lo, hi, pivot, local);
            forall u :: 0 <= u < |st.dirty| ==>
              if lo <= u < hi then
                r.dirty[u] == MovedDirty(st.dirty[u], pivot) &&
                    LaneOf(r, u) == MovedLane(st.dirty[u], LaneOf(st, u), pivot, local)
              else r.dirty[u] == st.dirty[u] && LaneOf(r, u) == LaneOf(st, u)
  {
  }

  lemma SameState(a: LogState, b: LogState)
    requires WellFormed(a) && WellFormed(b) && |a.dirty| == |b.dirty|
    requires forall u :: 0 <= u < |a.dirty| ==> a.dirty[u] == b.dirty[u] && LaneOf(a, u) == LaneOf(b, u)
    ensures a == b
  {
    assert a.dirty == b.dirty;
    forall p | 0 <= p < NR_AREA_LOGS ensures a.logs[p] == b.logs[p] {
      forall u | 0 <= u < |a.dirty| ensures a.logs[p][u] == b.logs[p][u] {
        assert LaneOf(a, u)[p] == LaneOf(b, u)[p];
      }
    }
  }

  lemma SweepNothing(st: LogState, at: nat, pivot: nat, local: bool)
    requires WellFormed(st) && at <= |st.dirty| && pivot <= NR_AREA_LOGS
    ensures Sweep(st, at, at, pivot, local) == st && Seen(st, at, 0, pivot) == []
  {
    SweepAt(st, at, at, pivot, local);
    SameState(Sweep(st, at, at, pivot, local), st);
  }

  /** Sweeping one vector and then n units more is sweeping both; the later units are still untouched when
      their turn comes. */
  lemma SweepOn(st: LogState, li: nat, n: nat, pivot: nat, local: bool)
    requires WellFormed(st) && li + 8 + n <= |st.dirty| && pivot <= NR_AREA_LOGS
    ensures var mid := Sweep(st, li, li + 8, pivot, local);
            && Sweep(mid, li + 8, li + 8 + n, pivot, local) == Sweep(st, li, li + 8 + n, pivot, local)
            && Seen(st, li, 8, pivot) + Seen(mid, li + 8, n, pivot) == Seen(st, li, 8 + n, pivot)
  {
    var mid := Sweep(st, li, li + 8, pivot, local);
    SweepAt(st, li, li + 8, pivot, local);
    SweepAt(mid, li + 8, li + 8 + n, pivot, local);
    SweepAt(st, li, li + 8 + n, pivot, local);
    SameState(Sweep(mid, li + 8, li + 8 + n, pivot, local), Sweep(st, li, li + 8 + n, pivot, local));
    SeenOn(st, mid, li, n, pivot);
  }

  lemma SeenOn(st: LogState, mid: LogState, li: nat, n: nat, pivot: nat)
    requires WellFormed(st) && WellFormed(mid) && |mid.dirty| == |st.dirty|
    requires li + 8 + n <= |st.dirty| && pivot <= NR_AREA_LOGS
    requires forall u :: li + 8 <= u < |st.dirty| ==> mid.dirty[u] == st.dirty[u] && LaneOf(mid, u) == LaneOf(st, u)
    ensures Seen(st, li, 8, pivot) + Seen(mid, li + 8, n, pivot) == Seen(st, li, 8 + n, pivot)
  {
  }

  /** The whole state of a walk: logs, outputs, list and position. */
  datatype Snap = Snap(st: LogState, out: Out, items: seq<Run>, w: Walk)

  /** The walk may take the vector at unit li: the list has room and its runs lie in the area. */
  predicate Ready(s: Snap, li: nat, units: nat) {
    && WellFormed(s.st) && |s.st.dirty| == units && |s.out.ro| == 64 * units
    && RunsBefore(s.items, 64 * units) && Room(|s.items|, s.w) && End(s.w) == 64 * li
  }

  /** A list of 256 runs or more is handed on. */
  function Flushed(s: Snap, rw: seq<Line>, v: nat, external: bool): Snap
    requires |s.out.ro| == |rw| && RunsBefore(s.items, |rw|)
  {
    if |s.items| >= LIST_LEN / 2 then s.(out := Emit(s.out, rw, v, s.items, external, false), items := []) else s
  }

  function Walked(s: Snap, vec: seq<Unit>, rw: seq<Line>, v: nat, external: bool): Snap
    requires |s.out.ro| == |rw| && RunsBefore(s.items + WalkAll(s.w, vec).1, |rw|)
  {
    var (w, runs) := WalkAll(s.w, vec);
    var s' := s.(items := s.items + runs, w := w);
    if AllZero(vec) then s' else Flushed(s', rw, v, external)
  }

  /** One vector. */
  function Next(s: Snap, li: nat, pivot: nat, local: bool, rw: seq<Line>, v: nat): Snap
    requires Ready(s, li, |s.st.dirty|) && li + 8 <= |s.st.dirty| && |rw| == 64 * |s.st.dirty| && pivot <= NR_AREA_LOGS
  {
    var vec := Seen(s.st, li, 8, pivot);
    WalkAllWithin(s.w, vec);
    Walked(s.(st := Sweep(s.st, li, li + 8, pivot, local)), vec, rw, v, pivot > 0)
  }

  /** The list never grows past 511 entries within a vector, and there is room again after it. */
  lemma NextReady(s: Snap, li: nat, pivot: nat, local: bool, rw: seq<Line>, v: nat)
    requires Ready(s, li, |s.st.dirty|) && li + 8 <= |s.st.dirty| && |rw| == 64 * |s.st.dirty| && pivot <= NR_AREA_LOGS
    ensures Ready(Next(s, li, pivot, local, rw, v), li + 8, |s.st.dirty|)
    ensures |s.items| + |WalkAll(s.w, Seen(s.st, li, 8, pivot)).1| < LIST_LEN
  {
    var vec := Seen(s.st, li, 8, pivot);
    WalkAllWithin(s.w, vec);
    VectorBound(s.w, vec);
    if AllZero(vec) {
      WalkZeroUnits(s.w, vec);
    } else {
      WalkAllPends(s.w, vec);
    }
  }

  /** A stretch of vectors. */
  function Parse(s: Snap, li: nat, vectors: nat, pivot: nat, local: bool, rw: seq<Line>, v: nat): (r: Snap)
    requires Ready(s, li, |s.st.dirty|) && li + 8 * vectors <= |s.st.dirty| && |rw| == 64 * |s.st.dirty|
    requires pivot <= NR_AREA_LOGS
    ensures Ready(r, li + 8 * vectors, |s.st.dirty|)
    decreases vectors
  {
    if vectors == 0 then s
    else
      NextReady(s, li, pivot, local, rw, v);
      Parse(Next(s, li, pivot, local, rw, v), li + 8, vectors - 1, pivot, local, rw, v)
  }

  /** What a stretch hands on, and what it leaves on the list, are together what was on the list at first
      and every run completed since. */
  ghost predicate Accounted(s: Snap, vals: seq<Unit>, r: Snap, given: seq<Run>, rw: seq<Line>, v: nat, external: bool) {
    && |s.out.ro| == |rw| && RunsBefore(given, |rw|)
    && r.w == WalkAll(s.w, vals).0 && given + r.items == s.items + WalkAll(s.w, vals).1
    && r.out == Emit(s.out, rw, v, given, external, false)
  }

  lemma WalkedAccounted(s: Snap, vec: seq<Unit>, rw: seq<Line>, v: nat, external: bool) returns (given: seq<Run>)
    requires |s.out.ro| == |rw| && RunsBefore(s.items + WalkAll(s.w, vec).1, |rw|)
    ensures Accounted(s, vec, Walked(s, vec, rw, v, external), given, rw, v, external)
  {
    EmitNothing(s.out, rw, v, external);
    var items := s.items + WalkAll(s.w, vec).1;
    given := if !AllZero(vec) && |items| >= LIST_LEN / 2 then items else [];
    assert items + [] == items && [] + items == items;
  }

  lemma AccountedOn(s: Snap, a: seq<Unit>, mid: Snap, g1: seq<Run>, b: seq<Unit>, r: Snap, g2: seq<Run>,
                    rw: seq<Line>, v: nat, external: bool)
    requires Accounted(s, a, mid, g1, rw, v, external) && Accounted(mid, b, r, g2, rw, v, external)
    ensures Accounted(s, a + b, r, g1 + g2, rw, v, external)
  {
    WalkAllAppend(s.w, a, b);
    Regroup(g1, g2, r.items, mid.items, WalkAll(mid.w, b).1, s.items, WalkAll(s.w, a).1);
    EmitAppend(s.out, rw, v, g1, g2, external, false);
  }

  lemma Regroup(g1: seq<Run>, g2: seq<Run>, after: seq<Run>, mid: seq<Run>, more: seq<Run>, items: seq<Run>,
                done: seq<Run>)
    requires g1 + mid == items + done && g2 + after == mid + more
    ensures (g1 + g2) + after == items + (done + more)
  {
    Assoc(g1, g2, after);
    Assoc(g1, mid, more);
    Assoc(items, done, more);
  }

  lemma NextAccounted(s: Snap, li: nat, pivot: nat, local: bool, rw: seq<Line>, v: nat) returns (given: seq<Run>)
    requires Ready(s, li, |s.st.dirty|) && li + 8 <= |s.st.dirty| && |rw| == 64 * |s.st.dirty| && pivot <= NR_AREA_LOGS
    ensures Next(s, li, pivot, local, rw, v).st == Sweep(s.st, li, li + 8, pivot, local)
    ensures Accounted(s, Seen(s.st, li, 8, pivot), Next(s, li, pivot, local, rw, v), given, rw, v, pivot > 0)
  {
    WalkAllWithin(s.w, Seen(s.st, li, 8, pivot));
    given := WalkedAccounted(s.(st := Sweep(s.st, li, li + 8, pivot, local)), Seen(s.st, li, 8, pivot), rw, v,
        pivot > 0);
  }

  lemma {:induction false} ParseAccounted(s: Snap, li: nat, vectors: nat, pivot: nat, local: bool, rw: seq<Line>,
                                          v: nat)
    returns (given: seq<Run>)
    requires Ready(s, li, |s.st.dirty|) && li + 8 * vectors <= |s.st.dirty| && |rw| == 64 * |s.st.dirty|
    requires pivot <= NR_AREA_LOGS
    ensures var r := Parse(s, li, vectors, pivot, local, rw, v);
            && r.st == Sweep(s.st, li, li + 8 * vectors, pivot, local)
            && Accounted(s, Seen(s.st, li, 8 * vectors, pivot), r, given, rw, v, pivot > 0)
    decreases vectors
  {
    hide Next, Emit, Sweep, Seen, Accounted;
    SweepNothing(s.st, li, pivot, local);
    if vectors == 0 {
      given := [];
      NothingAccounted(s, rw, v, pivot > 0);
    } else {
      var vec, mid := Seen(s.st, li, 8, pivot), Next(s, li, pivot, local, rw, v);
      NextReady(s, li, pivot, local, rw, v);
      var g1 := NextAccounted(s, li, pivot, local, rw, v);
      var g2 := ParseAccounted(mid, li + 8, vectors - 1, pivot, local, rw, v);
      SweepOn(s.st, li, 8 * (vectors - 1), pivot, local);
      AccountedOn(s, vec, mid, g1, Seen(mid.st, li + 8, 8 * (vectors - 1), pivot),
                  Parse(s, li, vectors, pivot, local, rw, v), g2, rw, v, pivot > 0);
      given := g1 + g2;
    }
  }

  lemma NothingAccounted(s: Snap, rw: seq<Line>, v: nat, external: bool)
    requires |s.out.ro| == |rw| && RunsBefore(s.items, |rw|)
    ensures Accounted(s, [], s, [], rw, v, external)
  {
    EmitNothing(s.out, rw, v, external);
    assert s.items + [] == s.items == [] + s.items;
  }

  lemma EmitNothing(o: Out, rw: seq<Line>, v: nat, external: bool)
    requires |o.ro| == |rw|
    ensures Emit(o, rw, v, [], external, false) == o
  {
    assert o.tx + [] == o.tx;
  }

  lemma SuffixBefore(a: seq<Run>, b: seq<Run>, c: seq<Run>, d: seq<Run>, end: nat)
    requires a + b == c + d && RunsBefore(c, end) && RunsBefore(d, end)
    ensures RunsBefore(b, end)
  {
    forall x | x in b ensures x.off + x.len <= end {
      assert x in a + b;
    }
  }

  /** `runs` are the maximal runs of the bits seen by a walk, and `bytes` is 64 times their number. */
  ghost predicate Emitted(st: LogState, first: nat, vectors: nat, pivot: nat, runs: seq<Run>, bytes: nat) {
    && WellFormed(st) && 8 * first + 8 * vectors <= |st.dirty| && pivot <= NR_AREA_LOGS
    && var bits := UnitBits(Seen(st, 8 * first, 8 * vectors, pivot));
       MaximalRuns(bits, 512 * first, runs) && bytes == 64 * Count(bits)
  }

  lemma FinalRuns(st: LogState, first: nat, vectors: nat, pivot: nat, vals: seq<Unit>, w: Walk) returns (runs: seq<Run>)
    requires WellFormed(st) && 8 * first + 8 * vectors <= |st.dirty| && pivot <= NR_AREA_LOGS
    requires vals == Seen(st, 8 * first, 8 * vectors, pivot) && w == WalkAll(Walk(0, 0, 0, 512 * first), vals).0
    ensures runs == WalkAll(Walk(0, 0, 0, 512 * first), vals).1 + Completed(w.off, w.ones)
    ensures Emitted(st, first, vectors, pivot, runs, 64 * (w.total + w.ones))
    ensures RunsBefore(runs, 64 * |st.dirty|) && (w.total + w.ones == 0 ==> runs == [])
    ensures w.total + w.ones > 0 ==> w.ones > 0
  {
    WalkAllFollows(vals, 512 * first);
    var done := WalkAll(Walk(0, 0, 0, 512 * first), vals).1;
    runs := done + Completed(w.off, w.ones);
    WalkEnd(UnitBits(vals), 512 * first, done, w.off, w.zeros, w.ones);
  }

  /** Log 1 now ends, and log 0 starts, where log 0 ended (src/sync.c:189-190). */
  function SplitSpan(spans: seq<Span>): (r: seq<Span>)
    requires |spans| == NR_AREA_LOGS
    ensures |r| == NR_AREA_LOGS
  {
    var s := spans[0];
    spans[0 := s.(verStart := s.verEnd, startUs := s.endUs)][1 := spans[1].(verEnd := s.verEnd, endUs := s.endUs)]
  }

  lemma FinalRun(now: seq<Run>, items: seq<Run>, done: seq<Run>, out: seq<Run>, w: Walk)
    requires out + now == items + done
    ensures out + (now + Completed(w.off, w.ones)) == items + (done + Completed(w.off, w.ones))
  {
    Assoc(out, now, Completed(w.off, w.ones));
    Assoc(items, done, Completed(w.off, w.ones));
  }

  /** What a flush writes: RO lines, the transmit ring, the byte counters. */
  datatype Out = Out(ro: seq<Line>, tx: seq<Packet>, sent: nat, changed: nat)

  /** Passing runs on: copied to RO, or sent as packets. */
  function Emit(o: Out, rw: seq<Line>, v: nat, runs: seq<Run>, external: bool, last: bool): (r: Out)
    requires |o.ro| == |rw| && forall x :: x in runs ==> InMemory(x, |rw|)
    ensures |r.ro| == |rw|
  {
    var n := 64 * SumLen(runs);
    if external then Out(o.ro, o.tx + Stream(v, runs, o.sent, last, o.ro), o.sent + n, o.changed + n)
    else Out(CopyRuns(o.ro, rw, runs), o.tx, o.sent, o.changed + n)
  }

  lemma SendAppend(o: Out, rw: seq<Line>, v: nat, a: seq<Run>, b: seq<Run>, last: bool)
    requires |o.ro| == |rw| && (b != [] || !last)
    requires forall x :: x in a ==> InMemory(x, |rw|)
    requires forall x :: x in b ==> InMemory(x, |rw|)
    ensures Emit(Emit(o, rw, v, a, true, false), rw, v, b, true, last) == Emit(o, rw, v, a + b, true, last)
  {
    hide Stream;
    SumLenAppend(a, b);
    StreamAppend(v, a, b, o.sent, last, o.ro);
    Assoc(o.tx, Stream(v, a, o.sent, false, o.ro), Stream(v, b, o.sent + 64 * SumLen(a), last, o.ro));
  }

  /** Two flushes, one after the other, do what one flush of both lists would do. */
  lemma EmitAppend(o: Out, rw: seq<Line>, v: nat, a: seq<Run>, b: seq<Run>, external: bool, last: bool)
    requires |o.ro| == |rw| && (b != [] || !last)
    requires forall x :: x in a ==> InMemory(x, |rw|)
    requires forall x :: x in b ==> InMemory(x, |rw|)
    ensures Emit(Emit(o, rw, v, a, external, false), rw, v, b, external, last) ==
            Emit(o, rw, v, a + b, external, last)
  {
    if external {
      SendAppend(o, rw, v, a, b, last);
    } else {
      SumLenAppend(a, b);
      CopyRunsAppend(o.ro, rw, a, b);
    }
  }

  /** The list has room for one more vector: at most 255 entries, or 256 while no run is pending. */
  predicate Room(cnt: nat, w: Walk) {
    cnt <= if w.ones > 0 then 255 else 256
  }

  /** The value the walk sees at a unit with dirty bits d and diff logs `lane`. */
  function LogValue(d: Unit, lane: seq<Unit>, pivot: nat): Unit
    requires |lane| == NR_AREA_LOGS && pivot <= NR_AREA_LOGS
  {
    if pivot == 0 then d
    else if pivot == 1 then lane[0]
    else Or(LogValue(d, lane, pivot - 1), lane[pivot - 1])
  }

  function Cleared(lane: seq<Unit>, x: Unit, pivot: nat, local: bool): (r: seq<Unit>)
    requires |lane| == NR_AREA_LOGS
    ensures |r| == NR_AREA_LOGS
  {
    if pivot == 0 then (if local then lane[0 := Or(x, lane[0])] else lane)
    else lane[0 := Zero()][1 := if pivot < 2 then Or(x, lane[1]) else lane[1]]
  }

  /** The diff logs after the load alone. */
  function Loaded(lane: seq<Unit>, pivot: nat): (r: seq<Unit>)
    requires |lane| == NR_AREA_LOGS
    ensures |r| == NR_AREA_LOGS
  {
    if pivot >= 2 then lane[1 := Or(lane[0], lane[1])] else lane
  }

  function MovedDirty(d: Unit, pivot: nat): Unit {
    if pivot == 0 then Zero() else d
  }

  /** The diff logs after a unit has been walked. */
  function MovedLane(d: Unit, lane: seq<Unit>, pivot: nat, local: bool): (r: seq<Unit>)
    requires |lane| == NR_AREA_LOGS
    ensures |r| == NR_AREA_LOGS
  {
    if pivot == 0 then (if local then lane[0 := Or(d, lane[0])] else lane)
    else lane[0 := Zero()][1 := Or(lane[0], lane[1])]
  }

  /** Both ways through a vector end in the same place: a zero vector is left as it is after the load, and
      the stores of a non-zero one do the rest. */
  lemma MovedFromLoaded(d: Unit, lane: seq<Unit>, x: Unit, pivot: nat, local: bool)
    requires |lane| == NR_AREA_LOGS && pivot <= NR_AREA_LOGS && x == LogValue(d, lane, pivot)
    ensures Cleared(Loaded(lane, pivot), x, pivot, local) == MovedLane(d, lane, pivot, local)
    ensures IsZero(x) ==> Loaded(lane, pivot) == MovedLane(d, lane, pivot, local) && d == MovedDirty(d, pivot)
  {
    if IsZero(x) {
      if pivot > 0 {
        LogValueContains(d, lane, pivot);
        OrZero(lane[0], lane[1]);
      } else {
        OrZero(d, lane[0]);
      }
    }
  }

  /** The first log is part of what an external walk sees. */
  lemma {:induction false} LogValueContains(d: Unit, lane: seq<Unit>, pivot: nat)
    requires |lane| == NR_AREA_LOGS && 0 < pivot <= NR_AREA_LOGS
    ensures forall k, p :: 0 <= k < 64 && 0 <= p < pivot && lane[p][k] ==> LogValue(d, lane, pivot)[k]
  {
    if pivot > 1 { LogValueContains(d, lane, pivot - 1); }
  }

  /** Adding the next item to the packets already sent. */
  lemma StreamSnoc(v: nat, items: seq<Run>, i: nat, prev: nat, last: bool, mem: seq<Line>, sent: seq<Packet>)
    requires i < |items| && forall x :: x in items ==> InMemory(x, |mem|)
    ensures SumLen(items[..i + 1]) == SumLen(items[..i]) + items[i].len
    ensures (sent + Stream(v, items[..i], prev, false, mem)) +
            Fragments(v, items[i], prev + 64 * SumLen(items[..i]), last, mem)
            == sent + Stream(v, items[..i + 1], prev, last, mem)
  {
    assert items[..i + 1] == items[..i] + [items[i]];
    SumLenAppend(items[..i], [items[i]]);
    StreamAppend(v, items[..i], [items[i]], prev, last, mem);
  }

  /** Putting the next packet of a run behind those already sent. */
  lemma NextFragment(v: nat, run: Run, prev: nat, last: bool, mem: seq<Line>, sent: seq<Packet>)
    requires InMemory(run, |mem|) && run.len > 0
    ensures sent + Fragments(v, run, prev, last, mem) ==
            (sent + [Head(v, run, prev, last, mem)]) +
            Fragments(v, Rest(run), prev + 64 * (run.len - Rest(run).len), last, mem)
  {
  }
}
