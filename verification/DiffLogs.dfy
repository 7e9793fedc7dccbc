/** Four generations of dirty bits, and the reason why OR-ing the first `pivot` of them is enough for the
    slowest subscriber (src/sync_external.c:61-140, src/sync.c:109-131, src/sync.c:187-191). */
module DiffLogs {
  import opened LogBits
  import opened Framing
  import opened RunLength
  import opened SyncWalk
  import opened SyncArea

  /** hist[v] is the area's RO data at published version v; hist[0] is the data before any version. */
  type History = h: seq<seq<Line>> | |h| > 0 witness [[]]

  /** The version intervals of the logs follow one another down to zero and end at the current version. */
  predicate Spanned(spans: seq<Span>, current: nat) {
    && |spans| == NR_AREA_LOGS && spans[0].verEnd == current && spans[3].verStart == 0
    && (forall p :: 0 <= p < NR_AREA_LOGS ==> spans[p].verStart <= spans[p].verEnd)
    && (forall p :: 0 <= p < 3 ==> spans[p].verStart == spans[p + 1].verEnd)
  }

  /** The line got new data in version v. */
  predicate ChangedIn(hist: History, v: nat, line: nat) {
    0 < v < |hist| && line < |hist[v - 1]| == |hist[v]| && hist[v - 1][line] != hist[v][line]
  }

  /** Log p holds the bit of every line changed in one of the versions it stands for. */
  ghost predicate Holds(log: seq<Unit>, span: Span, hist: History) {
    forall v: nat, line: nat {:trigger ChangedIn(hist, v, line)} ::
      span.verStart < v <= span.verEnd && ChangedIn(hist, v, line) ==> Dirty(log, line)
  }

  ghost predicate Covers(st: LogState, spans: seq<Span>, hist: History) {
    && WellFormed(st) && Spanned(spans, |hist| - 1)
    && (forall v :: 0 <= v < |hist| ==> |hist[v]| == 64 * |st.dirty|)
    && forall p :: 0 <= p < NR_AREA_LOGS ==> Holds(st.logs[p], spans[p], hist)
  }

  /** The bit of a line in the OR of the first `pivot` logs. */
  predicate InFirst(st: LogState, pivot: nat, line: nat)
    requires WellFormed(st) && pivot <= NR_AREA_LOGS
  {
    exists p :: 0 <= p < pivot && Dirty(st.logs[p], line)
  }

  /** Every version after `since` lies in one of the logs below the pivot. */
  lemma {:induction false} SpanOf(spans: seq<Span>, current: nat, pivot: nat, v: nat) returns (p: nat)
    requires Spanned(spans, current) && 0 < pivot <= NR_AREA_LOGS && 0 < v <= current
    requires pivot == NR_AREA_LOGS || spans[pivot].verEnd < v
    ensures p < pivot && spans[p].verStart < v <= spans[p].verEnd
  {
    p := pivot - 1;
    if spans[p].verEnd < v {
      p := SpanOf(spans, current, pivot - 1, v);
    }
  }

  /** Delta sufficiency: if log `pivot` ends no later than version u, or there is no such log, then the logs
      before it hold every line whose data differ between version u and now. */
  lemma {:induction false} DeltaSufficient(st: LogState, spans: seq<Span>, hist: History, pivot: nat, u: nat, line: nat)
    requires Covers(st, spans, hist) && pivot <= NR_AREA_LOGS && u < |hist| && line < 64 * |st.dirty|
    requires pivot == NR_AREA_LOGS || spans[pivot].verEnd <= u
    ensures hist[u][line] != hist[|hist| - 1][line] ==> InFirst(st, pivot, line)
    decreases |hist| - u
  {
    if hist[u][line] != hist[|hist| - 1][line] {
      if hist[u][line] != hist[u + 1][line] {
        assert ChangedIn(hist, u + 1, line);
        if pivot > 0 {
          var p := SpanOf(spans, |hist| - 1, pivot, u + 1);
          assert Holds(st.logs[p], spans[p], hist);
        }
      } else {
        DeltaSufficient(st, spans, hist, pivot, u + 1, line);
      }
    }
  }

  /** What an external walk sees at a line is the OR of the logs below the pivot. */
  lemma {:induction false} SeenLine(st: LogState, pivot: nat, line: nat)
    requires WellFormed(st) && 0 < pivot <= NR_AREA_LOGS && line < 64 * |st.dirty|
    ensures UnitBits(Seen(st, 0, |st.dirty|, pivot))[line] <==> InFirst(st, pivot, line)
  {
    var u, k := line / 64, line % 64;
    UnitBitsAt(Seen(st, 0, |st.dirty|, pivot), line);
    LogValueAt(st.dirty[u], LaneOf(st, u), pivot, k);
    if InFirst(st, pivot, line) {
      var p :| 0 <= p < pivot && Dirty(st.logs[p], line);
      assert LaneOf(st, u)[p][k];
    }
    if exists p :: 0 <= p < pivot && LaneOf(st, u)[p][k] {
      var p :| 0 <= p < pivot && LaneOf(st, u)[p][k];
      assert Dirty(st.logs[p], line);
    }
  }

  lemma {:induction false} LogValueAt(d: Unit, lane: seq<Unit>, pivot: nat, k: nat)
    requires |lane| == NR_AREA_LOGS && 0 < pivot <= NR_AREA_LOGS && k < 64
    ensures LogValue(d, lane, pivot)[k] <==> exists p :: 0 <= p < pivot && lane[p][k]
  {
    if pivot > 1 {
      LogValueAt(d, lane, pivot - 1, k);
    }
  }

  // What each step does to the cover.

  /** Publishing a version: the dirty bits join log 0 (src/sync.c:123-124, src/sync_internal.c:199-200). */
  function PublishLog(st: LogState): (r: LogState)
    requires WellFormed(st)
    ensures WellFormed(r) && |r.dirty| == |st.dirty|
  {
    Sweep(st, 0, |st.dirty|, 0, true)
  }

  function PublishSpan(spans: seq<Span>, version: nat, now: nat): seq<Span>
    requires |spans| == NR_AREA_LOGS
  {
    spans[0 := spans[0].(verEnd := version, endUs := now)]
  }

  lemma PublishCovers(st: LogState, spans: seq<Span>, hist: History, ro: seq<Line>, now: nat)
    requires Covers(st, spans, hist) && |ro| == 64 * |st.dirty|
    requires forall line :: 0 <= line < |ro| && ro[line] != hist[|hist| - 1][line] ==> Dirty(st.dirty, line)
    ensures Covers(PublishLog(st), PublishSpan(spans, |hist|, now), hist + [ro])
  {
    var r, next, span := PublishLog(st), hist + [ro], PublishSpan(spans, |hist|, now);
    SweepAt(st, 0, |st.dirty|, 0, true);
    forall v: nat, line: nat | span[0].verStart < v <= span[0].verEnd && ChangedIn(next, v, line)
      ensures Dirty(r.logs[0], line)
    {
      var u := line / 64;
      assert LaneOf(r, u)[0] == Or(st.dirty[u], st.logs[0][u]);
      if v < |hist| {
        assert ChangedIn(hist, v, line);
      }
    }
    forall p | 0 < p < NR_AREA_LOGS ensures Holds(r.logs[p], span[p], next) {
      PublishKeeps(st, spans, hist, ro, p);
    }
  }

  lemma PublishKeeps(st: LogState, spans: seq<Span>, hist: History, ro: seq<Line>, p: nat)
    requires Covers(st, spans, hist) && |ro| == 64 * |st.dirty| && 0 < p < NR_AREA_LOGS
    ensures Holds(PublishLog(st).logs[p], spans[p], hist + [ro])
  {
    var r, next := PublishLog(st), hist + [ro];
    SweepAt(st, 0, |st.dirty|, 0, true);
    forall v: nat, line: nat | spans[p].verStart < v <= spans[p].verEnd && ChangedIn(next, v, line)
      ensures Dirty(r.logs[p], line)
    {
      assert v < |hist| by { SpanBelow(spans, |hist| - 1, p); }
      assert ChangedIn(hist, v, line);
      assert LaneOf(r, line / 64)[p] == st.logs[p][line / 64];
    }
  }

  lemma {:induction false} SpanBelow(spans: seq<Span>, current: nat, p: nat)
    requires Spanned(spans, current) && p < NR_AREA_LOGS
    ensures spans[p].verEnd <= current
  {
    if p > 0 { SpanBelow(spans, current, p - 1); }
  }

  /** An external walk moves log 0 into log 1, whatever the pivot. */
  lemma SendCovers(st: LogState, spans: seq<Span>, hist: History, pivot: nat, sent: bool)
    requires Covers(st, spans, hist) && 0 < pivot <= NR_AREA_LOGS
    requires !sent ==> forall line :: 0 <= line < 64 * |st.dirty| ==> !Dirty(st.logs[0], line)
    ensures Covers(Sweep(st, 0, |st.dirty|, pivot, true), if sent then SplitSpan(spans) else spans, hist)
  {
    var r, next := Sweep(st, 0, |st.dirty|, pivot, true), if sent then SplitSpan(spans) else spans;
    SweepAt(st, 0, |st.dirty|, pivot, true);
    forall p | 0 <= p < NR_AREA_LOGS ensures Holds(r.logs[p], next[p], hist) {
      forall v: nat, line: nat | next[p].verStart < v <= next[p].verEnd && ChangedIn(hist, v, line)
        ensures Dirty(r.logs[p], line)
      {
        var u := line / 64;
        assert LaneOf(r, u) == MovedLane(st.dirty[u], LaneOf(st, u), pivot, true);
        assert Holds(st.logs[0], spans[0], hist) && Holds(st.logs[1], spans[1], hist) &&
            Holds(st.logs[p], spans[p], hist);
      }
    }
  }

  /** Rotation of log i into log i + 1. */
  function RotateLog(st: LogState, i: nat): (r: LogState)
    requires WellFormed(st) && i + 1 < NR_AREA_LOGS
    ensures WellFormed(r) && |r.dirty| == |st.dirty|
  {
    st.(logs := st.logs[i := seq<Unit>(|st.dirty|, _ => Zero())]
                       [i + 1 := seq<Unit>(|st.dirty|,
                           u requires 0 <= u < |st.dirty| => Or(st.logs[i][u], st.logs[i + 1][u]))])
  }

  function RotateSpan(spans: seq<Span>, i: nat): seq<Span>
    requires |spans| == NR_AREA_LOGS && i + 1 < NR_AREA_LOGS
  {
    var s := spans[i];
    spans[i := s.(verStart := s.verEnd, startUs := s.endUs)][i + 1 := spans[i + 1].(verEnd := s.verEnd,
        endUs := s.endUs)]
  }

  lemma RotateCovers(st: LogState, spans: seq<Span>, hist: History, i: nat)
    requires Covers(st, spans, hist) && 0 < i && i + 1 < NR_AREA_LOGS
    ensures Covers(RotateLog(st, i), RotateSpan(spans, i), hist)
  {
    var r, next := RotateLog(st, i), RotateSpan(spans, i);
    forall p | 0 <= p < NR_AREA_LOGS ensures Holds(r.logs[p], next[p], hist) {
      forall v: nat, line: nat | next[p].verStart < v <= next[p].verEnd && ChangedIn(hist, v, line)
        ensures Dirty(r.logs[p], line)
      {
        assert Holds(st.logs[i], spans[i], hist) && Holds(st.logs[i + 1], spans[i + 1], hist) &&
            Holds(st.logs[p], spans[p], hist);
        assert i + 1 == p ==> r.logs[p][line / 64] == Or(st.logs[i][line / 64], st.logs[i + 1][line / 64]);
      }
    }
  }

  // The functions of the daemon.

  const WORD: nat := 0x1_0000_0000_0000_0000
  const NO_VERSION: nat := 0xFFFF_FFFF_FFFF_FFFF
  const S2US: nat := 1_000_000

  /** Minimum age before log i is rotated (src/sync_external.c:71). */
  function RotateAfter(i: nat): nat {
    if i == 1 then 5 * S2US else if i == 2 then 21 * S2US else 0
  }

  /** Elapsed time on an unsigned 64-bit clock. */
  function Elapsed(now: nat, since: nat): nat {
    (now - since) % WORD
  }

  predicate RotateDue(span: Span, i: nat, now: nat) {
    span.verEnd > span.verStart && Elapsed(now, span.startUs) > RotateAfter(i)
  }

  /** The two possible rotations, the older log first. */
  function RotatedSpans(spans: seq<Span>, i: nat, now: nat): (r: seq<Span>)
    requires |spans| == NR_AREA_LOGS && i + 1 < NR_AREA_LOGS
    ensures |r| == NR_AREA_LOGS
    decreases i
  {
    if i == 0 then spans
    else RotatedSpans(if RotateDue(spans[i], i, now) then RotateSpan(spans, i) else spans, i - 1, now)
  }

  /** The logs after the same rotations. */
  function RotatedLogs(st: LogState, spans: seq<Span>, i: nat, now: nat): (r: LogState)
    requires WellFormed(st) && |spans| == NR_AREA_LOGS && i + 1 < NR_AREA_LOGS
    ensures WellFormed(r) && |r.dirty| == |st.dirty|
    decreases i
  {
    if i == 0 then st
    else if RotateDue(spans[i], i, now) then RotatedLogs(RotateLog(st, i), RotateSpan(spans, i), i - 1, now)
    else RotatedLogs(st, spans, i - 1, now)
  }

  /** A log that holds versions is rotated when more than so much time has passed since its interval began. */
  predicate Older(span: Span, now: nat, age: nat) {
    span.verStart < span.verEnd && (now - span.startUs) % 0x1_0000_0000_0000_0000 > age
  }

  /** The rotations, log by log: log 2 goes after 21 seconds and log 1 after 5, whatever happens to the other. A log
      that goes begins anew where it ended, and the next one now ends there; logs 0 and 3 begin where they began. */
  lemma RotationTimes(spans: seq<Span>, now: nat)
    requires |spans| == NR_AREA_LOGS
    ensures var r, one, two := RotatedSpans(spans, 2, now), Older(spans[1], now, 5_000_000),
                Older(spans[2], now, 21_000_000);
            && r[0] == spans[0]
            && (r[1].verStart, r[1].startUs) == (if one then (spans[1].verEnd, spans[1].endUs)
                                                 else (spans[1].verStart, spans[1].startUs))
            && (r[1].verEnd, r[1].endUs) == (spans[1].verEnd, spans[1].endUs)
            && (r[2].verStart, r[2].startUs) == (if two then (spans[2].verEnd, spans[2].endUs)
                                                 else (spans[2].verStart, spans[2].startUs))
            && (r[2].verEnd, r[2].endUs) == (if one then (spans[1].verEnd, spans[1].endUs)
                                             else (spans[2].verEnd, spans[2].endUs))
            && (r[3].verStart, r[3].startUs) == (spans[3].verStart, spans[3].startUs)
            && (r[3].verEnd, r[3].endUs) == (if two then (spans[2].verEnd, spans[2].endUs)
                                             else (spans[3].verEnd, spans[3].endUs))
  {
    var mid := if RotateDue(spans[2], 2, now) then RotateSpan(spans, 2) else spans;
    assert RotatedSpans(spans, 2, now) == RotatedSpans(mid, 1, now);
    assert RotatedSpans(mid, 1, now) ==
           RotatedSpans(if RotateDue(mid[1], 1, now) then RotateSpan(mid, 1) else mid, 0, now);
  }

  /** And so do the lines: what log 2 held is then in log 3, what log 1 held in log 2. */
  lemma RotationLines(st: LogState, spans: seq<Span>, now: nat, line: nat)
    requires WellFormed(st) && |spans| == NR_AREA_LOGS && line < 64 * |st.dirty|
    ensures var r, one, two := RotatedLogs(st, spans, 2, now).logs, Older(spans[1], now, 5_000_000),
                Older(spans[2], now, 21_000_000);
            && r[0] == st.logs[0]
            && (Dirty(r[1], line) <==> !one && Dirty(st.logs[1], line))
            && (Dirty(r[2], line) <==> (!two && Dirty(st.logs[2], line)) || (one && Dirty(st.logs[1], line)))
            && (Dirty(r[3], line) <==> Dirty(st.logs[3], line) || (two && Dirty(st.logs[2], line)))
  {
    var one, two := RotateDue(spans[1], 1, now), RotateDue(spans[2], 2, now);
    var mid, sp := if two then RotateLog(st, 2) else st, if two then RotateSpan(spans, 2) else spans;
    var end := if one then RotateLog(mid, 1) else mid;
    assert RotatedLogs(st, spans, 2, now) == RotatedLogs(mid, sp, 1, now);
    assert sp[1] == spans[1];
    assert RotatedLogs(mid, sp, 1, now) == end;
    RotateLine(st, 2, line);
    RotateLine(mid, 1, line);
  }

  lemma RotateLine(st: LogState, i: nat, line: nat)
    requires WellFormed(st) && i + 1 < NR_AREA_LOGS && line < 64 * |st.dirty|
    ensures var r := RotateLog(st, i).logs;
            && !Dirty(r[i], line) && (Dirty(r[i + 1], line) <==> Dirty(st.logs[i], line) || Dirty(st.logs[i + 1], line))
            && forall p :: 0 <= p < NR_AREA_LOGS && p != i && p != i + 1 ==> r[p] == st.logs[p]
  {
  }

  /** The vector loop of a rotation: log i is OR-ed into log i + 1 and cleared (src/sync_external.c:78-92). */
  method RotateData(a: Area, i: nat)
    requires a.Shape() && i + 1 < NR_AREA_LOGS
    modifies a.diff[i], a.diff[i + 1]
    ensures a.State() == RotateLog(old(a.State()), i)
  {
    var l1, l2 := a.diff[i], a.diff[i + 1];
    var li := 0;
    ghost var left := a.units / 8;
    while li < a.units
      invariant 0 <= left && li + 8 * left == a.units
      invariant forall u :: 0 <= u < a.units ==>
                  if u < li then l1[u] == Zero() && l2[u] == Or(old(l1[u]), old(l2[u]))
                  else l1[u] == old(l1[u]) && l2[u] == old(l2[u])
    {
      RotateVector(l1, l2, li);
      li, left := li + 8, left - 1;
    }
    assert a.State().dirty == old(a.State().dirty);
    forall p | 0 <= p < NR_AREA_LOGS ensures a.State().logs[p] == RotateLog(old(a.State()), i).logs[p] {
    }
  }

  method RotateVector(l1: array<Unit>, l2: array<Unit>, li: nat)
    requires l1 != l2 && l1.Length == l2.Length && li + 8 <= l1.Length
    modifies l1, l2
    ensures forall u :: 0 <= u < l1.Length ==>
              if li <= u < li + 8 then l1[u] == Zero() && l2[u] == Or(old(l1[u]), old(l2[u]))
              else l1[u] == old(l1[u]) && l2[u] == old(l2[u])
  {
    var val := l1[li..li + 8];
    if AllZero(val) {
      forall u | li <= u < li + 8 ensures l1[u] == Zero() && l2[u] == Or(l1[u], l2[u]) {
        assert IsZero(val[u - li]);
        OrZero(l1[u], l2[u]);
      }
    } else {
      for u := li to li + 8
        invariant forall k :: 0 <= k < l1.Length ==>
                    if li <= k < u then l1[k] == Zero() && l2[k] == Or(old(l1[k]), old(l2[k]))
                    else l1[k] == old(l1[k]) && l2[k] == old(l2[k])
      {
        l2[u] := Or(l1[u], l2[u]);
        l1[u] := Zero();
      }
    }
  }

  /** tasvir_rotate_logs keeps the cover. */
  method RotateLogs(a: Area, now: nat, ghost hist: History)
    requires a.Shape() && |a.spans| == NR_AREA_LOGS && Covers(a.State(), a.spans, hist)
    modifies a`spans, a.diff[1], a.diff[2], a.diff[3]
    ensures a.spans == RotatedSpans(old(a.spans), 2, now)
    ensures a.State() == RotatedLogs(old(a.State()), old(a.spans), 2, now)
    ensures Covers(a.State(), a.spans, hist)
  {
    var i := NR_AREA_LOGS - 2;
    while i > 0
      invariant 0 <= i <= 2 && |a.spans| == NR_AREA_LOGS && Covers(a.State(), a.spans, hist)
      invariant RotatedSpans(old(a.spans), 2, now) == RotatedSpans(a.spans, i, now)
      invariant RotatedLogs(old(a.State()), old(a.spans), 2, now) == RotatedLogs(a.State(), a.spans, i, now)
    {
      if RotateDue(a.spans[i], i, now) {
        RotateCovers(a.State(), a.spans, hist, i);
        RotateData(a, i);
        a.spans := RotateSpan(a.spans, i);
      }
      i := i - 1;
    }
  }

  /** A subscriber slot of the header: is it taken, and which version does its node report? */
  datatype User = User(listed: bool, version: nat)

  /** The oldest version reported by a listed subscriber (src/sync_external.c:113-116). */
  method OldestVersion(users: seq<User>) returns (min: nat)
    ensures min <= NO_VERSION
    ensures forall i :: 0 <= i < |users| && users[i].listed ==> min <= users[i].version
    ensures min == NO_VERSION || exists i :: 0 <= i < |users| && users[i].listed && users[i].version == min
  {
    min := NO_VERSION;
    for i := 0 to |users|
      invariant min <= NO_VERSION
      invariant forall k :: 0 <= k < i && users[k].listed ==> min <= users[k].version
      invariant min == NO_VERSION || exists k :: 0 <= k < i && users[k].listed && users[k].version == min
    {
      if users[i].listed && users[i].version < min {
        min := users[i].version;
      }
    }
  }

  /** The first log that everybody is past: it ended before the previous external sync and no later than the
      oldest reported version (src/sync_external.c:111-122). */
  method ChoosePivot(spans: seq<Span>, min: nat, lastExtEnd: nat, init: bool) returns (pivot: nat)
    requires |spans| == NR_AREA_LOGS
    ensures pivot <= NR_AREA_LOGS && (init ==> pivot >= NR_AREA_LOGS - 1)
    ensures pivot < NR_AREA_LOGS ==> spans[pivot].verEnd <= min && spans[pivot].endUs < lastExtEnd
    ensures forall p :: (if init then NR_AREA_LOGS - 1 else 0) <= p < pivot ==>
              spans[p].verEnd > min || spans[p].endUs >= lastExtEnd
  {
    pivot := if init then NR_AREA_LOGS - 1 else 0;
    while pivot < NR_AREA_LOGS && !(lastExtEnd > spans[pivot].endUs && min >= spans[pivot].verEnd)
      invariant pivot <= NR_AREA_LOGS && (init ==> pivot >= NR_AREA_LOGS - 1)
      invariant forall p :: (if init then NR_AREA_LOGS - 1 else 0) <= p < pivot ==>
                  spans[p].verEnd > min || spans[p].endUs >= lastExtEnd
    {
      pivot := pivot + 1;
    }
  }

  /** A complete stream of version v from memory `mem`: byte counts chained from zero, exactly the final packet
      marked as last. */
  predicate WellFramed(ps: seq<Packet>, v: nat, mem: seq<Line>) {
    ps != [] && Chained(ps, v, 0, mem) && LastAtEnd(ps, true)
  }

  /** The packets for the maximal runs of a non-empty walk are a complete stream. */
  lemma RunsFramed(v: nat, runs: seq<Run>, mem: seq<Line>, bits: seq<bool>)
    requires runs != [] && MaximalRuns(bits, 0, runs) && |bits| <= |mem|
    ensures forall x :: x in runs ==> InMemory(x, |mem|)
    ensures WellFramed(Stream(v, runs, 0, true, mem), v, mem)
  {
    StreamChained(v, runs, 0, true, mem);
    StreamLast(v, runs, 0, true, mem);
  }

  /** The lines a stream brings up to date are enough for a subscriber that holds version u. */
  ghost predicate Brings(runs: seq<Run>, hist: History, u: nat) {
    u < |hist| && forall line: nat :: line < |hist[u]| && line < |hist[|hist| - 1]| ==>
      hist[u][line] == hist[|hist| - 1][line] || Covered(runs, line)
  }

  /** Enough for every listed subscriber. */
  ghost predicate BringsAll(runs: seq<Run>, hist: History, users: seq<User>) {
    forall i :: 0 <= i < |users| && users[i].listed && users[i].version < |hist| ==>
          Brings(runs, hist, users[i].version)
  }

  lemma PivotBrings(st: LogState, spans: seq<Span>, hist: History, pivot: nat, runs: seq<Run>, u: nat)
    requires Covers(st, spans, hist) && pivot <= NR_AREA_LOGS && u < |hist|
    requires pivot == NR_AREA_LOGS || spans[pivot].verEnd <= u
    requires if pivot == 0 then runs == []
             else MaximalRuns(UnitBits(Seen(st, 0, |st.dirty|, pivot)), 0, runs)
    ensures Brings(runs, hist, u)
  {
    forall line: nat | line < |hist[u]| && line < |hist[|hist| - 1]|
      ensures hist[u][line] == hist[|hist| - 1][line] || Covered(runs, line)
    {
      DeltaSufficient(st, spans, hist, pivot, u, line);
      if pivot > 0 {
        SeenLine(st, pivot, line);
      }
    }
  }

  /** Nothing set below the pivot means nothing set in log 0. */
  lemma NothingSeen(st: LogState, pivot: nat, runs: seq<Run>)
    requires WellFormed(st) && 0 < pivot <= NR_AREA_LOGS
    requires MaximalRuns(UnitBits(Seen(st, 0, |st.dirty|, pivot)), 0, runs)
    requires runs == []
    ensures forall line :: 0 <= line < 64 * |st.dirty| ==> !Dirty(st.logs[0], line)
  {
    forall line | 0 <= line < 64 * |st.dirty| ensures !Dirty(st.logs[0], line) {
      SeenLine(st, pivot, line);
      assert !Covered(runs, line);
    }
  }

  lemma EmptyStream(tx: seq<Packet>, v: nat, mem: seq<Line>)
    ensures tx == tx + Stream(v, [], 0, true, mem)
  {
  }

  /** What an external sync does to logs and intervals: the walk and, if anything was sent, the rotations due. */
  ghost predicate Moved(st: LogState, spans: seq<Span>, st': LogState, spans': seq<Span>, pivot: nat, runs: seq<Run>,
                        now: nat) {
    && WellFormed(st) && |spans| == NR_AREA_LOGS && pivot <= NR_AREA_LOGS
    && var swept := Sweep(st, 0, |st.dirty|, pivot, true);
       if runs == [] then st' == swept && spans' == spans
       else st' == RotatedLogs(swept, SplitSpan(spans), 2, now) && spans' == RotatedSpans(SplitSpan(spans), 2, now)
  }

  /** The pivot asks for enough: the first log not used ended no later than any listed subscriber's version. */
  predicate Admissible(spans: seq<Span>, users: seq<User>, pivot: nat) {
    && pivot <= NR_AREA_LOGS == |spans|
    && (pivot < NR_AREA_LOGS ==> forall i :: 0 <= i < |users| && users[i].listed ==>
           spans[pivot].verEnd <= users[i].version)
  }

  /** Everybody is past log p: it ended before the last external sync and no later than any listed version. */
  predicate Passed(spans: seq<Span>, users: seq<User>, lastExtEnd: nat, p: nat)
    requires p < |spans|
  {
    && spans[p].endUs < lastExtEnd
    && forall i :: 0 <= i < |users| && users[i].listed ==> spans[p].verEnd <= users[i].version
  }

  /** The pivot is the first log that everybody is past, or the number of logs if there is none; a joining node gets
      everything, or all but the oldest log. */
  predicate Chosen(spans: seq<Span>, users: seq<User>, lastExtEnd: nat, init: bool, pivot: nat) {
    && |spans| == NR_AREA_LOGS && pivot <= NR_AREA_LOGS && (init ==> pivot >= NR_AREA_LOGS - 1)
    && (pivot < NR_AREA_LOGS ==> Passed(spans, users, lastExtEnd, pivot))
    && forall p :: (if init then NR_AREA_LOGS - 1 else 0) <= p < pivot ==> !Passed(spans, users, lastExtEnd, p)
  }

  /** So there is no choice. */
  lemma ChosenUnique(spans: seq<Span>, users: seq<User>, lastExtEnd: nat, init: bool, p: nat, q: nat)
    requires Chosen(spans, users, lastExtEnd, init, p) && Chosen(spans, users, lastExtEnd, init, q)
    ensures p == q
  {
  }

  /** The least listed version decides for all. */
  lemma LeastDecides(spans: seq<Span>, users: seq<User>, lastExtEnd: nat, min: nat, p: nat)
    requires p < |spans| && spans[p].verEnd <= NO_VERSION
    requires forall i :: 0 <= i < |users| && users[i].listed ==> min <= users[i].version
    requires min == NO_VERSION || exists i :: 0 <= i < |users| && users[i].listed && users[i].version == min
    ensures Passed(spans, users, lastExtEnd, p) <==> spans[p].endUs < lastExtEnd && spans[p].verEnd <= min
  {
  }

  /** The pivot that the code finds is the one described. */
  method FindPivot(spans: seq<Span>, users: seq<User>, lastExtEnd: nat, init: bool, ghost current: nat)
    returns (pivot: nat)
    requires Spanned(spans, current) && current < NO_VERSION
    ensures Chosen(spans, users, lastExtEnd, init, pivot)
  {
    var min := OldestVersion(users);
    pivot := ChoosePivot(spans, min, lastExtEnd, init);
    forall p | 0 <= p < NR_AREA_LOGS
      ensures Passed(spans, users, lastExtEnd, p) <==> spans[p].endUs < lastExtEnd && spans[p].verEnd <= min
    {
      SpanBelow(spans, current, p);
      LeastDecides(spans, users, lastExtEnd, min, p);
    }
  }

  /** The part of an external sync after the pivot has been found. */
  method SendChanges(a: Area, l: SyncList, pivot: nat, now: nat, ghost hist: History)
    returns (bytes: nat, ghost runs: seq<Run>)
    requires a.Shape() && a.local && |a.spans| == NR_AREA_LOGS && Covers(a.State(), a.spans, hist)
    requires 0 < pivot <= NR_AREA_LOGS && a.extBytes == 0
    requires l.Valid() && l.Items() == [] && l.changed == 0
    modifies a`tx, a`extBytes, a`spans, a.diff[0], a.diff[1], a.diff[2], a.diff[3], a.dirty, a.ro, l, l.l
    ensures a.ro[..] == old(a.ro[..]) && |a.spans| == NR_AREA_LOGS
    ensures Covers(a.State(), a.spans, hist) && l.Valid() && l.Items() == [] && l.changed == 0
    ensures MaximalRuns(UnitBits(Seen(old(a.State()), 0, a.units, pivot)), 0, runs)
    ensures bytes == 64 * SumLen(runs) && (bytes > 0 <==> runs != [])
    ensures a.InArea(runs) && a.tx == old(a.tx) + Stream(a.version, runs, 0, true, a.ro[..])
    ensures Moved(old(a.State()), old(a.spans), a.State(), a.spans, pivot, runs, now)
  {
    hide RotatedLogs, RotatedSpans, RotateDue;
    hide Covers, MaximalRuns, Sweep, Seen, Stream, UnitBits, Emit;
    ghost var st, spans, given := a.State(), a.spans, [];
    bytes, runs, given := a.ParseLog(l, 0, a.units / 8, pivot);
    EmittedSome(st, a.units / 8, pivot, runs, bytes);
    if runs == [] {
      NothingSeen(st, pivot, runs);
    }
    SendCovers(st, spans, hist, pivot, bytes > 0);
    if bytes > 0 {
      RotateLogs(a, now, hist);
    }
  }

  lemma EmittedSome(st: LogState, vectors: nat, pivot: nat, runs: seq<Run>, bytes: nat)
    requires Emitted(st, 0, vectors, pivot, runs, bytes) && 8 * vectors == |st.dirty|
    ensures MaximalRuns(UnitBits(Seen(st, 0, |st.dirty|, pivot)), 0, runs)
    ensures bytes == 64 * SumLen(runs) && (bytes > 0 <==> runs != [])
  {
    MaximalRunsCount(UnitBits(Seen(st, 0, 8 * vectors, pivot)), 0, runs);
  }

  /** tasvir_sync_external_area for a local, non-root area. Whatever the interval of versions asked for, the
      stream brings every listed subscriber from the version it reports to the current one, is properly framed,
      and the cover survives. `due` stands for the interval and sleeping tests. */
  method SyncExternalArea(a: Area, l: SyncList, users: seq<User>, init: bool, due: bool, lastExtEnd: nat, now: nat,
                          ghost hist: History)
    returns (bytes: nat, ghost ran: bool, ghost runs: seq<Run>, ghost pivot: nat)
    requires a.Shape() && a.local && |a.spans| == NR_AREA_LOGS && Covers(a.State(), a.spans, hist)
    requires a.ro[..] == hist[|hist| - 1] && a.version == |hist| - 1 < NO_VERSION
    requires l.Valid() && l.Items() == [] && l.changed == 0
    modifies a, a.diff[0], a.diff[1], a.diff[2], a.diff[3], a.dirty, a.ro, l, l.l
    ensures a.ro[..] == old(a.ro[..]) && a.version == old(a.version) && a.local && |a.spans| == NR_AREA_LOGS
    ensures Covers(a.State(), a.spans, hist) && l.Valid() && l.Items() == [] && l.changed == 0
    ensures ran <==> due && old(a.spans)[0].verEnd != 0
    ensures ran ==> BringsAll(runs, hist, users)
    ensures (forall x :: x in runs ==> InMemory(x, 64 * a.units)) && bytes == 64 * SumLen(runs)
    ensures bytes > 0 <==> runs != []
    ensures a.tx == old(a.tx) + Stream(a.version, runs, 0, true, a.ro[..])
    ensures runs != [] ==> WellFramed(Stream(a.version, runs, 0, true, a.ro[..]), a.version, a.ro[..])
    ensures Admissible(old(a.spans), users, pivot) && (!ran ==> runs == [])
    ensures ran ==> Chosen(old(a.spans), users, lastExtEnd, init, pivot)
    ensures !init && Passed(old(a.spans), users, lastExtEnd, 0) ==> runs == [] && a.tx == old(a.tx)
    ensures !ran || pivot == 0 ==> runs == [] && a.State() == old(a.State()) && a.spans == old(a.spans)
    ensures ran && pivot > 0 ==>
              && MaximalRuns(UnitBits(Seen(old(a.State()), 0, a.units, pivot)), 0, runs)
              && Moved(old(a.State()), old(a.spans), a.State(), a.spans, pivot, runs, now)
  {
    hide Covers, MaximalRuns, Sweep, Seen, Stream, Brings, WellFramed, Moved, Spanned;
    bytes, ran, runs, pivot := 0, false, [], NR_AREA_LOGS;
    assert a.tx == a.tx + Stream(a.version, [], 0, true, a.ro[..]) by { EmptyStream(a.tx, a.version, a.ro[..]); }
    if a.spans[0].verEnd == 0 || !due {
      return;
    }
    ran := true;
    a.extBytes := 0;
    assert Spanned(a.spans, |hist| - 1) by { CoversSpans(a.State(), a.spans, hist); }
    var first := FindPivot(a.spans, users, lastExtEnd, init, |hist| - 1);
    pivot := first;
    ghost var st, spans := a.State(), a.spans;
    if first == 0 {
      forall i | 0 <= i < |users| && users[i].listed && users[i].version < |hist|
        ensures Brings(runs, hist, users[i].version)
      {
        PivotBrings(st, spans, hist, 0, [], users[i].version);
      }
      return;
    }
    bytes, runs := SendChanges(a, l, first, now, hist);
    forall i | 0 <= i < |users| && users[i].listed && users[i].version < |hist|
      ensures Brings(runs, hist, users[i].version)
    {
      PivotBrings(st, spans, hist, pivot, runs, users[i].version);
    }
    if runs != [] {
      RunsFramed(a.version, runs, a.ro[..], UnitBits(Seen(st, 0, a.units, pivot)));
    }
  }

  lemma CoversSpans(st: LogState, spans: seq<Span>, hist: History)
    requires Covers(st, spans, hist)
    ensures Spanned(spans, |hist| - 1)
  {
  }

  /** Every write was logged: a line whose copies differ is dirty. */
  ghost predicate Logged(a: Area)
    reads a.ro, a.rw, a.dirty
  {
    a.Shape() && forall line: nat {:trigger a.ro[line]} :: line < a.ro.Length && a.ro[line] != a.rw[line] ==>
          Dirty(a.dirty[..], line)
  }

  /** `runs` are non-empty and cover exactly the dirty lines below `upto`. */
  ghost predicate Wanted(d: seq<Unit>, upto: nat, runs: seq<Run>) {
    && (forall x :: x in runs ==> x.len > 0 && x.off + x.len <= upto)
    && forall line: nat :: line < upto ==> (Dirty(d, line) <==> Covered(runs, line))
  }

  lemma CoveredEither(a: seq<Run>, b: seq<Run>, line: int)
    ensures Covered(a + b, line) <==> Covered(a, line) || Covered(b, line)
  {
    if Covered(a, line) {
      var i :| 0 <= i < |a| && a[i].off <= line < a[i].off + a[i].len;
      assert (a + b)[i] == a[i];
    }
    if Covered(b, line) {
      var i :| 0 <= i < |b| && b[i].off <= line < b[i].off + b[i].len;
      assert (a + b)[|a| + i] == b[i];
    }
    if Covered(a + b, line) {
      var i :| 0 <= i < |a + b| && (a + b)[i].off <= line < (a + b)[i].off + (a + b)[i].len;
      assert (a + b)[i] == if i < |a| then a[i] else b[i - |a|];
    }
  }

  /** The next chunk is still as it was, so its runs are the missing ones. */
  lemma ChunkWanted(st: LogState, local: bool, first: nat, n: nat, all: seq<Run>, runs: seq<Run>, bytes: nat)
    requires WellFormed(st) && 8 * first + 8 * n <= |st.dirty| && Wanted(st.dirty, 512 * first, all)
    requires Emitted(Sweep(st, 0, 8 * first, 0, local), first, n, 0, runs, bytes)
    ensures Wanted(st.dirty, 512 * (first + n), all + runs)
  {
    var mid := Sweep(st, 0, 8 * first, 0, local);
    SweepAt(st, 0, 8 * first, 0, local);
    hide Sweep, UnitBits, Seen;
    forall line: nat | line < 512 * (first + n) ensures Dirty(st.dirty, line) <==> Covered(all + runs, line) {
      CoveredEither(all, runs, line);
      if line >= 512 * first {
        ChunkLine(mid, first, n, line);
        assert UnitBits(Seen(mid, 8 * first, 8 * n, 0))[line - 512 * first] <==> Covered(runs, line);
      }
    }
  }

  lemma ChunkLine(st: LogState, first: nat, n: nat, line: nat)
    requires WellFormed(st) && 8 * first + 8 * n <= |st.dirty| && 512 * first <= line < 512 * (first + n)
    ensures UnitBits(Seen(st, 8 * first, 8 * n, 0))[line - 512 * first] == st.dirty[line / 64][line % 64]
  {
    var k := line - 512 * first;
    UnitBitsAt(Seen(st, 8 * first, 8 * n, 0), k);
    assert k / 64 + 8 * first == line / 64 && k % 64 == line % 64;
    assert Seen(st, 8 * first, 8 * n, 0)[k / 64] == st.dirty[8 * first + k / 64];
  }

  lemma SweepChunk(st: LogState, at: nat, n: nat, local: bool)
    requires WellFormed(st) && at + n <= |st.dirty|
    ensures Sweep(Sweep(st, 0, at, 0, local), at, at + n, 0, local) == Sweep(st, 0, at + n, 0, local)
  {
    var mid := Sweep(st, 0, at, 0, local);
    SweepAt(st, 0, at, 0, local);
    SweepAt(mid, at, at + n, 0, local);
    SweepAt(st, 0, at + n, 0, local);
    SameState(Sweep(mid, at, at + n, 0, local), Sweep(st, 0, at + n, 0, local));
  }

  /** Copying all wanted runs makes the copies equal. */
  lemma CopyWanted(ro: seq<Line>, rw: seq<Line>, d: seq<Unit>, runs: seq<Run>)
    requires |ro| == |rw| == 64 * |d| && Wanted(d, |ro|, runs)
    requires forall line: nat :: line < |ro| && ro[line] != rw[line] ==> Dirty(d, line)
    ensures CopyRuns(ro, rw, runs) == rw
  {
    forall line | 0 <= line < |ro| ensures CopyRuns(ro, rw, runs)[line] == rw[line] {
      CopyRunsAt(ro, rw, runs, line);
    }
  }

  /** No bytes copied means nothing was dirty, and conversely. */
  lemma NothingWanted(d: seq<Unit>, upto: nat, runs: seq<Run>)
    requires Wanted(d, upto, runs) && upto == 64 * |d|
    ensures SumLen(runs) == 0 <==> runs == []
    ensures SumLen(runs) == 0 <==> NoneDirty(d)
  {
    assert forall i :: 0 <= i < |runs| ==> runs[i] in runs;
    if runs == [] {
      forall u | 0 <= u < |d| ensures IsZero(d[u]) {
        forall k | 0 <= k < 64 ensures !d[u][k] {
          assert !Covered(runs, 64 * u + k);
          assert !Dirty(d, 64 * u + k);
        }
      }
    } else {
      var line := runs[0].off;
      assert Covered(runs, line);
      assert Dirty(d, line) && !IsZero(d[line / 64]);
    }
  }

  /** The claiming loop of tasvir_sync_internal_job for a thread that has the area to itself
      (src/sync_internal.c:173-186): the log is walked chunk by chunk and the rest of the list flushed. */
  method CopyChanges(a: Area, l: SyncList, chunk: nat) returns (updated: nat)
    requires a.Shape() && |a.spans| == NR_AREA_LOGS && Logged(a) && chunk > 0
    requires l.Valid() && l.Items() == [] && l.changed == 0
    modifies a`tx, a`extBytes, a`spans, a.diff[0], a.diff[1], a.dirty, a.ro, l, l.l
    ensures a.ro[..] == a.rw[..] && a.State() == Sweep(old(a.State()), 0, a.units, 0, a.local)
    ensures l.Valid() && l.Items() == [] && l.changed == 0 && a.spans == old(a.spans) && a.tx == old(a.tx)
    ensures updated == 0 <==> old(NoneDirty(a.dirty[..]))
    ensures updated == 0 ==> a.ro[..] == old(a.ro[..])
  {
    hide MaximalRuns, Sweep, Seen, UnitBits, Emit, Emitted, Wanted;
    ghost var st, o, given := a.State(), a.Output(l), [];
    ghost var all: seq<Run> := [];
    var offset, total := 0, a.units / 8;
    SweepNothing(st, 0, 0, a.local);
    EmitNothing(o, a.rw[..], a.version, false);
    WantedNothing(st.dirty);
    while offset < total
      invariant offset <= total && l.Valid() && l.cnt <= 256 && a.InArea(given) && a.InArea(l.Items())
      invariant a.State() == Sweep(st, 0, 8 * offset, 0, a.local) && given + l.Items() == all
      invariant a.Output(l) == Emit(o, a.rw[..], a.version, given, false, false)
      invariant a.spans == old(a.spans) && Wanted(st.dirty, 512 * offset, all)
    {
      var n := Min(chunk, total - offset);
      ghost var items, more, runs := l.Items(), [], [];
      var bytes;
      bytes, runs, more := a.ParseLog(l, offset, n, 0);
      ChunkWanted(st, a.local, offset, n, all, runs, bytes);
      SweepChunk(st, 8 * offset, 8 * n, a.local);
      Regroup(given, more, l.Items(), items, runs, [], all);
      EmitAppend(o, a.rw[..], a.version, given, more, false, false);
      given, all := given + more, all + runs;
      offset := offset + n;
    }
    CopyRunsAppend(o.ro, a.rw[..], given, l.Items());
    EmitInternal(o, a.rw[..], a.version, given);
    SumLenAppend(given, l.Items());
    updated := a.ProcessChanges(l, true, false);
    CopyWanted(o.ro, a.rw[..], st.dirty, all);
    NothingWanted(st.dirty, 64 * a.units, all);
    if updated == 0 {
      assert CopyRuns(o.ro, a.rw[..], all) == o.ro;
    }
  }

  lemma EmitInternal(o: Out, rw: seq<Line>, v: nat, runs: seq<Run>)
    requires |o.ro| == |rw| && forall x :: x in runs ==> InMemory(x, |rw|)
    ensures Emit(o, rw, v, runs, false, false) ==
            Out(CopyRuns(o.ro, rw, runs), o.tx, o.sent, o.changed + 64 * SumLen(runs))
  {
  }

  lemma WantedNothing(d: seq<Unit>)
    ensures Wanted(d, 0, [])
  {
  }

  /** Setting the bit of the header's second line in log 0 (src/sync_internal.c:202). */
  function MarkHeader(st: LogState): (r: LogState)
    requires WellFormed(st) && |st.dirty| > 0
    ensures WellFormed(r) && |r.dirty| == |st.dirty|
  {
    var log0: seq<Unit> := [Or(st.logs[0][0], Shr(Top(), 1))] + st.logs[0][1..];
    st.(logs := st.logs[0 := log0])
  }

  lemma MarkCovers(st: LogState, spans: seq<Span>, hist: History)
    requires Covers(st, spans, hist) && |st.dirty| > 0
    ensures Covers(MarkHeader(st), spans, hist)
  {
    forall p | 0 <= p < NR_AREA_LOGS ensures Holds(MarkHeader(st).logs[p], spans[p], hist) {
      assert Holds(st.logs[p], spans[p], hist);
      forall v: nat, line: nat | spans[p].verStart < v <= spans[p].verEnd && ChangedIn(hist, v, line)
        ensures Dirty(MarkHeader(st).logs[p], line)
      {
        assert Dirty(st.logs[p], line);
      }
    }
  }

  predicate NoneDirty(d: seq<Unit>) {
    forall u :: 0 <= u < |d| ==> IsZero(d[u])
  }

  /** tasvir_sync_internal_job of the owner of a small local area: afterwards both copies agree and nothing is
      dirty; if anything was, the data are published under the next version and log 0 covers the change. */
  method SyncInternalArea(a: Area, l: SyncList, chunk: nat, now: nat, ghost hist: History)
    returns (ghost hist': History)
    requires a.Shape() && a.local && a.units > 0 && |a.spans| == NR_AREA_LOGS && Covers(a.State(), a.spans, hist)
    requires a.ro[..] == hist[|hist| - 1] && a.version == |hist| - 1 && Logged(a) && chunk > 0
    requires l.Valid() && l.Items() == [] && l.changed == 0
    modifies a`tx, a`extBytes, a`spans, a`version, a.diff[0], a.diff[1], a.dirty, a.ro, l, l.l
    ensures a.ro[..] == a.rw[..] == hist'[|hist'| - 1] && a.version == |hist'| - 1 && |a.spans| == NR_AREA_LOGS
    ensures forall u :: 0 <= u < a.units ==> a.dirty[u] == Zero()
    ensures Covers(a.State(), a.spans, hist') && l.Valid() && l.Items() == [] && l.changed == 0
    ensures hist' == if old(NoneDirty(a.dirty[..])) then hist else hist + [a.rw[..]]
    ensures old(NoneDirty(a.dirty[..])) ==>
              a.State() == old(a.State()) && a.spans == old(a.spans) && a.rw[..] == old(a.ro[..])
    ensures !old(NoneDirty(a.dirty[..])) ==>
              a.State() == MarkHeader(PublishLog(old(a.State()))) && a.spans == PublishSpan(old(a.spans), |hist|, now)
  {
    hide Covers, Sweep, Holds;
    hist' := hist;
    ghost var st := a.State();
    var updated := CopyChanges(a, l, chunk);
    AllSwept(st, a.local);
    PublishCovers(st, a.spans, hist, a.ro[..], now);
    if updated > 0 {
      a.version := a.version + 1;
      a.spans := PublishSpan(a.spans, a.version, now);
      hist' := hist + [a.ro[..]];
      MarkCovers(a.State(), a.spans, hist');
      MarkSecondLine(a);
    } else {
      NothingDirty(st);
    }
  }

  method MarkSecondLine(a: Area)
    requires a.Shape() && a.units > 0
    modifies a.diff[0]
    ensures a.State() == MarkHeader(old(a.State()))
  {
    a.diff[0][0] := Or(a.diff[0][0], Shr(Top(), 1));
    assert a.diff[0][..] == [a.diff[0][0]] + old(a.diff[0][..])[1..];
  }

  lemma AllSwept(st: LogState, local: bool)
    requires WellFormed(st)
    ensures var r := Sweep(st, 0, |st.dirty|, 0, local); forall u :: 0 <= u < |st.dirty| ==> r.dirty[u] == Zero()
  {
  }

  /** A walk over an empty dirty log leaves the logs as they were. */
  lemma NothingDirty(st: LogState)
    requires WellFormed(st) && NoneDirty(st.dirty)
    ensures PublishLog(st) == st
  {
    SweepAt(st, 0, |st.dirty|, 0, true);
    forall u | 0 <= u < |st.dirty|
      ensures PublishLog(st).dirty[u] == st.dirty[u] && LaneOf(PublishLog(st), u) == LaneOf(st, u)
    {
      OrZero(st.dirty[u], st.logs[0][u]);
    }
    SameState(PublishLog(st), st);
  }
}
