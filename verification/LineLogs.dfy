/** Logs given by sets of lines, and streams of single lines, in an area of 512 lines. */
module LineLogs {
  import opened LogBits
  import opened Framing
  import opened RunLength
  import opened SyncWalk
  import opened SyncArea
  import opened DiffLogs

  const UNITS: nat := 8
  const LINES: nat := 512

  function UnitOf(x: set<nat>, u: nat): Unit { seq(64, k => 64 * u + k in x) }

  function LogOf(x: set<nat>): (log: seq<Unit>)
    ensures |log| == UNITS
  {
    seq<Unit>(UNITS, u requires 0 <= u => UnitOf(x, u))
  }

  datatype Sets = Sets(dirty: set<nat>, log0: set<nat>, log1: set<nat>, log2: set<nat>, log3: set<nat>)

  const NONE := Sets({}, {}, {}, {}, {})

  function Logs(x: Sets): (st: LogState)
    ensures WellFormed(st) && |st.dirty| == UNITS
  {
    LogState(LogOf(x.dirty), [LogOf(x.log0), LogOf(x.log1), LogOf(x.log2), LogOf(x.log3)])
  }

  lemma LaneIs(x: Sets, u: nat)
    requires u < UNITS
    ensures LaneOf(Logs(x), u) == [UnitOf(x.log0, u), UnitOf(x.log1, u), UnitOf(x.log2, u), UnitOf(x.log3, u)]
    ensures Logs(x).dirty[u] == UnitOf(x.dirty, u)
  {
  }

  lemma OrUnits(x: set<nat>, y: set<nat>, u: nat)
    ensures Or(UnitOf(x, u), UnitOf(y, u)) == UnitOf(x + y, u) && Zero() == UnitOf({}, u)
  {
  }

  lemma DirtyIs(x: set<nat>, line: nat)
    requires line < LINES
    ensures Dirty(LogOf(x), line) <==> line in x
  {
    assert 64 * (line / 64) + line % 64 == line;
  }

  /** A walk moves the log it walks into the next one. */
  lemma SweepIs(x: Sets, pivot: nat)
    ensures Sweep(Logs(x), 0, UNITS, pivot, true) ==
            if pivot == 0 then Logs(x.(dirty := {}, log0 := x.dirty + x.log0))
            else Logs(x.(log0 := {}, log1 := x.log0 + x.log1))
  {
    var st := Logs(x);
    var z := if pivot == 0 then x.(dirty := {}, log0 := x.dirty + x.log0)
             else x.(log0 := {}, log1 := x.log0 + x.log1);
    SweepAt(st, 0, UNITS, pivot, true);
    hide UnitOf, Or, Zero, Logs, LaneOf, Sweep, LogOf;
    forall u | 0 <= u < UNITS
      ensures Sweep(st, 0, UNITS, pivot, true).dirty[u] == Logs(z).dirty[u]
      ensures LaneOf(Sweep(st, 0, UNITS, pivot, true), u) == LaneOf(Logs(z), u)
    {
      LaneIs(x, u);
      LaneIs(z, u);
      OrUnits(x.dirty, x.log0, u);
      OrUnits(x.log0, x.log1, u);
    }
    SameState(Sweep(st, 0, UNITS, pivot, true), Logs(z));
  }

  lemma MarkIs(x: Sets)
    ensures MarkHeader(Logs(x)) == Logs(x.(log0 := x.log0 + {1}))
  {
    var log0 := MarkHeader(Logs(x)).logs[0];
    forall u | 0 <= u < UNITS ensures log0[u] == UnitOf(x.log0 + {1}, u) {
      assert forall k :: 0 <= k < 64 ==> log0[u][k] == UnitOf(x.log0 + {1}, u)[k];
    }
    assert log0 == LogOf(x.log0 + {1});
  }

  lemma RotateIs(x: Sets)
    ensures RotateLog(Logs(x), 1) == Logs(x.(log1 := {}, log2 := x.log1 + x.log2))
  {
    var st, z := RotateLog(Logs(x), 1), x.(log1 := {}, log2 := x.log1 + x.log2);
    hide Or, Zero, UnitOf;
    forall u | 0 <= u < UNITS ensures st.logs[1][u] == UnitOf({}, u) && st.logs[2][u] == UnitOf(x.log1 + x.log2, u) {
      OrUnits(x.log1, x.log2, u);
    }
    assert st.logs[1] == LogOf({}) && st.logs[2] == LogOf(x.log1 + x.log2);
  }

  /** The lines of the logs below the pivot. */
  function Below(x: Sets, pivot: nat): set<nat> {
    (if pivot > 0 then x.log0 else {}) + (if pivot > 1 then x.log1 else {}) +
    (if pivot > 2 then x.log2 else {}) + (if pivot > 3 then x.log3 else {})
  }

  lemma SeenIs(x: Sets, pivot: nat, line: nat)
    requires 0 < pivot <= NR_AREA_LOGS && line < LINES
    ensures UnitBits(Seen(Logs(x), 0, UNITS, pivot))[line] <==> line in Below(x, pivot)
  {
    SeenLine(Logs(x), pivot, line);
    hide Seen, UnitBits, LogOf, Dirty;
    DirtyIs(x.log0, line);
    DirtyIs(x.log1, line);
    DirtyIs(x.log2, line);
    DirtyIs(x.log3, line);
    var logs := Logs(x).logs;
    assert logs[0] == LogOf(x.log0) && logs[1] == LogOf(x.log1) && logs[2] == LogOf(x.log2) && logs[3] == LogOf(x.log3);
  }

  // Streams of single lines.

  /** Lines with gaps between them. */
  predicate Apart(offs: seq<nat>) {
    && (forall i :: 0 <= i < |offs| ==> offs[i] < LINES)
    && (forall i, j :: 0 <= i < j < |offs| ==> offs[i] + 1 < offs[j])
  }

  function Lines(offs: seq<nat>): (rs: seq<Run>)
    ensures |rs| == |offs| && forall i :: 0 <= i < |rs| ==> rs[i] == Run(offs[i], 1)
  {
    seq(|offs|, i requires 0 <= i < |offs| => Run(offs[i], 1))
  }

  /** They are the maximal runs of what the walk sees. */
  lemma LinesSeen(x: Sets, pivot: nat, offs: seq<nat>)
    requires 0 < pivot <= NR_AREA_LOGS && Apart(offs) && forall l :: l in Below(x, pivot) <==> l in offs
    ensures MaximalRuns(UnitBits(Seen(Logs(x), 0, UNITS, pivot)), 0, Lines(offs))
  {
    var bits, runs := UnitBits(Seen(Logs(x), 0, UNITS, pivot)), Lines(offs);
    hide Seen, UnitBits, Below, Logs;
    forall k | 0 <= k < |bits| ensures bits[k] <==> Covered(runs, 0 + k) {
      SeenIs(x, pivot, k);
      if k in offs {
        var i :| 0 <= i < |offs| && offs[i] == k;
        assert runs[i].off <= k < runs[i].off + runs[i].len;
      }
      if Covered(runs, k) {
        var i :| 0 <= i < |runs| && runs[i].off <= k < runs[i].off + runs[i].len;
        assert offs[i] == k;
      }
    }
  }

  lemma OneLine(v: nat, off: nat, prev: nat, last: bool, mem: seq<Line>)
    requires off < |mem|
    ensures Fragments(v, Run(off, 1), prev, last, mem) == [Packet(v, off, 64, prev, last, [mem[off]])]
  {
    assert Rest(Run(off, 1)) == Run(off + 1, 0);
    assert Fragments(v, Run(off + 1, 0), prev + 64, last, mem) == [];
    assert mem[off..off + 1] == [mem[off]];
  }

  /** The packets of such a stream. */
  lemma {:induction false} LinePackets(v: nat, offs: seq<nat>, prev: nat, mem: seq<Line>)
    requires forall i :: 0 <= i < |offs| ==> offs[i] < |mem|
    ensures forall x :: x in Lines(offs) ==> InMemory(x, |mem|)
    ensures var ps := Stream(v, Lines(offs), prev, true, mem);
            |ps| == |offs| && forall i :: 0 <= i < |ps| ==>
                  ps[i] == Packet(v, offs[i], 64, prev + 64 * i, i == |offs| - 1, [mem[offs[i]]])
    decreases |offs|
  {
    if offs != [] {
      OneLine(v, offs[0], prev, |offs| == 1, mem);
      assert Lines(offs)[1..] == Lines(offs[1..]);
      LinePackets(v, offs[1..], prev + 64, mem);
    }
  }
}
