/** Runs of lines, and how the daemon cuts them into packets (src/sync.c:4-52) and a receiver puts them
    back. Lines are numbered from the area's header; `mem` is the owner's RO copy. */
module Framing {

  type Line = seq<bv8>

  /** A run of consecutive lines: a sync-list item (src/tasvir.h:151-154). */
  datatype Run = Run(off: nat, len: nat)

  /** One memory message; lengths are in bytes, 64 per line (src/tasvir.h:109-117). */
  datatype Packet = Packet(version: nat, line: nat, bytes: nat, prev: nat, last: bool, data: seq<Line>)

  const LINES_PER_MSG: nat := 21
  const PKT_BURST: nat := 32

  function Min(a: nat, b: nat): nat { if a < b then a else b }

  predicate InMemory(run: Run, size: nat) {
    run.off + run.len <= size
  }

  /** Copying one run, line by line. */
  function CopyRun(dst: seq<Line>, src: seq<Line>, run: Run): (r: seq<Line>)
    requires |dst| == |src| && InMemory(run, |dst|)
    ensures |r| == |dst|
  {
    seq(|dst|, i requires 0 <= i < |dst| => if run.off <= i < run.off + run.len then src[i] else dst[i])
  }

  function CopyRuns(dst: seq<Line>, src: seq<Line>, runs: seq<Run>): (r: seq<Line>)
    requires |dst| == |src| && forall x :: x in runs ==> InMemory(x, |dst|)
    ensures |r| == |dst|
    decreases |runs|
  {
    if runs == [] then dst else CopyRuns(CopyRun(dst, src, runs[0]), src, runs[1..])
  }

  lemma {:induction false} CopyRunsAppend(dst: seq<Line>, src: seq<Line>, a: seq<Run>, b: seq<Run>)
    requires |dst| == |src|
    requires forall x :: x in a ==> InMemory(x, |dst|)
    requires forall x :: x in b ==> InMemory(x, |dst|)
    ensures CopyRuns(dst, src, a + b) == CopyRuns(CopyRuns(dst, src, a), src, b)
    decreases |a|
  {
    if a == [] {
      assert a + b == b;
    } else {
      assert (a + b)[1..] == a[1..] + b;
      CopyRunsAppend(CopyRun(dst, src, a[0]), src, a[1..], b);
    }
  }

  predicate Covered(runs: seq<Run>, line: int) {
    exists i :: 0 <= i < |runs| && runs[i].off <= line < runs[i].off + runs[i].len
  }

  /** What copying a list of runs from one memory does: covered lines are the source's, others stay. */
  lemma {:induction false} CopyRunsAt(dst: seq<Line>, src: seq<Line>, runs: seq<Run>, line: nat)
    requires |dst| == |src| && (forall x :: x in runs ==> InMemory(x, |dst|)) && line < |dst|
    ensures CopyRuns(dst, src, runs)[line] == if Covered(runs, line) then src[line] else dst[line]
    decreases |runs|
  {
    if runs != [] {
      CopyRunsAt(CopyRun(dst, src, runs[0]), src, runs[1..], line);
      CoveredCons(runs, line);
    }
  }

  lemma CoveredCons(runs: seq<Run>, line: int)
    requires runs != []
    ensures Covered(runs, line) <==>
              runs[0].off <= line < runs[0].off + runs[0].len || Covered(runs[1..], line)
  {
    var rest := runs[1..];
    if Covered(rest, line) {
      var i :| 0 <= i < |rest| && rest[i].off <= line < rest[i].off + rest[i].len;
      assert runs[i + 1] == rest[i];
    }
    if Covered(runs, line) {
      var i :| 0 <= i < |runs| && runs[i].off <= line < runs[i].off + runs[i].len;
      if i > 0 {
        assert rest[i - 1] == runs[i];
      }
    }
  }

  /** The first packet cut from a run: at most 21 lines, marked last only if nothing of the run is left. */
  function Head(v: nat, run: Run, prev: nat, last: bool, mem: seq<Line>): Packet
    requires InMemory(run, |mem|)
  {
    var n := Min(LINES_PER_MSG, run.len);
    Packet(v, run.off, 64 * n, prev, last && run.len == n, mem[run.off..run.off + n])
  }

  /** What is left of the run after that packet. */
  function Rest(run: Run): Run {
    var n := Min(LINES_PER_MSG, run.len);
    Run(run.off + n, run.len - n)
  }

  /** The packets for one run: full messages of 21 lines and a remainder. */
  function Fragments(v: nat, run: Run, prev: nat, last: bool, mem: seq<Line>): (ps: seq<Packet>)
    requires InMemory(run, |mem|)
    ensures run.len > 0 ==> ps != []
    decreases run.len
  {
    if run.len == 0 then []
    else
      [Head(v, run, prev, last, mem)] +
      Fragments(v, Rest(run), prev + 64 * (run.len - Rest(run).len), last, mem)
  }

  /** A packet the receiver can store: its lines lie inside the memory. */
  predicate Fits(p: Packet, size: nat) {
    p.bytes == 64 * |p.data| && p.line + |p.data| <= size
  }

  function TotalBytes(ps: seq<Packet>): nat {
    if ps == [] then 0 else ps[0].bytes + TotalBytes(ps[1..])
  }

  /** A packet of version v that carries one to 21 lines of `mem`. */
  predicate Carries(p: Packet, v: nat, mem: seq<Line>) {
    && p.version == v && 0 < |p.data| <= LINES_PER_MSG
    && Fits(p, |mem|) && p.data == mem[p.line..p.line + |p.data|]
  }

  /** The packets carry lines of `mem` and each one's prev_bytes continues the count begun at `start`. */
  predicate Chained(ps: seq<Packet>, v: nat, start: nat, mem: seq<Line>) {
    ps == [] || (Carries(ps[0], v, mem) && ps[0].prev == start && Chained(ps[1..], v, start + ps[0].bytes, mem))
  }

  /** So every packet's prev_bytes is the sum of all packet lengths before it. */
  lemma {:induction false} ChainedAt(ps: seq<Packet>, v: nat, start: nat, mem: seq<Line>, i: nat)
    requires Chained(ps, v, start, mem) && i < |ps|
    ensures ps[i].prev == start + TotalBytes(ps[..i]) && Carries(ps[i], v, mem)
    decreases i
  {
    if i > 0 {
      ChainedAt(ps[1..], v, start + ps[0].bytes, mem, i - 1);
      assert ps[..i][1..] == ps[1..][..i - 1];
    }
  }

  lemma {:induction false} ChainedAppend(a: seq<Packet>, b: seq<Packet>, v: nat, start: nat, mem: seq<Line>)
    requires Chained(a, v, start, mem) && Chained(b, v, start + TotalBytes(a), mem)
    ensures Chained(a + b, v, start, mem) && TotalBytes(a + b) == TotalBytes(a) + TotalBytes(b)
    decreases |a|
  {
    if a == [] {
      assert a + b == b;
    } else {
      assert (a + b)[1..] == a[1..] + b;
      ChainedAppend(a[1..], b, v, start + a[0].bytes, mem);
    }
  }

  lemma {:induction false} ChainedFits(ps: seq<Packet>, v: nat, start: nat, mem: seq<Line>)
    requires Chained(ps, v, start, mem)
    ensures forall p :: p in ps ==> Fits(p, |mem|)
  {
    if ps != [] {
      ChainedFits(ps[1..], v, start + ps[0].bytes, mem);
      assert forall p :: p in ps ==> p == ps[0] || p in ps[1..];
    }
  }

  /** Only the final packet is marked, and it is marked exactly when asked. */
  predicate LastAtEnd(ps: seq<Packet>, last: bool) {
    && (ps != [] ==> ps[|ps| - 1].last == last)
    && forall i :: 0 <= i < |ps| - 1 ==> !ps[i].last
  }

  lemma {:induction false} FragmentsChained(v: nat, run: Run, prev: nat, last: bool, mem: seq<Line>)
    requires InMemory(run, |mem|)
    ensures var ps := Fragments(v, run, prev, last, mem);
            Chained(ps, v, prev, mem) && TotalBytes(ps) == 64 * run.len
    decreases run.len
  {
    if run.len > 0 {
      var next := prev + 64 * (run.len - Rest(run).len);
      FragmentsChained(v, Rest(run), next, last, mem);
      var ps := Fragments(v, run, prev, last, mem);
      assert ps[0] == Head(v, run, prev, last, mem) && ps[1..] == Fragments(v, Rest(run), next, last, mem);
    }
  }

  /** As few packets as 21 lines each allow, all but the last one full. */
  lemma {:induction false} FragmentsFull(v: nat, run: Run, prev: nat, last: bool, mem: seq<Line>)
    requires InMemory(run, |mem|)
    ensures var ps := Fragments(v, run, prev, last, mem);
            && |ps| == (run.len + 20) / 21
            && forall i :: 0 <= i < |ps| - 1 ==> |ps[i].data| == 21
    decreases run.len
  {
    if run.len > 0 {
      FragmentsFull(v, Rest(run), prev + 64 * (run.len - Rest(run).len), last, mem);
    }
  }

  lemma {:induction false} FragmentsLast(v: nat, run: Run, prev: nat, last: bool, mem: seq<Line>)
    requires InMemory(run, |mem|)
    ensures LastAtEnd(Fragments(v, run, prev, last, mem), last)
    decreases run.len
  {
    if run.len > 0 {
      FragmentsLast(v, Rest(run), prev + 64 * (run.len - Rest(run).len), last, mem);
    }
  }

  /** Storing one packet (the streaming copy at src/sync_external.c:33). */
  function Store(rw: seq<Line>, p: Packet): (r: seq<Line>)
    requires Fits(p, |rw|)
    ensures |r| == |rw|
  {
    rw[..p.line] + p.data + rw[p.line + |p.data|..]
  }

  function Replay(rw: seq<Line>, ps: seq<Packet>): (r: seq<Line>)
    requires forall p :: p in ps ==> Fits(p, |rw|)
    ensures |r| == |rw|
    decreases |ps|
  {
    if ps == [] then rw else Replay(Store(rw, ps[0]), ps[1..])
  }

  lemma {:induction false} ReplayAppend(rw: seq<Line>, a: seq<Packet>, b: seq<Packet>)
    requires forall p :: p in a ==> Fits(p, |rw|)
    requires forall p :: p in b ==> Fits(p, |rw|)
    ensures Replay(rw, a + b) == Replay(Replay(rw, a), b)
    decreases |a|
  {
    if a == [] {
      assert a + b == b;
    } else {
      assert (a + b)[1..] == a[1..] + b;
      ReplayAppend(Store(rw, a[0]), a[1..], b);
    }
  }

  /** Replaying the packets of one run is copying the run. */
  lemma {:induction false} FragmentsReplay(rw: seq<Line>, v: nat, run: Run, prev: nat, last: bool, mem: seq<Line>)
    requires InMemory(run, |mem|) && |rw| == |mem|
    ensures var ps := Fragments(v, run, prev, last, mem);
            && (forall p :: p in ps ==> Fits(p, |mem|))
            && Replay(rw, ps) == CopyRun(rw, mem, run)
    decreases run.len
  {
    if run.len == 0 {
      assert CopyRun(rw, mem, run) == rw;
    } else {
      var next := prev + 64 * (run.len - Rest(run).len);
      var ps := Fragments(v, run, prev, last, mem);
      assert ps[1..] == Fragments(v, Rest(run), next, last, mem);
      FragmentsReplay(Store(rw, ps[0]), v, Rest(run), next, last, mem);
      StoreHead(rw, run, mem, ps[0]);
    }
  }

  /** Storing the first packet and copying the rest of the run copies the run. */
  lemma StoreHead(rw: seq<Line>, run: Run, mem: seq<Line>, p: Packet)
    requires InMemory(run, |mem|) && |rw| == |mem| && Fits(p, |rw|)
    requires p.line == run.off && p.data == mem[run.off..Rest(run).off]
    ensures CopyRun(Store(rw, p), mem, Rest(run)) == CopyRun(rw, mem, run)
  {
  }

  /** The packets for a whole list; `last` is passed on for the final item only (src/sync.c:66-68). */
  function Stream(v: nat, runs: seq<Run>, prev: nat, last: bool, mem: seq<Line>): seq<Packet>
    requires forall x :: x in runs ==> InMemory(x, |mem|)
  {
    if runs == [] then []
    else
      Fragments(v, runs[0], prev, last && |runs| == 1, mem) +
      Stream(v, runs[1..], prev + 64 * runs[0].len, last, mem)
  }

  function SumLen(runs: seq<Run>): nat {
    if runs == [] then 0 else runs[0].len + SumLen(runs[1..])
  }

  lemma {:induction false} SumLenAppend(a: seq<Run>, b: seq<Run>)
    ensures SumLen(a + b) == SumLen(a) + SumLen(b)
  {
    if a == [] {
      assert a + b == b;
    } else {
      assert (a + b)[1..] == a[1..] + b;
      SumLenAppend(a[1..], b);
    }
  }

  /** Framing of a whole list: the byte count runs on across fragments and items. */
  lemma {:induction false} StreamChained(v: nat, runs: seq<Run>, prev: nat, last: bool, mem: seq<Line>)
    requires forall x :: x in runs ==> InMemory(x, |mem|)
    ensures Chained(Stream(v, runs, prev, last, mem), v, prev, mem)
    ensures TotalBytes(Stream(v, runs, prev, last, mem)) == 64 * SumLen(runs)
    decreases |runs|
  {
    if runs != [] {
      var mark, mid, tail := last && |runs| == 1, prev + 64 * runs[0].len, runs[1..];
      StreamChained(v, tail, mid, last, mem);
      ItemChained(v, runs[0], prev, mark, mem, Stream(v, tail, mid, last, mem));
    }
  }

  lemma ItemChained(v: nat, run: Run, prev: nat, mark: bool, mem: seq<Line>, next: seq<Packet>)
    requires InMemory(run, |mem|) && Chained(next, v, prev + 64 * run.len, mem)
    ensures var first := Fragments(v, run, prev, mark, mem);
            Chained(first + next, v, prev, mem) && TotalBytes(first + next) == 64 * run.len + TotalBytes(next)
  {
    FragmentsChained(v, run, prev, mark, mem);
    ChainedAppend(Fragments(v, run, prev, mark, mem), next, v, prev, mem);
  }

  /** A list of non-empty runs gives packets of which exactly the final one is marked, if any is. */
  lemma {:induction false} StreamLast(v: nat, runs: seq<Run>, prev: nat, last: bool, mem: seq<Line>)
    requires forall x :: x in runs ==> InMemory(x, |mem|) && x.len > 0
    ensures var ps := Stream(v, runs, prev, last, mem);
            LastAtEnd(ps, last) && (runs != [] ==> ps != [])
    decreases |runs|
  {
    if runs != [] {
      var first := Fragments(v, runs[0], prev, last && |runs| == 1, mem);
      FragmentsLast(v, runs[0], prev, last && |runs| == 1, mem);
      StreamLast(v, runs[1..], prev + 64 * runs[0].len, last, mem);
      assert |runs| == 1 ==> first + [] == first;
    }
  }

  /** Replaying the packets of a list copies exactly its runs. */
  lemma {:induction false} StreamReplay(rw: seq<Line>, v: nat, runs: seq<Run>, prev: nat, last: bool, mem: seq<Line>)
    requires |rw| == |mem| && forall x :: x in runs ==> InMemory(x, |mem|)
    ensures var ps := Stream(v, runs, prev, last, mem);
            && (forall p :: p in ps ==> Fits(p, |mem|))
            && Replay(rw, ps) == CopyRuns(rw, mem, runs)
    decreases |runs|
  {
    if runs != [] {
      var first := Fragments(v, runs[0], prev, last && |runs| == 1, mem);
      var next := Stream(v, runs[1..], prev + 64 * runs[0].len, last, mem);
      FragmentsReplay(rw, v, runs[0], prev, last && |runs| == 1, mem);
      StreamReplay(CopyRun(rw, mem, runs[0]), v, runs[1..], prev + 64 * runs[0].len, last, mem);
      ReplayAppend(rw, first, next);
    }
  }

  /** Cutting a stream between two list flushes: the first part carries no `last`. */
  lemma {:induction false} StreamAppend(v: nat, a: seq<Run>, b: seq<Run>, prev: nat, last: bool, mem: seq<Line>)
    requires forall x :: x in a ==> InMemory(x, |mem|)
    requires forall x :: x in b ==> InMemory(x, |mem|)
    requires b != [] || !last
    ensures Stream(v, a + b, prev, last, mem) ==
            Stream(v, a, prev, false, mem) + Stream(v, b, prev + 64 * SumLen(a), last, mem)
    decreases |a|
  {
    hide Fragments;
    if a == [] {
      assert a + b == b;
    } else {
      assert (a + b)[1..] == a[1..] + b && (a + b)[0] == a[0];
      StreamAppend(v, a[1..], b, prev + 64 * a[0].len, last, mem);
    }
  }
}
