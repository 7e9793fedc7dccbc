/** One cooperative internal sync of an area by all threads of a node, over every interleaving
    (src/sync_internal.c:131-133, 149-214). The threads are past the barrier, so RW does not change. A vector is 512
    lines of 64 bytes; offsets and counts of the job are in vectors. What one thread's log walk does to a vector
    and how its sync list is flushed is proved for SyncArea.Area.ParseLog; here taking a vector and copying one
    of the lines taken are single steps that other threads may come between. */
module InternalSync {
  import opened Framing

  const VECTOR: nat := 512
  const ALIGNMENT: nat := 32768

  /** The chunk size in bytes: an eighth of each thread's share, rounded down to whole vectors, at least four. */
  function JobBytes(total: nat, threads: nat): nat
    requires threads > 0
  {
    var share := total / (threads * 8);
    var aligned := share - share % ALIGNMENT;
    if aligned > ALIGNMENT * 4 then aligned else ALIGNMENT * 4
  }

  /** So chunks are whole vectors, and no two chunks share one. */
  lemma JobBytesAligned(total: nat, threads: nat)
    requires threads > 0
    ensures JobBytes(total, threads) % ALIGNMENT == 0 && JobBytes(total, threads) / ALIGNMENT >= 4
    ensures var share, r := total / (threads * 8), JobBytes(total, threads);
            if share <= 4 * ALIGNMENT then r == 4 * ALIGNMENT else share - ALIGNMENT < r <= share
  {
  }

  datatype Pc = Start | Test | Claim | Parse(from: nat, to: nat, pos: nat) | After | Flush | Add | Header

  /** A thread in the job: the vectors it has seen, the lines taken but not yet copied, the bytes copied. */
  datatype Thread = Thread(pc: Pc, writer: bool, seen: nat, todo: set<nat>, copied: nat)

  /** What does not change during the job: its size in vectors, the chunk size, who takes part, RW, and the dirty
      lines, the lines in diff log 0 and the version at the start. */
  datatype Job = Job(vectors: nat, chunk: nat, selfSync: bool, local: bool, rw: seq<Line>,
                     was: set<nat>, logged: set<nat>, before: nat)

  /** The line that an update of the header marks in diff log 0. */
  const HEADER_LINE: nat := 1

  datatype State = State(
    job: Job, ro: seq<Line>, dirty: set<nat>, log0: set<nat>,
    offset: nat, stage1: bool, stage2: bool, bytesSeen: nat, bytesUpdated: nat,
    version: nat, headers: nat,
    threads: seq<Thread>,
    claimed: seq<int>, parsed: seq<bool>)       // history: by whom a vector was claimed, whether it was parsed

  function Put(y: State, t: nat, th: Thread): State
    requires t < |y.threads|
  {
    y.(threads := y.threads[t := th])
  }

  function Go(y: State, t: nat, pc: Pc): State
    requires t < |y.threads|
  {
    Put(y, t, y.threads[t].(pc := pc))
  }

  /** The three early returns, or into the claiming loop. */
  ghost predicate Begin(y: State, z: State, t: nat) {
    && t < |y.threads| && y.threads[t].pc == Start
    && z == if y.stage2 || (y.job.selfSync && !y.threads[t].writer) || y.stage1 then y
            else Put(y, t, Thread(Test, y.threads[t].writer, 0, {}, 0))
  }

  ghost predicate TestStage(y: State, z: State, t: nat) {
    && t < |y.threads| && y.threads[t].pc == Test
    && z == Go(y, t, if y.stage1 then After else Claim)
  }

  /** The atomic fetch-and-add on the offset: a chunk, or nothing left. */
  ghost predicate FetchAdd(y: State, z: State, t: nat) {
    && t < |y.threads| && y.threads[t].pc == Claim && |y.claimed| == y.job.vectors && y.offset < y.job.vectors
    && var to := Min(y.offset + y.job.chunk, y.job.vectors);
       z == Go(y, t, Parse(y.offset, to, y.offset)).(offset := y.offset + y.job.chunk,
           claimed := ClaimBy(y.claimed, y.offset, to, t))
  }

  function ClaimBy(claimed: seq<int>, from: nat, to: nat, t: nat): seq<int> {
    seq(|claimed|, v requires 0 <= v < |claimed| => if from <= v < to then t else claimed[v])
  }

  ghost predicate FetchNothing(y: State, z: State, t: nat) {
    && t < |y.threads| && y.threads[t].pc == Claim && y.offset >= y.job.vectors
    && z == Go(y, t, After).(offset := y.offset + y.job.chunk)
  }

  function VectorOf(line: nat): nat { line / VECTOR }

  function LinesOf(dirty: set<nat>, v: nat): set<nat> {
    set l | l in dirty && VectorOf(l) == v
  }

  /** The log walk takes the dirty lines of one vector, clears their bits and, in a local area, adds them to log 0. */
  ghost predicate ParseVector(y: State, z: State, t: nat) {
    && t < |y.threads| && y.threads[t].pc.Parse?
    && var th, v := y.threads[t], y.threads[t].pc.pos;
       && v < th.pc.to && v < |y.parsed|
       && z == Put(y, t, th.(pc := Parse(th.pc.from, th.pc.to, v + 1), todo := th.todo + LinesOf(y.dirty, v)))
                 .(dirty := y.dirty - LinesOf(y.dirty, v), parsed := y.parsed[v := true], log0 := Grown(y, v))
  }

  function Grown(y: State, v: nat): set<nat> {
    if y.job.local then y.log0 + LinesOf(y.dirty, v) else y.log0
  }

  ghost predicate ChunkDone(y: State, z: State, t: nat) {
    && t < |y.threads| && y.threads[t].pc.Parse?
    && var th := y.threads[t];
       && th.pc.pos == th.pc.to && th.pc.from <= th.pc.to
       && z == Put(y, t, th.(pc := Test, seen := th.seen + (th.pc.to - th.pc.from)))
  }

  /** Copying one of the lines taken, in a flush during the walk or after it. */
  ghost predicate CopyLine(y: State, z: State, t: nat, line: nat) {
    && t < |y.threads| && (y.threads[t].pc.Parse? || y.threads[t].pc == Flush) && line in y.threads[t].todo
    && line < |y.job.rw| == |y.ro|
    && z == Put(y, t, y.threads[t].(todo := y.threads[t].todo - {line}, copied := y.threads[t].copied + 64))
              .(ro := y.ro[line := y.job.rw[line]])
  }

  ghost predicate SawNothing(y: State, z: State, t: nat) {
    t < |y.threads| && y.threads[t].pc == After && y.threads[t].seen == 0 && z == Go(y, t, Start)
  }

  ghost predicate LoopDone(y: State, z: State, t: nat) {
    t < |y.threads| && y.threads[t].pc == After && y.threads[t].seen > 0 && z == Go(y, t, Flush).(stage1 := true)
  }

  ghost predicate AddUpdated(y: State, z: State, t: nat) {
    && t < |y.threads| && y.threads[t].pc == Flush && y.threads[t].todo == {}
    && z == Go(y, t, Add).(bytesUpdated := y.bytesUpdated + y.threads[t].copied)
  }

  /** The atomic fetch-and-add on the bytes seen decides who updates the header. */
  ghost predicate AddSeen(y: State, z: State, t: nat) {
    && t < |y.threads| && y.threads[t].pc == Add
    && var th := y.threads[t];
       z == Put(y, t, th.(pc := if th.seen + y.bytesSeen == y.job.vectors then Header else Start, seen := 0))
              .(bytesSeen := y.bytesSeen + th.seen)
  }

  predicate HasChanges(y: State, t: nat)
    requires t < |y.threads|
  {
    y.threads[t].copied > 0 || y.bytesUpdated > 0
  }

  ghost predicate UpdateHeader(y: State, z: State, t: nat) {
    && t < |y.threads| && y.threads[t].pc == Header
    && z == Go(y, t, Start).(stage2 := true, headers := y.headers + 1,
                             version := if HasChanges(y, t) && y.job.local then y.version + 1 else y.version,
                             log0 := if HasChanges(y, t) && y.job.local then y.log0 + {HEADER_LINE} else y.log0)
  }

  ghost predicate Step(y: State, z: State) {
    exists t :: ThreadStep(y, z, t)
  }

  ghost predicate ThreadStep(y: State, z: State, t: nat) {
    || Begin(y, z, t) || TestStage(y, z, t) || FetchAdd(y, z, t) || FetchNothing(y, z, t) || ParseVector(y, z, t) ||
        ChunkDone(y, z, t)
    || (exists line :: CopyLine(y, z, t, line)) || SawNothing(y, z, t) || LoopDone(y, z, t) || AddUpdated(y, z, t) ||
        AddSeen(y, z, t)
    || UpdateHeader(y, z, t)
  }

  /** A job as it is scheduled: every line whose copies differ is dirty. */
  ghost predicate Init(y: State) {
    && y.job.vectors > 0 && y.job.chunk > 0 && |y.job.rw| == |y.ro| == VECTOR * y.job.vectors
    && (forall l :: l in y.dirty || l in y.log0 ==> l < |y.job.rw|)
    && (forall l :: 0 <= l < |y.job.rw| && y.ro[l] != y.job.rw[l] ==> l in y.dirty)
    && y.offset == y.bytesSeen == y.bytesUpdated == y.headers == 0 && !y.stage1 && !y.stage2
    && y.claimed == seq(y.job.vectors, _ => -1) && y.parsed == seq(y.job.vectors, _ => false)
    && y.job.was == y.dirty && y.job.logged == y.log0 && y.job.before == y.version
    && forall t :: 0 <= t < |y.threads| ==>
          y.threads[t].pc == Start && y.threads[t].seen == y.threads[t].copied == 0 && y.threads[t].todo == {}
  }

  // The invariant.

  /** The vectors a thread has claimed and not yet reported as seen. */
  function Share(th: Thread): nat {
    th.seen + if th.pc.Parse? && th.pc.from <= th.pc.to then th.pc.to - th.pc.from else 0
  }

  function Total(ths: seq<Thread>): nat {
    if ths == [] then 0 else Share(ths[0]) + Total(ths[1..])
  }

  lemma {:induction false} TotalUpdate(ths: seq<Thread>, t: nat, th: Thread)
    requires t < |ths|
    ensures Total(ths[t := th]) == Total(ths) - Share(ths[t]) + Share(th)
  {
    if t == 0 {
      assert ths[t := th][1..] == ths[1..];
    } else {
      assert ths[t := th][1..] == ths[1..][t - 1 := th];
      TotalUpdate(ths[1..], t - 1, th);
    }
  }

  lemma {:induction false} TotalBounds(ths: seq<Thread>, t: nat)
    requires t < |ths|
    ensures Share(ths[t]) <= Total(ths)
  {
    if t > 0 {
      TotalBounds(ths[1..], t - 1);
    }
  }

  lemma {:induction false} TotalNothing(ths: seq<Thread>)
    requires forall t :: 0 <= t < |ths| ==> Share(ths[t]) == 0
    ensures Total(ths) == 0
  {
    if ths != [] {
      TotalNothing(ths[1..]);
    }
  }

  ghost predicate Shape(y: State) {
    && y.job.vectors > 0 && y.job.chunk > 0 && |y.job.rw| == |y.ro| > HEADER_LINE
    && |y.claimed| == |y.parsed| == y.job.vectors
    && (forall l :: 0 <= l < |y.job.rw| ==> VectorOf(l) < y.job.vectors)
    && (forall l :: l in y.job.was || l in y.job.logged ==> l < |y.job.rw|)
    && (y.stage1 ==> y.offset >= y.job.vectors)
    && (y.stage2 <==> y.headers == 1) && y.headers <= 1 && (y.stage2 ==> y.bytesSeen == y.job.vectors)
    && y.bytesSeen + Total(y.threads) == Min(y.offset, y.job.vectors)
    && (y.bytesUpdated > 0 ==> y.job.was != {})
    && y.version == y.job.before + if y.stage2 && y.job.local && y.job.was != {} then 1 else 0
  }

  /** Every vector below the offset is claimed; a claimed vector not yet parsed is ahead of its claimant. */
  ghost predicate Claims(y: State)
    requires Shape(y)
  {
    forall v :: 0 <= v < y.job.vectors ==>
      if v < y.offset then
        && 0 <= y.claimed[v] < |y.threads|
        && (y.parsed[v] || (y.threads[y.claimed[v]].pc.Parse? &&
            y.threads[y.claimed[v]].pc.pos <= v < y.threads[y.claimed[v]].pc.to))
      else y.claimed[v] == -1 && !y.parsed[v]
  }

  /** Where the data of a line are: a line that differs is still dirty or on the list of the thread that took it;
      a dirty line taken and copied has been counted. */
  ghost predicate Tracked(y: State, l: nat)
    requires Shape(y) && Claims(y) && l < |y.job.rw|
  {
    var v := VectorOf(l);
    && (l in y.dirty <==> l in y.job.was && !y.parsed[v])
    && (y.ro[l] != y.job.rw[l] ==> l in y.job.was && (!y.parsed[v] || l in y.threads[y.claimed[v]].todo))
    && (l in y.job.was && y.parsed[v] ==>
          l in y.threads[y.claimed[v]].todo || y.threads[y.claimed[v]].copied > 0 || y.bytesUpdated > 0)
    && (l in y.log0 <==> l in y.job.logged || (y.job.local && ((l in y.job.was && y.parsed[v]) || MarkedHeader(y, l))))
  }

  /** The header has been updated and its line marked. */
  predicate MarkedHeader(y: State, l: nat) {
    l == HEADER_LINE && y.stage2 && y.job.was != {}
  }

  ghost predicate Good(y: State, t: nat)
    requires Shape(y) && t < |y.threads|
  {
    var th := y.threads[t];
    && (forall l :: l in th.todo ==>
           l in y.job.was && l < |y.job.rw| && y.parsed[VectorOf(l)] && y.claimed[VectorOf(l)] == t)
    && (th.copied > 0 ==> y.job.was != {})
    && (th.pc in {Start, Add, Header} ==> th.todo == {} && (th.copied > 0 ==> y.bytesUpdated > 0))
    && (th.pc in {Start, Header} ==> th.seen == 0)
    && (th.pc in {Flush, Add} ==> th.seen > 0)
    && (Share(th) == 0 ==> th.todo == {} && (th.copied > 0 ==> y.bytesUpdated > 0))
    && (th.pc in {After, Flush, Add, Header} ==> y.offset >= y.job.vectors)
    && (th.pc == Header ==> y.bytesSeen == y.job.vectors && y.headers == 0)
    && (th.pc.Parse? ==>
          && th.pc.from <= th.pc.pos <= th.pc.to <= Min(y.offset, y.job.vectors) && th.pc.from < th.pc.to
          && (forall v :: th.pc.from <= v < th.pc.to ==> y.claimed[v] == t)
          && (forall v :: th.pc.from <= v < th.pc.to ==> (y.parsed[v] <==> v < th.pc.pos)))
  }

  ghost predicate OneHeader(y: State) {
    forall t, u :: 0 <= t < |y.threads| && 0 <= u < |y.threads| && y.threads[t].pc == Header == y.threads[u].pc ==>
          t == u
  }

  ghost predicate Inv(y: State) {
    && Shape(y) && Claims(y) && (forall l :: 0 <= l < |y.job.rw| ==> Tracked(y, l))
    && (forall l :: l in y.dirty ==> l in y.job.was) && (forall l :: l in y.log0 ==> l < |y.job.rw|)
    && (forall t :: 0 <= t < |y.threads| ==> Good(y, t)) && OneHeader(y)
  }

  lemma InitInv(y: State)
    requires Init(y)
    ensures Inv(y)
  {
    TotalNothing(y.threads);
  }

  /** Log 0 with the lines that were dirty at the start. */
  function LogAfter(job: Job): set<nat> {
    if job.local then job.logged + job.was else job.logged
  }

  /** When all vectors have been reported as seen, the job is complete: every vector parsed, no line dirty, both
      copies equal, and the count of bytes tells whether anything was dirty. */
  lemma AllSeen(y: State)
    requires Inv(y) && y.bytesSeen == y.job.vectors
    ensures forall v :: 0 <= v < y.job.vectors ==> y.parsed[v]
    ensures y.dirty == {} && y.ro == y.job.rw
    ensures y.bytesUpdated > 0 <==> y.job.was != {}
    ensures !y.stage2 ==> y.log0 == LogAfter(y.job)
    ensures y.stage2 ==> y.log0 == LogAfter(y.job) + if y.job.local && y.job.was != {} then {HEADER_LINE} else {}
  {
    hide VectorOf;
    forall t | 0 <= t < |y.threads| ensures Share(y.threads[t]) == 0 && !y.threads[t].pc.Parse? {
      TotalBounds(y.threads, t);
      assert Good(y, t);
    }
    forall v | 0 <= v < y.job.vectors ensures y.parsed[v] {
    }
    forall l | 0 <= l < |y.job.rw|
      ensures y.ro[l] == y.job.rw[l] && l !in y.dirty && (l in y.job.was ==> y.bytesUpdated > 0)
    {
      assert Tracked(y, l) && y.parsed[VectorOf(l)] && Good(y, y.claimed[VectorOf(l)]);
    }
    LogComplete(y);
  }

  lemma LogComplete(y: State)
    requires Inv(y) && forall v :: 0 <= v < y.job.vectors ==> y.parsed[v]
    ensures y.log0 == LogAfter(y.job) + if y.job.local && y.stage2 && y.job.was != {} then {HEADER_LINE} else {}
  {
    hide VectorOf, Good;
    var all := LogAfter(y.job) + if y.job.local && y.stage2 && y.job.was != {} then {HEADER_LINE} else {};
    forall l: nat ensures l in y.log0 <==> l in all {
      if l < |y.job.rw| {
        assert Tracked(y, l) && y.parsed[VectorOf(l)];
      }
    }
  }

  /** What no step touches. */
  ghost predicate Fixed(y: State, z: State) {
    z.job == y.job && |z.threads| == |y.threads|
  }

  /** All vectors reported means that the header is updated or about to be. */
  ghost predicate Decided(y: State) {
    y.bytesSeen == y.job.vectors ==> y.stage2 || exists t :: 0 <= t < |y.threads| && y.threads[t].pc == Header
  }

  ghost predicate Steady(y: State, z: State, t: nat) {
    && Fixed(y, z) && t < |y.threads| && (forall u :: 0 <= u < |y.threads| && u != t ==> z.threads[u] == y.threads[u])
    && (z.stage2 || (y.threads[t].pc != Header && !y.stage2 &&
                     (z.bytesSeen == y.bytesSeen || z.threads[t].pc == Header || z.bytesSeen != z.job.vectors)))
  }

  lemma DecidedStays(y: State, z: State, t: nat)
    requires Decided(y) && Steady(y, z, t)
    ensures Decided(z)
  {
    if z.bytesSeen == z.job.vectors && !z.stage2 && z.threads[t].pc != Header {
      var u :| 0 <= u < |y.threads| && y.threads[u].pc == Header;
      assert z.threads[u] == y.threads[u];
    }
  }

  /** What any step of thread t leaves alone. */
  ghost predicate Apart(y: State, z: State, t: nat) {
    && z.job == y.job && |z.threads| == |y.threads|
    && y.offset <= z.offset && y.bytesUpdated <= z.bytesUpdated
    && |y.claimed| == |z.claimed| == |y.parsed| == |z.parsed| == y.job.vectors
    && (forall v :: 0 <= v < y.job.vectors ==>
          && (y.claimed[v] != -1 ==> z.claimed[v] == y.claimed[v])
          && (y.parsed[v] ==> z.parsed[v])
          && (z.claimed[v] != t ==> z.parsed[v] == y.parsed[v]))
    && (forall u :: 0 <= u < |y.threads| && u != t ==> z.threads[u] == y.threads[u])
  }

  lemma OthersGood(y: State, z: State, t: nat, u: nat)
    requires Shape(y) && Shape(z) && Apart(y, z, t) && u < |y.threads| && u != t && Good(y, u)
    requires y.threads[u].pc == Header ==> z.bytesSeen == y.bytesSeen && z.headers == y.headers
    ensures Good(z, u)
  {
    hide VectorOf;
  }

  /** A step of thread t that touches neither log nor data. */
  ghost predicate Quiet(y: State, z: State, t: nat) {
    && t < |y.threads| == |z.threads| && Shape(z) && Good(z, t)
    && (z.offset == y.offset || y.job.vectors <= y.offset <= z.offset)
    && z == y.(threads := y.threads[t := z.threads[t]], offset := z.offset, stage1 := z.stage1, stage2 := z.stage2,
               bytesSeen := z.bytesSeen, bytesUpdated := z.bytesUpdated, version := z.version, headers := z.headers,
               log0 := z.log0)
    && (if z.stage2 == y.stage2 then z.log0 == y.log0
        else z.stage2 && z.log0 == if y.job.local && y.job.was != {} then y.log0 + {HEADER_LINE} else y.log0)
    && y.bytesUpdated <= z.bytesUpdated && z.threads[t].todo == y.threads[t].todo
    && (y.threads[t].copied > 0 ==> z.threads[t].copied > 0 || z.bytesUpdated > 0)
    && (y.threads[t].pc.Parse? ==> y.threads[t].pc.pos == y.threads[t].pc.to)
    && (forall u :: 0 <= u < |y.threads| && u != t && y.threads[u].pc == Header ==>
          z.bytesSeen == y.bytesSeen && z.headers == y.headers && z.threads[t].pc != Header)
  }

  lemma QuietInv(y: State, z: State, t: nat)
    requires Inv(y) && Quiet(y, z, t)
    ensures Inv(z)
  {
    QuietClaims(y, z, t);
    assert forall l :: l in z.dirty ==> l in z.job.was;
    assert OneHeader(z);
    forall l | 0 <= l < |z.job.rw| ensures Tracked(z, l) {
      hide Shape, Good;
      assert Tracked(y, l);
    }
    forall u | 0 <= u < |z.threads| ensures Good(z, u) {
      hide Shape, Tracked, Claims;
      if u != t {
        OthersGood(y, z, t, u);
      }
    }
  }

  lemma QuietClaims(y: State, z: State, t: nat)
    requires Inv(y) && Quiet(y, z, t)
    ensures Claims(z) && Apart(y, z, t)
  {
    hide Good, Tracked;
  }

  lemma BeginInv(y: State, z: State, t: nat)
    requires Inv(y) && Begin(y, z, t)
    ensures Inv(z) && Steady(y, z, t)
  {
    assert Good(y, t);
    TotalUpdate(y.threads, t, z.threads[t]);
    TotalBounds(y.threads, t);
    hide Tracked, Claims, VectorOf, Total;
    if z != y { QuietInv(y, z, t); }
  }

  lemma TestStageInv(y: State, z: State, t: nat)
    requires Inv(y) && TestStage(y, z, t)
    ensures Inv(z) && Steady(y, z, t)
  {
    assert Good(y, t);
    TotalUpdate(y.threads, t, z.threads[t]);
    TotalBounds(y.threads, t);
    hide Tracked, Claims, VectorOf, Total;
    QuietInv(y, z, t);
  }

  lemma ChunkDoneInv(y: State, z: State, t: nat)
    requires Inv(y) && ChunkDone(y, z, t)
    ensures Inv(z) && Steady(y, z, t)
  {
    assert Good(y, t);
    TotalUpdate(y.threads, t, z.threads[t]);
    TotalBounds(y.threads, t);
    hide Tracked, Claims, VectorOf, Total;
    QuietInv(y, z, t);
  }

  lemma SawNothingInv(y: State, z: State, t: nat)
    requires Inv(y) && SawNothing(y, z, t)
    ensures Inv(z) && Steady(y, z, t)
  {
    assert Good(y, t);
    TotalUpdate(y.threads, t, z.threads[t]);
    TotalBounds(y.threads, t);
    hide Tracked, Claims, VectorOf, Total;
    QuietInv(y, z, t);
  }

  lemma FetchNothingInv(y: State, z: State, t: nat)
    requires Inv(y) && FetchNothing(y, z, t)
    ensures Inv(z) && Steady(y, z, t)
  {
    assert Good(y, t);
    TotalUpdate(y.threads, t, z.threads[t]);
    TotalBounds(y.threads, t);
    hide Tracked, Claims, VectorOf, Total;
    QuietInv(y, z, t);
  }

  lemma LoopDoneInv(y: State, z: State, t: nat)
    requires Inv(y) && LoopDone(y, z, t)
    ensures Inv(z) && Steady(y, z, t)
  {
    assert Good(y, t);
    TotalUpdate(y.threads, t, z.threads[t]);
    TotalBounds(y.threads, t);
    hide Tracked, Claims, VectorOf, Total;
    QuietInv(y, z, t);
  }

  lemma AddUpdatedInv(y: State, z: State, t: nat)
    requires Inv(y) && AddUpdated(y, z, t)
    ensures Inv(z) && Steady(y, z, t)
  {
    assert Good(y, t);
    TotalUpdate(y.threads, t, z.threads[t]);
    TotalBounds(y.threads, t);
    hide Tracked, Claims, VectorOf, Total;
    QuietInv(y, z, t);
  }

  lemma AddSeenInv(y: State, z: State, t: nat)
    requires Inv(y) && AddSeen(y, z, t)
    ensures Inv(z) && Steady(y, z, t)
  {
    assert Good(y, t);
    TotalUpdate(y.threads, t, z.threads[t]);
    TotalBounds(y.threads, t);
    forall u | 0 <= u < |y.threads| && u != t ensures y.threads[u].pc != Header {
      assert Good(y, u);
    }
    hide Tracked, Claims, VectorOf, Total;
    QuietInv(y, z, t);
  }

  lemma UpdateHeaderInv(y: State, z: State, t: nat)
    requires Inv(y) && UpdateHeader(y, z, t)
    ensures Inv(z) && Steady(y, z, t)
  {
    assert Good(y, t);
    TotalUpdate(y.threads, t, z.threads[t]);
    TotalBounds(y.threads, t);
    AllSeen(y);
    hide Tracked, Claims, VectorOf, Total;
    QuietInv(y, z, t);
  }

  lemma FetchAddClaims(y: State, z: State, t: nat)
    requires Inv(y) && FetchAdd(y, z, t)
    ensures Shape(z) && Claims(z) && Apart(y, z, t)
  {
    assert Good(y, t);
    TotalUpdate(y.threads, t, z.threads[t]);
    hide VectorOf, Tracked, Total;
  }

  lemma FetchAddOwn(y: State, z: State, t: nat)
    requires Inv(y) && FetchAdd(y, z, t) && Shape(z)
    ensures Good(z, t)
  {
    assert Good(y, t);
    hide VectorOf, Tracked, Total;
  }

  lemma FetchAddTracked(y: State, z: State, t: nat, l: nat)
    requires Inv(y) && FetchAdd(y, z, t) && l < |y.job.rw| && Shape(z) && Claims(z) && Good(z, t) && Apart(y, z, t)
    ensures Tracked(z, l)
  {
    assert Tracked(y, l) && Good(y, t);
    hide VectorOf, Total;
  }

  lemma FetchAddInv(y: State, z: State, t: nat)
    requires Inv(y) && FetchAdd(y, z, t)
    ensures Inv(z) && Steady(y, z, t)
  {
    FetchAddClaims(y, z, t);
    FetchAddOwn(y, z, t);
    hide VectorOf, Tracked, Good, Claims;
    forall l | 0 <= l < |z.job.rw| ensures Tracked(z, l) {
      FetchAddTracked(y, z, t, l);
    }
    forall u | 0 <= u < |z.threads| ensures Good(z, u) {
      if u != t {
        OthersGood(y, z, t, u);
      }
    }
  }

  lemma ParseVectorClaims(y: State, z: State, t: nat)
    requires Inv(y) && ParseVector(y, z, t)
    ensures Shape(z) && Claims(z) && Apart(y, z, t)
  {
    assert Good(y, t);
    TotalUpdate(y.threads, t, z.threads[t]);
    hide VectorOf, Tracked, Total;
  }

  lemma ParseVectorOwn(y: State, z: State, t: nat)
    requires Inv(y) && ParseVector(y, z, t) && Shape(z)
    ensures Good(z, t)
  {
    assert Good(y, t);
    hide VectorOf, Tracked, Total;
  }

  lemma ParseVectorTracked(y: State, z: State, t: nat, l: nat)
    requires Inv(y) && ParseVector(y, z, t) && l < |y.job.rw| && Shape(z) && Claims(z) && Good(z, t) && Apart(y, z, t)
    ensures Tracked(z, l)
  {
    assert Tracked(y, l) && Good(y, t);
    hide VectorOf, Total;
  }

  lemma ParseVectorInv(y: State, z: State, t: nat)
    requires Inv(y) && ParseVector(y, z, t)
    ensures Inv(z) && Steady(y, z, t)
  {
    ParseVectorClaims(y, z, t);
    ParseVectorOwn(y, z, t);
    hide VectorOf, Tracked, Good, Claims;
    forall l | 0 <= l < |z.job.rw| ensures Tracked(z, l) {
      ParseVectorTracked(y, z, t, l);
    }
    forall u | 0 <= u < |z.threads| ensures Good(z, u) {
      if u != t {
        OthersGood(y, z, t, u);
      }
    }
  }

  lemma CopyLineClaims(y: State, z: State, t: nat, line: nat)
    requires Inv(y) && CopyLine(y, z, t, line)
    ensures Shape(z) && Claims(z) && Apart(y, z, t) && Good(z, t)
  {
    hide VectorOf, Tracked, Total;
    assert Good(y, t);
    TotalUpdate(y.threads, t, z.threads[t]);
  }

  lemma CopyLineTracked(y: State, z: State, t: nat, line: nat, l: nat)
    requires Inv(y) && CopyLine(y, z, t, line) && l < |y.job.rw| && Shape(z) && Claims(z)
    ensures Tracked(z, l)
  {
    hide VectorOf, Total;
    assert Tracked(y, l) && Good(y, t);
  }

  lemma CopyLineInv(y: State, z: State, t: nat, line: nat)
    requires Inv(y) && CopyLine(y, z, t, line)
    ensures Inv(z) && Steady(y, z, t)
  {
    hide VectorOf, Tracked, Good, Claims;
    CopyLineClaims(y, z, t, line);
    forall l | 0 <= l < |z.job.rw| ensures Tracked(z, l) {
      CopyLineTracked(y, z, t, line, l);
    }
    forall u | 0 <= u < |z.threads| ensures Good(z, u) {
      if u != t {
        OthersGood(y, z, t, u);
      }
    }
  }

  /** Every step keeps the invariant. */
  lemma StepInv(y: State, z: State)
    requires Inv(y) && Step(y, z)
    ensures Inv(z) && Fixed(y, z) && (Decided(y) ==> Decided(z))
  {
    hide Inv, Decided;
    var t :| ThreadStep(y, z, t);
    if Begin(y, z, t) { BeginInv(y, z, t); }
    else if TestStage(y, z, t) { TestStageInv(y, z, t); }
    else if FetchAdd(y, z, t) { FetchAddInv(y, z, t); }
    else if ParseVector(y, z, t) { ParseVectorInv(y, z, t); }
    else if ChunkDone(y, z, t) { ChunkDoneInv(y, z, t); }
    else if line :| CopyLine(y, z, t, line) { CopyLineInv(y, z, t, line); }
    else if FetchNothing(y, z, t) { FetchNothingInv(y, z, t); }
    else if SawNothing(y, z, t) { SawNothingInv(y, z, t); }
    else if LoopDone(y, z, t) { LoopDoneInv(y, z, t); }
    else if AddUpdated(y, z, t) { AddUpdatedInv(y, z, t); }
    else if AddSeen(y, z, t) { AddSeenInv(y, z, t); }
    else { UpdateHeaderInv(y, z, t); }
    if Decided(y) {
      DecidedStays(y, z, t);
    }
  }

  ghost predicate Trace(s: seq<State>) {
    s != [] && Init(s[0]) && forall i :: 0 <= i < |s| - 1 ==> Step(s[i], s[i + 1])
  }

  lemma {:induction false} TraceInv(s: seq<State>, i: nat)
    requires Trace(s) && i < |s|
    ensures Inv(s[i]) && Decided(s[i])
    ensures Fixed(s[0], s[i]) && s[i].job.was == s[0].dirty && s[i].job.before == s[0].version
    ensures s[i].job.logged == s[0].log0
  {
    hide Inv, Step;
    if i == 0 {
      InitInv(s[0]);
    } else {
      hide Init;
      TraceInv(s, i - 1);
      StepInv(s[i - 1], s[i]);
    }
  }

  /** Internal sync under any interleaving: a thread about to update the header is the only one that ever does,
      and at that moment every vector has been parsed, nothing is dirty and RO equals RW. */
  lemma HeaderAtEnd(s: seq<State>, i: nat, t: nat)
    requires Trace(s) && i < |s| && t < |s[i].threads| && s[i].threads[t].pc == Header
    ensures s[i].ro == s[0].job.rw && s[i].dirty == {} && s[i].headers == 0
    ensures forall u :: 0 <= u < |s[i].threads| && s[i].threads[u].pc == Header ==> u == t
    ensures HasChanges(s[i], t) <==> s[0].dirty != {}
    ensures s[i].log0 == if s[0].job.local then s[0].log0 + s[0].dirty else s[0].log0
  {
    TraceInv(s, i);
    hide Trace;
    assert Good(s[i], t);
    AllSeen(s[i]);
  }

  /** A finished job stays finished, with one version published if and only if something was dirty. */
  lemma DoneMeansSynced(s: seq<State>, i: nat)
    requires Trace(s) && i < |s| && s[i].stage2
    ensures s[i].headers == 1 && s[i].ro == s[0].job.rw && s[i].dirty == {}
    ensures s[i].version == s[0].version + if s[0].job.local && s[0].dirty != {} then 1 else 0
    ensures s[i].log0 == if s[0].job.local && s[0].dirty != {} then s[0].log0 + s[0].dirty + {HEADER_LINE}
                         else s[0].log0
  {
    TraceInv(s, i);
    hide Trace;
    AllSeen(s[i]);
  }

  /** No two threads ever hold the same log vector, and a vector about to be parsed has not been parsed. */
  lemma VectorsDisjoint(s: seq<State>, i: nat, t: nat, u: nat, v: nat)
    requires Trace(s) && i < |s| && t < |s[i].threads| && u < |s[i].threads|
    requires s[i].threads[t].pc.Parse? && s[i].threads[t].pc.from <= v < s[i].threads[t].pc.to
    requires s[i].threads[u].pc.Parse? && s[i].threads[u].pc.from <= v < s[i].threads[u].pc.to
    ensures t == u && v < |s[i].parsed| && (v >= s[i].threads[t].pc.pos ==> !s[i].parsed[v])
  {
    TraceInv(s, i);
    hide Trace;
    assert Good(s[i], t) && Good(s[i], u);
    assert s[i].claimed[v] == t;
  }

  /** In a self-synced area only a writer gets past the first test, so only writers claim vectors. */
  ghost predicate ByWriters(y: State) {
    y.job.selfSync ==>
      && (forall t :: 0 <= t < |y.threads| && y.threads[t].pc != Start ==> y.threads[t].writer)
      && forall v :: 0 <= v < |y.claimed| && y.claimed[v] >= 0 ==>
           y.claimed[v] < |y.threads| && y.threads[y.claimed[v]].writer
  }

  /** Who is a writer never changes. */
  predicate SameWriters(y: State, z: State) {
    |y.threads| == |z.threads| && forall t :: 0 <= t < |y.threads| ==> y.threads[t].writer == z.threads[t].writer
  }

  /** A step of thread t leaves the other threads alone and claims vectors for nobody else. */
  ghost predicate OnlyOwn(y: State, z: State, t: nat) {
    && t < |y.threads| == |z.threads| && z.threads == y.threads[t := z.threads[t]]
    && z.threads[t].writer == y.threads[t].writer && |z.claimed| == |y.claimed|
    && (z.threads[t].pc != Start ==> y.threads[t].pc != Start || !y.job.selfSync || y.threads[t].writer)
    && forall v :: 0 <= v < |z.claimed| ==>
         z.claimed[v] == y.claimed[v] || (z.claimed[v] == t && y.threads[t].pc != Start)
  }

  lemma CopyOwn(y: State, z: State, t: nat, line: nat)
    requires CopyLine(y, z, t, line)
    ensures OnlyOwn(y, z, t)
  {
  }

  lemma FetchOwn(y: State, z: State, t: nat)
    requires FetchAdd(y, z, t) || FetchNothing(y, z, t)
    ensures OnlyOwn(y, z, t)
  {
  }

  lemma ParseOwn(y: State, z: State, t: nat)
    requires ParseVector(y, z, t) || ChunkDone(y, z, t) || TestStage(y, z, t) || Begin(y, z, t)
    ensures OnlyOwn(y, z, t)
  {
    hide LinesOf, Grown;
  }

  lemma EndOwn(y: State, z: State, t: nat)
    requires || SawNothing(y, z, t) || LoopDone(y, z, t) || AddUpdated(y, z, t) || AddSeen(y, z, t)
             || UpdateHeader(y, z, t)
    ensures OnlyOwn(y, z, t)
  {
  }

  lemma StepOwn(y: State, z: State, t: nat)
    requires ThreadStep(y, z, t)
    ensures OnlyOwn(y, z, t)
  {
    hide Begin, TestStage, FetchAdd, FetchNothing, ParseVector, ChunkDone, CopyLine, SawNothing, LoopDone, AddUpdated;
    hide AddSeen, UpdateHeader, OnlyOwn;
    if line :| CopyLine(y, z, t, line) {
      CopyOwn(y, z, t, line);
    } else if FetchAdd(y, z, t) || FetchNothing(y, z, t) {
      FetchOwn(y, z, t);
    } else if ParseVector(y, z, t) || ChunkDone(y, z, t) || TestStage(y, z, t) || Begin(y, z, t) {
      ParseOwn(y, z, t);
    } else {
      EndOwn(y, z, t);
    }
  }

  lemma StepByWriters(y: State, z: State)
    requires ByWriters(y) && Step(y, z) && z.job == y.job
    ensures ByWriters(z) && SameWriters(y, z)
  {
    hide ThreadStep;
    var t :| ThreadStep(y, z, t);
    StepOwn(y, z, t);
  }

  /** In every interleaving of a sync in which the area's writer works alone, every vector claimed is claimed by a
      thread that was a writer from the start. */
  lemma {:induction false} OnlyWritersClaim(s: seq<State>, i: nat, v: nat)
    requires Trace(s) && i < |s| && s[0].job.selfSync
    ensures ByWriters(s[i]) && SameWriters(s[0], s[i]) && s[i].job == s[0].job
    ensures v < |s[i].claimed| && s[i].claimed[v] >= 0 ==>
              s[i].claimed[v] < |s[0].threads| && s[0].threads[s[i].claimed[v]].writer
    decreases i
  {
    hide Step, Inv, Decided;
    if i == 0 {
      assert Init(s[0]);
    } else {
      hide Init;
      OnlyWritersClaim(s, i - 1, v);
      TraceInv(s, i);
      StepByWriters(s[i - 1], s[i]);
    }
  }

  /** Some step of thread t changes the state. */
  ghost predicate CanMove(y: State, t: nat) {
    exists z :: ThreadStep(y, z, t) && z != y
  }

  lemma BusyMoves(y: State, t: nat)
    requires Inv(y) && t < |y.threads| && y.threads[t].pc != Start
    ensures CanMove(y, t)
  {
    hide Tracked, Claims, VectorOf, Total, CanMove, ThreadStep;
    assert Good(y, t);
    var th := y.threads[t];
    match th.pc
    case Start =>
    case Test => StepMoves(y, Go(y, t, if y.stage1 then After else Claim), t);
    case Claim => ClaimMoves(y, t);
    case Parse(from, to, v) => ParseMoves(y, t);
    case After => StepMoves(y, if th.seen == 0 then Go(y, t, Start) else Go(y, t, Flush).(stage1 := true), t);
    case Flush => FlushMoves(y, t);
    case Add =>
      StepMoves(y, Put(y, t, th.(pc := if th.seen + y.bytesSeen == y.job.vectors then Header else Start, seen := 0))
                     .(bytesSeen := y.bytesSeen + th.seen), t);
    case Header =>
      StepMoves(y, Go(y, t, Start).(stage2 := true, headers := y.headers + 1,
                                    version := if HasChanges(y, t) && y.job.local then y.version + 1 else y.version,
                                    log0 := if HasChanges(y, t) && y.job.local then y.log0 + {HEADER_LINE}
                                      else y.log0), t);
  }

  lemma ClaimMoves(y: State, t: nat)
    requires t < |y.threads| && y.threads[t].pc == Claim && |y.claimed| == y.job.vectors
    ensures CanMove(y, t)
  {
    if y.offset < y.job.vectors {
      var to := Min(y.offset + y.job.chunk, y.job.vectors);
      StepMoves(y, Go(y, t, Parse(y.offset, to, y.offset)).(offset := y.offset + y.job.chunk,
          claimed := ClaimBy(y.claimed, y.offset, to, t)), t);
    } else {
      StepMoves(y, Go(y, t, After).(offset := y.offset + y.job.chunk), t);
    }
  }

  lemma ParseMoves(y: State, t: nat)
    requires t < |y.threads| && y.threads[t].pc.Parse?
    requires y.threads[t].pc.from <= y.threads[t].pc.pos <= y.threads[t].pc.to <= |y.parsed|
    ensures CanMove(y, t)
  {
    var th, v := y.threads[t], y.threads[t].pc.pos;
    if v < th.pc.to {
      StepMoves(y, Put(y, t, th.(pc := Parse(th.pc.from, th.pc.to, v + 1), todo := th.todo + LinesOf(y.dirty, v)))
                     .(dirty := y.dirty - LinesOf(y.dirty, v), parsed := y.parsed[v := true], log0 := Grown(y, v)), t);
    } else {
      StepMoves(y, Put(y, t, th.(pc := Test, seen := th.seen + (th.pc.to - th.pc.from))), t);
    }
  }

  lemma FlushMoves(y: State, t: nat)
    requires t < |y.threads| && y.threads[t].pc == Flush && |y.job.rw| == |y.ro|
    requires forall l :: l in y.threads[t].todo ==> l < |y.ro|
    ensures CanMove(y, t)
  {
    var th := y.threads[t];
    if line :| line in th.todo {
      var z := Put(y, t, th.(todo := th.todo - {line}, copied := th.copied + 64)).(ro := y.ro[line := y.job.rw[line]]);
      assert CopyLine(y, z, t, line);
      StepMoves(y, z, t);
    } else {
      StepMoves(y, Go(y, t, Add).(bytesUpdated := y.bytesUpdated + th.copied), t);
    }
  }

  lemma StepMoves(y: State, z: State, t: nat)
    requires t < |y.threads| == |z.threads| && z.threads[t] != y.threads[t]
    requires || Begin(y, z, t) || TestStage(y, z, t) || FetchAdd(y, z, t) || FetchNothing(y, z, t) ||
        ParseVector(y, z, t) || ChunkDone(y, z, t)
             || (exists line :: CopyLine(y, z, t, line)) || SawNothing(y, z, t) || LoopDone(y, z, t) ||
                 AddUpdated(y, z, t) || AddSeen(y, z, t)
             || UpdateHeader(y, z, t)
    ensures CanMove(y, t)
  {
    hide Begin, TestStage, FetchAdd, FetchNothing, ParseVector, ChunkDone, CopyLine, SawNothing, LoopDone, AddUpdated;
    hide AddSeen, UpdateHeader;
    assert ThreadStep(y, z, t);
  }

  /** No interleaving gets stuck before the header is updated: as long as some thread may take part, some thread
      can move. */
  lemma NeverStuck(s: seq<State>, i: nat, e: nat) returns (t: nat)
    requires Trace(s) && i < |s| && !s[i].stage2
    requires e < |s[i].threads| && (!s[i].job.selfSync || s[i].threads[e].writer)
    ensures t < |s[i].threads| && CanMove(s[i], t)
  {
    hide Trace, Tracked, Claims, VectorOf, CanMove;
    var y := s[i];
    TraceInv(s, i);
    if u :| 0 <= u < |y.threads| && y.threads[u].pc != Start {
      t := u;
      BusyMoves(y, u);
    } else {
      t := e;
      forall u | 0 <= u < |y.threads| ensures Share(y.threads[u]) == 0 {
        assert Good(y, u);
      }
      TotalNothing(y.threads);
      StepMoves(y, Put(y, e, Thread(Test, y.threads[e].writer, 0, {}, 0)), e);
    }
  }
}
