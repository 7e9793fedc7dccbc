/** The timed barrier before an internal sync, over any number of rounds (src/sync_internal.c:135-144, 247-278,
    280-296, 331-352). Threads take steps in any order; the steps are the atomic accesses of the source. Rounds are
    numbered; `start[q]` is the sequence number the daemon draws for round q. Thread 0 is the daemon. */
module Barrier {

  datatype Outcome = Open | Passed | Failed

  /** Where a thread is: outside, with its sequence number loaded, past the check, about to try the final
      compare-and-swap, in the waiting loop, or with a verdict. */
  datatype Pc = Outside | Loaded(q: nat) | Checked(q: nat) | Last(q: nat) | Waiting(q: nat) | Done(q: nat, ok: bool)

  /** next and prev are the thread's next_sync_seq and prev_sync_seq, as round numbers. */
  datatype Thread = Thread(pc: Pc, next: nat, prev: nat)

  datatype State = State(
    value: nat,                          // barrier_seq
    cnt: int,                            // barrier_cnt
    threads: seq<Thread>,
    start: seq<nat>, outcome: seq<Outcome>,          // history, by round
    counted: seq<set<nat>>, arrived: seq<set<nat>>,  // history, by round
    verdicts: set<(nat, nat, bool)>)                 // history: (thread, round, verdict)

  function Now(y: State): nat { if y.start == [] then 0 else |y.start| - 1 }

  function At(y: State, t: nat, pc: Pc): State
    requires t < |y.threads|
  {
    y.(threads := y.threads[t := y.threads[t].(pc := pc)])
  }

  function Verdict(y: State, t: nat, q: nat, ok: bool): State
    requires t < |y.threads|
  {
    At(y, t, Done(q, ok)).(verdicts := y.verdicts + {(t, q, ok)})
  }

  /** The distance as the source computes it: a difference of 64-bit numbers cut to 32 bits. */
  function Diff(value: nat, seqno: nat): int { (value - seqno) % 0x1_0000_0000 }

  // The steps of a thread.

  ghost predicate Enter(y: State, z: State, t: nat) {
    && t < |y.threads| && y.threads[t].pc == Outside && y.threads[t].next != y.threads[t].prev
    && z == At(y, t, Loaded(y.threads[t].next))
  }

  ghost predicate Check(y: State, z: State, t: nat) {
    && t < |y.threads| && y.threads[t].pc.Loaded?
    && var q := y.threads[t].pc.q;
       && q < |y.start|
       && z == if y.value != y.start[q] then Verdict(y, t, q, false) else At(y, t, Checked(q))
  }

  /** Fetch-and-decrement; the thread that takes the count from one to zero is the last. */
  ghost predicate Arrive(y: State, z: State, t: nat) {
    && t < |y.threads| && y.threads[t].pc.Checked? && y.arrived != []
    && var q, r := y.threads[t].pc.q, |y.arrived| - 1;
       z == At(y, t, if y.cnt == 1 then Last(q) else Waiting(q))
              .(cnt := y.cnt - 1, arrived := y.arrived[r := y.arrived[r] + {t}])
  }

  /** The strong compare-and-swap of the last thread. */
  ghost predicate Finalize(y: State, z: State, t: nat) {
    && t < |y.threads| && y.threads[t].pc.Last? && |y.outcome| == |y.start| > 0
    && var q := y.threads[t].pc.q;
       && q < |y.start|
       && z == if y.value == y.start[q]
               then Verdict(y, t, q, true).(value := y.start[q] + 1, outcome := y.outcome[|y.start| - 1 := Passed])
               else Verdict(y, t, q, false)
  }

  /** The waiting loop reads the sequence number; a changed one ends the wait. */
  ghost predicate Look(y: State, z: State, t: nat) {
    && t < |y.threads| && y.threads[t].pc.Waiting?
    && var q := y.threads[t].pc.q;
       && q < |y.start|
       && z == if Diff(y.value, y.start[q]) == 0 then y else Verdict(y, t, q, Diff(y.value, y.start[q]) == 1)
  }

  /** Past the deadline, the weak compare-and-swap may fail even if the number has not changed. */
  ghost predicate TimeOut(y: State, z: State, t: nat, spurious: bool) {
    && t < |y.threads| && y.threads[t].pc.Waiting? && |y.outcome| == |y.start| > 0
    && var q := y.threads[t].pc.q;
       && q < |y.start|
       && z == if y.value == y.start[q] && !spurious
               then Verdict(y, t, q, false).(value := y.start[q] + 2, outcome := y.outcome[|y.start| - 1 := Failed])
               else y
  }

  /** Back in the service loop: prev_sync_seq takes whatever next_sync_seq is by now. */
  ghost predicate Leave(y: State, z: State, t: nat) {
    && t < |y.threads| && y.threads[t].pc.Done?
    && z == y.(threads := y.threads[t := Thread(Outside, y.threads[t].next, y.threads[t].next)])
  }

  /** The daemon starts a round for the running threads `who`, with a fresh sequence number. It does so only
      from its service loop, after a successful round only when all threads are through with it. Assumed:
      nobody sits between check and decrement, and the numbers are so far apart that a thread still waiting
      for an older round cannot mistake the new number for its own. */
  ghost predicate NewRound(y: State, z: State, who: set<nat>, seqno: nat) {
    && |y.threads| > 0 && y.threads[0].pc == Outside && y.threads[0].next == y.threads[0].prev
    && |y.outcome| == |y.start| == |y.counted| > 0
    && (y.outcome[|y.start| - 1] == Passed ==>
          forall t :: t in y.counted[|y.start| - 1] && t < |y.threads| ==>
            y.threads[t].pc == Outside && y.threads[t].next == y.threads[t].prev)
    && (forall t :: 0 <= t < |y.threads| ==> !y.threads[t].pc.Checked?)
    && seqno > y.value && seqno > y.start[|y.start| - 1] + 2
    && (forall t :: 0 <= t < |y.threads| && y.threads[t].pc.Waiting? ==>
          y.threads[t].pc.q < |y.start| && FarApart(seqno, y.start[y.threads[t].pc.q]))
    && 0 in who && (forall t :: t in who ==> t < |y.threads|)
    && |z.threads| == |y.threads|
    && z == y.(value := seqno, cnt := |who|, threads := z.threads,
               start := y.start + [seqno], outcome := y.outcome + [Open],
               counted := y.counted + [who], arrived := y.arrived + [{}])
    && forall t :: 0 <= t < |y.threads| ==>
         z.threads[t] == if t in who then y.threads[t].(next := |y.start|) else y.threads[t]
  }

  /** None of the three values of a round is mistaken for the start of the earlier one, or for its success. */
  predicate FarApart(later: nat, earlier: nat) {
    2 <= Diff(later, earlier) < 0xFFFF_FFFE
  }

  ghost predicate ThreadStep(y: State, z: State, t: nat) {
    || Enter(y, z, t) || Check(y, z, t) || Arrive(y, z, t) || Finalize(y, z, t) || Look(y, z, t)
    || TimeOut(y, z, t, true) || TimeOut(y, z, t, false) || Leave(y, z, t)
  }

  ghost predicate Step(y: State, z: State) {
    (exists t :: ThreadStep(y, z, t)) || (exists who, seqno :: NewRound(y, z, who, seqno))
  }

  /** Before the first round; number 0 stands for it and counts as failed. */
  ghost predicate Init(y: State) {
    && |y.threads| > 0 && y.start == [0] && y.outcome == [Failed] && y.value == 2
    && y.verdicts == {} && y.counted == [{}] && y.arrived == [{}] && y.cnt == 0
    && forall t :: 0 <= t < |y.threads| ==> y.threads[t] == Thread(Outside, 0, 0)
  }

  // The invariant.

  function Offset(o: Outcome): nat {
    match o case Open => 0 case Passed => 1 case Failed => 2
  }

  ghost predicate Rounds(y: State) {
    && |y.threads| > 0 && |y.start| == |y.outcome| == |y.counted| == |y.arrived| > 0
    && (forall i, j :: 0 <= i < j < |y.start| ==> y.start[i] + 2 < y.start[j])
    && (forall q :: 0 <= q < |y.start| - 1 ==> y.outcome[q] != Open)
    && (forall q :: 0 <= q < |y.start| ==>
           y.arrived[q] <= y.counted[q] && (y.outcome[q] == Passed ==> y.arrived[q] == y.counted[q]))
    && y.value == y.start[Now(y)] + Offset(y.outcome[Now(y)])
    && y.cnt == |y.counted[Now(y)]| - |y.arrived[Now(y)]|
    && (forall t :: t in y.counted[Now(y)] ==> t < |y.threads|)
    && (y.outcome[Now(y)] == Open ==> y.threads[0].prev < Now(y))
  }

  /** What a thread's place says about rounds. */
  ghost predicate Placed(y: State, t: nat)
    requires Rounds(y) && t < |y.threads|
  {
    var th, now := y.threads[t], Now(y);
    && th.prev <= th.next <= now
    && (now > 0 && th.next == now ==> t in y.counted[now])
    && (t in y.arrived[now] ==>
           th.next == now && (th.prev == now || th.pc in {Waiting(now), Last(now), Done(now, true), Done(now, false)}))
    && (!th.pc.Outside? ==> th.prev < th.pc.q <= th.next)
    && (t == 0 ==> th.next == now && (!th.pc.Outside? ==> th.pc.q == now))
    && match th.pc
       case Outside => th.prev < th.next < now ==> y.outcome[th.next] == Failed
       case Loaded(q) => q < now ==> y.outcome[q] == Failed
       case Checked(q) => q == now
       case Last(q) => if q < now then y.outcome[q] == Failed
         else t in y.arrived[q] && y.arrived[q] == y.counted[q] && y.outcome[q] != Passed
       case Waiting(q) => if q < now then y.outcome[q] == Failed && FarApart(y.start[now], y.start[q])
         else t in y.arrived[q]
       case Done(q, ok) => y.outcome[q] == if ok then Passed else Failed
  }

  ghost predicate OneLast(y: State) {
    forall t, u ::
      (0 <= t < |y.threads| && 0 <= u < |y.threads| && y.threads[t].pc == Last(Now(y)) == y.threads[u].pc) ==> t == u
  }

  /** A round that everybody has reached and nobody has decided is about to be decided by its last thread. */
  ghost predicate Decidable(y: State)
    requires Rounds(y)
  {
    y.outcome[Now(y)] == Open && y.arrived[Now(y)] == y.counted[Now(y)] ==>
      exists t :: 0 <= t < |y.threads| && y.threads[t].pc == Last(Now(y))
  }

  ghost predicate VerdictsRight(y: State)
    requires Rounds(y)
  {
    forall t, q, ok :: (t, q, ok) in y.verdicts ==> q < |y.start| && y.outcome[q] == if ok then Passed else Failed
  }

  ghost predicate Inv(y: State) {
    && Rounds(y) && (forall t :: 0 <= t < |y.threads| ==> Placed(y, t)) && OneLast(y) && Decidable(y)
    && VerdictsRight(y)
  }

  lemma InitInv(y: State)
    requires Init(y)
    ensures Inv(y)
  {
  }

  /** A step of a thread that neither is nor becomes the last one leaves the last one alone. */
  lemma LastStays(y: State, z: State, t: nat)
    requires Inv(y) && Rounds(z) && t < |y.threads| && y.threads[t].pc != Last(Now(y))
    requires z.start == y.start && z.outcome == y.outcome && z.arrived == y.arrived && z.counted == y.counted
    requires exists th :: z.threads == y.threads[t := th] && th.pc != Last(Now(y))
    ensures OneLast(z) && Decidable(z)
  {
    if y.outcome[Now(y)] == Open && y.arrived[Now(y)] == y.counted[Now(y)] {
      var u :| 0 <= u < |y.threads| && y.threads[u].pc == Last(Now(y));
      assert z.threads[u] == y.threads[u];
    }
  }

  lemma EnterInv(y: State, z: State, t: nat)
    requires Inv(y) && Enter(y, z, t)
    ensures Inv(z)
  {
    assert Placed(y, t);
    assert Rounds(z);
    assert z.threads == y.threads[t := z.threads[t]];
    LastStays(y, z, t);
    forall u | 0 <= u < |z.threads| ensures Placed(z, u) { assert Placed(y, u); }
  }

  lemma CheckInv(y: State, z: State, t: nat)
    requires Inv(y) && Check(y, z, t)
    ensures Inv(z)
  {
    hide Diff;
    assert Placed(y, t);
    assert Rounds(z);
    assert z.threads == y.threads[t := z.threads[t]];
    LastStays(y, z, t);
    forall u | 0 <= u < |z.threads| ensures Placed(z, u) { assert Placed(y, u); }
  }

  lemma SubsetEqual(a: set<nat>, b: set<nat>)
    requires a <= b && |a| == |b|
    ensures a == b
  {
    assert b == (b - a) + a;
    assert |b - a| == 0;
  }

  lemma ArriveInv(y: State, z: State, t: nat)
    requires Inv(y) && Arrive(y, z, t)
    ensures Inv(z)
  {
    var now := Now(y);
    assert Placed(y, t);
    assert t in y.counted[now] && t !in y.arrived[now];
    assert Rounds(z);
    if y.cnt == 1 {
      SubsetEqual(z.arrived[now], z.counted[now]);
    }
    forall u | 0 <= u < |z.threads|
      ensures Placed(z, u) && (u != t ==> z.threads[u].pc != Last(now))
    {
      assert Placed(y, u);
    }
    assert z.threads[t].pc == Last(now) <==> y.cnt == 1;
  }

  lemma FinalizeInv(y: State, z: State, t: nat)
    requires Inv(y) && Finalize(y, z, t)
    ensures Inv(z)
  {
    hide Diff;
    assert Placed(y, t);
    assert Rounds(z);
    if y.threads[t].pc.q < Now(y) {
      assert z.threads == y.threads[t := z.threads[t]];
      LastStays(y, z, t);
    }
    forall u | 0 <= u < |z.threads| ensures Placed(z, u) { assert Placed(y, u); }
  }

  /** What a waiting thread reads tells it how its round ended, even if newer rounds have begun. */
  lemma LookTells(y: State, t: nat)
    requires Inv(y) && t < |y.threads| && y.threads[t].pc.Waiting?
    ensures var q := y.threads[t].pc.q;
            && q < |y.start| == |y.outcome|
            && (Diff(y.value, y.start[q]) == 0 <==> y.outcome[q] == Open)
            && (Diff(y.value, y.start[q]) == 1 <==> y.outcome[q] == Passed)
  {
    assert Placed(y, t);
  }

  lemma LookInv(y: State, z: State, t: nat)
    requires Inv(y) && Look(y, z, t)
    ensures Inv(z)
  {
    LookTells(y, t);
    hide Diff;
    assert Placed(y, t);
    assert Rounds(z);
    if z != y {
      assert z.threads == y.threads[t := z.threads[t]];
      LastStays(y, z, t);
    }
    forall u | 0 <= u < |z.threads| ensures Placed(z, u) { assert Placed(y, u); }
  }

  lemma TimeOutInv(y: State, z: State, t: nat, spurious: bool)
    requires Inv(y) && TimeOut(y, z, t, spurious)
    ensures Inv(z)
  {
    hide Diff;
    assert Placed(y, t);
    assert Rounds(z);
    forall u | 0 <= u < |z.threads| ensures Placed(z, u) { assert Placed(y, u); }
  }

  lemma LeaveInv(y: State, z: State, t: nat)
    requires Inv(y) && Leave(y, z, t)
    ensures Inv(z)
  {
    assert Placed(y, t);
    assert Rounds(z);
    assert z.threads == y.threads[t := z.threads[t]];
    LastStays(y, z, t);
    forall u | 0 <= u < |z.threads| ensures Placed(z, u) { assert Placed(y, u); }
  }

  lemma NewRoundInv(y: State, z: State, who: set<nat>, seqno: nat)
    requires Inv(y) && NewRound(y, z, who, seqno)
    ensures Inv(z)
  {
    hide Diff;
    assert Placed(y, 0);
    assert Rounds(z);
    forall u | 0 <= u < |z.threads| ensures Placed(z, u) && z.threads[u].pc != Last(Now(z)) {
      assert Placed(y, u);
    }
    assert z.arrived[Now(z)] == {} && 0 in z.counted[Now(z)];
  }

  /** Every step keeps the invariant. */
  lemma StepInv(y: State, z: State)
    requires Inv(y) && Step(y, z)
    ensures Inv(z)
  {
    hide Inv;
    if t :| ThreadStep(y, z, t) {
      if Enter(y, z, t) { EnterInv(y, z, t); }
      else if Check(y, z, t) { CheckInv(y, z, t); }
      else if Arrive(y, z, t) { ArriveInv(y, z, t); }
      else if Finalize(y, z, t) { FinalizeInv(y, z, t); }
      else if Look(y, z, t) { LookInv(y, z, t); }
      else if TimeOut(y, z, t, true) { TimeOutInv(y, z, t, true); }
      else if TimeOut(y, z, t, false) { TimeOutInv(y, z, t, false); }
      else { LeaveInv(y, z, t); }
    } else {
      var who, seqno :| NewRound(y, z, who, seqno);
      NewRoundInv(y, z, who, seqno);
    }
  }

  /** Rounds are only added, keep their number and their threads, and once decided stay as decided; the sequence
      number leaves the start of the round only together with the decision. */
  ghost predicate Forward(y: State, z: State) {
    && y.start <= z.start && |y.outcome| == |y.start| <= |z.outcome| && y.counted <= z.counted
    && y.verdicts <= z.verdicts
    && forall q :: 0 <= q < |y.start| && y.outcome[q] != Open ==> z.outcome[q] == y.outcome[q]
  }

  lemma StepForward(y: State, z: State)
    requires Inv(y) && Step(y, z)
    ensures Forward(y, z)
    ensures Now(z) == Now(y) && z.value != y.value ==>
              y.value == y.start[Now(y)] && (z.value == y.value + 1 || z.value == y.value + 2)
  {
    if t :| ThreadStep(y, z, t) {
      ThreadForward(y, z, t);
    } else {
      hide ThreadStep, Inv;
    }
  }

  lemma ThreadForward(y: State, z: State, t: nat)
    requires Inv(y) && ThreadStep(y, z, t)
    ensures Forward(y, z) && Now(z) == Now(y)
    ensures z.value != y.value ==> y.value == y.start[Now(y)] && (z.value == y.value + 1 || z.value == y.value + 2)
  {
    hide Forward, Inv, Enter, Check, Arrive, Look, Leave;
    if Finalize(y, z, t) {
      FinalizeForward(y, z, t);
    } else if TimeOut(y, z, t, true) {
      TimeOutForward(y, z, t, true);
    } else if TimeOut(y, z, t, false) {
      TimeOutForward(y, z, t, false);
    } else {
      SilentForward(y, z, t);
    }
  }

  lemma FinalizeForward(y: State, z: State, t: nat)
    requires Inv(y) && Finalize(y, z, t)
    ensures Forward(y, z) && Now(z) == Now(y)
    ensures z.value != y.value ==> y.value == y.start[Now(y)] && z.value == y.value + 1
  {
    hide Diff, OneLast, Decidable, VerdictsRight;
    assert Placed(y, t);
  }

  lemma TimeOutForward(y: State, z: State, t: nat, spurious: bool)
    requires Inv(y) && TimeOut(y, z, t, spurious)
    ensures Forward(y, z) && Now(z) == Now(y)
    ensures z.value != y.value ==> y.value == y.start[Now(y)] && z.value == y.value + 2
  {
    hide Diff, OneLast, Decidable, VerdictsRight;
    assert Placed(y, t);
  }

  lemma SilentForward(y: State, z: State, t: nat)
    requires Inv(y) && (Enter(y, z, t) || Check(y, z, t) || Arrive(y, z, t) || Look(y, z, t) || Leave(y, z, t))
    ensures Forward(y, z) && Now(z) == Now(y) && z.value == y.value
  {
    hide Diff, OneLast, Decidable, VerdictsRight, Placed;
  }

  lemma SelfForward(y: State)
    requires Inv(y)
    ensures Forward(y, y)
  {
  }

  lemma ForwardTrans(x: State, y: State, z: State)
    requires Forward(x, y) && Forward(y, z)
    ensures Forward(x, z)
  {
  }

  ghost predicate Trace(s: seq<State>) {
    s != [] && Init(s[0]) && forall i :: 0 <= i < |s| - 1 ==> Step(s[i], s[i + 1])
  }

  lemma {:induction false} TraceInv(s: seq<State>, i: nat)
    requires Trace(s) && i < |s|
    ensures Inv(s[i])
  {
    hide Inv, Step, Init;
    if i == 0 {
      InitInv(s[0]);
    } else {
      TraceInv(s, i - 1);
      StepInv(s[i - 1], s[i]);
    }
  }

  lemma {:induction false} TraceForward(s: seq<State>, i: nat, j: nat)
    requires Trace(s) && i <= j < |s|
    ensures Forward(s[i], s[j])
    decreases j
  {
    hide Step, Init, Forward, Inv;
    if i == j {
      TraceInv(s, i);
      SelfForward(s[i]);
    } else {
      TraceForward(s, i, j - 1);
      TraceInv(s, j - 1);
      StepForward(s[j - 1], s[j]);
      ForwardTrans(s[i], s[j - 1], s[j]);
    }
  }

  /** Barrier agreement, over whole runs: verdicts for the same round agree, whenever and by whomever they are
      returned, and a true one means that every thread counted for the round has arrived. */
  lemma Agreement(s: seq<State>, i: nat, j: nat, t: nat, u: nat, q: nat, a: bool, b: bool)
    requires Trace(s) && i <= j < |s| && (t, q, a) in s[i].verdicts && (u, q, b) in s[j].verdicts
    ensures a == b
    ensures q < |s[i].counted| == |s[i].arrived| && (a ==> s[i].arrived[q] == s[i].counted[q])
  {
    TraceInv(s, i);
    TraceInv(s, j);
    TraceForward(s, i, j);
    hide Trace;
  }

  /** The number leaves the start of a round exactly once, by one or by two: in every state of a run it is the
      start plus the decision of the current round, and decisions never change. */
  lemma LeavesOnce(s: seq<State>, i: nat, j: nat)
    requires Trace(s) && i <= j < |s| && Now(s[i]) == Now(s[j])
    ensures var q := Now(s[i]);
            && q < |s[i].start| && q < |s[j].start| && s[i].start[q] == s[j].start[q]
            && s[i].start[q] <= s[i].value <= s[i].start[q] + 2
            && (s[i].value != s[i].start[q] ==> s[j].value == s[i].value)
  {
    TraceInv(s, i);
    TraceInv(s, j);
    TraceForward(s, i, j);
    hide Trace;
  }

  /** No run gets stuck: a round that all its threads have reached is open only as long as its last thread has
      not taken its step, and that step makes it pass. */
  lemma AllArrivedPasses(s: seq<State>, i: nat) returns (t: nat)
    requires Trace(s) && i < |s| && |s[i].outcome| == |s[i].counted| == |s[i].arrived| > Now(s[i])
    requires s[i].outcome[Now(s[i])] == Open && s[i].arrived[Now(s[i])] == s[i].counted[Now(s[i])]
    ensures t < |s[i].threads| && s[i].threads[t].pc == Last(Now(s[i]))
    ensures forall z :: Finalize(s[i], z, t) ==> (t, Now(s[i]), true) in z.verdicts
  {
    TraceInv(s, i);
    hide Trace;
    t :| 0 <= t < |s[i].threads| && s[i].threads[t].pc == Last(Now(s[i]));
  }
}
