/** The walk over log units that fills a thread's sync list (src/sync.c:135-176, src/tasvir.h:151-160). */
module SyncWalk {
  import opened LogBits
  import opened Framing
  import opened RunLength

  const LIST_LEN: nat := 512

  /** A thread's list of runs waiting to be copied or sent. */
  class SyncList {
    var changed: nat
    var cnt: nat
    const l: array<Run>

    ghost predicate Valid()
      reads this
    {
      l.Length == LIST_LEN && cnt <= LIST_LEN
    }

    ghost function Items(): seq<Run>
      reads this, l
      requires Valid()
    {
      l[..cnt]
    }

    constructor ()
      ensures Valid() && Items() == [] && changed == 0 && fresh(l)
    {
      l := new Run[LIST_LEN](_ => Run(0, 0));
      cnt, changed := 0, 0;
    }

    /** The slot is written in any case; the count moves only for a non-empty run (src/sync.c:157-160). */
    method Put(off: nat, len: nat)
      requires Valid() && cnt < LIST_LEN
      modifies this`cnt, l
      ensures Valid() && Items() == old(Items()) + Completed(off, len)
      ensures cnt == old(cnt) + |Completed(off, len)|
    {
      l[cnt] := Run(off, len);
      if len > 0 {
        cnt := cnt + 1;
      }
    }
  }

  /** Where the walk stands: completed-run total, clear and set bits since the pending run began, and the
      first line of that run. */
  datatype Walk = Walk(total: nat, zeros: nat, ones: nat, off: nat)

  ghost predicate Follows(w: Walk, bits: seq<bool>, base: nat, done: seq<Run>) {
    Walking(bits, base, done, w.off, w.zeros, w.ones) && w.total == SumLen(done)
  }

  /** How many runs one vector can complete: `c` bits of it have been walked and `k` runs completed, from
      a start with (`pend`) or without a pending run. */
  predicate Budget(w: Walk, pend: bool, c: nat, k: nat) {
    && (pend ==> w.ones > 0)
    && (w.ones == 0 ==> k == 0)
    && (w.ones > 0 ==> 2 * k <= c - (if pend then 0 else 2) + (if w.zeros == 0 then 1 else 0))
  }

  /** The first n bits of a unit agree. */
  predicate Leading(x: Unit, n: nat, b: bool) {
    n <= 64 && forall k :: 0 <= k < n ==> x[k] == b
  }

  /** Number of leading bits equal to b, cut at `left` (src/sync.c:168-169). */
  function LeadingSame(x: Unit, b: bool, left: nat): (n: nat)
    requires left <= 64
    ensures n <= left && Leading(x, n, b)
    ensures n < left ==> x[n] == !b
  {
    Min(left, Lzcnt(if b then Not(x) else x))
  }

  /** The run that is completed when the next bits have value `lead` (src/sync.c:149-166). */
  function Closed(w: Walk, lead: bool): seq<Run> {
    if lead && w.zeros > 0 then Completed(w.off, w.ones) else []
  }

  function Advance(w: Walk, lead: bool, n: nat): Walk {
    if lead && w.zeros > 0 then Walk(w.total + w.ones, 0, n, w.off + w.zeros + w.ones)
    else if lead then w.(ones := w.ones + n)
    else w.(zeros := w.zeros + n)
  }

  lemma AdvanceTotal(w: Walk, lead: bool, n: nat, done: seq<Run>)
    requires w.total == SumLen(done)
    ensures Advance(w, lead, n).total == SumLen(done + Closed(w, lead))
  {
    SumLenAppend(done, Closed(w, lead));
  }

  lemma AdvanceWalking(w: Walk, lead: bool, n: nat, bits: seq<bool>, base: nat, done: seq<Run>)
    requires Walking(bits, base, done, w.off, w.zeros, w.ones) && n > 0
    ensures var w' := Advance(w, lead, n);
            Walking(bits + Same(n, lead), base, done + Closed(w, lead), w'.off, w'.zeros, w'.ones)
  {
    if lead && w.zeros > 0 {
      WalkNextRun(bits, n, base, done, w.off, w.zeros, w.ones);
    } else {
      AdvanceInPlace(w, lead, n, bits, base, done);
    }
  }

  lemma AdvanceInPlace(w: Walk, lead: bool, n: nat, bits: seq<bool>, base: nat, done: seq<Run>)
    requires Walking(bits, base, done, w.off, w.zeros, w.ones) && !(lead && w.zeros > 0)
    ensures var w' := Advance(w, lead, n); Walking(bits + Same(n, lead), base, done, w'.off, w'.zeros, w'.ones)
    ensures done + Closed(w, lead) == done
  {
    if lead {
      WalkOnes(bits, n, base, done, w.off, w.ones);
    } else {
      WalkZeros(bits, n, base, done, w.off, w.zeros, w.ones);
    }
  }

  lemma AdvanceFollows(w: Walk, lead: bool, n: nat, bits: seq<bool>, base: nat, done: seq<Run>)
    requires Follows(w, bits, base, done) && n > 0
    ensures Follows(Advance(w, lead, n), bits + Same(n, lead), base, done + Closed(w, lead))
  {
    AdvanceTotal(w, lead, n, done);
    AdvanceWalking(w, lead, n, bits, base, done);
  }

  /** The walk inside one unit x, `at` bits in. */
  ghost predicate InUnit(w: Walk, x: Unit, at: nat, bits: seq<bool>, base: nat, done: seq<Run>) {
    at <= 64 && Follows(w, bits + x[..at], base, done)
  }

  /** How many bits from `at` on equal the one there. */
  function SameRun(x: seq<bool>, at: nat): (n: nat)
    requires at < |x|
    ensures 0 < n <= |x| - at
    ensures forall k :: at <= k < at + n ==> x[k] == x[at]
    ensures at + n < |x| ==> x[at + n] == !x[at]
    decreases |x| - at
  {
    if at + 1 < |x| && x[at + 1] == x[at] then 1 + SameRun(x, at + 1) else 1
  }

  lemma TakeSame(x: Unit, at: nat, n: nat, bits: seq<bool>)
    requires at + n <= 64 && 0 < n && forall k :: at <= k < at + n ==> x[k] == x[at]
    ensures bits + x[..at] + Same(n, x[at]) == bits + x[..at + n]
  {
  }

  lemma {:induction false} SameRunUnique(x: seq<bool>, at: nat, n: nat)
    requires at < |x| && 0 < n <= |x| - at && forall k :: at <= k < at + n ==> x[k] == x[at]
    requires at + n < |x| ==> x[at + n] == !x[at]
    ensures n == SameRun(x, at)
  {
  }

  lemma ShlLeading(x: Unit, at: nat, n: nat, b: bool)
    requires at < 64 && n <= 64 - at && Leading(Shl(x, at), n, b)
    ensures forall k :: at <= k < at + n ==> x[k] == b
  {
    forall k | at <= k < at + n ensures x[k] == b {
      assert Shl(x, at)[k - at] == x[k];
    }
  }

  /** Counting leading bits of the shifted unit gives the same number (src/sync.c:168-172). */
  lemma {:induction false} LeadingIsSameRun(x: Unit, at: nat, n: nat)
    requires at < 64 && n <= 64 - at && Leading(Shl(x, at), n, x[at])
    requires n < 64 - at ==> Shl(x, at)[n] == !x[at]
    ensures n == SameRun(x, at)
  {
    ShlLeading(x, at, n, x[at]);
    assert Shl(x, at)[0] == x[at];
    SameRunUnique(x, at, n);
  }

  lemma ShlAgain(x: Unit, at: nat, n: nat)
    ensures Shl(Shl(x, at), n) == Shl(x, at + n)
  {
  }

  lemma AdvanceInUnit(w: Walk, x: Unit, at: nat, bits: seq<bool>, base: nat, done: seq<Run>)
    requires InUnit(w, x, at, bits, base, done) && at < 64
    ensures InUnit(Advance(w, x[at], SameRun(x, at)), x, at + SameRun(x, at), bits, base, done + Closed(w, x[at]))
  {
    AdvanceFollows(w, x[at], SameRun(x, at), bits + x[..at], base, done);
    TakeSame(x, at, SameRun(x, at), bits);
  }

  /** The walk through the rest of a unit: the state after it and the runs it completes. */
  function UnitWalk(w: Walk, x: Unit, at: nat): (Walk, seq<Run>)
    decreases 64 - at
  {
    if at >= 64 then (w, [])
    else
      var n := SameRun(x, at);
      var (w', runs) := UnitWalk(Advance(w, x[at], n), x, at + n);
      (w', Closed(w, x[at]) + runs)
  }

  lemma {:induction false} UnitWalkFollows(w: Walk, x: Unit, at: nat, bits: seq<bool>, base: nat, done: seq<Run>)
    requires InUnit(w, x, at, bits, base, done)
    ensures var (w', runs) := UnitWalk(w, x, at); Follows(w', bits + x, base, done + runs)
    decreases 64 - at
  {
    hide Walking, SameRun;
    if at == 64 {
      assert x[..64] == x && done + [] == done;
    } else {
      var n := SameRun(x, at);
      AdvanceInUnit(w, x, at, bits, base, done);
      UnitWalkFollows(Advance(w, x[at], n), x, at + n, bits, base, done + Closed(w, x[at]));
      Assoc(done, Closed(w, x[at]), UnitWalk(Advance(w, x[at], n), x, at + n).1);
    }
  }

  lemma {:induction false} UnitWalkBudget(w: Walk, x: Unit, at: nat, pend: bool, c: nat, k: nat)
    requires at <= 64 && Budget(w, pend, c + at, k)
    ensures var (w', runs) := UnitWalk(w, x, at); Budget(w', pend, c + 64, k + |runs|)
    decreases 64 - at
  {
    if at < 64 {
      var n := SameRun(x, at);
      UnitWalkBudget(Advance(w, x[at], n), x, at + n, pend, c, k + |Closed(w, x[at])|);
    }
  }

  /** A unit that is not zero leaves a pending run behind. */
  lemma {:induction false} UnitWalkPends(w: Walk, x: Unit, at: nat)
    requires at <= 64 && (w.ones > 0 || exists i :: at <= i < 64 && x[i])
    ensures UnitWalk(w, x, at).0.ones > 0
    decreases 64 - at
  {
    if at < 64 {
      var n := SameRun(x, at);
      if w.ones == 0 && !x[at] {
        var i :| at <= i < 64 && x[i];
        assert i >= at + n;
      }
      UnitWalkPends(Advance(w, x[at], n), x, at + n);
    }
  }

  /** One turn of the inner loop: a set bit after clear ones puts the pending run on the list. */
  method TakeBits(l: SyncList, w0: Walk, lead: bool, same: nat) returns (w: Walk)
    requires l.Valid() && l.cnt < LIST_LEN
    modifies l`cnt, l.l
    ensures l.Valid() && w == Advance(w0, lead, same) && l.Items() == old(l.Items()) + Closed(w0, lead)
  {
    w := w0;
    if lead && w.zeros > 0 {
      l.Put(w.off, w.ones);
      w := Walk(w.total + w.ones, 0, 0, w.off + w.zeros + w.ones);
    }
    w := if lead then w.(ones := w.ones + same) else w.(zeros := w.zeros + same);
  }

  /** The shifted unit and its leading bit, `at` bits in. */
  predicate Shifted(u: Unit, x: Unit, at: nat, lead: bool) {
    u == Shl(x, at) && (at < 64 ==> lead == x[at])
  }

  lemma ShiftedNext(u: Unit, x: Unit, at: nat, lead: bool)
    requires at < 64 && Shifted(u, x, at, lead)
    ensures var n := LeadingSame(u, lead, 64 - at);
            n == SameRun(x, at) && Shifted(Shl(u, n), x, at + n, !lead)
  {
    LeadingIsSameRun(x, at, LeadingSame(u, lead, 64 - at));
    ShlAgain(x, at, SameRun(x, at));
  }

  /** The do-while loop over one unit: every iteration takes the bits that equal the leading one. */
  method WalkUnit(l: SyncList, x: Unit, w0: Walk) returns (w: Walk)
    requires l.Valid() && l.cnt + |UnitWalk(w0, x, 0).1| < LIST_LEN
    modifies l`cnt, l.l
    ensures l.Valid() && w == UnitWalk(w0, x, 0).0 && l.Items() == old(l.Items()) + UnitWalk(w0, x, 0).1
  {
    var u: Unit := x;
    var at := 0;
    var lead := u[0];
    w := w0;
    assert Shifted(u, x, 0, lead) by { assert Shl(x, 0) == x; }
    ghost var all := old(l.Items()) + UnitWalk(w0, x, 0).1;
    while at < 64
      invariant at <= 64 && Shifted(u, x, at, lead) && l.Valid()
      invariant UnitWalk(w0, x, 0).0 == UnitWalk(w, x, at).0
      invariant all == l.Items() + UnitWalk(w, x, at).1
    {
      var same := LeadingSame(u, lead, 64 - at);
      ShiftedNext(u, x, at, lead);
      ghost var before, closed := l.Items(), Closed(w, lead);
      w := TakeBits(l, w, lead, same);
      Assoc(before, closed, UnitWalk(w, x, at + same).1);
      at := at + same;
      u := Shl(u, same);
      lead := !lead;
    }
  }

  lemma Assoc<T>(a: seq<T>, b: seq<T>, c: seq<T>)
    ensures (a + b) + c == a + (b + c)
  {
  }

  /** The bits of a stretch of log units, in line order. */
  function UnitBits(us: seq<Unit>): (bs: seq<bool>)
    ensures |bs| == 64 * |us|
  {
    if us == [] then [] else UnitBits(us[..|us| - 1]) + us[|us| - 1]
  }

  lemma {:induction false} UnitBitsAt(us: seq<Unit>, i: nat)
    requires i < 64 * |us|
    ensures UnitBits(us)[i] == us[i / 64][i % 64]
  {
    if i < 64 * (|us| - 1) { UnitBitsAt(us[..|us| - 1], i); }
  }

  /** The walk through a stretch of units. */
  function WalkAll(w: Walk, us: seq<Unit>): (Walk, seq<Run>) {
    if us == [] then (w, [])
    else
      var (w1, runs) := WalkAll(w, us[..|us| - 1]);
      var (w2, more) := UnitWalk(w1, us[|us| - 1], 0);
      (w2, runs + more)
  }

  lemma WalkAllNext(w: Walk, us: seq<Unit>, x: Unit)
    ensures WalkAll(w, us + [x]) ==
            (UnitWalk(WalkAll(w, us).0, x, 0).0, WalkAll(w, us).1 + UnitWalk(WalkAll(w, us).0, x, 0).1)
  {
    assert (us + [x])[..|us|] == us;
  }

  lemma {:induction false} WalkAllAppend(w: Walk, a: seq<Unit>, b: seq<Unit>)
    ensures WalkAll(w, a + b) == (WalkAll(WalkAll(w, a).0, b).0, WalkAll(w, a).1 + WalkAll(WalkAll(w, a).0, b).1)
    decreases |b|
  {
    if b == [] {
      assert a + b == a && WalkAll(w, a).1 + [] == WalkAll(w, a).1;
    } else {
      var b', x := b[..|b| - 1], b[|b| - 1];
      assert a + b == (a + b') + [x] && b == b' + [x];
      WalkAllAppend(w, a, b');
      WalkAllNext(w, a + b', x);
      WalkAllNext(WalkAll(w, a).0, b', x);
      Assoc(WalkAll(w, a).1, WalkAll(WalkAll(w, a).0, b').1, UnitWalk(WalkAll(w, a + b').0, x, 0).1);
    }
  }

  /** The walk from the start of a stretch keeps exact account of it. */
  lemma {:induction false} WalkAllFollows(us: seq<Unit>, base: nat)
    ensures var (w, runs) := WalkAll(Walk(0, 0, 0, base), us); Follows(w, UnitBits(us), base, runs)
  {
    if us != [] {
      var pre, x := us[..|us| - 1], us[|us| - 1];
      WalkAllFollows(pre, base);
      var (w, runs) := WalkAll(Walk(0, 0, 0, base), pre);
      assert UnitBits(pre) + x[..0] == UnitBits(pre);
      UnitWalkFollows(w, x, 0, UnitBits(pre), base, runs);
    }
  }

  lemma {:induction false} WalkAllBudget(w: Walk, us: seq<Unit>)
    ensures Budget(WalkAll(w, us).0, w.ones > 0, 64 * |us|, |WalkAll(w, us).1|)
  {
    if us != [] {
      WalkAllBudget(w, us[..|us| - 1]);
      UnitWalkBudget(WalkAll(w, us[..|us| - 1]).0, us[|us| - 1], 0, w.ones > 0, 64 * (|us| - 1),
                     |WalkAll(w, us[..|us| - 1]).1|);
    }
  }

  /** Up to one vector completes at most 255 runs if none was pending before it, and 256 otherwise. */
  lemma VectorBound(w: Walk, us: seq<Unit>)
    requires |us| <= 8
    ensures |WalkAll(w, us).1| <= if w.ones > 0 then 256 else 255
  {
    WalkAllBudget(w, us);
  }

  /** Every other bit set, the first one included. */
  function Alternating(): Unit { seq(64, k => k % 2 == 0) }

  lemma {:induction false} AlternatingUnit(w: Walk, at: nat)
    requires at <= 64 && at % 2 == 0 && w.ones > 0 && w.zeros > 0
    ensures var (w', runs) := UnitWalk(w, Alternating(), at); 2 * |runs| == 64 - at && w'.ones > 0 && w'.zeros > 0
    decreases 64 - at
  {
    if at < 64 {
      var x := Alternating();
      assert SameRun(x, at) == 1 && SameRun(x, at + 1) == 1;
      AlternatingUnit(Advance(Advance(w, true, 1), false, 1), at + 2);
    }
  }

  /** With nothing pending, the first run of the unit is still to be completed at its end. */
  lemma FirstAlternating(w: Walk)
    requires w.ones == 0
    ensures var (w', runs) := UnitWalk(w, Alternating(), 0); |runs| == 31 && w'.ones > 0 && w'.zeros > 0
  {
    var x := Alternating();
    assert SameRun(x, 0) == 1 && SameRun(x, 1) == 1;
    var w2 := Advance(Advance(w, true, 1), false, 1);
    AlternatingUnit(w2, 2);
    assert UnitWalk(Advance(w, true, 1), x, 1) == (UnitWalk(w2, x, 2).0,
        Closed(Advance(w, true, 1), false) + UnitWalk(w2, x, 2).1);
  }

  lemma {:induction false} AlternatingWalk(w: Walk, n: nat)
    requires n > 0 && (w.ones > 0 ==> w.zeros > 0)
    ensures var (w', runs) := WalkAll(w, seq(n, _ => Alternating()));
            |runs| == 32 * n - (if w.ones > 0 then 0 else 1) && w'.ones > 0 && w'.zeros > 0
  {
    hide UnitWalk, Alternating;
    var us := seq(n, _ => Alternating());
    var pre := seq(n - 1, _ => Alternating());
    assert us[..n - 1] == pre;
    if n > 1 {
      AlternatingWalk(w, n - 1);
      AlternatingUnit(WalkAll(w, pre).0, 0);
    } else if w.ones > 0 {
      AlternatingUnit(w, 0);
    } else {
      FirstAlternating(w);
    }
  }

  /** The bound is tight, with and without a pending run. */
  lemma VectorBoundTight(w: Walk)
    requires w.ones > 0 ==> w.zeros > 0
    ensures |WalkAll(w, seq(8, _ => Alternating())).1| == if w.ones > 0 then 256 else 255
  {
    AlternatingWalk(w, 8);
  }

  lemma {:induction false} WalkAllPends(w: Walk, us: seq<Unit>)
    requires w.ones > 0 || exists j :: 0 <= j < |us| && !IsZero(us[j])
    ensures WalkAll(w, us).0.ones > 0
  {
    if us != [] {
      var pre, x := us[..|us| - 1], us[|us| - 1];
      if w.ones > 0 || exists j :: 0 <= j < |pre| && !IsZero(pre[j]) {
        WalkAllPends(w, pre);
      } else {
        var j :| 0 <= j < |us| && !IsZero(us[j]);
        assert j == |pre|;
        assert exists i :: 0 <= i < 64 && x[i];
      }
      UnitWalkPends(WalkAll(w, pre).0, x, 0);
    }
  }

  lemma {:induction false} ZeroUnitWalk(w: Walk, x: Unit)
    requires IsZero(x)
    ensures UnitWalk(w, x, 0) == (w.(zeros := w.zeros + 64), [])
  {
    assert SameRun(x, 0) == 64;
    assert Closed(w, x[0]) == [] && Advance(w, x[0], 64) == w.(zeros := w.zeros + 64);
    var rest := UnitWalk(Advance(w, x[0], 64), x, 64);
    assert rest == (Advance(w, x[0], 64), []) && Closed(w, x[0]) + rest.1 == [];
  }

  /** A zero unit only adds clear bits (src/sync.c:138-142). */
  lemma {:induction false} WalkZeroUnits(w: Walk, us: seq<Unit>)
    requires AllZero(us)
    ensures WalkAll(w, us) == (w.(zeros := w.zeros + 64 * |us|), [])
  {
    hide UnitWalk;
    if us != [] {
      WalkZeroUnits(w, us[..|us| - 1]);
      ZeroUnitWalk(w.(zeros := w.zeros + 64 * (|us| - 1)), us[|us| - 1]);
      assert WalkAll(w, us[..|us| - 1]).1 + [] == [];
    }
  }

  predicate AllZero(us: seq<Unit>) {
    forall j :: 0 <= j < |us| ==> IsZero(us[j])
  }

  predicate ZeroFrom(us: seq<Unit>, i: nat, n: nat) {
    i + n <= |us| && forall j :: i <= j < i + n ==> IsZero(us[j])
  }

  /** How many zero units follow from position i; a sentinel stops at the end (src/sync.c:134-137). */
  function ZeroUnits(us: seq<Unit>, i: nat): (n: nat)
    requires i <= |us|
    ensures ZeroFrom(us, i, n)
    ensures i + n < |us| ==> !IsZero(us[i + n])
    decreases |us| - i
  {
    if i < |us| && IsZero(us[i]) then 1 + ZeroUnits(us, i + 1) else 0
  }

  /** The walk through a vector at unit i: what is left of it is the walk through the rest. */
  ghost predicate AtUnit(w0: Walk, v: seq<Unit>, i: nat, w: Walk, added: seq<Run>) {
    i <= |v| && WalkAll(w0, v[..i]) == (w, added)
  }

  lemma WalkNothing(w0: Walk, v: seq<Unit>)
    ensures AtUnit(w0, v, 0, w0, [])
  {
  }

  lemma NextUnit(w0: Walk, v: seq<Unit>, i: nat, w: Walk, items: seq<Run>, added: seq<Run>)
    requires i < |v| && AtUnit(w0, v, i, w, added)
    ensures items + (added + UnitWalk(w, v[i], 0).1) == (items + added) + UnitWalk(w, v[i], 0).1
    ensures AtUnit(w0, v, i + 1, UnitWalk(w, v[i], 0).0, added + UnitWalk(w, v[i], 0).1)
    ensures |added + UnitWalk(w, v[i], 0).1| <= |WalkAll(w0, v).1|
  {
    hide UnitWalk, WalkAll;
    WalkAllNext(w0, v[..i], v[i]);
    assert v[..i] + [v[i]] == v[..i + 1];
    WalkAllAppend(w0, v[..i + 1], v[i + 1..]);
    assert v[..i + 1] + v[i + 1..] == v;
  }

  lemma SkipZeros(w0: Walk, v: seq<Unit>, i: nat, n: nat, w: Walk, added: seq<Run>)
    requires AtUnit(w0, v, i, w, added) && ZeroFrom(v, i, n)
    ensures AtUnit(w0, v, i + n, w.(zeros := w.zeros + 64 * n), added)
  {
    hide UnitWalk, IsZero;
    WalkZeroUnits(w, v[i..i + n]);
    WalkAllAppend(w0, v[..i], v[i..i + n]);
    assert v[..i] + v[i..i + n] == v[..i + n];
    assert added + [] == added;
  }

  /** The loop over the eight units of a vector, skipping stretches of zero units. */
  method WalkVector(l: SyncList, v: seq<Unit>, w0: Walk) returns (w: Walk)
    requires l.Valid() && l.cnt + |WalkAll(w0, v).1| < LIST_LEN
    modifies l`cnt, l.l
    ensures l.Valid() && w == WalkAll(w0, v).0 && l.Items() == old(l.Items()) + WalkAll(w0, v).1
  {
    hide UnitWalk, WalkAll, ZeroFrom, IsZero;
    assert AtUnit(w0, v, 0, w0, []) by { WalkNothing(w0, v); }
    ghost var items, added := l.Items(), [];
    w := w0;
    var i := 0;
    assert items + [] == items;
    while i < |v|
      invariant 0 <= i <= |v| && l.Valid()
      invariant AtUnit(w0, v, i, w, added) && l.Items() == items + added
    {
      var zcnt := ZeroUnits(v, i);
      if zcnt > 0 {
        SkipZeros(w0, v, i, zcnt, w, added);
        w := w.(zeros := w.zeros + zcnt * 64);
        i := i + zcnt;
      } else {
        NextUnit(w0, v, i, w, items, added);
        ghost var more := UnitWalk(w, v[i], 0).1;
        w := WalkUnit(l, v[i], w);
        added := added + more;
        i := i + 1;
      }
    }
    assert v[..i] == v;
  }

  /** The line after the last bit walked. */
  function End(w: Walk): nat { w.off + w.ones + w.zeros }

  predicate RunsBefore(runs: seq<Run>, end: nat) {
    forall x :: x in runs ==> x.off + x.len <= end
  }

  lemma {:induction false} UnitWalkWithin(w: Walk, x: Unit, at: nat)
    requires at <= 64
    ensures var (w', runs) := UnitWalk(w, x, at); End(w') == End(w) + 64 - at && RunsBefore(runs, End(w'))
    decreases 64 - at
  {
    if at < 64 {
      var n := SameRun(x, at);
      hide SameRun;
      assert End(Advance(w, x[at], n)) == End(w) + n && RunsBefore(Closed(w, x[at]), End(w));
      UnitWalkWithin(Advance(w, x[at], n), x, at + n);
    }
  }

  /** The walk moves one line per bit, and the runs it completes lie behind it. */
  lemma {:induction false} WalkAllWithin(w: Walk, us: seq<Unit>)
    ensures var (w', runs) := WalkAll(w, us); End(w') == End(w) + 64 * |us| && RunsBefore(runs, End(w'))
  {
    if us != [] {
      WalkAllWithin(w, us[..|us| - 1]);
      UnitWalkWithin(WalkAll(w, us[..|us| - 1]).0, us[|us| - 1], 0);
    }
  }
}
