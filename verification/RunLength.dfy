/** What the log walk has to produce: the maximal runs of set bits, in order, and the state the walk keeps
    on its way (src/sync.c:104-186). */
module RunLength {
  import opened Framing

  /** `runs` are the maximal runs of set bits of `bits`, in order, with bit 0 standing for line `base`:
      each is non-empty, a clear bit lies between any two, and a bit is set iff some run covers it. */
  ghost predicate MaximalRuns(bits: seq<bool>, base: nat, runs: seq<Run>) {
    && (forall i :: 0 <= i < |runs| ==>
          runs[i].len > 0 && base <= runs[i].off && runs[i].off + runs[i].len <= base + |bits|)
    && (forall i, j :: 0 <= i < j < |runs| ==> runs[i].off + runs[i].len < runs[j].off)
    && (forall k :: 0 <= k < |bits| ==> (bits[k] <==> Covered(runs, base + k)))
  }

  /** The definition leaves no choice. */
  lemma {:induction false} MaximalRunsUnique(bits: seq<bool>, base: nat, a: seq<Run>, b: seq<Run>)
    requires MaximalRuns(bits, base, a) && MaximalRuns(bits, base, b)
    ensures a == b
  {
    SamePrefix(bits, base, a, b, |a|);
    SamePrefix(bits, base, b, a, |b|);
  }

  lemma {:induction false} SamePrefix(bits: seq<bool>, base: nat, a: seq<Run>, b: seq<Run>, n: nat)
    requires MaximalRuns(bits, base, a) && MaximalRuns(bits, base, b) && n <= |a|
    ensures n <= |b| && a[..n] == b[..n]
  {
    if n > 0 {
      SamePrefix(bits, base, a, b, n - 1);
      StartsNoLater(bits, base, a, b, n - 1);
      StartsNoLater(bits, base, b, a, n - 1);
      EndsNoLater(bits, base, a, b, n - 1);
      EndsNoLater(bits, base, b, a, n - 1);
      assert a[..n] == a[..n - 1] + [a[n - 1]];
      assert b[..n] == b[..n - 1] + [b[n - 1]];
    }
  }

  lemma StartsNoLater(bits: seq<bool>, base: nat, a: seq<Run>, b: seq<Run>, i: nat)
    requires MaximalRuns(bits, base, a) && MaximalRuns(bits, base, b)
    requires i < |a| && i <= |b| && a[..i] == b[..i]
    ensures i < |b| && b[i].off <= a[i].off
  {
    assert bits[a[i].off - base] by { assert Covered(a, a[i].off); }
    assert Covered(b, a[i].off);
    var j :| 0 <= j < |b| && b[j].off <= a[i].off < b[j].off + b[j].len;
  }

  lemma EndsNoLater(bits: seq<bool>, base: nat, a: seq<Run>, b: seq<Run>, i: nat)
    requires MaximalRuns(bits, base, a) && MaximalRuns(bits, base, b)
    requires i < |a| && i < |b| && a[i].off == b[i].off
    ensures a[i].len <= b[i].len
  {
    var line := b[i].off + b[i].len;
    assert !Covered(b, line);
    if line < base + |bits| {
      assert !bits[line - base];
      assert !Covered(a, line);
    }
  }

  function Count(bits: seq<bool>): nat {
    if bits == [] then 0 else Count(bits[..|bits| - 1]) + if bits[|bits| - 1] then 1 else 0
  }

  function Same(n: nat, b: bool): seq<bool> { seq(n, _ => b) }

  lemma {:induction false} CountAppendSame(bits: seq<bool>, n: nat, b: bool)
    ensures Count(bits + Same(n, b)) == Count(bits) + if b then n else 0
  {
    var more := Same(n, b);
    if n == 0 {
      assert bits + more == bits;
    } else {
      assert (bits + more)[..|bits| + n - 1] == bits + Same(n - 1, b);
      CountAppendSame(bits, n - 1, b);
    }
  }

  /** The walk's state after `bits`: runs `done` are complete; the pending run, if any, is the `ones` lines
      from `off`, and `zeros` clear bits have followed it. */
  ghost predicate Walking(bits: seq<bool>, base: nat, done: seq<Run>, off: nat, zeros: nat, ones: nat) {
    && base <= off && off + ones + zeros == base + |bits|
    && MaximalRuns(bits[..off - base], base, done)
    && (off > base ==> !bits[off - base - 1])
    && (forall k :: off - base <= k < off - base + ones ==> bits[k])
    && (forall k :: off - base + ones <= k < |bits| ==> !bits[k])
    && (ones == 0 ==> done == [])
    && SumLen(done) + ones == Count(bits)
  }

  lemma WalkZeros(bits: seq<bool>, n: nat, base: nat, done: seq<Run>, off: nat, zeros: nat, ones: nat)
    requires Walking(bits, base, done, off, zeros, ones)
    ensures Walking(bits + Same(n, false), base, done, off, zeros + n, ones)
  {
    var more := bits + Same(n, false);
    assert more[..off - base] == bits[..off - base];
    CountAppendSame(bits, n, false);
  }

  lemma WalkOnes(bits: seq<bool>, n: nat, base: nat, done: seq<Run>, off: nat, ones: nat)
    requires Walking(bits, base, done, off, 0, ones)
    ensures Walking(bits + Same(n, true), base, done, off, 0, ones + n)
  {
    var more := bits + Same(n, true);
    assert more[..off - base] == bits[..off - base];
    CountAppendSame(bits, n, true);
  }

  function Completed(off: nat, ones: nat): seq<Run> {
    if ones > 0 then [Run(off, ones)] else []
  }

  /** Closing the pending run gives the maximal runs of everything walked so far. */
  lemma WalkEnd(bits: seq<bool>, base: nat, done: seq<Run>, off: nat, zeros: nat, ones: nat)
    requires Walking(bits, base, done, off, zeros, ones)
    ensures MaximalRuns(bits, base, done + Completed(off, ones))
    ensures SumLen(done + Completed(off, ones)) == Count(bits)
  {
    SumLenAppend(done, Completed(off, ones));
    DoneBefore(bits, base, done, off, zeros, ones);
    WalkEndCovers(bits, base, done, off, zeros, ones);
  }

  lemma WalkEndCovers(bits: seq<bool>, base: nat, done: seq<Run>, off: nat, zeros: nat, ones: nat)
    requires Walking(bits, base, done, off, zeros, ones)
    ensures forall k :: 0 <= k < |bits| ==> (bits[k] <==> Covered(done + Completed(off, ones), base + k))
  {
    forall k | 0 <= k < |bits| ensures bits[k] <==> Covered(done + Completed(off, ones), base + k) {
      CoveredSnoc(done, off, ones, base + k);
      if k < off - base {
        assert bits[..off - base][k] == bits[k];
      }
    }
  }

  /** A clear bit separates the completed runs from the pending one. */
  lemma DoneBefore(bits: seq<bool>, base: nat, done: seq<Run>, off: nat, zeros: nat, ones: nat)
    requires Walking(bits, base, done, off, zeros, ones)
    ensures forall i :: 0 <= i < |done| ==> done[i].off + done[i].len < off
  {
    forall i | 0 <= i < |done| ensures done[i].off + done[i].len < off {
      if done[i].off + done[i].len == off {
        assert Covered(done, off - 1);
      }
    }
  }

  lemma CoveredSnoc(done: seq<Run>, off: nat, ones: nat, line: int)
    ensures Covered(done + Completed(off, ones), line) <==> Covered(done, line) || off <= line < off + ones
  {
    var runs := done + Completed(off, ones);
    if Covered(done, line) {
      var i :| 0 <= i < |done| && done[i].off <= line < done[i].off + done[i].len;
      assert runs[i] == done[i];
    }
    if off <= line < off + ones {
      assert runs[|done|] == Run(off, ones);
    }
  }

  /** The step at a set bit that follows clear ones: the previous run is completed and a new one begins. */
  lemma WalkNextRun(bits: seq<bool>, n: nat, base: nat, done: seq<Run>, off: nat, zeros: nat, ones: nat)
    requires Walking(bits, base, done, off, zeros, ones) && zeros > 0 && n > 0
    ensures Walking(bits + Same(n, true), base, done + Completed(off, ones), off + zeros + ones, 0, n)
  {
    var more := bits + Same(n, true);
    WalkEnd(bits, base, done, off, zeros, ones);
    assert more[..off + zeros + ones - base] == bits;
    CountAppendSame(bits, n, true);
  }

  /** Maximal runs cover as many lines as there are set bits. */
  lemma {:induction false} MaximalRunsCount(bits: seq<bool>, base: nat, runs: seq<Run>)
    requires MaximalRuns(bits, base, runs)
    ensures SumLen(runs) == Count(bits) && (Count(bits) > 0 <==> runs != [])
    decreases |runs|
  {
    hide MaximalRuns;
    if runs == [] {
      NoRuns(bits, base);
    } else {
      LastRun(bits, base, runs);
      var n := |runs| - 1;
      var r, init := runs[n], runs[..n];
      var pre := bits[..r.off - base];
      MaximalRunsCount(pre, base, init);
      CountAppendSame(pre, r.len, true);
      CountAppendSame(pre + Same(r.len, true), base + |bits| - r.off - r.len, false);
      SumLenAppend(init, [r]);
      assert runs == init + [r];
    }
  }

  lemma NoRuns(bits: seq<bool>, base: nat)
    requires MaximalRuns(bits, base, [])
    ensures Count(bits) == 0
  {
    forall k | 0 <= k < |bits| ensures !bits[k] {
      assert !Covered([], base + k);
    }
    CountZero(bits);
  }

  /** What comes before the last run, the run, and the clear bits behind it. */
  lemma LastRun(bits: seq<bool>, base: nat, runs: seq<Run>)
    requires MaximalRuns(bits, base, runs) && runs != []
    ensures runs[|runs| - 1].len > 0
    ensures base <= runs[|runs| - 1].off && runs[|runs| - 1].off + runs[|runs| - 1].len <= base + |bits|
    ensures var r, init := runs[|runs| - 1], runs[..|runs| - 1];
            var pre := bits[..r.off - base];
            && MaximalRuns(pre, base, init)
            && bits == pre + Same(r.len, true) + Same(base + |bits| - r.off - r.len, false)
  {
    var n := |runs| - 1;
    var r, init := runs[n], runs[..n];
    assert runs == init + Completed(r.off, r.len);
    forall k | 0 <= k < |bits| ensures bits[k] <==> Covered(init, base + k) || r.off <= base + k < r.off + r.len {
      CoveredSnoc(init, r.off, r.len, base + k);
    }
    assert forall line :: r.off <= line ==> !Covered(init, line);
  }

  lemma {:induction false} CountZero(bits: seq<bool>)
    ensures Count(bits) == 0 <==> forall k :: 0 <= k < |bits| ==> !bits[k]
  {
    if bits != [] {
      var pre := bits[..|bits| - 1];
      CountZero(pre);
      assert forall k :: 0 <= k < |pre| ==> pre[k] == bits[k];
    }
  }
}
