/** The part that one-shot and streaming hashing have in common: input is consumed in stripes of n bytes and the rest
    is kept aside (apps/cuckoo-lb/xxhash.c:292-297, 403-444, 663-668, 782-821). */
module Stripes {
  import opened Basics

  type Byte = bv8

  /** All whole stripes of the input, folded into the accumulators. */
  function Fold<A>(round: (A, seq<Byte>) -> A, n: nat, acc: A, bs: seq<Byte>): A
    requires n > 0
    decreases |bs|
  {
    if |bs| < n then acc else Fold(round, n, round(acc, bs[..n]), bs[n..])
  }

  /** What is left over. */
  function Rest(n: nat, bs: seq<Byte>): (r: seq<Byte>)
    requires n > 0
    ensures |r| < n && |r| <= |bs|
    decreases |bs|
  {
    if |bs| < n then bs else Rest(n, bs[n..])
  }

  /** Input that comes in two pieces is consumed as if it came in one: the second piece continues what was left
      over of the first. */
  lemma {:induction false} FoldSplit<A>(round: (A, seq<Byte>) -> A, n: nat, acc: A, d: seq<Byte>, e: seq<Byte>)
    requires n > 0
    ensures Fold(round, n, acc, d + e) == Fold(round, n, Fold(round, n, acc, d), Rest(n, d) + e)
    ensures Rest(n, d + e) == Rest(n, Rest(n, d) + e)
    decreases |d|
  {
    if |d| >= n {
      FoldSplit(round, n, round(acc, d[..n]), d[n..], e);
      assert (d + e)[..n] == d[..n] && (d + e)[n..] == d[n..] + e;
    }
  }

  /** The rest is a suffix. */
  lemma {:induction false} RestIsSuffix(n: nat, bs: seq<Byte>)
    requires n > 0
    ensures Rest(n, bs) == bs[|bs| - |Rest(n, bs)|..]
    decreases |bs|
  {
    if |bs| >= n {
      RestIsSuffix(n, bs[n..]);
    }
  }

  /** One turn of a loop over stripes. */
  lemma FoldStep<A>(round: (A, seq<Byte>) -> A, n: nat, acc: A, bs: seq<Byte>, p: nat)
    requires n > 0 && p + n <= |bs|
    ensures Fold(round, n, acc, bs[p..]) == Fold(round, n, round(acc, bs[p..p + n]), bs[p + n..])
    ensures Rest(n, bs[p..]) == Rest(n, bs[p + n..])
  {
    assert bs[p..][..n] == bs[p..p + n] && bs[p..][n..] == bs[p + n..];
  }

  /** Less than a stripe is left over whole. */
  lemma FoldShort<A>(round: (A, seq<Byte>) -> A, n: nat, acc: A, bs: seq<Byte>)
    requires n > |bs|
    ensures Fold(round, n, acc, bs) == acc && Rest(n, bs) == bs
  {
  }

  /** memcpy of n bytes of the input into the buffer. */
  method CopyInto(mem: array<Byte>, at: nat, input: seq<Byte>, from: nat, n: nat)
    requires at + n <= mem.Length && from + n <= |input|
    modifies mem
    ensures mem[..at] == old(mem[..at]) && mem[at..at + n] == input[from..from + n]
  {
    forall i | 0 <= i < n {
      mem[at + i] := input[from + i];
    }
  }

  /** Saves what is left of the input in the buffer. */
  method SaveRest(mem: array<Byte>, input: seq<Byte>, p: nat) returns (n: nat)
    requires p <= |input| <= p + mem.Length
    modifies mem
    ensures n == |input| - p && mem[..n] == input[p..]
  {
    n := |input| - p;
    if p < |input| {
      CopyInto(mem, 0, input, p, n);
      assert mem[..n] == mem[0..n] == input[p..];
    }
  }

  /** Lengths added modulo 2^32 or 2^64. */
  lemma WrapAdd(a: nat, b: nat, w: nat)
    requires w > 0
    ensures (a % w + b % w) % w == (a + b) % w && (a + b) % w <= a + b
  {
    WrapSum(a, b, a / w, b / w, a % w, b % w, w);
    WrapSum(a % w, b % w, 0, 0, a % w, b % w, w);
  }

  lemma WrapSum(a: nat, b: nat, p: nat, q: nat, c: nat, d: nat, w: nat)
    requires w > 0 && a == w * p + c && b == w * q + d && c < w && d < w
    ensures (a + b) % w == (if c + d < w then c + d else c + d - w) && c + d <= a + b
  {
    Distribute(p, q, w);
    if c + d < w {
      ModUnique(a + b, p + q, c + d, w);
    } else {
      ModUnique(a + b, p + q + 1, c + d - w, w);
    }
  }

  lemma Distribute(p: nat, q: nat, w: nat)
    ensures w * (p + q) == w * p + w * q && w * (p + q + 1) == w * p + w * q + w && w * p >= 0 && w * q >= 0
  {
  }

  lemma ModUnique(n: nat, q: nat, r: nat, w: nat)
    requires w > 0 && n == w * q + r && r < w
    ensures n % w == r
  {
    var k, m := n / w, n % w;
    assert n == w * k + m;
    if q < k {
      Apart(q, k, w);
    } else if k < q {
      Apart(k, q, w);
    }
  }

  lemma Apart(a: nat, b: nat, w: nat)
    requires a < b
    ensures w * a + w <= w * b
  {
    MulMono(a + 1, b, w);
    assert (a + 1) * w == w * a + w;
  }

  /** All pieces, one after the other. */
  function Concat(pieces: seq<seq<Byte>>): seq<Byte> {
    if pieces == [] then [] else Concat(pieces[..|pieces| - 1]) + pieces[|pieces| - 1]
  }

  // Inputs that differ in one place.

  /** The inputs differ, but only among the n bytes from p on. */
  predicate OnlyIn(bs: seq<Byte>, cs: seq<Byte>, p: nat, n: nat) {
    |bs| == |cs| && p + n <= |bs| && bs != cs && bs[..p] == cs[..p] && bs[p + n..] == cs[p + n..]
  }

  lemma OnlyInFits(bs: seq<Byte>, cs: seq<Byte>, p: nat, n: nat)
    requires OnlyIn(bs, cs, p, n)
    ensures |bs| == |cs| && 0 < n && p + n <= |bs| && bs[p + n..] == cs[p + n..]
  {
    assert bs == bs[..p] + bs[p..] && cs == cs[..p] + cs[p..];
  }

  lemma ThreeParts(bs: seq<Byte>, p: nat, n: nat)
    requires p + n <= |bs|
    ensures bs == bs[..p] + bs[p..p + n] + bs[p + n..]
  {
  }

  lemma OnlyInDiffers(bs: seq<Byte>, cs: seq<Byte>, p: nat, n: nat)
    requires OnlyIn(bs, cs, p, n)
    ensures bs[p..p + n] != cs[p..p + n]
  {
    ThreeParts(bs, p, n);
    ThreeParts(cs, p, n);
  }

  /** The same slice of both, apart from those bytes. */
  lemma OnlyInElsewhere(bs: seq<Byte>, cs: seq<Byte>, p: nat, n: nat, q: nat, m: nat)
    requires OnlyIn(bs, cs, p, n) && q + m <= |bs|
    ensures q + m <= p || p + n <= q ==> bs[q..q + m] == cs[q..q + m]
  {
    if q + m <= p {
      SliceBefore(bs, p, q, m);
      SliceBefore(cs, p, q, m);
    } else if p + n <= q {
      SliceAfter(bs, p + n, q, m);
      SliceAfter(cs, p + n, q, m);
    }
  }

  lemma SliceBefore(bs: seq<Byte>, p: nat, q: nat, m: nat)
    requires q + m <= p <= |bs|
    ensures bs[q..q + m] == bs[..p][q..q + m]
  {
  }

  lemma SliceAfter(bs: seq<Byte>, p: nat, q: nat, m: nat)
    requires p <= q && q + m <= |bs|
    ensures bs[q..q + m] == bs[p..][q - p..q - p + m]
  {
  }

  /** Without the first k bytes, which are the same. */
  lemma OnlyInLater(bs: seq<Byte>, cs: seq<Byte>, p: nat, n: nat, k: nat)
    requires OnlyIn(bs, cs, p, n) && k <= p
    ensures bs[..k] == cs[..k] && OnlyIn(bs[k..], cs[k..], p - k, n)
  {
    SliceLater(bs, p, n, k);
    SliceLater(cs, p, n, k);
  }

  lemma SliceLater(bs: seq<Byte>, p: nat, n: nat, k: nat)
    requires k <= p && p + n <= |bs|
    ensures bs[..k] == bs[..p][..k] && bs[k..][..p - k] == bs[..p][k..] && bs[k..][p - k + n..] == bs[p + n..]
    ensures bs == bs[..k] + bs[k..]
  {
  }

  /** The first k bytes; the others are the same. */
  lemma OnlyInEarly(bs: seq<Byte>, cs: seq<Byte>, p: nat, n: nat, k: nat)
    requires OnlyIn(bs, cs, p, n) && p + n <= k <= |bs|
    ensures bs[k..] == cs[k..] && OnlyIn(bs[..k], cs[..k], p, n)
  {
    SliceEarly(bs, p, n, k);
    SliceEarly(cs, p, n, k);
  }

  lemma SliceEarly(bs: seq<Byte>, p: nat, n: nat, k: nat)
    requires p + n <= k <= |bs|
    ensures bs[k..] == bs[p + n..][k - p - n..] && bs[..k][p + n..] == bs[p + n..][..k - p - n]
    ensures bs[..k][..p] == bs[..p] && bs == bs[..k] + bs[k..]
  {
  }
}
