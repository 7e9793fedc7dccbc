/** Inputs that differ in one place and their XXH64 (apps/cuckoo-lb/xxhash.c:632-706): always different behind the
    stripes; in a stripe the accumulators are, but merging them can make up for it. */
module Xxh64Differs {
  import opened Stripes
  import opened Words
  import opened WordInverse
  import opened Xxh64
  import opened Xxh64Steps

  /** The inputs differ, but only in one of the words, the half word or one of the bytes behind the stripes. */
  predicate OneUnit(bs: seq<Byte>, cs: seq<Byte>, p: nat, n: nat) {
    && OnlyIn(bs, cs, p, n)
    && ((n == 8 && p % 8 == 0) || (n == 4 && p == |bs| / 8 * 8) || (n == 1 && p >= |bs| / 4 * 4))
  }

  /** Without the first k bytes, which are the same. */
  lemma UnitLater(bs: seq<Byte>, cs: seq<Byte>, p: nat, n: nat, k: nat)
    requires OneUnit(bs, cs, p, n) && k <= p && (k % 8 == 0 || (k == 4 && |bs| < 8 && n == 1) || |bs| < 4)
    ensures bs[..k] == cs[..k] && OneUnit(bs[k..], cs[k..], p - k, n)
  {
    hide OnlyIn;
    OnlyInFits(bs, cs, p, n);
    OnlyInLater(bs, cs, p, n, k);
    Aligned(|bs|, p, k);
  }

  lemma Aligned(n: nat, p: nat, k: nat)
    requires k <= p <= n
    ensures k % 8 == 0 ==> (n - k) / 8 * 8 == n / 8 * 8 - k && (n - k) / 4 * 4 == n / 4 * 4 - k && (p - k) % 8 == p % 8
    ensures k == 4 ==> (n - k) / 4 * 4 == n / 4 * 4 - k
    ensures n < 4 ==> (n - k) / 4 * 4 == 0
  {
    if k % 8 == 0 {
      Off8(n, k / 8);
      Off8(p, k / 8);
      Off4(n, 2 * (k / 8));
    } else if k == 4 {
      Off4(n, 1);
    }
  }

  lemma Off8(n: nat, j: nat)
    requires 8 * j <= n
    ensures (n - 8 * j) / 8 == n / 8 - j && (n - 8 * j) % 8 == n % 8
  {
  }

  lemma Off4(n: nat, j: nat)
    requires 4 * j <= n
    ensures (n - 4 * j) / 4 == n / 4 - j
  {
  }

  /** Where the unit can be. */
  lemma UnitFits(bs: seq<Byte>, cs: seq<Byte>, p: nat, n: nat)
    requires OneUnit(bs, cs, p, n)
    ensures OnlyIn(bs, cs, p, n) && |bs| == |cs| > 0 && p + n <= |bs| && bs[p + n..] == cs[p + n..]
    ensures |bs| >= 8 && p < 8 ==> p == 0 && n == 8
    ensures 4 <= |bs| < 8 ==> (p == 0 && n == 4) || (p >= 4 && n == 1)
    ensures |bs| < 4 ==> n == 1
  {
    hide OnlyIn;
    OnlyInFits(bs, cs, p, n);
  }

  // The end of the input.

  lemma {:induction false} SameFinish(g: Word, h: Word, bs: seq<Byte>)
    requires Finish(g, bs) == Finish(h, bs)
    ensures g == h
    decreases |bs|
  {
    hide WordStep, HalfStep, ByteStep, Avalanche;
    if |bs| >= 8 {
      SameFinish(WordStep(g, bs[..8]), WordStep(h, bs[..8]), bs[8..]);
      SameWordStep(g, h, bs[..8], bs[..8]);
    } else if |bs| >= 4 {
      SameFinish(HalfStep(g, bs[..4]), HalfStep(h, bs[..4]), bs[4..]);
      SameHalfStep(g, h, bs[..4], bs[..4]);
    } else if |bs| > 0 {
      SameFinish(ByteStep(g, bs[0]), ByteStep(h, bs[0]), bs[1..]);
      SameByteStep(g, h, bs[0], bs[0]);
    } else {
      SameAvalanche(g, h);
    }
  }

  lemma {:induction false} FinishDiffers(h: Word, bs: seq<Byte>, cs: seq<Byte>, p: nat, n: nat)
    requires OneUnit(bs, cs, p, n)
    ensures Finish(h, bs) != Finish(h, cs)
    decreases |bs|
  {
    hide WordStep, HalfStep, ByteStep, Avalanche, OneUnit, OnlyIn;
    UnitFits(bs, cs, p, n);
    OnlyInDiffers(bs, cs, p, n);
    if |bs| >= 8 {
      if p >= 8 {
        UnitLater(bs, cs, p, n, 8);
        FinishDiffers(WordStep(h, bs[..8]), bs[8..], cs[8..], p - 8, n);
      } else if Finish(h, bs) == Finish(h, cs) {
        SameFinish(WordStep(h, bs[..8]), WordStep(h, cs[..8]), bs[8..]);
        SameWordStep(h, h, bs[..8], cs[..8]);
      }
    } else if |bs| >= 4 {
      if p >= 4 {
        UnitLater(bs, cs, p, n, 4);
        FinishDiffers(HalfStep(h, bs[..4]), bs[4..], cs[4..], p - 4, n);
      } else if Finish(h, bs) == Finish(h, cs) {
        SameFinish(HalfStep(h, bs[..4]), HalfStep(h, cs[..4]), bs[4..]);
        SameHalfStep(h, h, bs[..4], cs[..4]);
      }
    } else if p > 0 {
      UnitLater(bs, cs, p, n, 1);
      assert bs[0] == bs[..1][0] == cs[..1][0] == cs[0];
      FinishDiffers(ByteStep(h, bs[0]), bs[1..], cs[1..], p - 1, n);
    } else {
      assert bs[0..1] == [bs[0]] && cs[0..1] == [cs[0]];
      if Finish(h, bs) == Finish(h, cs) {
        SameFinish(ByteStep(h, bs[0]), ByteStep(h, cs[0]), bs[1..]);
        SameByteStep(h, h, bs[0], cs[0]);
      }
    }
  }

  /** Same stripes, and the unit is in what is left over. */
  lemma {:induction false} FoldSame(a: Acc, bs: seq<Byte>, cs: seq<Byte>, p: nat, n: nat) returns (q: nat)
    requires OneUnit(bs, cs, p, n) && p >= |bs| / STRIPE * STRIPE
    ensures Fold(Stripe, STRIPE, a, bs) == Fold(Stripe, STRIPE, a, cs)
    ensures OneUnit(Rest(STRIPE, bs), Rest(STRIPE, cs), q, n)
    decreases |bs|
  {
    hide Stripe, OneUnit;
    UnitFits(bs, cs, p, n);
    if |bs| >= STRIPE {
      UnitLater(bs, cs, p, n, STRIPE);
      q := FoldSame(Stripe(a, bs[..STRIPE]), bs[STRIPE..], cs[STRIPE..], p - STRIPE, n);
    } else {
      q := p;
    }
  }

  /** Two inputs of the same length that differ only in one word, the half word or one byte behind the stripes have
      different hashes, whatever the seed. */
  lemma HashDiffers(bs: seq<Byte>, cs: seq<Byte>, seed: Word, p: nat, n: nat)
    requires OneUnit(bs, cs, p, n) && p >= |bs| / STRIPE * STRIPE
    ensures Hash(bs, seed) != Hash(cs, seed)
  {
    hide Stripe, Merge, Start, Small, AddLength, Finish, Fold, Rest, OneUnit;
    UnitFits(bs, cs, p, n);
    var q := FoldSame(Start(seed), bs, cs, p, n);
    var g := if |bs| >= STRIPE then Merge(Fold(Stripe, STRIPE, Start(seed), bs)) else Small(seed);
    FinishDiffers(AddLength(g, |bs| % WRAP), Rest(STRIPE, bs), Rest(STRIPE, cs), q, n);
  }

  // The stripes.

  function Lane(a: Acc, i: nat): Word
    requires i < 4
  {
    if i == 0 then a.v1 else if i == 1 then a.v2 else if i == 2 then a.v3 else a.v4
  }

  /** Exactly accumulator i differs. */
  predicate OneLane(a: Acc, b: Acc, i: nat) {
    i < 4 && forall k :: 0 <= k < 4 ==> (Lane(a, k) == Lane(b, k) <==> k != i)
  }

  lemma StripeLane(a: Acc, bs: seq<Byte>, i: nat)
    requires |bs| == STRIPE && i < 4
    ensures Lane(Stripe(a, bs), i) == Round(Lane(a, i), Read(bs[8 * i..8 * i + 8]))
  {
    hide Round, Read;
    assert bs[..8] == bs[0..8];
  }

  lemma StripeKeeps(a: Acc, b: Acc, bs: seq<Byte>, i: nat)
    requires OneLane(a, b, i) && |bs| == STRIPE
    ensures OneLane(Stripe(a, bs), Stripe(b, bs), i)
  {
    hide Round, Read, Stripe, Lane;
    forall k | 0 <= k < 4 ensures Lane(Stripe(a, bs), k) == Lane(Stripe(b, bs), k) <==> k != i {
      StripeLane(a, bs, k);
      StripeLane(b, bs, k);
      var w := Read(bs[8 * k..8 * k + 8]);
      if Round(Lane(a, k), w) == Round(Lane(b, k), w) {
        SameRound(Lane(a, k), Lane(b, k), w, w);
      }
    }
  }

  lemma {:induction false} FoldKeeps(a: Acc, b: Acc, bs: seq<Byte>, i: nat)
    requires OneLane(a, b, i)
    ensures OneLane(Fold(Stripe, STRIPE, a, bs), Fold(Stripe, STRIPE, b, bs), i)
    decreases |bs|
  {
    hide Stripe, OneLane;
    if |bs| >= STRIPE {
      StripeKeeps(a, b, bs[..STRIPE], i);
      FoldKeeps(Stripe(a, bs[..STRIPE]), Stripe(b, bs[..STRIPE]), bs[STRIPE..], i);
    }
  }

  lemma StripeDiffers(a: Acc, bs: seq<Byte>, cs: seq<Byte>, i: nat)
    requires i < 4 && OnlyIn(bs, cs, 8 * i, 8) && |bs| == STRIPE
    ensures OneLane(Stripe(a, bs), Stripe(a, cs), i)
  {
    hide Round, Read, Stripe, Lane;
    OnlyInDiffers(bs, cs, 8 * i, 8);
    forall k | 0 <= k < 4 ensures Lane(Stripe(a, bs), k) == Lane(Stripe(a, cs), k) <==> k != i {
      StripeLane(a, bs, k);
      StripeLane(a, cs, k);
      OnlyInElsewhere(bs, cs, 8 * i, 8, 8 * k, 8);
      var m, n := bs[8 * k..8 * k + 8], cs[8 * k..8 * k + 8];
      if Round(Lane(a, k), Read(m)) == Round(Lane(a, k), Read(n)) {
        SameRound(Lane(a, k), Lane(a, k), Read(m), Read(n));
        SameRead(m, n);
      }
    }
  }

  /** Two inputs that differ only in one lane of one stripe lead to accumulators that differ in that lane alone. */
  lemma {:induction false} FoldDiffers(a: Acc, bs: seq<Byte>, cs: seq<Byte>, s: nat, i: nat)
    requires i < 4 && OnlyIn(bs, cs, STRIPE * s + 8 * i, 8) && STRIPE * (s + 1) <= |bs|
    ensures OneLane(Fold(Stripe, STRIPE, a, bs), Fold(Stripe, STRIPE, a, cs), i)
    ensures |bs| == |cs| && Rest(STRIPE, bs) == Rest(STRIPE, cs)
    decreases s
  {
    hide Stripe, OneLane, OnlyIn;
    OnlyInFits(bs, cs, STRIPE * s + 8 * i, 8);
    if s > 0 {
      OnlyInLater(bs, cs, STRIPE * s + 8 * i, 8, STRIPE);
      FoldDiffers(Stripe(a, bs[..STRIPE]), bs[STRIPE..], cs[STRIPE..], s - 1, i);
    } else {
      OnlyInEarly(bs, cs, 8 * i, 8, STRIPE);
      StripeDiffers(a, bs[..STRIPE], cs[..STRIPE], i);
      FoldKeeps(Stripe(a, bs[..STRIPE]), Stripe(a, cs[..STRIPE]), bs[STRIPE..], i);
    }
  }

  /** The sum of the rotated accumulators, with the first i accumulators merged in. */
  function Before(a: Acc, i: nat): Word
    requires i <= 4
  {
    if i == 0 then Plus(Plus(Plus(Rotl(a.v1, 1), Rotl(a.v2, 7)), Rotl(a.v3, 12)), Rotl(a.v4, 18))
    else MergeRound(Before(a, i - 1), Lane(a, i - 1))
  }

  lemma MergeIs(a: Acc)
    ensures Merge(a) == Before(a, 4)
  {
    hide MergeRound, Plus, Rotl;
    assert Before(a, 1) == MergeRound(Before(a, 0), Lane(a, 0));
    assert Before(a, 2) == MergeRound(Before(a, 1), Lane(a, 1));
    assert Before(a, 3) == MergeRound(Before(a, 2), Lane(a, 2));
    assert Before(a, 4) == MergeRound(Before(a, 3), Lane(a, 3));
  }

  /** Later lanes are the same and change nothing about it. */
  lemma {:induction false} MergeLater(a: Acc, b: Acc, i: nat, k: nat)
    requires OneLane(a, b, i) && i < k <= 4
    ensures Before(a, k) == Before(b, k) <==> Before(a, i + 1) == Before(b, i + 1)
    decreases k
  {
    hide MergeRound, Plus, Rotl, Lane, Xor, Round;
    if k > i + 1 {
      MergeLater(a, b, i, k - 1);
      var v := Lane(a, k - 1);
      assert Lane(b, k - 1) == v;
      SameMergeRound(Before(a, k - 1), Before(b, k - 1), v, v);
      if Xor(Before(a, k - 1), Round(0, v)) == Xor(Before(b, k - 1), Round(0, v)) {
        SameXor(Round(0, v), Before(a, k - 1), Before(b, k - 1));
      }
    }
  }

  /** Accumulators that differ in lane i merge to the same value exactly if merging in that lane makes up for the
      difference. */
  predicate MadeUp(a: Acc, b: Acc, i: nat)
    requires i < 4
  {
    Xor(Before(a, i), Round(0, Lane(a, i))) == Xor(Before(b, i), Round(0, Lane(b, i)))
  }

  lemma MergeExactly(a: Acc, b: Acc, i: nat)
    requires OneLane(a, b, i)
    ensures Merge(a) == Merge(b) <==> MadeUp(a, b, i)
  {
    hide MergeRound, Plus, Rotl, Lane, Xor, Round, Merge;
    MergeIs(a);
    MergeIs(b);
    MergeLater(a, b, i, 4);
    SameMergeRound(Before(a, i), Before(b, i), Lane(a, i), Lane(b, i));
  }

  /** Two inputs of the same length that differ only in one lane of one stripe have the same hash exactly if merging in
      that lane makes up for the difference of the accumulators. */
  lemma HashExactly(bs: seq<Byte>, cs: seq<Byte>, seed: Word, s: nat, i: nat)
    requires i < 4 && OnlyIn(bs, cs, STRIPE * s + 8 * i, 8) && STRIPE * (s + 1) <= |bs|
    ensures var a, b := Fold(Stripe, STRIPE, Start(seed), bs), Fold(Stripe, STRIPE, Start(seed), cs);
            OneLane(a, b, i) && (Hash(bs, seed) == Hash(cs, seed) <==> MadeUp(a, b, i))
  {
    hide Stripe, Merge, Start, Small, AddLength, Finish, Fold, Rest, OneLane, OnlyIn, MadeUp;
    FoldDiffers(Start(seed), bs, cs, s, i);
    var a, b := Fold(Stripe, STRIPE, Start(seed), bs), Fold(Stripe, STRIPE, Start(seed), cs);
    var n := |bs| % WRAP;
    MergeExactly(a, b, i);
    if Hash(bs, seed) == Hash(cs, seed) {
      SameFinish(AddLength(Merge(a), n), AddLength(Merge(b), n), Rest(STRIPE, bs));
      SameLength(Merge(a), Merge(b), n);
    }
  }

  lemma SameLength(g: Word, h: Word, n: nat)
    requires n < WRAP && AddLength(g, n) == AddLength(h, n)
    ensures g == h
  {
    hide Plus;
    PlusOrder(g, n as Word);
    PlusOrder(h, n as Word);
    SamePlus(n as Word, g, h);
  }
}
