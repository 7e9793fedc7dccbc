/** Inputs that differ in one word or one byte never have the same XXH32 (apps/cuckoo-lb/xxhash.c:271-323). */
module Xxh32Differs {
  import opened Stripes
  import opened Words
  import opened WordInverse
  import opened Xxh32
  import opened Xxh32Steps

  /** The inputs differ, but only in one aligned word of four bytes, or in one byte behind the last such word. */
  predicate OneUnit(bs: seq<Byte>, cs: seq<Byte>, p: nat, n: nat) {
    OnlyIn(bs, cs, p, n) && ((n == 4 && p % 4 == 0) || (n == 1 && p >= |bs| / 4 * 4))
  }

  /** Without the first k bytes, which are the same. */
  lemma UnitLater(bs: seq<Byte>, cs: seq<Byte>, p: nat, n: nat, k: nat)
    requires OneUnit(bs, cs, p, n) && k <= p && (k % 4 == 0 || |bs| < 4)
    ensures bs[..k] == cs[..k] && OneUnit(bs[k..], cs[k..], p - k, n)
  {
    hide OnlyIn;
    OnlyInFits(bs, cs, p, n);
    OnlyInLater(bs, cs, p, n, k);
  }

  // The end of the input.

  lemma {:induction false} SameFinish(g: Word, h: Word, bs: seq<Byte>)
    requires Finish(g, bs) == Finish(h, bs)
    ensures g == h
    decreases |bs|
  {
    hide WordStep, ByteStep, Avalanche;
    if |bs| >= 4 {
      SameFinish(WordStep(g, bs[..4]), WordStep(h, bs[..4]), bs[4..]);
      SameWordStep(g, h, bs[..4], bs[..4]);
    } else if |bs| > 0 {
      SameFinish(ByteStep(g, bs[0]), ByteStep(h, bs[0]), bs[1..]);
      SameByteStep(g, h, bs[0], bs[0]);
    } else {
      SameAvalanche(g, h);
    }
  }

  lemma {:induction false} FinishDiffers(h: Word, bs: seq<Byte>, cs: seq<Byte>, p: nat, n: nat)
    requires OneUnit(bs, cs, p, n)
    ensures Finish(h, bs) != Finish(h, cs)
    decreases |bs|
  {
    hide WordStep, ByteStep, Avalanche, OneUnit;
    UnitFits(bs, cs, p, n);
    if |bs| >= 4 && p >= 4 {
      UnitLater(bs, cs, p, n, 4);
      FinishDiffers(WordStep(h, bs[..4]), bs[4..], cs[4..], p - 4, n);
    } else if |bs| >= 4 {
      OnlyInDiffers(bs, cs, p, n);
      if Finish(h, bs) == Finish(h, cs) {
        SameFinish(WordStep(h, bs[..4]), WordStep(h, cs[..4]), bs[4..]);
        SameWordStep(h, h, bs[..4], cs[..4]);
      }
    } else if p > 0 {
      UnitLater(bs, cs, p, n, 1);
      assert bs[0] == bs[..1][0] == cs[..1][0] == cs[0];
      FinishDiffers(ByteStep(h, bs[0]), bs[1..], cs[1..], p - 1, n);
    } else {
      OnlyInDiffers(bs, cs, p, n);
      assert bs[0..1] == [bs[0]] && cs[0..1] == [cs[0]];
      if Finish(h, bs) == Finish(h, cs) {
        SameFinish(ByteStep(h, bs[0]), ByteStep(h, cs[0]), bs[1..]);
        SameByteStep(h, h, bs[0], cs[0]);
      }
    }
  }

  /** Where the unit can be. */
  lemma UnitFits(bs: seq<Byte>, cs: seq<Byte>, p: nat, n: nat)
    requires OneUnit(bs, cs, p, n)
    ensures OnlyIn(bs, cs, p, n) && |bs| == |cs| > 0 && p + n <= |bs| && bs[p + n..] == cs[p + n..]
    ensures |bs| >= 4 && p < 4 ==> p == 0 && n == 4
    ensures |bs| < 4 ==> n == 1
  {
  }

  // The stripes.

  /** Exactly one of the four accumulators differs. */
  predicate OneLane(a: Acc, b: Acc) {
    || (a.v1 != b.v1 && b == a.(v1 := b.v1)) || (a.v2 != b.v2 && b == a.(v2 := b.v2))
    || (a.v3 != b.v3 && b == a.(v3 := b.v3)) || (a.v4 != b.v4 && b == a.(v4 := b.v4))
  }

  lemma RoundDiffers(g: Word, h: Word, m: Word, n: Word)
    requires (g == h && m != n) || (g != h && m == n)
    ensures Round(g, m) != Round(h, n)
  {
    hide Round;
    if Round(g, m) == Round(h, n) {
      SameRound(g, h, m, n);
    }
  }

  lemma StripeIs(a: Acc, bs: seq<Byte>)
    requires |bs| == STRIPE
    ensures Stripe(a, bs) == Acc(Round(a.v1, Read(bs[..4])), Round(a.v2, Read(bs[4..8])), Round(a.v3, Read(bs[8..12])),
                                 Round(a.v4, Read(bs[12..16])))
  {
    hide Round, Read;
  }

  lemma StripeKeeps(a: Acc, b: Acc, bs: seq<Byte>)
    requires OneLane(a, b) && |bs| == STRIPE
    ensures OneLane(Stripe(a, bs), Stripe(b, bs))
  {
    hide Round, Read, Stripe;
    StripeIs(a, bs);
    StripeIs(b, bs);
    var w, x, y, z := Read(bs[..4]), Read(bs[4..8]), Read(bs[8..12]), Read(bs[12..16]);
    RoundKeeps(a.v1, b.v1, w);
    RoundKeeps(a.v2, b.v2, x);
    RoundKeeps(a.v3, b.v3, y);
    RoundKeeps(a.v4, b.v4, z);
  }

  lemma RoundKeeps(g: Word, h: Word, n: Word)
    ensures Round(g, n) == Round(h, n) <==> g == h
  {
    hide Round;
    if g != h {
      RoundDiffers(g, h, n, n);
    }
  }

  lemma {:induction false} FoldKeeps(a: Acc, b: Acc, bs: seq<Byte>)
    requires OneLane(a, b)
    ensures OneLane(Fold(Stripe, STRIPE, a, bs), Fold(Stripe, STRIPE, b, bs))
    decreases |bs|
  {
    hide Stripe, OneLane;
    if |bs| >= STRIPE {
      StripeKeeps(a, b, bs[..STRIPE]);
      FoldKeeps(Stripe(a, bs[..STRIPE]), Stripe(b, bs[..STRIPE]), bs[STRIPE..]);
    }
  }

  lemma StripeDiffers(a: Acc, bs: seq<Byte>, cs: seq<Byte>, p: nat)
    requires OnlyIn(bs, cs, p, 4) && p % 4 == 0 && |bs| == STRIPE
    ensures OneLane(Stripe(a, bs), Stripe(a, cs))
  {
    hide Round, Read;
    OnlyInDiffers(bs, cs, p, 4);
    OnlyInElsewhere(bs, cs, p, 4, 0, 4);
    OnlyInElsewhere(bs, cs, p, 4, 4, 4);
    OnlyInElsewhere(bs, cs, p, 4, 8, 4);
    OnlyInElsewhere(bs, cs, p, 4, 12, 4);
    assert bs[..4] == bs[0..4] && cs[..4] == cs[0..4];
    LaneDiffers(bs[p..p + 4], cs[p..p + 4], if p == 0 then a.v1 else if p == 4 then a.v2 else if p == 8 then a.v3
                else a.v4);
  }

  lemma LaneDiffers(m: seq<Byte>, n: seq<Byte>, g: Word)
    requires |m| == |n| == 4 && m != n
    ensures Round(g, Read(m)) != Round(g, Read(n))
  {
    hide Round, Read;
    if Read(m) == Read(n) {
      SameRead(m, n);
    }
    RoundDiffers(g, g, Read(m), Read(n));
  }

  lemma {:induction false} FoldDiffers(a: Acc, bs: seq<Byte>, cs: seq<Byte>, p: nat)
    requires OneUnit(bs, cs, p, 4) && p < |bs| / STRIPE * STRIPE
    ensures OneLane(Fold(Stripe, STRIPE, a, bs), Fold(Stripe, STRIPE, a, cs)) && Rest(STRIPE, bs) == Rest(STRIPE, cs)
    decreases |bs|
  {
    hide Stripe, OneLane, OneUnit;
    UnitFits(bs, cs, p, 4);
    if p >= STRIPE {
      UnitLater(bs, cs, p, 4, STRIPE);
      FoldDiffers(Stripe(a, bs[..STRIPE]), bs[STRIPE..], cs[STRIPE..], p - STRIPE);
    } else {
      UnitEarly(bs, cs, p);
      StripeDiffers(a, bs[..STRIPE], cs[..STRIPE], p);
      FoldKeeps(Stripe(a, bs[..STRIPE]), Stripe(a, cs[..STRIPE]), bs[STRIPE..]);
    }
  }

  lemma UnitEarly(bs: seq<Byte>, cs: seq<Byte>, p: nat)
    requires OneUnit(bs, cs, p, 4) && p < STRIPE <= |bs|
    ensures OnlyIn(bs[..STRIPE], cs[..STRIPE], p, 4) && p % 4 == 0 && bs[STRIPE..] == cs[STRIPE..]
  {
    OnlyInEarly(bs, cs, p, 4, STRIPE);
  }

  lemma MergeDiffers(a: Acc, b: Acc)
    requires OneLane(a, b)
    ensures Merge(a) != Merge(b)
  {
    hide Plus32, Rotl32;
    RotlDiffers(a.v1, b.v1, 1);
    RotlDiffers(a.v2, b.v2, 7);
    RotlDiffers(a.v3, b.v3, 12);
    RotlDiffers(a.v4, b.v4, 18);
    SumsDiffer(Rotl32(a.v1, 1), Rotl32(a.v2, 7), Rotl32(a.v3, 12), Rotl32(a.v4, 18),
               Rotl32(b.v1, 1), Rotl32(b.v2, 7), Rotl32(b.v3, 12), Rotl32(b.v4, 18));
  }

  lemma SumsDiffer(c: Word, d: Word, e: Word, f: Word, g: Word, h: Word, i: Word, j: Word)
    requires (c != g && d == h && e == i && f == j) || (c == g && d != h && e == i && f == j) ||
             (c == g && d == h && e != i && f == j) || (c == g && d == h && e == i && f != j)
    ensures Plus32(Plus32(Plus32(c, d), e), f) != Plus32(Plus32(Plus32(g, h), i), j)
  {
    hide Plus32;
    if Plus32(Plus32(Plus32(c, d), e), f) == Plus32(Plus32(Plus32(g, h), i), j) {
      SameSums(Plus32(Plus32(c, d), e), Plus32(Plus32(g, h), i), f, j);
      if f == j {
        SameSums(Plus32(c, d), Plus32(g, h), e, i);
        if e == i {
          SameSums(c, g, d, h);
        }
      }
    }
  }

  lemma SameSums(x: Word, y: Word, u: Word, v: Word)
    requires Plus32(x, u) == Plus32(y, v)
    ensures x == y <==> u == v
  {
    hide Plus32;
    PlusOrder32(x, u);
    PlusOrder32(y, v);
    if x == y {
      SamePlus32(x, u, v);
    }
    if u == v {
      SamePlus32(u, x, y);
    }
  }

  lemma RotlDiffers(x: Word, y: Word, r: bv6)
    requires 0 < r < 32
    ensures Rotl32(x, r) == Rotl32(y, r) ==> x == y
  {
    hide Rotl32;
    if Rotl32(x, r) == Rotl32(y, r) {
      SameRotl32(x, y, r);
    }
  }

  // The hash.

  /** Same stripes, and the unit is in what is left over. */
  lemma {:induction false} FoldSame(a: Acc, bs: seq<Byte>, cs: seq<Byte>, p: nat, n: nat) returns (q: nat)
    requires OneUnit(bs, cs, p, n) && p >= |bs| / STRIPE * STRIPE
    ensures Fold(Stripe, STRIPE, a, bs) == Fold(Stripe, STRIPE, a, cs)
    ensures OneUnit(Rest(STRIPE, bs), Rest(STRIPE, cs), q, n)
    decreases |bs|
  {
    hide Stripe, OneUnit;
    UnitFits(bs, cs, p, n);
    if |bs| >= STRIPE {
      UnitLater(bs, cs, p, n, STRIPE);
      q := FoldSame(Stripe(a, bs[..STRIPE]), bs[STRIPE..], cs[STRIPE..], p - STRIPE, n);
    } else {
      q := p;
    }
  }

  /** Two inputs of the same length that differ only in one aligned word of four bytes, or only in one byte behind the
      last such word, have different hashes, whatever the seed. */
  lemma HashDiffers(bs: seq<Byte>, cs: seq<Byte>, seed: Word, p: nat, n: nat)
    requires OneUnit(bs, cs, p, n)
    ensures Hash(bs, seed) != Hash(cs, seed)
  {
    hide Stripe, Merge, Start, Small, AddLength, Finish, Fold, Rest, OneUnit, OneLane;
    UnitFits(bs, cs, p, n);
    var k := |bs| % WRAP;
    if p < |bs| / STRIPE * STRIPE {
      InStripes(bs, cs, p, n);
      FoldDiffers(Start(seed), bs, cs, p);
      var g, h := Merge(Fold(Stripe, STRIPE, Start(seed), bs)), Merge(Fold(Stripe, STRIPE, Start(seed), cs));
      MergeDiffers(Fold(Stripe, STRIPE, Start(seed), bs), Fold(Stripe, STRIPE, Start(seed), cs));
      if Hash(bs, seed) == Hash(cs, seed) {
        SameFinish(AddLength(g, k), AddLength(h, k), Rest(STRIPE, bs));
        SameLength(g, h, k);
      }
    } else {
      var q := FoldSame(Start(seed), bs, cs, p, n);
      var g := if |bs| >= STRIPE then Merge(Fold(Stripe, STRIPE, Start(seed), bs)) else Small(seed);
      FinishDiffers(AddLength(g, k), Rest(STRIPE, bs), Rest(STRIPE, cs), q, n);
    }
  }

  lemma InStripes(bs: seq<Byte>, cs: seq<Byte>, p: nat, n: nat)
    requires OneUnit(bs, cs, p, n) && p < |bs| / STRIPE * STRIPE
    ensures n == 4 && |bs| >= STRIPE
  {
    hide OnlyIn;
    OnlyInFits(bs, cs, p, n);
    Rounded(|bs|);
  }

  lemma Rounded(n: nat)
    ensures n / 16 * 16 <= n / 4 * 4 && (n / 16 * 16 > 0 ==> n >= 16)
  {
    var q, r := n / 16, n % 16;
    assert n / 4 == 4 * q + r / 4;
  }

  lemma SameLength(g: Word, h: Word, n: nat)
    requires n < WRAP && AddLength(g, n) == AddLength(h, n)
    ensures g == h
  {
    hide Plus32;
    PlusOrder32(g, n as Word);
    PlusOrder32(h, n as Word);
    SamePlus32(n as Word, g, h);
  }
}
