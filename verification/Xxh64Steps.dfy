/** The steps of XXH64 in integers modulo 2^64, and which of them lose nothing (apps/cuckoo-lb/xxhash.c:626-706). */
module Xxh64Steps {
  import opened Stripes
  import opened Words
  import opened WordInverse
  import opened Xxh64
  import Narrow = Xxh32

  const P1: nat := 11400714785074694791
  const P2: nat := 14029467366897019727
  const P3: nat := 1609587929392839161
  const P4: nat := 9650029242287828579
  const P5: nat := 2870177450012600261

  lemma Prime1Reads()
    ensures Val(PRIME1) == P1
  {
    hide Stands, Val;
    Digits();
    FourStands(0, 0, (9, 14, 3, 7), (9, 14, 3, 7));
    FourStands(0x9E37, 0x9E37, (7, 9, 11, 1), (7, 9, 11, 1));
    FourStands(0x9E3779B1, 0x9E3779B1, (8, 5, 14, 11), (8, 5, 14, 11));
    FourStands(0x9E3779B185EB, 0x9E3779B185EB, (12, 10, 8, 7), (12, 10, 8, 7));
    StandsVal(P1, PRIME1);
  }

  lemma Prime2Reads()
    ensures Val(PRIME2) == P2
  {
    hide Stands, Val;
    Digits();
    FourStands(0, 0, (12, 2, 11, 2), (12, 2, 11, 2));
    FourStands(0xC2B2, 0xC2B2, (10, 14, 3, 13), (10, 14, 3, 13));
    FourStands(0xC2B2AE3D, 0xC2B2AE3D, (2, 7, 13, 4), (2, 7, 13, 4));
    FourStands(0xC2B2AE3D27D4, 0xC2B2AE3D27D4, (14, 11, 4, 15), (14, 11, 4, 15));
    StandsVal(P2, PRIME2);
  }

  lemma Prime3Reads()
    ensures Val(PRIME3) == P3
  {
    hide Stands, Val;
    Digits();
    FourStands(0, 0, (1, 6, 5, 6), (1, 6, 5, 6));
    FourStands(0x1656, 0x1656, (6, 7, 11, 1), (6, 7, 11, 1));
    FourStands(0x165667B1, 0x165667B1, (9, 14, 3, 7), (9, 14, 3, 7));
    FourStands(0x165667B19E37, 0x165667B19E37, (7, 9, 15, 9), (7, 9, 15, 9));
    StandsVal(P3, PRIME3);
  }

  lemma Prime4Reads()
    ensures Val(PRIME4) == P4
  {
    hide Stands, Val;
    Digits();
    FourStands(0, 0, (8, 5, 14, 11), (8, 5, 14, 11));
    FourStands(0x85EB, 0x85EB, (12, 10, 7, 7), (12, 10, 7, 7));
    FourStands(0x85EBCA77, 0x85EBCA77, (12, 2, 11, 2), (12, 2, 11, 2));
    FourStands(0x85EBCA77C2B2, 0x85EBCA77C2B2, (10, 14, 6, 3), (10, 14, 6, 3));
    StandsVal(P4, PRIME4);
  }

  lemma Prime5Reads()
    ensures Val(PRIME5) == P5
  {
    hide Stands, Val;
    Digits();
    FourStands(0, 0, (2, 7, 13, 4), (2, 7, 13, 4));
    FourStands(0x27D4, 0x27D4, (14, 11, 2, 15), (14, 11, 2, 15));
    FourStands(0x27D4EB2F, 0x27D4EB2F, (1, 6, 5, 6), (1, 6, 5, 6));
    FourStands(0x27D4EB2F1656, 0x27D4EB2F1656, (6, 7, 12, 5), (6, 7, 12, 5));
    StandsVal(P5, PRIME5);
  }

  lemma PrimesRead()
    ensures Val(PRIME1) == P1 && Val(PRIME2) == P2 && Val(PRIME3) == P3 && Val(PRIME4) == P4 && Val(PRIME5) == P5
  {
    Prime1Reads();
    Prime2Reads();
    Prime3Reads();
    Prime4Reads();
    Prime5Reads();
  }

  // The steps, read in integers.

  function MulN(a: nat, b: nat): nat { a * b % W64 }

  /** Add input times a prime, rotate, multiply by a prime. */
  function RoundN(acc: nat, n: nat): nat {
    Rot((acc + n * P2 % W64) % W64, 31, 64) * P1 % W64
  }

  lemma RoundReads(acc: Word, input: Word)
    ensures Val(Round(acc, input)) == RoundN(Val(acc), Val(input))
  {
    hide Times, Plus, Rotl, Val, Rot;
    PrimesRead();
    var s := Plus(acc, Times(input, PRIME2));
    MulVal(input, PRIME2);
    AddVal(acc, Times(input, PRIME2));
    RotlVal(s, 31);
    MulVal(Rotl(s, 31), PRIME1);
  }

  /** Exclusive or, rotation, product and sum. */
  function Turn(h: nat, n: nat, r: nat, p: nat, q: nat): nat
    requires r <= 64
  {
    (Rot(XorN(h, n), r, 64) * p % W64 + q) % W64
  }

  lemma TurnReads(h: Word, n: Word, r: bv7, p: Word, q: Word)
    requires 0 < r < 64
    ensures r as nat < 64 && Val(Plus(Times(Rotl(Xor(h, n), r), p), q)) ==
            Turn(Val(h), Val(n), r as nat, Val(p), Val(q))
  {
    hide Times, Plus, Rotl, Xor, Val, Rot, XorN;
    XorVal(h, n);
    RotlVal(Xor(h, n), r);
    MulVal(Rotl(Xor(h, n), r), p);
    AddVal(Times(Rotl(Xor(h, n), r), p), q);
  }

  lemma WordStepReads(h: Word, bs: seq<Byte>)
    requires |bs| == 8
    ensures Val(WordStep(h, bs)) == Turn(Val(h), RoundN(0, Val(Read(bs))), 27, P1, P4)
  {
    hide Times, Plus, Rotl, Xor, Val, Turn, RoundN, Read, Round;
    PrimesRead();
    ZeroVal(0);
    RoundReads(0, Read(bs));
    TurnReads(h, Round(0, Read(bs)), 27, PRIME1, PRIME4);
  }

  lemma HalfStepReads(h: Word, bs: seq<Byte>)
    requires |bs| == 4
    ensures var w := Times(Read4(bs), PRIME1);
            Val(w) == MulN(Val(Read4(bs)), P1) && Val(HalfStep(h, bs)) == Turn(Val(h), Val(w), 23, P2, P3)
  {
    hide Times, Plus, Rotl, Xor, Val, Turn, Read4;
    PrimesRead();
    MulVal(Read4(bs), PRIME1);
    TurnReads(h, Times(Read4(bs), PRIME1), 23, PRIME2, PRIME3);
  }

  lemma ByteStepReads(h: Word, b: Byte)
    ensures Val(ByteStep(h, b)) == Rot(XorN(Val(h), MulN(Val(b as Word), P5)), 11, 64) * P1 % W64
  {
    hide Times, Plus, Rotl, Xor, Val, Rot, XorN;
    PrimesRead();
    var n := Times(b as Word, PRIME5);
    MulVal(b as Word, PRIME5);
    XorVal(h, n);
    RotlVal(Xor(h, n), 11);
    MulVal(Rotl(Xor(h, n), 11), PRIME1);
  }

  lemma MergeRoundReads(acc: Word, val: Word)
    ensures Val(MergeRound(acc, val)) == (XorN(Val(acc), RoundN(0, Val(val))) * P1 % W64 + P4) % W64
  {
    hide Times, Plus, Xor, Val, XorN, RoundN, Round;
    PrimesRead();
    ZeroVal(0);
    RoundReads(0, val);
    var x := Xor(acc, Round(0, val));
    XorVal(acc, Round(0, val));
    MulVal(x, PRIME1);
    AddVal(Times(x, PRIME1), PRIME4);
  }

  lemma StartReads(seed: Word)
    ensures var a, s := Start(seed), Val(seed);
            && Val(a.v1) == (s + P1 + P2) % W64 && Val(a.v2) == (s + P2) % W64 && Val(a.v3) == s
            && (Val(a.v4) + P1) % W64 == s
  {
    PrimesRead();
    StartIs(seed);
    hide Plus, Val, Start;
    AddVal(seed, PRIME1);
    AddVal(Plus(seed, PRIME1), PRIME2);
    AddVal(seed, PRIME2);
    AddVal(Start(seed).v4, PRIME1);
    ModAdd(Val(seed) + P1, P2);
  }

  lemma StartIs(seed: Word)
    ensures var a := Start(seed);
            && a.v1 == Plus(Plus(seed, PRIME1), PRIME2) && a.v2 == Plus(seed, PRIME2) && a.v3 == seed
            && Plus(a.v4, PRIME1) == seed
  {
    hide Plus, Minus;
    Zeros(seed);
    BackUp(seed);
  }

  lemma BackUp(x: Word)
    ensures Plus(Minus(x, PRIME1), PRIME1) == x
  {
    hide Plus, Minus;
    MinusIs(x);
    BackUpIs(x);
  }

  lemma MinusIs(x: Word)
    ensures Minus(x, PRIME1) == x - PRIME1
  {
  }

  lemma BackUpIs(x: Word)
    ensures Plus(x - PRIME1, PRIME1) == x
  {
    assert Plus(x - PRIME1, PRIME1) == (x - 11400714785074694791) + 11400714785074694791;
  }

  /** A word and its upper bits, mixed. */
  function Mixed(n: nat, k: nat): nat { XorN(n, Div(n, Pow2(k))) }

  lemma MixReads(h: Word, k: bv7)
    requires k < 64
    ensures k as nat < 64 && Val(Xor(h, Shr(h, k))) == Mixed(Val(h), k as nat)
  {
    hide Val, Xor, Shr, XorN, Pow2;
    Distances(k);
    ShrVal(h, k);
    XorVal(h, Shr(h, k));
  }

  lemma AvalancheReads(h: Word)
    ensures Val(Avalanche(h)) == Mixed(Mixed(Mixed(Val(h), 33) * P2 % W64, 29) * P3 % W64, 32)
  {
    hide Val, Xor, Shr, Mixed, Times;
    var m := Xor(h, Shr(h, 33));
    var h1 := Times(m, PRIME2);
    var m1 := Xor(h1, Shr(h1, 29));
    var h2 := Times(m1, PRIME3);
    PrimesRead();
    MixReads(h, 33);
    MulVal(m, PRIME2);
    MixReads(h1, 29);
    MulVal(m1, PRIME3);
    MixReads(h2, 32);
  }

  /** Bytes are read with the lowest one first. */
  lemma ReadReads(bs: seq<Byte>)
    requires |bs| == 8
    ensures Val(Read(bs)) == Val32(Narrow.Read(bs[..4])) + W32 * Val32(Narrow.Read(bs[4..]))
  {
    hide Val, Up, Joined, Read4, Narrow.Read;
    var a, b := Narrow.Read(bs[..4]), Narrow.Read(bs[4..]);
    Read4Is(bs[..4]);
    Read4Is(bs[4..]);
    Bound32(a);
    Bound32(b);
    JoinedVal(a, b);
  }

  lemma Read4Is(bs: seq<Byte>)
    requires |bs| == 4
    ensures Read4(bs) == Up(Narrow.Read(bs))
  {
  }

  lemma JoinedVal(a: bv32, b: bv32)
    ensures Val(Joined(Up(a), Up(b))) == Val32(a) + W32 * Val32(b)
  {
    hide Val, Up, Joined, Plus, Shl;
    JoinedIs(a, b);
    ShlVal(Up(b), 32);
    AddVal(Up(a), Shl(Up(b), 32));
    PowIs64();
    Bound32(a);
    Bound32(b);
    NoCarry(Val32(a), Val32(b));
  }

  lemma NoCarry(a: nat, b: nat)
    requires a < W32 && b < W32
    ensures (a + b * W32 % W64) % W64 == a + W32 * b
  {
    assert b * W32 < W64;
  }

  lemma JoinedIs(a: bv32, b: bv32)
    ensures Joined(Up(a), Up(b)) == Plus(Up(a), Shl(Up(b), 32))
  {
    assert (a as bv64) | ((b as bv64) << 32) == (a as bv64) + ((b as bv64) << 32);
  }

  // Which steps lose nothing.

  /** The inverses of the primes modulo 2^64. */
  const I1: nat := 614540362697595703
  const I2: nat := 839798700976720815
  const I3: nat := 16855272203555305545
  const I4: nat := 15596783062780822347
  const I5: nat := 14236653164957433613

  lemma Inverses()
    ensures P1 * I1 % W64 == 1 && P2 * I2 % W64 == 1 && P3 * I3 % W64 == 1 && P4 * I4 % W64 == 1 && P5 * I5 % W64 == 1
  {
  }

  /** The same value after a round: from the same accumulator only the same input, from the same input only the same
      accumulator. */
  lemma SameRound(g: Word, h: Word, m: Word, n: Word)
    requires Round(g, m) == Round(h, n)
    ensures g == h <==> m == n
  {
    hide Times, Plus, Rotl, Val;
    PrimesRead();
    Inverses();
    var a, b := Times(m, PRIME2), Times(n, PRIME2);
    SameTimes(Rotl(Plus(g, a), 31), Rotl(Plus(h, b), 31), PRIME1, I1);
    SameRotl(Plus(g, a), Plus(h, b), 31);
    if g == h {
      SamePlus(g, a, b);
      SameTimes(m, n, PRIME2, I2);
    }
    if m == n {
      PlusOrder(g, a);
      PlusOrder(h, a);
      SamePlus(a, g, h);
    }
  }

  lemma SameTurn(g: Word, h: Word, m: Word, n: Word, r: bv7, p: Word, q: Word, i: nat)
    requires 0 < r < 64 && Val(p) * i % W64 == 1
    requires Plus(Times(Rotl(Xor(g, m), r), p), q) == Plus(Times(Rotl(Xor(h, n), r), p), q)
    ensures g == h <==> m == n
  {
    hide Times, Plus, Rotl, Xor, Val;
    var a, b := Times(Rotl(Xor(g, m), r), p), Times(Rotl(Xor(h, n), r), p);
    PlusOrder(a, q);
    PlusOrder(b, q);
    SamePlus(q, a, b);
    SameTimes(Rotl(Xor(g, m), r), Rotl(Xor(h, n), r), p, i);
    SameRotl(Xor(g, m), Xor(h, n), r);
    if g == h {
      SameXor(g, m, n);
    }
    if m == n {
      SameXor(m, g, h);
    }
  }

  lemma SameWordStep(g: Word, h: Word, m: seq<Byte>, n: seq<Byte>)
    requires |m| == |n| == 8 && WordStep(g, m) == WordStep(h, n)
    ensures g == h <==> m == n
  {
    hide Times, Plus, Rotl, Xor, Val, Read, Round;
    PrimesRead();
    Inverses();
    SameTurn(g, h, Round(0, Read(m)), Round(0, Read(n)), 27, PRIME1, PRIME4, I1);
    if Round(0, Read(m)) == Round(0, Read(n)) {
      SameRound(0, 0, Read(m), Read(n));
      SameRead(m, n);
    }
  }

  lemma SameHalfStep(g: Word, h: Word, m: seq<Byte>, n: seq<Byte>)
    requires |m| == |n| == 4 && HalfStep(g, m) == HalfStep(h, n)
    ensures g == h <==> m == n
  {
    hide Times, Plus, Rotl, Xor, Val, Read4;
    PrimesRead();
    Inverses();
    SameTurn(g, h, Times(Read4(m), PRIME1), Times(Read4(n), PRIME1), 23, PRIME2, PRIME3, I2);
    if Times(Read4(m), PRIME1) == Times(Read4(n), PRIME1) {
      SameTimes(Read4(m), Read4(n), PRIME1, I1);
      SameRead4(m, n);
    }
  }

  lemma SameByteStep(g: Word, h: Word, b: Byte, c: Byte)
    requires ByteStep(g, b) == ByteStep(h, c)
    ensures g == h <==> b == c
  {
    hide Times, Plus, Rotl, Xor, Val;
    PrimesRead();
    Inverses();
    var m, n := Times(b as Word, PRIME5), Times(c as Word, PRIME5);
    SameTimes(Rotl(Xor(g, m), 11), Rotl(Xor(h, n), 11), PRIME1, I1);
    SameRotl(Xor(g, m), Xor(h, n), 11);
    if g == h {
      SameXor(g, m, n);
      SameTimes(b as Word, c as Word, PRIME5, I5);
    }
    SameByte(b, c);
    if m == n {
      SameXor(m, g, h);
    }
  }

  lemma SameByte(b: Byte, c: Byte)
    ensures b as Word == c as Word <==> b == c
  {
  }

  lemma SameRead4(m: seq<Byte>, n: seq<Byte>)
    requires |m| == |n| == 4 && Read4(m) == Read4(n)
    ensures m == n
  {
  }

  lemma SameRead(m: seq<Byte>, n: seq<Byte>)
    requires |m| == |n| == 8 && Read(m) == Read(n)
    ensures m == n
  {
    hide Read4, Low, Joined;
    Small4(m[..4]);
    Small4(m[4..]);
    Small4(n[..4]);
    Small4(n[4..]);
    SameHalves(Read4(m[..4]), Read4(m[4..]), Read4(n[..4]), Read4(n[4..]));
    SameRead4(m[..4], n[..4]);
    SameRead4(m[4..], n[4..]);
    assert m == m[..4] + m[4..] && n == n[..4] + n[4..];
  }

  lemma Small4(m: seq<Byte>)
    requires |m| == 4
    ensures Low(Read4(m)) == Read4(m)
  {
  }

  lemma SameHalves(a: Word, b: Word, c: Word, d: Word)
    requires Low(a) == a && Low(b) == b && Low(c) == c && Low(d) == d && Joined(a, b) == Joined(c, d)
    ensures a == c && b == d
  {
  }

  /** Merging in an accumulator can be undone if the accumulator is known. */
  lemma SameMergeRound(g: Word, h: Word, m: Word, n: Word)
    ensures MergeRound(g, m) == MergeRound(h, n) <==> Xor(g, Round(0, m)) == Xor(h, Round(0, n))
  {
    hide Times, Plus, Xor, Val, Round;
    PrimesRead();
    Inverses();
    var a, b := Xor(g, Round(0, m)), Xor(h, Round(0, n));
    if MergeRound(g, m) == MergeRound(h, n) {
      PlusOrder(Times(a, PRIME1), PRIME4);
      PlusOrder(Times(b, PRIME1), PRIME4);
      SamePlus(PRIME4, Times(a, PRIME1), Times(b, PRIME1));
      SameTimes(a, b, PRIME1, I1);
    }
  }

  lemma SameAvalanche(g: Word, h: Word)
    requires Avalanche(g) == Avalanche(h)
    ensures g == h
  {
    hide Times, Xor, Shr, Val;
    var a, b := Xor(g, Shr(g, 33)), Xor(h, Shr(h, 33));
    var g1, h1 := Times(a, PRIME2), Times(b, PRIME2);
    var c, d := Xor(g1, Shr(g1, 29)), Xor(h1, Shr(h1, 29));
    var g2, h2 := Times(c, PRIME3), Times(d, PRIME3);
    PrimesRead();
    Inverses();
    SameMix32(g2, h2);
    SameTimes(c, d, PRIME3, I3);
    SameMix29(g1, h1);
    SameTimes(a, b, PRIME2, I2);
    SameMix33(g, h);
  }
}
