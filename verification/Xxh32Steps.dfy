/** The steps of XXH32 in integers modulo 2^32, and which of them lose nothing (apps/cuckoo-lb/xxhash.c:263-323). */
module Xxh32Steps {
  import opened Stripes
  import opened Words
  import opened WordInverse
  import opened Xxh32

  const P1: nat := 2654435761
  const P2: nat := 2246822519
  const P3: nat := 3266489917
  const P4: nat := 668265263
  const P5: nat := 374761393

  lemma PrimesRead()
    ensures Val32(PRIME1) == P1 && Val32(PRIME2) == P2 && Val32(PRIME3) == P3 && Val32(PRIME4) == P4
    ensures Val32(PRIME5) == P5
  {
    hide Stands, Val;
    Digits();
    FourStands(0, 0, (9, 14, 3, 7), (9, 14, 3, 7));
    FourStands(0x9E37, 0x9E37, (7, 9, 11, 1), (7, 9, 11, 1));
    StandsVal(0x9E3779B1, 0x9E3779B1);
    FourStands(0, 0, (8, 5, 14, 11), (8, 5, 14, 11));
    FourStands(0x85EB, 0x85EB, (12, 10, 7, 7), (12, 10, 7, 7));
    StandsVal(0x85EBCA77, 0x85EBCA77);
    FourStands(0, 0, (12, 2, 11, 2), (12, 2, 11, 2));
    FourStands(0xC2B2, 0xC2B2, (10, 14, 3, 13), (10, 14, 3, 13));
    StandsVal(0xC2B2AE3D, 0xC2B2AE3D);
    FourStands(0, 0, (2, 7, 13, 4), (2, 7, 13, 4));
    FourStands(0x27D4, 0x27D4, (14, 11, 2, 15), (14, 11, 2, 15));
    StandsVal(0x27D4EB2F, 0x27D4EB2F);
    FourStands(0, 0, (1, 6, 5, 6), (1, 6, 5, 6));
    FourStands(0x1656, 0x1656, (6, 7, 11, 1), (6, 7, 11, 1));
    StandsVal(0x165667B1, 0x165667B1);
  }

  // The steps, read in integers.

  /** Add input times a prime, rotate, multiply by a prime. */
  function Turn(h: nat, n: nat, p: nat, r: nat, q: nat): nat
    requires r <= 32
  {
    Rot((h + n * p % W32) % W32, r, 32) * q % W32
  }

  lemma TurnReads(h: Word, n: Word, p: Word, r: bv6, q: Word)
    requires 0 < r < 32
    ensures r as nat < 32 && Val32(Times32(Rotl32(Plus32(h, Times32(n, p)), r), q)) ==
            Turn(Val32(h), Val32(n), Val32(p), r as nat, Val32(q))
  {
    hide Times32, Plus32, Rotl32, Val32, Rot;
    var s := Plus32(h, Times32(n, p));
    MulVal32(n, p);
    AddVal32(h, Times32(n, p));
    RotlVal32(s, r);
    MulVal32(Rotl32(s, r), q);
  }

  lemma RoundReads(acc: Word, input: Word)
    ensures Val32(Round(acc, input)) == Turn(Val32(acc), Val32(input), P2, 13, P1)
  {
    hide Times32, Plus32, Rotl32, Val32, Turn;
    PrimesRead();
    TurnReads(acc, input, PRIME2, 13, PRIME1);
  }

  lemma WordStepReads(h: Word, bs: seq<Byte>)
    requires |bs| == 4
    ensures Val32(WordStep(h, bs)) == Turn(Val32(h), Val32(Read(bs)), P3, 17, P4)
  {
    hide Times32, Plus32, Rotl32, Val32, Turn, Read;
    PrimesRead();
    TurnReads(h, Read(bs), PRIME3, 17, PRIME4);
  }

  lemma ByteStepReads(h: Word, b: Byte)
    ensures Val32(ByteStep(h, b)) == Turn(Val32(h), Val32(b as Word), P5, 11, P1)
  {
    hide Times32, Plus32, Rotl32, Val32, Turn;
    PrimesRead();
    TurnReads(h, b as Word, PRIME5, 11, PRIME1);
  }

  lemma StartReads(seed: Word)
    ensures var a, s := Start(seed), Val32(seed);
            && Val32(a.v1) == (s + P1 + P2) % W32 && Val32(a.v2) == (s + P2) % W32 && Val32(a.v3) == s
            && (Val32(a.v4) + P1) % W32 == s
  {
    PrimesRead();
    StartIs(seed);
    hide Plus32, Val32, Start;
    AddVal32(seed, PRIME1);
    AddVal32(Plus32(seed, PRIME1), PRIME2);
    AddVal32(seed, PRIME2);
    AddVal32(Start(seed).v4, PRIME1);
  }

  lemma StartIs(seed: Word)
    ensures var a := Start(seed);
            && a.v1 == Plus32(Plus32(seed, PRIME1), PRIME2) && a.v2 == Plus32(seed, PRIME2) && a.v3 == seed
            && Plus32(a.v4, PRIME1) == seed
  {
    hide Plus32;
    NoSum(seed);
    BackUp(seed);
  }

  lemma NoSum(x: Word)
    ensures Plus32(x, 0) == x
  {
  }

  lemma BackUp(x: Word)
    ensures Plus32(x - PRIME1, PRIME1) == x
  {
    assert Plus32(x - PRIME1, PRIME1) == (x - 2654435761) + 2654435761;
  }

  lemma MergeReads(a: Acc)
    ensures Val32(Merge(a)) == (Rot(Val32(a.v1), 1, 32) + Rot(Val32(a.v2), 7, 32) + Rot(Val32(a.v3), 12, 32) +
                                Rot(Val32(a.v4), 18, 32)) % W32
  {
    hide Plus32, Rotl32, Val32, Rot;
    var b, c, d, e := Rotl32(a.v1, 1), Rotl32(a.v2, 7), Rotl32(a.v3, 12), Rotl32(a.v4, 18);
    RotlVal32(a.v1, 1);
    RotlVal32(a.v2, 7);
    RotlVal32(a.v3, 12);
    RotlVal32(a.v4, 18);
    AddVal32(b, c);
    AddVal32(Plus32(b, c), d);
    AddVal32(Plus32(Plus32(b, c), d), e);
    FourTerms(Val32(b), Val32(c), Val32(d), Val32(e));
  }

  lemma FourTerms(a: nat, b: nat, c: nat, d: nat)
    ensures (((a + b) % W32 + c) % W32 + d) % W32 == (a + b + c + d) % W32
  {
    ModStep(a + b, c);
    ModStep(a + b + c, d);
  }

  lemma ModStep(a: nat, b: nat)
    ensures (a % W32 + b) % W32 == (a + b) % W32
  {
    var q, r := a / W32, a % W32;
    assert a + b == W32 * q + (r + b);
  }

  /** A word and its upper bits, mixed. */
  function Mixed(n: nat, k: nat): nat { XorN(n, Div(n, Pow2(k))) }

  lemma MixReads(h: Word, k: bv6)
    requires k < 32
    ensures k as nat < 32 && Val32(Xor32(h, Shr32(h, k))) == Mixed(Val32(h), k as nat)
  {
    hide Val32, Xor32, Shr32, XorN, Pow2;
    ShrVal32(h, k);
    XorVal32(h, Shr32(h, k));
  }

  lemma AvalancheReads(h: Word)
    ensures Val32(Avalanche(h)) ==
            Mixed(Mixed(Mixed(Val32(h), 15) * P2 % W32, 13) * P3 % W32, 16)
  {
    hide Val32, Xor32, Shr32, Mixed, Times32;
    var m := Xor32(h, Shr32(h, 15));
    var h1 := Times32(m, PRIME2);
    var m1 := Xor32(h1, Shr32(h1, 13));
    var h2 := Times32(m1, PRIME3);
    PrimesRead();
    MixReads(h, 15);
    MulVal32(m, PRIME2);
    MixReads(h1, 13);
    MulVal32(m1, PRIME3);
    MixReads(h2, 16);
  }

  /** Bytes are read with the lowest one first. */
  lemma ReadReads(bs: seq<Byte>)
    requires |bs| == 4
    ensures Val32(Read(bs)) == Val32(bs[0] as Word) + 256 * Val32(bs[1] as Word) + 0x1_0000 * Val32(bs[2] as Word) +
                               0x100_0000 * Val32(bs[3] as Word)
  {
    hide Val32, Read;
    ByteBound(bs[0]);
    ByteBound(bs[1]);
    ByteBound(bs[2]);
    ByteBound(bs[3]);
    ReadSum(bs);
    NoWrap(Val32(bs[0] as Word), Val32(bs[1] as Word), Val32(bs[2] as Word), Val32(bs[3] as Word));
  }

  lemma ReadSum(bs: seq<Byte>)
    requires |bs| == 4
    ensures Val32(Read(bs)) == (Val32(bs[0] as Word) + Val32(bs[1] as Word) * 256 % W32 +
                                Val32(bs[2] as Word) * 0x1_0000 % W32 + Val32(bs[3] as Word) * 0x100_0000 % W32) % W32
  {
    hide Val32, Plus32, Times32, Read;
    var a, b, c, d := bs[0] as Word, bs[1] as Word, bs[2] as Word, bs[3] as Word;
    ReadIs(bs);
    PowersRead();
    MulVal32(b, 256);
    MulVal32(c, 0x1_0000);
    MulVal32(d, 0x100_0000);
    var x, y, z := Times32(b, 256), Times32(c, 0x1_0000), Times32(d, 0x100_0000);
    AddVal32(a, x);
    AddVal32(Plus32(a, x), y);
    AddVal32(Plus32(Plus32(a, x), y), z);
    FourTerms(Val32(a), Val32(x), Val32(y), Val32(z));
  }

  lemma NoWrap(a: nat, b: nat, c: nat, d: nat)
    requires a < 256 && b < 256 && c < 256 && d < 256
    ensures b * 256 % W32 == 256 * b && c * 0x1_0000 % W32 == 0x1_0000 * c && d * 0x100_0000 % W32 == 0x100_0000 * d
    ensures (a + 256 * b + 0x1_0000 * c + 0x100_0000 * d) % W32 == a + 256 * b + 0x1_0000 * c + 0x100_0000 * d
  {
  }

  lemma ReadIs(bs: seq<Byte>)
    requires |bs| == 4
    ensures Read(bs) == Plus32(Plus32(Plus32(bs[0] as Word, Times32(bs[1] as Word, 256)),
                                      Times32(bs[2] as Word, 0x1_0000)), Times32(bs[3] as Word, 0x100_0000))
  {
  }

  lemma PowersRead()
    ensures Val32(256) == 256 && Val32(0x1_0000) == 0x1_0000 && Val32(0x100_0000) == 0x100_0000 && Val32(0) == 0
  {
    hide Stands, Val;
    Digits();
    FourStands(0, 0, (0, 1, 0, 0), (0, 1, 0, 0));
    StandsVal(0x100, 0x100);
    FourStands(1, 1, (0, 0, 0, 0), (0, 0, 0, 0));
    StandsVal(0x1_0000, 0x1_0000);
    FourStands(0x100, 0x100, (0, 0, 0, 0), (0, 0, 0, 0));
    StandsVal(0x100_0000, 0x100_0000);
    StandsVal(0, 0);
  }

  lemma ByteBound(b: Byte)
    ensures Val32(b as Word) < 256
  {
    hide Val32, Shr32, Pow2;
    ShrVal32(b as Word, 8);
    ByteSmall(b);
    PowersRead();
    PowIs64();
  }

  lemma ByteSmall(b: Byte)
    ensures Shr32(b as Word, 8) == 0
  {
  }

  // Which steps lose nothing.

  /** The inverses of the primes modulo 2^32. */
  const I1: nat := 244002641
  const I2: nat := 3066638151
  const I3: nat := 2828982549
  const I4: nat := 2701016015
  const I5: nat := 2923004241

  lemma Inverses()
    ensures P1 * I1 % W32 == 1 && P2 * I2 % W32 == 1 && P3 * I3 % W32 == 1 && P4 * I4 % W32 == 1 && P5 * I5 % W32 == 1
  {
  }

  /** The same value after a turn: from the same accumulator only the same input, from the same input only the same
      accumulator. */
  lemma SameTurn(g: Word, h: Word, m: Word, n: Word, p: Word, r: bv6, q: Word, i: nat, j: nat)
    requires 0 < r < 32 && Val32(p) * i % W32 == 1 && Val32(q) * j % W32 == 1
    requires Times32(Rotl32(Plus32(g, Times32(m, p)), r), q) == Times32(Rotl32(Plus32(h, Times32(n, p)), r), q)
    ensures g == h <==> m == n
  {
    hide Times32, Plus32, Rotl32, Val32;
    var a, b := Times32(m, p), Times32(n, p);
    SameTimes32(Rotl32(Plus32(g, a), r), Rotl32(Plus32(h, b), r), q, j);
    SameRotl32(Plus32(g, a), Plus32(h, b), r);
    if g == h {
      SamePlus32(g, a, b);
      SameTimes32(m, n, p, i);
    }
    if m == n {
      PlusOrder32(g, a);
      PlusOrder32(h, a);
      SamePlus32(a, g, h);
    }
  }

  lemma SameRound(g: Word, h: Word, m: Word, n: Word)
    requires Round(g, m) == Round(h, n)
    ensures g == h <==> m == n
  {
    hide Times32, Plus32, Rotl32, Val32;
    PrimesRead();
    Inverses();
    SameTurn(g, h, m, n, PRIME2, 13, PRIME1, I2, I1);
  }

  lemma SameWordStep(g: Word, h: Word, m: seq<Byte>, n: seq<Byte>)
    requires |m| == |n| == 4 && WordStep(g, m) == WordStep(h, n)
    ensures g == h <==> m == n
  {
    hide Times32, Plus32, Rotl32, Val32, Read;
    PrimesRead();
    Inverses();
    SameTurn(g, h, Read(m), Read(n), PRIME3, 17, PRIME4, I3, I4);
    if Read(m) == Read(n) {
      SameRead(m, n);
    }
  }

  lemma SameRead(m: seq<Byte>, n: seq<Byte>)
    requires |m| == |n| == 4 && Read(m) == Read(n)
    ensures m == n
  {
  }

  lemma SameByteStep(g: Word, h: Word, b: Byte, c: Byte)
    requires ByteStep(g, b) == ByteStep(h, c)
    ensures g == h <==> b == c
  {
    hide Times32, Plus32, Rotl32, Val32;
    PrimesRead();
    Inverses();
    SameTurn(g, h, b as Word, c as Word, PRIME5, 11, PRIME1, I5, I1);
    SameByte(b, c);
  }

  lemma SameByte(b: Byte, c: Byte)
    ensures b as Word == c as Word <==> b == c
  {
  }

  lemma SameAvalanche(g: Word, h: Word)
    requires Avalanche(g) == Avalanche(h)
    ensures g == h
  {
    hide Times32, Xor32, Shr32, Val32;
    var a, b := Xor32(g, Shr32(g, 15)), Xor32(h, Shr32(h, 15));
    var g1, h1 := Times32(a, PRIME2), Times32(b, PRIME2);
    var c, d := Xor32(g1, Shr32(g1, 13)), Xor32(h1, Shr32(h1, 13));
    var g2, h2 := Times32(c, PRIME3), Times32(d, PRIME3);
    PrimesRead();
    Inverses();
    SameMix16(g2, h2);
    SameTimes32(c, d, PRIME3, I3);
    SameMix13(g1, h1);
    SameTimes32(a, b, PRIME2, I2);
    SameMix15(g, h);
  }
}
