/** Published values of both hashes, which take every branch of the end of the input, and two inputs of one stripe
    that differ in their first lane and have the same XXH64 (apps/cuckoo-lb/xxhash.c:271-325, 642-708). */
module XxhValues {
  import opened Stripes
  import opened Words
  import H = Xxh32
  import G = Xxh64
  import Differs = Xxh64Differs

  // One step at a time.

  lemma Stripe32(a: H.Acc, head: seq<Byte>, tail: seq<Byte>)
    requires |head| == H.STRIPE
    ensures Fold(H.Stripe, H.STRIPE, a, head + tail) == Fold(H.Stripe, H.STRIPE, H.Stripe(a, head), tail)
    ensures Rest(H.STRIPE, head + tail) == Rest(H.STRIPE, tail)
  {
    hide H.Stripe;
    assert (head + tail)[..H.STRIPE] == head && (head + tail)[H.STRIPE..] == tail;
  }

  lemma Short32(a: H.Acc, bs: seq<Byte>)
    requires |bs| < H.STRIPE
    ensures Fold(H.Stripe, H.STRIPE, a, bs) == a && Rest(H.STRIPE, bs) == bs
  {
  }

  lemma Lanes32(a: H.Acc, bs: seq<Byte>, w: seq<Byte>, x: seq<Byte>, y: seq<Byte>, z: seq<Byte>)
    requires |w| == |x| == |y| == |z| == 4 && bs == w + x + y + z
    ensures H.Stripe(a, bs) == H.Acc(H.Round(a.v1, H.Read(w)), H.Round(a.v2, H.Read(x)),
                                 H.Round(a.v3, H.Read(y)), H.Round(a.v4, H.Read(z)))
  {
    hide H.Round, H.Read;
    var n := 4;
    assert bs[..n] == w && bs[n..2 * n] == x && bs[2 * n..3 * n] == y && bs[3 * n..4 * n] == z;
  }

  lemma Word32(h: H.Word, all: seq<Byte>, w: seq<Byte>, bs: seq<Byte>)
    requires |w| == 4 && all == w + bs
    ensures H.Finish(h, all) == H.Finish(H.WordStep(h, w), bs)
  {
    hide H.WordStep;
    assert all[..4] == w && all[4..] == bs;
  }

  lemma Byte32(h: H.Word, all: seq<Byte>, b: Byte, bs: seq<Byte>)
    requires |bs| < 3 && all == [b] + bs
    ensures H.Finish(h, all) == H.Finish(H.ByteStep(h, b), bs)
  {
    hide H.ByteStep;
    assert all[1..] == bs;
  }

  lemma End32(h: H.Word)
    ensures H.Finish(h, []) == H.Avalanche(h)
  {
    hide H.Avalanche;
  }

  lemma Stripe64(a: G.Acc, head: seq<Byte>, tail: seq<Byte>)
    requires |head| == G.STRIPE
    ensures Fold(G.Stripe, G.STRIPE, a, head + tail) == Fold(G.Stripe, G.STRIPE, G.Stripe(a, head), tail)
    ensures Rest(G.STRIPE, head + tail) == Rest(G.STRIPE, tail)
  {
    hide G.Stripe;
    assert (head + tail)[..G.STRIPE] == head && (head + tail)[G.STRIPE..] == tail;
  }

  lemma Short64(a: G.Acc, bs: seq<Byte>)
    requires |bs| < G.STRIPE
    ensures Fold(G.Stripe, G.STRIPE, a, bs) == a && Rest(G.STRIPE, bs) == bs
  {
  }

  lemma Lanes64(a: G.Acc, bs: seq<Byte>, w: seq<Byte>, x: seq<Byte>, y: seq<Byte>, z: seq<Byte>)
    requires |w| == |x| == |y| == |z| == 8 && bs == w + x + y + z
    ensures G.Stripe(a, bs) == G.Acc(G.Round(a.v1, G.Read(w)), G.Round(a.v2, G.Read(x)),
                                 G.Round(a.v3, G.Read(y)), G.Round(a.v4, G.Read(z)))
  {
    hide G.Round, G.Read;
    var n := 8;
    assert bs[..n] == w && bs[n..2 * n] == x && bs[2 * n..3 * n] == y && bs[3 * n..4 * n] == z;
  }

  lemma Word64(h: G.Word, all: seq<Byte>, w: seq<Byte>, bs: seq<Byte>)
    requires |w| == 8 && all == w + bs
    ensures G.Finish(h, all) == G.Finish(G.WordStep(h, w), bs)
  {
    hide G.WordStep;
    assert all[..8] == w && all[8..] == bs;
  }

  lemma Half64(h: G.Word, all: seq<Byte>, w: seq<Byte>, bs: seq<Byte>)
    requires |w| == 4 && |bs| < 4 && all == w + bs
    ensures G.Finish(h, all) == G.Finish(G.HalfStep(h, w), bs)
  {
    hide G.HalfStep;
    assert all[..4] == w && all[4..] == bs;
  }

  lemma Byte64(h: G.Word, all: seq<Byte>, b: Byte, bs: seq<Byte>)
    requires |bs| < 3 && all == [b] + bs
    ensures G.Finish(h, all) == G.Finish(G.ByteStep(h, b), bs)
  {
    hide G.ByteStep;
    assert all[1..] == bs;
  }

  lemma End64(h: G.Word)
    ensures G.Finish(h, []) == G.Avalanche(h)
  {
    hide G.Avalanche;
  }

  /** "Nobody inspects " */
  function NobodyPart0(): seq<Byte> {
    [78, 111, 98, 111] + [100, 121, 32, 105] + [110, 115, 112, 101] + [99, 116, 115, 32]
  }

  /** "the spammish rep" */
  function NobodyPart1(): seq<Byte> {
    [116, 104, 101, 32] + [115, 112, 97, 109] + [109, 105, 115, 104] + [32, 114, 101, 112]
  }

  /** "etition" */
  function NobodyPart2(): seq<Byte> {
    [101, 116, 105, 116, 105, 111, 110]
  }

  /** "Nobody inspects the spammish repetition": two stripes, a word and three bytes. */
  lemma Nobody()
    ensures H.Hash(NobodyPart0() + NobodyPart1() + NobodyPart2(), 0) == 0xE2293B2F
  {
    NobodySizes();
    hide H.Start, H.Stripe, H.Merge, H.Finish, H.Small, H.AddLength, Fold, Rest, NobodyPart0, NobodyPart1, NobodyPart2;
    NobodyStart();
    var a0 := H.Acc(606290984, 2246822519, 0, 1640531535);
    NobodyStripe0();
    Stripe32(a0, NobodyPart0(), NobodyPart1() + NobodyPart2());
    var a1 := H.Acc(74084362, 3215849699, 1530049706, 327046485);
    NobodyStripe1();
    Stripe32(a1, NobodyPart1(), NobodyPart2());
    assert NobodyPart0() + (NobodyPart1() + NobodyPart2()) == NobodyPart0() + NobodyPart1() + NobodyPart2();
    var a2 := H.Acc(1905951598, 1363942888, 2549762978, 606771106);
    Short32(a2, NobodyPart2());
    NobodyMerge();
    NobodyTail();
  }

  lemma NobodySizes()
    ensures |NobodyPart0()| == 16 && |NobodyPart1()| == 16 && |NobodyPart2()| == 7
  {
  }

  lemma NobodyStart()
    ensures H.Start(0) == H.Acc(606290984, 2246822519, 0, 1640531535)
  {
  }

  lemma NobodyStripe0()
    ensures H.Stripe(H.Acc(606290984, 2246822519, 0, 1640531535), NobodyPart0()) ==
            H.Acc(74084362, 3215849699, 1530049706, 327046485)
  {
    hide H.Round, H.Read, H.Stripe;
    NobodyLane00();
    NobodyLane01();
    NobodyLane02();
    NobodyLane03();
    Lanes32(H.Acc(606290984, 2246822519, 0, 1640531535), NobodyPart0(),
            [78, 111, 98, 111], [100, 121, 32, 105],
            [110, 115, 112, 101], [99, 116, 115, 32]);
  }

  lemma NobodyLane00()
    ensures H.Round(606290984, H.Read([78, 111, 98, 111])) == 74084362
  {
    assert H.Read([78, 111, 98, 111]) == 0x6F626F4E;
  }

  lemma NobodyLane01()
    ensures H.Round(2246822519, H.Read([100, 121, 32, 105])) == 3215849699
  {
    assert H.Read([100, 121, 32, 105]) == 0x69207964;
  }

  lemma NobodyLane02()
    ensures H.Round(0, H.Read([110, 115, 112, 101])) == 1530049706
  {
    assert H.Read([110, 115, 112, 101]) == 0x6570736E;
  }

  lemma NobodyLane03()
    ensures H.Round(1640531535, H.Read([99, 116, 115, 32])) == 327046485
  {
    assert H.Read([99, 116, 115, 32]) == 0x20737463;
  }

  lemma NobodyStripe1()
    ensures H.Stripe(H.Acc(74084362, 3215849699, 1530049706, 327046485), NobodyPart1()) ==
            H.Acc(1905951598, 1363942888, 2549762978, 606771106)
  {
    hide H.Round, H.Read, H.Stripe;
    NobodyLane10();
    NobodyLane11();
    NobodyLane12();
    NobodyLane13();
    Lanes32(H.Acc(74084362, 3215849699, 1530049706, 327046485), NobodyPart1(),
            [116, 104, 101, 32], [115, 112, 97, 109],
            [109, 105, 115, 104], [32, 114, 101, 112]);
  }

  lemma NobodyLane10()
    ensures H.Round(74084362, H.Read([116, 104, 101, 32])) == 1905951598
  {
    assert H.Read([116, 104, 101, 32]) == 0x20656874;
  }

  lemma NobodyLane11()
    ensures H.Round(3215849699, H.Read([115, 112, 97, 109])) == 1363942888
  {
    assert H.Read([115, 112, 97, 109]) == 0x6D617073;
  }

  lemma NobodyLane12()
    ensures H.Round(1530049706, H.Read([109, 105, 115, 104])) == 2549762978
  {
    assert H.Read([109, 105, 115, 104]) == 0x6873696D;
  }

  lemma NobodyLane13()
    ensures H.Round(327046485, H.Read([32, 114, 101, 112])) == 606771106
  {
    assert H.Read([32, 114, 101, 112]) == 0x70657220;
  }

  lemma NobodyMerge()
    ensures H.Merge(H.Acc(1905951598, 1363942888, 2549762978, 606771106)) == 2357638445
    ensures H.AddLength(2357638445, 39) == 2357638484
  {
  }

  lemma NobodyTail()
    ensures H.Finish(2357638484, NobodyPart2()) == 0xE2293B2F
  {
    hide H.Finish;
    NobodyStep1();
    var t1: seq<Byte> := [105, 111, 110];
    Word32(2357638484, NobodyPart2(), [101, 116, 105, 116], t1);
    NobodyStep2();
    var t2: seq<Byte> := [111, 110];
    Byte32(162862404, t1, 105, t2);
    NobodyStep3();
    var t3: seq<Byte> := [110];
    Byte32(3455046601, t2, 111, t3);
    NobodyStep4();
    var t4: seq<Byte> := [];
    Byte32(944900219, t3, 110, t4);
    NobodyEnd();
  }

  lemma NobodyStep1()
    ensures H.WordStep(2357638484, [101, 116, 105, 116]) == 162862404
  {
  }

  lemma NobodyStep2()
    ensures H.ByteStep(162862404, 105) == 3455046601
  {
  }

  lemma NobodyStep3()
    ensures H.ByteStep(3455046601, 111) == 944900219
  {
  }

  lemma NobodyStep4()
    ensures H.ByteStep(944900219, 110) == 3014066459
  {
  }

  lemma NobodyEnd()
    ensures H.Finish(3014066459, []) == 0xE2293B2F
  {
    End32(3014066459);
  }

  function SanityPart0(): seq<Byte> {
    [158, 255, 31, 75, 94, 83, 47, 221, 181, 84, 77, 42, 149, 43]
  }

  /** The first 14 bytes of the buffer of the xxHash sanity checks: a word, half a word, two bytes. */
  lemma Sanity()
    ensures G.Hash(SanityPart0(), 0) == 0xCFFA8DB881BC3A3D
  {
    SanitySizes();
    hide G.Start, G.Stripe, G.Merge, G.Finish, G.Small, G.AddLength, Fold, Rest, SanityPart0;
    SanitySmall();
    Short64(G.Start(0), SanityPart0());
    SanityTail();
  }

  lemma SanitySizes()
    ensures |SanityPart0()| == 14
  {
  }

  lemma SanitySmall()
    ensures G.Small(0) == 2870177450012600261 && G.AddLength(2870177450012600261, 14) == 2870177450012600275
  {
  }

  lemma SanityTail()
    ensures G.Finish(2870177450012600275, SanityPart0()) == 0xCFFA8DB881BC3A3D
  {
    hide G.Finish;
    SanityStep1();
    var t1: seq<Byte> := [181, 84, 77, 42, 149, 43];
    Word64(2870177450012600275, SanityPart0(), [158, 255, 31, 75, 94, 83, 47, 221], t1);
    SanityStep2();
    var t2: seq<Byte> := [149, 43];
    Half64(12941274613914334810, t1, [181, 84, 77, 42], t2);
    SanityStep3();
    var t3: seq<Byte> := [43];
    Byte64(3035973569883421863, t2, 149, t3);
    SanityStep4();
    var t4: seq<Byte> := [];
    Byte64(17058037168889602058, t3, 43, t4);
    SanityEnd();
  }

  lemma SanityStep1()
    ensures G.WordStep(2870177450012600275, [158, 255, 31, 75, 94, 83, 47, 221]) == 12941274613914334810
  {
    var bs: seq<Byte> := [158, 255, 31, 75, 94, 83, 47, 221];
    assert bs[..4] == [158, 255, 31, 75] && bs[4..] == [94, 83, 47, 221];
    assert G.Read(bs) == 0xDD2F535E4B1FFF9E;
    assert G.Round(0, 0xDD2F535E4B1FFF9E) == 15396831868651561477;
  }

  lemma SanityStep2()
    ensures G.HalfStep(12941274613914334810, [181, 84, 77, 42]) == 3035973569883421863
  {
  }

  lemma SanityStep3()
    ensures G.ByteStep(3035973569883421863, 149) == 17058037168889602058
  {
  }

  lemma SanityStep4()
    ensures G.ByteStep(17058037168889602058, 43) == 1327758320756587445
  {
  }

  lemma SanityEnd()
    ensures G.Finish(1327758320756587445, []) == 0xCFFA8DB881BC3A3D
  {
    End64(1327758320756587445);
  }

  /** "Nobody inspects the spammish rep" */
  function SpammishPart0(): seq<Byte> {
    [78, 111, 98, 111, 100, 121, 32, 105] +
    [110, 115, 112, 101, 99, 116, 115, 32] +
    [116, 104, 101, 32, 115, 112, 97, 109] +
    [109, 105, 115, 104, 32, 114, 101, 112]
  }

  /** "etition" */
  function SpammishPart1(): seq<Byte> {
    [101, 116, 105, 116, 105, 111, 110]
  }

  /** "Nobody inspects the spammish repetition": a stripe, half a word and three bytes. */
  lemma Spammish()
    ensures G.Hash(SpammishPart0() + SpammishPart1(), 0) == 0xFBCEA83C8A378BF1
  {
    SpammishSizes();
    hide G.Start, G.Stripe, G.Merge, G.Finish, G.Small, G.AddLength, Fold, Rest, SpammishPart0, SpammishPart1;
    SpammishStart();
    var a0 := G.Acc(6983438078262162902, 14029467366897019727, 0, 7046029288634856825);
    SpammishStripe0();
    Stripe64(a0, SpammishPart0(), SpammishPart1());
    var a1 := G.Acc(3973390001945083467, 1959113162029503183, 14799629111262711754, 2024056041550129738);
    Short64(a1, SpammishPart1());
    SpammishMerge();
    SpammishTail();
  }

  lemma SpammishSizes()
    ensures |SpammishPart0()| == 32 && |SpammishPart1()| == 7
  {
  }

  lemma SpammishStart()
    ensures G.Start(0) == G.Acc(6983438078262162902, 14029467366897019727, 0, 7046029288634856825)
  {
  }

  lemma SpammishStripe0()
    ensures G.Stripe(G.Acc(6983438078262162902, 14029467366897019727, 0, 7046029288634856825), SpammishPart0()) ==
            G.Acc(3973390001945083467, 1959113162029503183, 14799629111262711754, 2024056041550129738)
  {
    hide G.Round, G.Read, G.Stripe;
    SpammishLane00();
    SpammishLane01();
    SpammishLane02();
    SpammishLane03();
    Lanes64(G.Acc(6983438078262162902, 14029467366897019727, 0, 7046029288634856825), SpammishPart0(),
            [78, 111, 98, 111, 100, 121, 32, 105], [110, 115, 112, 101, 99, 116, 115, 32],
            [116, 104, 101, 32, 115, 112, 97, 109], [109, 105, 115, 104, 32, 114, 101, 112]);
  }

  lemma SpammishLane00()
    ensures G.Round(6983438078262162902, G.Read([78, 111, 98, 111, 100, 121, 32, 105])) == 3973390001945083467
  {
    var bs: seq<Byte> := [78, 111, 98, 111, 100, 121, 32, 105];
    assert bs[..4] == [78, 111, 98, 111] && bs[4..] == [100, 121, 32, 105];
    assert G.Read([78, 111, 98, 111, 100, 121, 32, 105]) == 0x692079646F626F4E;
  }

  lemma SpammishLane01()
    ensures G.Round(14029467366897019727, G.Read([110, 115, 112, 101, 99, 116, 115, 32])) == 1959113162029503183
  {
    var bs: seq<Byte> := [110, 115, 112, 101, 99, 116, 115, 32];
    assert bs[..4] == [110, 115, 112, 101] && bs[4..] == [99, 116, 115, 32];
    assert G.Read([110, 115, 112, 101, 99, 116, 115, 32]) == 0x207374636570736E;
  }

  lemma SpammishLane02()
    ensures G.Round(0, G.Read([116, 104, 101, 32, 115, 112, 97, 109])) == 14799629111262711754
  {
    var bs: seq<Byte> := [116, 104, 101, 32, 115, 112, 97, 109];
    assert bs[..4] == [116, 104, 101, 32] && bs[4..] == [115, 112, 97, 109];
    assert G.Read([116, 104, 101, 32, 115, 112, 97, 109]) == 0x6D61707320656874;
  }

  lemma SpammishLane03()
    ensures G.Round(7046029288634856825, G.Read([109, 105, 115, 104, 32, 114, 101, 112])) == 2024056041550129738
  {
    var bs: seq<Byte> := [109, 105, 115, 104, 32, 114, 101, 112];
    assert bs[..4] == [109, 105, 115, 104] && bs[4..] == [32, 114, 101, 112];
    assert G.Read([109, 105, 115, 104, 32, 114, 101, 112]) == 0x706572206873696D;
  }

  lemma SpammishMerge()
    ensures G.Merge(G.Acc(3973390001945083467, 1959113162029503183, 14799629111262711754, 2024056041550129738)) ==
            9579768019787294901
    ensures G.AddLength(9579768019787294901, 39) == 9579768019787294940
  {
    assert G.MergeRound(14185825243590525268, 3973390001945083467) == 3518452451733578052;
    assert G.MergeRound(3518452451733578052, 1959113162029503183) == 16546771031885973144;
    assert G.MergeRound(16546771031885973144, 14799629111262711754) == 18000578893446646125;
    assert G.MergeRound(18000578893446646125, 2024056041550129738) == 9579768019787294901;
  }

  lemma SpammishTail()
    ensures G.Finish(9579768019787294940, SpammishPart1()) == 0xFBCEA83C8A378BF1
  {
    hide G.Finish;
    SpammishStep1();
    var t1: seq<Byte> := [105, 111, 110];
    Half64(9579768019787294940, SpammishPart1(), [101, 116, 105, 116], t1);
    SpammishStep2();
    var t2: seq<Byte> := [111, 110];
    Byte64(11514032289611387151, t1, 105, t2);
    SpammishStep3();
    var t3: seq<Byte> := [110];
    Byte64(8545141950437767700, t2, 111, t3);
    SpammishStep4();
    var t4: seq<Byte> := [];
    Byte64(16927261076649234002, t3, 110, t4);
    SpammishEnd();
  }

  lemma SpammishStep1()
    ensures G.HalfStep(9579768019787294940, [101, 116, 105, 116]) == 11514032289611387151
  {
  }

  lemma SpammishStep2()
    ensures G.ByteStep(11514032289611387151, 105) == 8545141950437767700
  {
  }

  lemma SpammishStep3()
    ensures G.ByteStep(8545141950437767700, 111) == 16927261076649234002
  {
  }

  lemma SpammishStep4()
    ensures G.ByteStep(16927261076649234002, 110) == 2092563352423746596
  {
  }

  lemma SpammishEnd()
    ensures G.Finish(2092563352423746596, []) == 0xFBCEA83C8A378BF1
  {
    End64(2092563352423746596);
  }

  /** The empty input. */
  lemma Empty()
    ensures H.Hash([], 0) == 0x02CC5D05 && G.Hash([], 0) == 0xEF46DB3751D8E999
  {
    assert H.Avalanche(374761393) == 0x02CC5D05;
    assert G.Avalanche(2870177450012600261) == 0xEF46DB3751D8E999;
  }

  // Two inputs with the same XXH64.

  function Zero8(): seq<Byte> { [0, 0, 0, 0, 0, 0, 0, 0] }

  function Stripe1(): seq<Byte> { [163, 188, 170, 137, 221, 247, 236, 71] + Zero8() + Zero8() + Zero8() }

  function Stripe2(): seq<Byte> { [17, 236, 245, 188, 57, 210, 142, 105] + Zero8() + Zero8() + Zero8() }

  lemma Apart()
    ensures |Stripe1()| == |Stripe2()| == 32 && OnlyIn(Stripe1(), Stripe2(), 0, 8)
  {
    assert Stripe1()[..0] == Stripe2()[..0] == [];
    assert Stripe1()[0] != Stripe2()[0];
    assert Stripe1()[8..] == Zero8() + Zero8() + Zero8() == Stripe2()[8..];
  }

  function Acc1(): G.Acc {
    G.Acc(14676387369864855351, 9155312661752487122,
          0, 7888849115720265617)
  }

  function Acc2(): G.Acc {
    G.Acc(4905630811007309584, 9155312661752487122,
          0, 7888849115720265617)
  }

  lemma Lane1()
    ensures G.Round(6983438078262162902, G.Read([163, 188, 170, 137, 221, 247, 236, 71])) == 14676387369864855351
  {
    var bs: seq<Byte> := [163, 188, 170, 137, 221, 247, 236, 71];
    assert bs[..4] == [163, 188, 170, 137] && bs[4..] == [221, 247, 236, 71];
    assert G.Read(bs) == 0x47ECF7DD89AABCA3;
  }

  lemma Lane2()
    ensures G.Round(6983438078262162902, G.Read([17, 236, 245, 188, 57, 210, 142, 105])) == 4905630811007309584
  {
    var bs: seq<Byte> := [17, 236, 245, 188, 57, 210, 142, 105];
    assert bs[..4] == [17, 236, 245, 188] && bs[4..] == [57, 210, 142, 105];
    assert G.Read(bs) == 0x698ED239BCF5EC11;
  }

  lemma ZeroLanes()
    ensures G.Round(14029467366897019727, G.Read(Zero8())) == 9155312661752487122
    ensures G.Round(0, G.Read(Zero8())) == 0
    ensures G.Round(7046029288634856825, G.Read(Zero8())) == 7888849115720265617
  {
    assert Zero8()[..4] == [0, 0, 0, 0] && Zero8()[4..] == [0, 0, 0, 0];
    assert G.Read(Zero8()) == 0;
  }

  lemma Accs()
    ensures G.Stripe(G.Start(0), Stripe1()) == Acc1() && G.Stripe(G.Start(0), Stripe2()) == Acc2()
  {
    hide G.Round, G.Read, G.Stripe, G.Start;
    SpammishStart();
    Lane1();
    Lane2();
    ZeroLanes();
    Lanes64(G.Start(0), Stripe1(), [163, 188, 170, 137, 221, 247, 236, 71], Zero8(), Zero8(), Zero8());
    Lanes64(G.Start(0), Stripe2(), [17, 236, 245, 188, 57, 210, 142, 105], Zero8(), Zero8(), Zero8());
  }

  lemma SumsAre()
    ensures Differs.Before(Acc1(), 0) == 7519150669534207385 && Differs.Before(Acc2(), 0) == 6424381625528667466
    ensures G.Round(0, 14676387369864855351) == 9971633838677525480
    ensures G.Round(0, 4905630811007309584) == 13482865351619728187
  {
  }

  lemma MadeUp()
    ensures Differs.MadeUp(Acc1(), Acc2(), 0)
  {
    hide G.Round, Differs.Before;
    SumsAre();
    assert Xor(7519150669534207385, 9971633838677525480) == 16301693193678331505;
    assert Xor(6424381625528667466, 13482865351619728187) == 16301693193678331505;
  }

  /** They differ in their first lane only, and have the same hash. */
  lemma SameHash()
    ensures OnlyIn(Stripe1(), Stripe2(), 0, 8) && G.Hash(Stripe1(), 0) == G.Hash(Stripe2(), 0)
  {
    hide G.Start, G.Stripe, G.Hash, Fold, Rest, OnlyIn, Differs.MadeUp, Stripe1, Stripe2, Acc1, Acc2, Differs.OneLane;
    Apart();
    Accs();
    MadeUp();
    FoldOne(Stripe1());
    FoldOne(Stripe2());
    Differs.HashExactly(Stripe1(), Stripe2(), 0, 0, 0);
  }

  lemma FoldOne(bs: seq<Byte>)
    requires |bs| == 32
    ensures Fold(G.Stripe, G.STRIPE, G.Start(0), bs) == G.Stripe(G.Start(0), bs)
  {
    hide G.Stripe, G.Start;
    assert bs[..32] == bs;
    assert Fold(G.Stripe, G.STRIPE, G.Stripe(G.Start(0), bs), bs[32..]) == G.Stripe(G.Start(0), bs);
  }
}
