/** XXH32, one-shot and streaming (apps/cuckoo-lb/xxhash.c:257-325, 373-497; xxHash specification, section "XXH32
    Algorithm Description"). */
module Xxh32 {
  import opened Stripes
  import opened Words

  type Word = bv32

  const PRIME1: Word := 2654435761
  const PRIME2: Word := 2246822519
  const PRIME3: Word := 3266489917
  const PRIME4: Word := 668265263
  const PRIME5: Word := 374761393

  const STRIPE: nat := 16
  const WRAP: nat := 0x1_0000_0000

  function Read(bs: seq<Byte>): Word
    requires |bs| == 4
  {
    bs[0] as Word | (bs[1] as Word << 8) | (bs[2] as Word << 16) | (bs[3] as Word << 24)
  }

  function Round(acc: Word, input: Word): Word {
    Times32(Rotl32(Plus32(acc, Times32(input, PRIME2)), 13), PRIME1)
  }

  /** The four accumulators. */
  datatype Acc = Acc(v1: Word, v2: Word, v3: Word, v4: Word)

  function Start(seed: Word): Acc {
    Acc(Plus32(Plus32(seed, PRIME1), PRIME2), Plus32(seed, PRIME2), Plus32(seed, 0), seed - PRIME1)
  }

  function Stripe(a: Acc, bs: seq<Byte>): Acc {
    if |bs| == STRIPE
    then Acc(Round(a.v1, Read(bs[..4])), Round(a.v2, Read(bs[4..8])), Round(a.v3, Read(bs[8..12])),
        Round(a.v4, Read(bs[12..16])))
    else a
  }

  function Merge(a: Acc): Word {
    Plus32(Plus32(Plus32(Rotl32(a.v1, 1), Rotl32(a.v2, 7)), Rotl32(a.v3, 12)), Rotl32(a.v4, 18))
  }

  /** For inputs shorter than a stripe. */
  function Small(seed: Word): Word { Plus32(seed, PRIME5) }

  /** The length counts modulo 2^32. */
  function AddLength(h: Word, n: nat): Word
    requires n < WRAP
  {
    Plus32(h, n as Word)
  }

  function WordStep(h: Word, bs: seq<Byte>): Word
    requires |bs| == 4
  {
    Times32(Rotl32(Plus32(h, Times32(Read(bs), PRIME3)), 17), PRIME4)
  }

  function ByteStep(h: Word, b: Byte): Word {
    Times32(Rotl32(Plus32(h, Times32(b as Word, PRIME5)), 11), PRIME1)
  }

  function Avalanche(h0: Word): Word {
    var h1 := Times32(Xor32(h0, Shr32(h0, 15)), PRIME2);
    var h2 := Times32(Xor32(h1, Shr32(h1, 13)), PRIME3);
    Xor32(h2, Shr32(h2, 16))
  }

  /** What follows the last stripe: words of four bytes, then single bytes, then the final mix. */
  function Finish(h: Word, bs: seq<Byte>): Word
    decreases |bs|
  {
    if |bs| >= 4 then Finish(WordStep(h, bs[..4]), bs[4..])
    else if |bs| > 0 then Finish(ByteStep(h, bs[0]), bs[1..])
    else Avalanche(h)
  }

  /** The hash of the whole input, as the specification describes it. */
  function Hash(bs: seq<Byte>, seed: Word): Word {
    var h := if |bs| >= STRIPE then Merge(Fold(Stripe, STRIPE, Start(seed), bs)) else Small(seed);
    Finish(AddLength(h, |bs| % WRAP), Rest(STRIPE, bs))
  }

  /** The two loops over the bytes after the stripes, and the final mix. */
  method FinishLoop(h0: Word, bs: seq<Byte>, from: nat) returns (h: Word)
    requires from <= |bs|
    ensures h == Finish(h0, bs[from..])
  {
    hide WordStep, ByteStep, Avalanche;
    h := h0;
    var p := from;
    while p + 4 <= |bs|
      invariant from <= p <= |bs| && Finish(h0, bs[from..]) == Finish(h, bs[p..])
    {
      assert bs[p..][..4] == bs[p..p + 4] && bs[p..][4..] == bs[p + 4..];
      h := WordStep(h, bs[p..p + 4]);
      p := p + 4;
    }
    while p < |bs|
      invariant from <= p <= |bs| < p + 4 && Finish(h0, bs[from..]) == Finish(h, bs[p..])
    {
      assert bs[p..][1..] == bs[p + 1..];
      h := ByteStep(h, bs[p]);
      p := p + 1;
    }
    h := Avalanche(h);
  }

  /** XXH32_endian_align. */
  method OneShot(bs: seq<Byte>, seed: Word) returns (h: Word)
    ensures h == Hash(bs, seed)
  {
    hide Stripe, Merge, Start, Finish, Small, AddLength;
    var p := 0;
    RestIsSuffix(STRIPE, bs);
    assert bs[0..] == bs;
    if |bs| >= STRIPE {
      var limit := |bs| - STRIPE;
      var v := Start(seed);
      FoldStep(Stripe, STRIPE, v, bs, 0);
      v, p := Stripe(v, bs[..STRIPE]), STRIPE;
      while p <= limit
        invariant p <= |bs| && Fold(Stripe, STRIPE, Start(seed), bs) == Fold(Stripe, STRIPE, v, bs[p..])
        invariant Rest(STRIPE, bs) == Rest(STRIPE, bs[p..])
      {
        FoldStep(Stripe, STRIPE, v, bs, p);
        v, p := Stripe(v, bs[p..p + STRIPE]), p + STRIPE;
      }
      h := Merge(v);
    } else {
      h := Small(seed);
    }
    h := AddLength(h, |bs| % WRAP);
    h := FinishLoop(h, bs, p);
  }

  // Streaming.

  lemma SmallStart(seed: Word)
    ensures Small(Start(seed).v3) == Small(seed)
  {
  }

  class State {
    var total32: nat
    var large: bool
    var v: Acc
    const mem: array<Byte>
    var memsize: nat
    ghost var data: seq<Byte>
    ghost const seed: Word

    /** The state stands for the input so far. The wrapped length loses nothing: `large` remembers whether a
        stripe has been filled. */
    ghost predicate Valid()
      reads this, mem
    {
      && mem.Length == STRIPE && memsize < STRIPE
      && total32 == |data| % WRAP && (large <==> |data| >= STRIPE)
      && v == Fold(Stripe, STRIPE, Start(seed), data) && mem[..memsize] == Rest(STRIPE, data)
    }

    /** XXH32_reset */
    constructor (s: Word)
      ensures Valid() && data == [] && seed == s && fresh(mem)
    {
      total32, large, v, memsize, data, seed := 0, false, Start(s), 0, [], s;
      mem := new Byte[STRIPE](_ => 0);
    }

    /** XXH32_update */
    method Update(input: seq<Byte>)
      requires Valid()
      modifies this, mem
      ensures Valid() && data == old(data) + input
    {
      hide Stripe, Start, Fold, Rest;
      ghost var was, all := data, data + input;
      FoldSplit(Stripe, STRIPE, Start(seed), was, input);
      WrapAdd(|was|, |input|, WRAP);
      data := all;
      total32 := (total32 + |input| % WRAP) % WRAP;
      large := large || |input| >= STRIPE || total32 >= STRIPE;
      Consume(Rest(STRIPE, was), input);
    }

    /** The rest of the update: fill the buffer, or empty it and go through the stripes of the input. */
    method Consume(ghost kept: seq<Byte>, input: seq<Byte>)
      requires mem.Length == STRIPE && memsize < STRIPE && mem[..memsize] == kept
      modifies this`v, this`memsize, mem
      ensures memsize < STRIPE && v == Fold(Stripe, STRIPE, old(v), kept + input)
      ensures mem[..memsize] == Rest(STRIPE, kept + input)
    {
      hide Stripe, Start;
      ghost var all := kept + input;
      if memsize + |input| < STRIPE {
        CopyInto(mem, memsize, input, 0, |input|);
        memsize := memsize + |input|;
        assert mem[..memsize] == all;
        return;
      }
      var p := 0;
      assert all[0..] == all;
      if memsize > 0 {
        p := STRIPE - memsize;
        CopyInto(mem, memsize, input, 0, p);
        assert mem[..] == all[..STRIPE];
        FoldStep(Stripe, STRIPE, v, all, 0);
        v := Stripe(v, mem[..]);
        memsize := 0;
        assert all[STRIPE..] == input[p..];
      } else {
        assert all == input;
      }
      Through(input, p);
    }

    /** The loop over the stripes of the input, and saving what is left. */
    method Through(input: seq<Byte>, from: nat)
      requires mem.Length == STRIPE && memsize == 0 && from <= |input|
      modifies this`v, this`memsize, mem
      ensures memsize < STRIPE && v == Fold(Stripe, STRIPE, old(v), input[from..])
      ensures mem[..memsize] == Rest(STRIPE, input[from..])
    {
      hide Stripe, Start, Fold, Rest, Round, Read;
      var p := from;
      var w := v;
      while p + STRIPE <= |input|
        invariant v == old(v) && memsize == 0
        invariant from <= p <= |input| && Fold(Stripe, STRIPE, v, input[from..]) == Fold(Stripe, STRIPE, w, input[p..])
        invariant Rest(STRIPE, input[from..]) == Rest(STRIPE, input[p..])
      {
        FoldStep(Stripe, STRIPE, w, input, p);
        w, p := Stripe(w, input[p..p + STRIPE]), p + STRIPE;
      }
      FoldShort(Stripe, STRIPE, w, input[p..]);
      v := w;
      memsize := SaveRest(mem, input, p);
    }

    /** XXH32_digest: the hash of everything passed to update so far. */
    method Digest() returns (h: Word)
      requires Valid()
      ensures h == Hash(data, seed)
    {
      hide Stripe, Start, Merge, Finish, Small, AddLength;
      if large {
        h := Merge(v);
      } else {
        SmallStart(seed);
        h := Small(v.v3);
      }
      h := AddLength(h, total32);
      var bytes := mem[..memsize];
      assert bytes[0..] == bytes;
      h := FinishLoop(h, bytes, 0);
    }
  }

  /** For every input and every way to cut it into updates, streaming gives the one-shot hash. */
  method Stream(pieces: seq<seq<Byte>>, seed: Word) returns (h: Word, k: Word)
    ensures h == Hash(Concat(pieces), seed) && k == h
  {
    hide Hash, Stripe, Start, Fold, Rest;
    var s := new State(seed);
    for i := 0 to |pieces|
      invariant s.Valid() && s.seed == seed && s.data == Concat(pieces[..i]) && fresh(s) && fresh(s.mem)
    {
      assert pieces[..i + 1][..i] == pieces[..i];
      s.Update(pieces[i]);
    }
    assert pieces[..|pieces|] == pieces;
    h := s.Digest();
    k := OneShot(Concat(pieces), seed);
  }
}
