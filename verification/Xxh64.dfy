/** XXH64, one-shot and streaming (apps/cuckoo-lb/xxhash.c:620-708, 754-885; xxHash specification, section "XXH64
    Algorithm Description"). */
module Xxh64 {
  import opened Stripes
  import opened Words

  type Word = bv64

  const PRIME1: Word := 11400714785074694791
  const PRIME2: Word := 14029467366897019727
  const PRIME3: Word := 1609587929392839161
  const PRIME4: Word := 9650029242287828579
  const PRIME5: Word := 2870177450012600261

  const STRIPE: nat := 32
  const WRAP: nat := 0x1_0000_0000_0000_0000

  function Read4(bs: seq<Byte>): Word
    requires |bs| == 4
  {
    bs[0] as Word | (bs[1] as Word << 8) | (bs[2] as Word << 16) | (bs[3] as Word << 24)
  }

  function Joined(low: Word, high: Word): Word { low | (high << 32) }

  function Read(bs: seq<Byte>): Word
    requires |bs| == 8
  {
    Joined(Read4(bs[..4]), Read4(bs[4..]))
  }

  function Round(acc: Word, input: Word): Word {
    Times(Rotl(Plus(acc, Times(input, PRIME2)), 31), PRIME1)
  }

  function MergeRound(acc: Word, val: Word): Word {
    Plus(Times(Xor(acc, Round(0, val)), PRIME1), PRIME4)
  }

  /** The four accumulators. */
  datatype Acc = Acc(v1: Word, v2: Word, v3: Word, v4: Word)

  function Start(seed: Word): Acc {
    Acc(Plus(Plus(seed, PRIME1), PRIME2), Plus(seed, PRIME2), Plus(seed, 0), Minus(seed, PRIME1))
  }

  function Stripe(a: Acc, bs: seq<Byte>): Acc {
    if |bs| == STRIPE
    then Acc(Round(a.v1, Read(bs[..8])), Round(a.v2, Read(bs[8..16])), Round(a.v3, Read(bs[16..24])),
        Round(a.v4, Read(bs[24..32])))
    else a
  }

  function Merge(a: Acc): Word {
    var h := Plus(Plus(Plus(Rotl(a.v1, 1), Rotl(a.v2, 7)), Rotl(a.v3, 12)), Rotl(a.v4, 18));
    MergeRound(MergeRound(MergeRound(MergeRound(h, a.v1), a.v2), a.v3), a.v4)
  }

  /** For inputs shorter than a stripe. */
  function Small(seed: Word): Word { Plus(seed, PRIME5) }

  /** The length counts modulo 2^64. */
  function AddLength(h: Word, n: nat): Word
    requires n < WRAP
  {
    Plus(h, n as Word)
  }

  function WordStep(h: Word, bs: seq<Byte>): Word
    requires |bs| == 8
  {
    Plus(Times(Rotl(Xor(h, Round(0, Read(bs))), 27), PRIME1), PRIME4)
  }

  function HalfStep(h: Word, bs: seq<Byte>): Word
    requires |bs| == 4
  {
    Plus(Times(Rotl(Xor(h, Times(Read4(bs), PRIME1)), 23), PRIME2), PRIME3)
  }

  function ByteStep(h: Word, b: Byte): Word {
    Times(Rotl(Xor(h, Times(b as Word, PRIME5)), 11), PRIME1)
  }

  function Avalanche(h0: Word): Word {
    var h1 := Times(Xor(h0, Shr(h0, 33)), PRIME2);
    var h2 := Times(Xor(h1, Shr(h1, 29)), PRIME3);
    Xor(h2, Shr(h2, 32))
  }

  /** What follows the last stripe: words of eight bytes, at most one of four, single bytes, the final mix. */
  function Finish(h: Word, bs: seq<Byte>): Word
    decreases |bs|
  {
    if |bs| >= 8 then Finish(WordStep(h, bs[..8]), bs[8..])
    else if |bs| >= 4 then Finish(HalfStep(h, bs[..4]), bs[4..])
    else if |bs| > 0 then Finish(ByteStep(h, bs[0]), bs[1..])
    else Avalanche(h)
  }

  /** The hash of the whole input, as the specification describes it. */
  function Hash(bs: seq<Byte>, seed: Word): Word {
    var h := if |bs| >= STRIPE then Merge(Fold(Stripe, STRIPE, Start(seed), bs)) else Small(seed);
    Finish(AddLength(h, |bs| % WRAP), Rest(STRIPE, bs))
  }

  /** The two loops over the bytes after the stripes, the half word between them, and the final mix. */
  method FinishLoop(h0: Word, bs: seq<Byte>, from: nat) returns (h: Word)
    requires from <= |bs|
    ensures h == Finish(h0, bs[from..])
  {
    hide WordStep, HalfStep, ByteStep, Avalanche;
    h := h0;
    var p := from;
    while p + 8 <= |bs|
      invariant from <= p <= |bs| && Finish(h0, bs[from..]) == Finish(h, bs[p..])
    {
      assert bs[p..][..8] == bs[p..p + 8] && bs[p..][8..] == bs[p + 8..];
      h := WordStep(h, bs[p..p + 8]);
      p := p + 8;
    }
    if p + 4 <= |bs| {
      assert bs[p..][..4] == bs[p..p + 4] && bs[p..][4..] == bs[p + 4..];
      h := HalfStep(h, bs[p..p + 4]);
      p := p + 4;
    }
    while p < |bs|
      invariant from <= p <= |bs| < p + 4 && Finish(h0, bs[from..]) == Finish(h, bs[p..])
    {
      assert bs[p..][1..] == bs[p + 1..];
      h := ByteStep(h, bs[p]);
      p := p + 1;
    }
    h := Avalanche(h);
  }

  /** XXH64_endian_align. */
  method OneShot(bs: seq<Byte>, seed: Word) returns (h: Word)
    ensures h == Hash(bs, seed)
  {
    hide Stripe, Merge, Start, Finish, Small, AddLength;
    var p := 0;
    RestIsSuffix(STRIPE, bs);
    assert bs[0..] == bs;
    if |bs| >= STRIPE {
      var limit := |bs| - STRIPE;
      var v := Start(seed);
      FoldStep(Stripe, STRIPE, v, bs, 0);
      v, p := Stripe(v, bs[..STRIPE]), STRIPE;
      while p <= limit
        invariant p <= |bs| && Fold(Stripe, STRIPE, Start(seed), bs) == Fold(Stripe, STRIPE, v, bs[p..])
        invariant Rest(STRIPE, bs) == Rest(STRIPE, bs[p..])
      {
        FoldStep(Stripe, STRIPE, v, bs, p);
        v, p := Stripe(v, bs[p..p + STRIPE]), p + STRIPE;
      }
      h := Merge(v);
    } else {
      h := Small(seed);
    }
    h := AddLength(h, |bs| % WRAP);
    h := FinishLoop(h, bs, p);
  }

  // Streaming.

  lemma SmallStart(seed: Word)
    ensures Small(Start(seed).v3) == Small(seed)
  {
  }

  /** The length modulo 2^64 is below a stripe only if the length is. */
  predicate LengthTells(n: nat) {
    n % WRAP >= STRIPE || n < STRIPE
  }

  class State {
    var total: nat
    var v: Acc
    const mem: array<Byte>
    var memsize: nat
    ghost var data: seq<Byte>
    ghost const seed: Word

    /** The state stands for the input so far; its length is kept modulo 2^64. */
    ghost predicate Valid()
      reads this, mem
    {
      && mem.Length == STRIPE && memsize < STRIPE
      && total == |data| % WRAP
      && v == Fold(Stripe, STRIPE, Start(seed), data) && mem[..memsize] == Rest(STRIPE, data)
    }

    /** XXH64_reset */
    constructor (s: Word)
      ensures Valid() && data == [] && seed == s && fresh(mem)
    {
      total, v, memsize, data, seed := 0, Start(s), 0, [], s;
      mem := new Byte[STRIPE](_ => 0);
    }

    /** XXH64_update */
    method Update(input: seq<Byte>)
      requires Valid()
      modifies this, mem
      ensures Valid() && data == old(data) + input
    {
      hide Stripe, Start, Fold, Rest;
      ghost var was, all := data, data + input;
      FoldSplit(Stripe, STRIPE, Start(seed), was, input);
      WrapAdd(|was|, |input|, WRAP);
      data := all;
      total := (total + |input| % WRAP) % WRAP;
      Consume(Rest(STRIPE, was), input);
    }

    /** The rest of the update: fill the buffer, or empty it and go through the stripes of the input. */
    method Consume(ghost kept: seq<Byte>, input: seq<Byte>)
      requires mem.Length == STRIPE && memsize < STRIPE && mem[..memsize] == kept
      modifies this`v, this`memsize, mem
      ensures memsize < STRIPE && v == Fold(Stripe, STRIPE, old(v), kept + input)
      ensures mem[..memsize] == Rest(STRIPE, kept + input)
    {
      hide Stripe, Start;
      ghost var all := kept + input;
      if memsize + |input| < STRIPE {
        CopyInto(mem, memsize, input, 0, |input|);
        memsize := memsize + |input|;
        assert mem[..memsize] == all;
        return;
      }
      var p := 0;
      assert all[0..] == all;
      if memsize > 0 {
        p := STRIPE - memsize;
        CopyInto(mem, memsize, input, 0, p);
        assert mem[..] == all[..STRIPE];
        FoldStep(Stripe, STRIPE, v, all, 0);
        v := Stripe(v, mem[..]);
        memsize := 0;
        assert all[STRIPE..] == input[p..];
      } else {
        assert all == input;
      }
      Through(input, p);
    }

    /** The loop over the stripes of the input, and saving what is left. */
    method Through(input: seq<Byte>, from: nat)
      requires mem.Length == STRIPE && memsize == 0 && from <= |input|
      modifies this`v, this`memsize, mem
      ensures memsize < STRIPE && v == Fold(Stripe, STRIPE, old(v), input[from..])
      ensures mem[..memsize] == Rest(STRIPE, input[from..])
    {
      hide Stripe, Start, Fold, Rest, Round, Read;
      var p := from;
      var w := v;
      while p + STRIPE <= |input|
        invariant v == old(v) && memsize == 0
        invariant from <= p <= |input| && Fold(Stripe, STRIPE, v, input[from..]) == Fold(Stripe, STRIPE, w, input[p..])
        invariant Rest(STRIPE, input[from..]) == Rest(STRIPE, input[p..])
      {
        FoldStep(Stripe, STRIPE, w, input, p);
        w, p := Stripe(w, input[p..p + STRIPE]), p + STRIPE;
      }
      FoldShort(Stripe, STRIPE, w, input[p..]);
      v := w;
      memsize := SaveRest(mem, input, p);
    }

    /** XXH64_digest: the hash of everything passed to update so far, as long as the wrapped length does not
        hide that a stripe has been filled; for fewer than 2^64 bytes it never does. */
    method Digest() returns (h: Word)
      requires Valid()
      ensures LengthTells(|data|) ==> h == Hash(data, seed)
    {
      hide Stripe, Start, Merge, Finish, Small, AddLength;
      SmallStart(seed);
      if total >= STRIPE {
        h := Merge(v);
      } else {
        h := Small(v.v3);
      }
      h := AddLength(h, total);
      var bytes := mem[..memsize];
      assert bytes[0..] == bytes;
      h := FinishLoop(h, bytes, 0);
    }
  }

  /** For every input whose wrapped length does not hide a filled stripe, all of fewer than 2^64 bytes among them, and
      every way to cut it into updates, streaming gives the one-shot hash. */
  method Stream(pieces: seq<seq<Byte>>, seed: Word) returns (h: Word, k: Word)
    requires LengthTells(|Concat(pieces)|)
    ensures h == Hash(Concat(pieces), seed) && k == h
  {
    hide Hash, Stripe, Start, Fold, Rest;
    var s := new State(seed);
    for i := 0 to |pieces|
      invariant s.Valid() && s.seed == seed && s.data == Concat(pieces[..i]) && fresh(s) && fresh(s.mem)
    {
      assert pieces[..i + 1][..i] == pieces[..i];
      s.Update(pieces[i]);
    }
    assert pieces[..|pieces|] == pieces;
    h := s.Digest();
    k := OneShot(Concat(pieces), seed);
  }
}
