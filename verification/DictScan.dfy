/** The stateless scan of a hash table whose cursor counts from the high bits down
    (apps/kvstore/dict.c:785-793, 879-955). A word is 64 bits, w[i] being the bit of weight 2^i. */
module DictScan {
  import opened Basics

  const WIDTH: nat := 64

  type Word = w: seq<bool> | |w| == WIDTH witness seq(64, _ => false)

  function Zero(): Word { seq(WIDTH, _ => false) }

  function Ones(): Word { seq(WIDTH, _ => true) }

  function And(a: Word, b: Word): Word { seq(WIDTH, i requires 0 <= i < WIDTH => a[i] && b[i]) }

  function Or(a: Word, b: Word): Word { seq(WIDTH, i requires 0 <= i < WIDTH => a[i] || b[i]) }

  function Xor(a: Word, b: Word): Word { seq(WIDTH, i requires 0 <= i < WIDTH => a[i] != b[i]) }

  function Not(a: Word): Word { seq(WIDTH, i requires 0 <= i < WIDTH => !a[i]) }

  function Shl(a: Word, s: nat): Word { seq(WIDTH, i requires 0 <= i < WIDTH => i >= s && a[i - s]) }

  function Shr(a: Word, s: nat): Word { seq(WIDTH, i requires 0 <= i < WIDTH => i + s < WIDTH && a[i + s]) }

  /** v++, the carry running up from bit 0. */
  function Inc(w: seq<bool>): (r: seq<bool>)
    ensures |r| == |w|
  {
    if w == [] then [] else if w[0] then [false] + Inc(w[1..]) else [true] + w[1..]
  }

  function Backward(w: seq<bool>): (r: seq<bool>)
    ensures |r| == |w| && forall i :: 0 <= i < |w| ==> r[i] == w[|w| - 1 - i]
  {
    seq(|w|, i requires 0 <= i < |w| => w[|w| - 1 - i])
  }

  // Reversing the bits of a word.

  /** n bits are a whole number of groups of s bits. */
  predicate Whole(n: nat, s: nat) {
    s > 0 && (n == 0 || (n >= s && Whole(n - s, s)))
  }

  /** When the groups of s bits of an n-bit word have been put in reverse order, where does bit i come from? */
  function Flip(i: nat, s: nat, n: nat): (j: nat)
    requires i < n && Whole(n, s)
    ensures j < n
    decreases i
  {
    if i < s then n - s + i else Flip(i - s, s, n - s)
  }

  /** Masks take the even groups of s bits. */
  predicate Even(i: nat, s: nat)
    requires s > 0
    decreases i
  {
    i < s || (i >= 2 * s && Even(i - 2 * s, s))
  }

  lemma {:induction false} EvenNext(i: nat, s: nat)
    requires s > 0
    ensures Even(i, s) <==> (Even(i, 2 * s) != (i >= s && Even(i - s, 2 * s)))
    decreases i
  {
    if i >= 4 * s {
      EvenNext(i - 4 * s, s);
      assert Even(i, s) == Even(i - 2 * s, s) == Even(i - 4 * s, s);
      assert Even(i, 2 * s) == Even(i - 4 * s, 2 * s);
      if i >= 5 * s {
        assert Even(i - s, 2 * s) == Even(i - 5 * s, 2 * s);
      } else {
        assert !Even(i - s, 2 * s);
      }
    } else if i >= 2 * s {
      assert Even(i, s) == Even(i - 2 * s, s);
    }
  }

  /** Exchanging neighbouring groups of s bits refines the reverse order of groups of twice the size. */
  lemma {:induction false} FlipNext(i: nat, s: nat, n: nat)
    requires i < n && Whole(n, s) && Whole(n, 2 * s)
    ensures if Even(i, s) then i + s < n && Flip(i + s, 2 * s, n) == Flip(i, s, n)
            else i >= s && Flip(i - s, 2 * s, n) == Flip(i, s, n)
    decreases i
  {
    assert Whole(n - s, s);
    if i >= 2 * s {
      FlipNext(i - 2 * s, s, n - 2 * s);
      assert Flip(i, s, n) == Flip(i - s, s, n - s) == Flip(i - 2 * s, s, n - 2 * s);
    } else if i >= s {
      assert Flip(i, s, n) == Flip(i - s, s, n - s);
    }
  }

  /** The word and the mask after the round for group size s. */
  predicate Flipped(v0: Word, v: Word, mask: Word, s: nat)
    requires Whole(WIDTH, s)
  {
    forall i :: 0 <= i < WIDTH ==> v[i] == v0[Flip(i, s, WIDTH)] && (mask[i] <==> Even(i, s))
  }

  function NextMask(mask: Word, s: nat): Word { Xor(mask, Shl(mask, s)) }

  function Swap(v: Word, mask: Word, s: nat): Word { Or(And(Shr(v, s), mask), And(Shl(v, s), Not(mask))) }

  lemma Round(v0: Word, v: Word, mask: Word, s: nat)
    requires s > 0 && Whole(WIDTH, s) && Whole(WIDTH, 2 * s) && Flipped(v0, v, mask, 2 * s)
    ensures Flipped(v0, Swap(v, NextMask(mask, s), s), NextMask(mask, s), s)
  {
    hide Flip, Even, Whole;
    var m := NextMask(mask, s);
    var r := Swap(v, m, s);
    forall i | 0 <= i < WIDTH ensures r[i] == v0[Flip(i, s, WIDTH)] && (m[i] <==> Even(i, s)) {
      EvenNext(i, s);
      FlipNext(i, s, WIDTH);
    }
  }

  lemma {:induction false} FlipOnes(i: nat, n: nat)
    requires i < n && Whole(n, 1)
    ensures Flip(i, 1, n) == n - 1 - i
    decreases i
  {
    if i > 0 {
      FlipOnes(i - 1, n - 1);
    }
  }

  lemma Sizes()
    ensures Whole(64, 64) && Whole(64, 32) && Whole(64, 16) && Whole(64, 8) && Whole(64, 4) && Whole(64, 2)
    ensures Whole(64, 1)
  {
    assert Whole(0, 64) && Whole(32, 32);
    assert Whole(16, 16) && Whole(32, 16) && Whole(48, 16);
    WholeTwice(64, 8);
    WholeTwice(64, 4);
    WholeTwice(64, 2);
    WholeTwice(64, 1);
  }

  lemma {:induction false} WholeTwice(n: nat, s: nat)
    requires s > 0 && Whole(n, 2 * s)
    ensures Whole(n, s)
    decreases n
  {
    if n > 0 {
      WholeTwice(n - 2 * s, s);
      assert Whole(n - s, s);
    }
  }

  /** rev: the loop of halving group sizes reverses the bits. */
  method Rev(word: Word) returns (v: Word)
    ensures v == Backward(word)
  {
    hide Flip, Even, Whole;
    Sizes();
    v := word;
    var s, mask := 64, Ones();
    Unflipped(word);
    s := s / 2;
    while s > 0
      invariant s in {0, 1, 2, 4, 8, 16, 32} && Whole(WIDTH, if s == 0 then 1 else 2 * s)
      invariant Flipped(word, v, mask, if s == 0 then 1 else 2 * s)
      decreases s
    {
      Round(word, v, mask, s);
      mask := Xor(mask, Shl(mask, s));
      v := Or(And(Shr(v, s), mask), And(Shl(v, s), Not(mask)));
      s := s / 2;
    }
    forall i | 0 <= i < WIDTH ensures v[i] == word[WIDTH - 1 - i] {
      FlipOnes(i, WIDTH);
    }
  }

  lemma Unflipped(v: Word)
    requires Whole(WIDTH, 64)
    ensures Flipped(v, v, Ones(), 64)
  {
  }

  // The cursor as a number: bit 0 is the most significant.

  function Pow(n: nat): nat { if n == 0 then 1 else 2 * Pow(n - 1) }

  function Digit(b: bool): nat { if b then 1 else 0 }

  function Big(w: seq<bool>): nat {
    if w == [] then 0 else 2 * Big(w[..|w| - 1]) + Digit(w[|w| - 1])
  }

  function Little(w: seq<bool>): nat {
    if w == [] then 0 else Digit(w[0]) + 2 * Little(w[1..])
  }

  lemma {:induction false} IncCounts(w: seq<bool>)
    ensures Little(w) < Pow(|w|) && Little(Inc(w)) == if Little(w) + 1 < Pow(|w|) then Little(w) + 1 else 0
  {
    if w != [] {
      IncCounts(w[1..]);
      assert Inc(w)[1..] == if w[0] then Inc(w[1..]) else w[1..];
    }
  }

  lemma {:induction false} BigBackward(w: seq<bool>)
    ensures Little(Backward(w)) == Big(w)
  {
    if w != [] {
      var front := w[..|w| - 1];
      BigBackward(front);
      assert Backward(w)[1..] == Backward(front);
    }
  }

  lemma {:induction false} BigSplit(a: seq<bool>, b: seq<bool>)
    ensures Big(a + b) == Big(a) * Pow(|b|) + Big(b)
    decreases |b|
  {
    if b == [] {
      assert a + b == a;
    } else {
      var front := b[..|b| - 1];
      BigSplit(a, front);
      assert (a + b)[..|a + b| - 1] == a + front;
      assert Big(a) * Pow(|b|) == 2 * (Big(a) * Pow(|b| - 1));
    }
  }

  lemma {:induction false} BigBound(w: seq<bool>)
    ensures Big(w) < Pow(|w|)
  {
    if w != [] {
      BigBound(w[..|w| - 1]);
    }
  }

  lemma {:induction false} BigOnes(w: seq<bool>)
    requires forall i :: 0 <= i < |w| ==> w[i]
    ensures Big(w) == Pow(|w|) - 1
  {
    if w != [] {
      BigOnes(w[..|w| - 1]);
    }
  }

  lemma {:induction false} BigZeros(w: seq<bool>)
    requires forall i :: 0 <= i < |w| ==> !w[i]
    ensures Big(w) == 0
  {
    if w != [] {
      BigZeros(w[..|w| - 1]);
    }
  }

  lemma {:induction false} BigInjective(a: seq<bool>, b: seq<bool>)
    requires |a| == |b| && Big(a) == Big(b)
    ensures a == b
  {
    if a != [] {
      var n := |a| - 1;
      BigInjective(a[..n], b[..n]);
      assert a == a[..n] + [a[n]] && b == b[..n] + [b[n]];
    }
  }

  // One call.

  /** sizemask of a table of 2^k buckets. */
  function Mask(k: nat): Word { seq(WIDTH, i requires 0 <= i < WIDTH => i < k) }

  /** The cursor after a call on that table. */
  function Next(v: Word, k: nat): Word { Backward(Inc(Backward(Or(v, Not(Mask(k)))))) }

  /** Words with the same first k bits fall into the same bucket, and only they. */
  lemma SameBucket(h: Word, v: Word, k: nat)
    requires k <= WIDTH
    ensures And(h, Mask(k)) == And(v, Mask(k)) <==> h[..k] == v[..k]
  {
    if And(h, Mask(k)) == And(v, Mask(k)) {
      forall i | 0 <= i < k ensures h[i] == v[i] {
        assert And(h, Mask(k))[i] == h[i] && And(v, Mask(k))[i] == v[i];
      }
    }
    if h[..k] == v[..k] {
      forall i | 0 <= i < WIDTH ensures And(h, Mask(k))[i] == And(v, Mask(k))[i] {
        assert i < k ==> h[i] == h[..k][i] == v[..k][i] == v[i];
      }
    }
  }

  /** Words with the same first k bits are a block of Pow(64 - k) numbers. */
  lemma InBlock(h: Word, k: nat)
    requires k <= WIDTH
    ensures var q, p := Big(h[..k]), Pow(WIDTH - k); q * p <= Big(h) < q * p + p && Big(h) < Pow(WIDTH)
  {
    assert h == h[..k] + h[k..];
    BigSplit(h[..k], h[k..]);
    BigBound(h[k..]);
    BigBound(h);
  }

  /** A call moves the cursor to the start of the next block, or back to zero after the last one. */
  lemma NextBlock(v: Word, k: nat)
    requires k <= WIDTH
    ensures var end := Big(v[..k]) * Pow(WIDTH - k) + Pow(WIDTH - k);
            Big(Next(v, k)) == if end < Pow(WIDTH) then end else 0
  {
    var w := Or(v, Not(Mask(k)));
    assert w[..k] == v[..k] && w == w[..k] + w[k..];
    BigSplit(w[..k], w[k..]);
    BigOnes(w[k..]);
    BigBackward(w);
    IncCounts(Backward(w));
    BigBackward(Next(v, k));
    assert Backward(Next(v, k)) == Inc(Backward(w));
  }

  // A whole scan; between two calls the table may change, and its size to any other power of two.

  datatype Entry = Entry(key: nat, hash: Word)

  /** A table of 2^bits buckets that is not being rehashed: chains by bucket number, and the number of entries. */
  datatype Dict = Dict(bits: nat, table: map<Word, seq<Entry>>, used: nat)

  predicate Present(d: Dict, e: Entry) {
    var b := And(e.hash, Mask(d.bits));
    b in d.table && e in d.table[b]
  }

  ghost predicate ValidDict(d: Dict) {
    && d.bits <= WIDTH && (d.used == 0 ==> forall e :: !Present(d, e))
    && forall v: Word :: And(v, Mask(d.bits)) in d.table
  }

  /** dictScan: the chain of the bucket under the cursor is passed to the callback, entry by entry. */
  method Scan(d: Dict, v: Word) returns (next: Word, emitted: seq<Entry>)
    requires ValidDict(d)
    ensures d.used == 0 ==> next == Zero() && emitted == []
    ensures d.used != 0 ==> next == Next(v, d.bits) && emitted == d.table[And(v, Mask(d.bits))]
  {
    emitted := [];
    if d.used == 0 {
      return Zero(), [];
    }
    var m0 := Mask(d.bits);
    var chain := d.table[And(v, m0)];
    for i := 0 to |chain|
      invariant emitted == chain[..i]
    {
      emitted := emitted + [chain[i]];
    }
    next := Or(v, Not(m0));
    next := Rev(next);
    next := Inc(next);
    next := Rev(next);
  }

  /** A scan from cursor 0 until 0 comes back: the tables met and the cursors around each call. */
  ghost predicate Scanned(ds: seq<Dict>, vs: seq<Word>) {
    && |vs| == |ds| + 1 && |ds| > 0 && vs[0] == Zero() == vs[|ds|]
    && (forall i :: 0 < i < |ds| ==> vs[i] != Zero())
    && (forall i :: 0 <= i < |ds| ==> ValidDict(ds[i]) && vs[i + 1] == Next(vs[i], ds[i].bits))
  }

  lemma ZeroOnly(v: Word)
    ensures Big(v) == 0 <==> v == Zero()
  {
    BigZeros(Zero());
    if Big(v) == 0 {
      BigInjective(v, Zero());
    }
  }

  /** Some call visits the bucket of hash h: the last one whose cursor is not beyond h. */
  lemma {:induction false} VisitedFrom(ds: seq<Dict>, vs: seq<Word>, i: nat, h: Word) returns (k: nat)
    requires Scanned(ds, vs) && i < |ds| && Big(vs[i]) <= Big(h)
    ensures k < |ds| && And(h, Mask(ds[k].bits)) == And(vs[k], Mask(ds[k].bits))
    decreases |ds| - i
  {
    hide Big, Pow, Next;
    var hit := HitsOrPasses(vs[i], h, ds[i].bits);
    if hit {
      k := i;
    } else {
      k := VisitedFrom(ds, vs, i + 1, h);
    }
  }

  /** A call visits the bucket of h, or leaves a cursor that is still not beyond it. */
  lemma HitsOrPasses(v: Word, h: Word, k: nat) returns (hit: bool)
    requires k <= WIDTH && Big(v) <= Big(h)
    ensures if hit then And(h, Mask(k)) == And(v, Mask(k)) else Next(v, k) != Zero() && Big(Next(v, k)) <= Big(h)
  {
    hide Big, Pow, Next;
    var q, hq, p := Big(v[..k]), Big(h[..k]), Pow(WIDTH - k);
    InBlock(v, k);
    InBlock(h, k);
    BlockOrder(q, hq, p, Big(v), Big(h));
    hit := hq == q;
    if hit {
      BigInjective(h[..k], v[..k]);
      SameBucket(h, v, k);
    } else {
      NextBlock(v, k);
      ZeroOnly(Next(v, k));
    }
  }

  lemma BlockOrder(q: nat, hq: nat, p: nat, v: nat, h: nat)
    requires q * p <= v < q * p + p && hq * p <= h < hq * p + p && v <= h
    ensures q <= hq && (q < hq ==> 0 < q * p + p <= h)
  {
    if hq < q {
      MulMono(hq + 1, q, p);
    } else if q < hq {
      MulMono(q + 1, hq, p);
    }
  }

  /** Every entry present throughout the scan is emitted, however the table was resized between calls. */
  lemma ScanComplete(ds: seq<Dict>, vs: seq<Word>, e: Entry) returns (k: nat)
    requires Scanned(ds, vs) && forall i :: 0 <= i < |ds| ==> Present(ds[i], e)
    ensures k < |ds| && And(vs[k], Mask(ds[k].bits)) in ds[k].table && e in ds[k].table[And(vs[k], Mask(ds[k].bits))]
  {
    hide Big, Pow, Next;
    ZeroOnly(vs[0]);
    k := VisitedFrom(ds, vs, 0, e.hash);
    assert Present(ds[k], e);
  }

  /** Later cursors are beyond the block. */
  lemma {:induction false} CursorsBeyond(ds: seq<Dict>, vs: seq<Word>, i: nat, j: nat)
    requires Scanned(ds, vs) && i < j < |ds|
    ensures var n := ds[i].bits; Big(vs[i][..n]) * Pow(WIDTH - n) + Pow(WIDTH - n) <= Big(vs[j])
    decreases j
  {
    hide Big, Pow, Next;
    NextBlock(vs[j - 1], ds[j - 1].bits);
    InBlock(vs[j - 1], ds[j - 1].bits);
    ZeroOnly(vs[j]);
    if i < j - 1 {
      CursorsBeyond(ds, vs, i, j - 1);
    }
  }

  lemma NotTwice(ds: seq<Dict>, vs: seq<Word>, n: nat, i: nat, j: nat)
    requires Scanned(ds, vs) && i < j < |ds| && ds[i].bits == n
    ensures And(vs[i], Mask(n)) != And(vs[j], Mask(n))
  {
    hide Big, Pow, Next;
    CursorsBeyond(ds, vs, i, j);
    InBlock(vs[j], n);
    SameBucket(vs[i], vs[j], n);
  }

  /** With a fixed size every bucket is visited exactly once. */
  lemma EachBucketOnce(ds: seq<Dict>, vs: seq<Word>, n: nat, b: Word) returns (k: nat)
    requires Scanned(ds, vs) && (forall i :: 0 <= i < |ds| ==> ds[i].bits == n) && And(b, Mask(n)) == b
    ensures k < |ds| && And(vs[k], Mask(n)) == b
    ensures forall i :: 0 <= i < |ds| && And(vs[i], Mask(n)) == b ==> i == k
  {
    hide Big, Pow, Next, And, Mask;
    ZeroOnly(vs[0]);
    k := VisitedFrom(ds, vs, 0, b);
    forall i | 0 <= i < |ds| && And(vs[i], Mask(n)) == b ensures i == k {
      if i < k {
        NotTwice(ds, vs, n, i, k);
      } else if k < i {
        NotTwice(ds, vs, n, k, i);
      }
    }
  }

  /** Repeating the call until 0 comes back always ends. */
  method ScanAll(d: Dict) returns (emitted: seq<Entry>, ghost vs: seq<Word>)
    requires ValidDict(d) && d.used != 0
    ensures |vs| > 1 && Scanned(seq(|vs| - 1, _ => d), vs)
    ensures forall e :: Present(d, e) ==> e in emitted
  {
    hide Big, Pow, Next, And, Mask;
    var v := Zero();
    emitted, vs := [], [v];
    var chain;
    var first := true;
    while first || v != Zero()
      invariant |vs| > 0 && vs[0] == Zero() && vs[|vs| - 1] == v && (first <==> |vs| == 1)
      invariant forall i :: 0 < i < |vs| - 1 ==> vs[i] != Zero()
      invariant forall i :: 0 <= i < |vs| - 1 ==> vs[i + 1] == Next(vs[i], d.bits)
      invariant forall i, e :: 0 <= i < |vs| - 1 && e in d.table[And(vs[i], Mask(d.bits))] ==> e in emitted
      decreases if first then 2 else if v == Zero() then 0 else 1, Pow(WIDTH) - Big(v)
    {
      NextBlock(v, d.bits);
      InBlock(v, d.bits);
      ghost var was := v;
      v, chain := Scan(d, v);
      emitted, vs := emitted + chain, vs + [v];
      ZeroOnly(v);
      first := false;
    }
    ghost var ds := seq(|vs| - 1, _ => d);
    forall e | Present(d, e) ensures e in emitted {
      var k := ScanComplete(ds, vs, e);
    }
  }
}
