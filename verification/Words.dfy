/** The integers that machine words stand for, and what the operations on words do to them. Facts about bits are kept
    apart, each in a function or lemma of its own, from the inductions that use them. */
module Words {
  import opened Basics

  const W32: nat := 0x1_0000_0000
  const W63: nat := 0x8000_0000_0000_0000
  const W64: nat := 0x1_0000_0000_0000_0000
  const TOP: bv64 := 0x8000_0000_0000_0000

  function Plus(a: bv64, b: bv64): bv64 { a + b }

  function Times(a: bv64, b: bv64): bv64 { a * b }

  function Minus(a: bv64, b: bv64): bv64 { a - b }

  lemma PlusIs(a: bv64, b: bv64)
    ensures Plus(a, b) == a + b
  {
  }

  lemma TimesIs(a: bv64, b: bv64)
    ensures Times(a, b) == a * b
  {
  }

  /** The same word, written in two ways. */
  function Assoc(x: bv64, y: bv64): (r: bv64)
    ensures r == (x + y) + 1
  {
    x + (y + 1)
  }

  function Distr(x: bv64, y: bv64): (r: bv64)
    ensures r == x * (y + 1)
  {
    x * y + x
  }

  function Back(x: bv64, y: bv64): (r: bv64)
    ensures r == y
  {
    (x + y) - x
  }

  lemma AssocLeft(a: bv64, b: bv64)
    ensures Plus(a + b, 1) == Assoc(a, b)
  {
    assert Plus(a + b, 1) == (a + b) + 1;
    assert Assoc(a, b) == (a + b) + 1;
  }

  lemma AssocRight(a: bv64, b: bv64)
    ensures Plus(a, b + 1) == Assoc(a, b)
  {
  }

  lemma DistrLeft(a: bv64, b: bv64)
    ensures Times(a, b + 1) == Distr(a, b)
  {
    assert Times(a, b + 1) == a * (b + 1);
    assert Distr(a, b) == a * (b + 1);
  }

  lemma PlusOne(a: bv64, b: bv64)
    ensures Plus(Plus(a, b), 1) == Plus(a, Plus(b, 1))
  {
    hide Plus, Assoc;
    PlusIs(a, b);
    PlusIs(b, 1);
    AssocLeft(a, b);
    AssocRight(a, b);
  }

  lemma TimesOne(a: bv64, b: bv64)
    ensures Times(a, Plus(b, 1)) == Plus(Times(a, b), a)
  {
    hide Plus, Times, Distr;
    OneDistr(a, b);
    DistrOne(a, b);
  }

  lemma OneDistr(a: bv64, b: bv64)
    ensures Times(a, Plus(b, 1)) == Distr(a, b)
  {
    hide Plus, Times, Distr;
    PlusIs(b, 1);
    DistrLeft(a, b);
  }

  lemma DistrOne(a: bv64, b: bv64)
    ensures Plus(Times(a, b), a) == Distr(a, b)
  {
    hide Plus, Times, Distr;
    TimesIs(a, b);
    DistrRight(a, b);
  }

  lemma DistrRight(a: bv64, b: bv64)
    ensures Plus(a * b, a) == Distr(a, b)
  {
  }

  lemma Zeros(a: bv64)
    ensures Plus(a, 0) == a && Times(a, 0) == 0
  {
  }

  lemma BackAndForth(a: bv64)
    ensures Plus(Minus(a, 1), 1) == a && Minus(Plus(a, 1), 1) == a
  {
  }

  lemma Cancel(a: bv64, b: bv64)
    ensures Minus(Plus(a, b), a) == b
  {
    hide Plus, Minus, Back;
    PlusIs(a, b);
    CancelBack(a, b);
  }

  lemma CancelBack(a: bv64, b: bv64)
    ensures Minus(a + b, a) == Back(a, b) == b
  {
  }

  /** The integer a word stands for, by counting down. */
  ghost function Val(x: bv64): (n: nat) {
    if x == 0 then 0 else 1 + Val(x - 1)
  }

  lemma ValStep(x: bv64)
    ensures Val(x) == if x == 0 then 0 else 1 + Val(Minus(x, 1))
  {
  }

  /** The n-th word, by counting up. */
  ghost function Nth(n: nat): bv64 {
    if n == 0 then 0 else Plus(Nth(n - 1), 1)
  }

  lemma {:induction false} WordVal(x: bv64)
    ensures Nth(Val(x)) == x
    decreases Val(x)
  {
    hide Plus, Minus, Val;
    ValStep(x);
    if x != 0 {
      WordVal(Minus(x, 1));
      BackAndForth(x);
    }
  }

  lemma {:induction false} WordAdd(a: nat, b: nat)
    ensures Nth(a + b) == Plus(Nth(a), Nth(b))
    decreases b
  {
    hide Plus;
    Zeros(Nth(a));
    if b > 0 {
      WordAdd(a, b - 1);
      PlusOne(Nth(a), Nth(b - 1));
    }
  }

  lemma {:induction false} WordMul(a: nat, b: nat)
    ensures Nth(a * b) == Times(Nth(a), Nth(b))
    decreases b
  {
    hide Plus, Times;
    Zeros(Nth(a));
    if b > 0 {
      WordMul(a, b - 1);
      WordAdd(a * (b - 1), a);
      assert a * (b - 1) + a == a * b;
      TimesOne(Nth(a), Nth(b - 1));
    }
  }

  // Words return to zero after 2^64 steps and no earlier.

  lemma WordPowers()
    ensures Nth(W63) == TOP && Nth(W64) == 0
  {
    hide Plus, Times;
    SmallPowers();
    WordMul(0x1_0000, 0x1_0000);
    TimesIs(0x1_0000, 0x1_0000);
    WordMul(0x1_0000_0000, 0x1_0000_0000);
    TimesIs(0x1_0000_0000, 0x1_0000_0000);
    WordMul(0x1_0000, 0x8000);
    TimesIs(0x1_0000, 0x8000);
    WordMul(0x1_0000_0000, 0x8000_0000);
    TimesIs(0x1_0000_0000, 0x8000_0000);
  }

  lemma SmallPowers()
    ensures Nth(0x1_0000) == 0x1_0000 && Nth(0x8000) == 0x8000
  {
    hide Plus, Times;
    SmallWords();
    WordMul(16, 16);
    TimesIs(16, 16);
    WordMul(256, 256);
    TimesIs(256, 256);
    WordMul(256, 128);
    TimesIs(256, 128);
    WordMul(16, 8);
    TimesIs(16, 8);
  }

  lemma SmallWords()
    ensures Nth(8) == 8 && Nth(16) == 16 && Nth(2) == 2
  {
    assert Nth(1) == 1;
    assert Nth(2) == 2;
    assert Nth(4) == 4 by { WordAdd(2, 2); }
    WordAdd(4, 4);
    WordAdd(8, 8);
  }

  lemma {:induction false} NotYetZero(n: nat, k: nat, q: nat)
    requires 0 < n < W64 && n * Pow2(k) == q * W64
    ensures Nth(n) != 0
    decreases k
  {
    hide Plus, Nth;
    WordPowers();
    if k == 0 {
      MulMono(1, q, W64);
    } else {
      var h := Pow2(k - 1);
      assert (2 * n) * h == q * W64;
      if Nth(n) == 0 {
        WordAdd(n, n);
        Zeros(0);
        if 2 * n < W64 {
          NotYetZero(2 * n, k - 1, q);
        } else if 2 * n > W64 {
          var m := 2 * n - W64;
          assert m * h == (q - h) * W64 by { assert (m + W64) * h == m * h + W64 * h; }
          WordAdd(m, W64);
          Zeros(Nth(m));
          NotYetZero(m, k - 1, q - h);
        }
      }
    }
  }

  function Pow2(k: nat): (p: nat)
    ensures p > 0
  {
    if k == 0 then 1 else 2 * Pow2(k - 1)
  }

  lemma Nonzero(n: nat)
    requires 0 < n < W64
    ensures Nth(n) != 0
  {
    PowIs64();
    NotYetZero(n, 64, n);
  }

  lemma PowAdd(a: nat, b: nat)
    ensures Pow2(a + b) == Pow2(a) * Pow2(b)
    decreases b
  {
    if b > 0 {
      PowAdd(a, b - 1);
      DoubleProduct(Pow2(a), Pow2(b - 1));
      assert a + b - 1 == a + (b - 1);
    }
  }

  lemma DoubleProduct(p: nat, q: nat)
    ensures p * (2 * q) == 2 * (p * q)
  {
  }

  lemma PowIs64()
    ensures Pow2(64) == W64 && Pow2(32) == W32 && Pow2(16) == 0x1_0000 && Pow2(8) == 256
  {
    hide Pow2;
    PowIs8();
    PowAdd(8, 8);
    PowAdd(16, 16);
    PowAdd(32, 32);
  }

  lemma PowIs8()
    ensures Pow2(8) == 256
  {
    assert Pow2(4) == 16;
  }

  /** Counting up and down again. */
  lemma {:induction false} ValWord(n: nat)
    requires n < W64
    ensures Val(Nth(n)) == n
    decreases n
  {
    hide Plus, Minus, Val;
    ValStep(Nth(n));
    if n > 0 {
      Nonzero(n);
      ValWord(n - 1);
      BackAndForth(Nth(n - 1));
    }
  }

  /** On the way down every integer is passed. */
  lemma {:induction false} Passed(x: bv64, m: nat) returns (y: bv64)
    requires m <= Val(x)
    ensures Val(y) == m
    decreases Val(x)
  {
    hide Minus, Val;
    ValStep(x);
    if m == Val(x) {
      y := x;
    } else {
      y := Passed(Minus(x, 1), m);
    }
  }

  lemma ValBound(x: bv64)
    ensures Val(x) < W64
  {
    hide Plus, Minus, Val, Nth;
    if Val(x) >= W64 {
      var y := Passed(x, W64);
      WordVal(y);
      WordPowers();
      ValStep(0);
    }
  }

  lemma {:induction false} WordMod(n: nat)
    ensures Nth(n) == Nth(n % W64)
    decreases n
  {
    hide Plus, Nth;
    if n >= W64 {
      WordMod(n - W64);
      WordAdd(n - W64, W64);
      WordPowers();
      Zeros(Nth(n - W64));
    }
  }

  lemma ValMod(n: nat)
    ensures Val(Nth(n)) == n % W64
  {
    WordMod(n);
    ValWord(n % W64);
  }

  /** Sums and products are those of the integers modulo 2^64. */
  lemma AddVal(x: bv64, y: bv64)
    ensures Val(Plus(x, y)) == (Val(x) + Val(y)) % W64
  {
    hide Plus, Val, Nth;
    WordVal(x);
    WordVal(y);
    WordAdd(Val(x), Val(y));
    ValMod(Val(x) + Val(y));
  }

  lemma MulVal(x: bv64, y: bv64)
    ensures Val(Times(x, y)) == Val(x) * Val(y) % W64
  {
    hide Times, Val, Nth;
    WordVal(x);
    WordVal(y);
    WordMul(Val(x), Val(y));
    ValMod(Val(x) * Val(y));
  }

  // Halves and bits.

  function Half(x: bv64): bv64 { x >> 1 }

  function Bit(x: bv64): bv64 { x & 1 }

  function Top(x: bv64): bool { x & TOP != 0 }

  function Doubled(x: bv64): (r: bv64)
    ensures r == x
  {
    ((x >> 1) + (x >> 1)) + (x & 1)
  }

  lemma DoubledIs(x: bv64)
    ensures Plus((x >> 1) + (x >> 1), x & 1) == Doubled(x) == x
  {
  }

  lemma Halves(x: bv64)
    ensures Plus(Plus(Half(x), Half(x)), Bit(x)) == x && !Top(Half(x)) && (Bit(x) == 0 || Bit(x) == 1)
  {
    hide Plus, Doubled, Half, Bit, Top;
    DoubledHalf(x);
    DoubledIs(x);
    HalfTop(x);
    BitIs(x);
  }

  lemma DoubledHalf(x: bv64)
    ensures Plus(Half(x), Half(x)) == (x >> 1) + (x >> 1) && Bit(x) == x & 1
  {
    hide Plus, Half, Bit;
    HalfIs(x);
    PlusHalf(x);
  }

  lemma PlusHalf(x: bv64)
    ensures Plus(x >> 1, x >> 1) == (x >> 1) + (x >> 1)
  {
  }

  lemma HalfIs(x: bv64)
    ensures Half(x) == x >> 1 && Bit(x) == x & 1
  {
  }

  lemma HalfTop(x: bv64)
    ensures !Top(Half(x))
  {
  }

  lemma BitIs(x: bv64)
    ensures Bit(x) == 0 || Bit(x) == 1
  {
  }

  lemma TopOne(x: bv64)
    requires !Top(x) && Plus(x, 1) != TOP
    ensures !Top(Plus(x, 1))
  {
  }

  lemma TopHigh(x: bv64)
    requires !Top(x)
    ensures Top(Plus(x, TOP))
  {
  }

  /** The top bit tells whether the integer is at least 2^63. */
  lemma {:induction false} TopClear(n: nat)
    requires n < W63
    ensures !Top(Nth(n))
    decreases n
  {
    hide Plus, Top;
    if n == 0 {
      TopZero();
    } else {
      TopClear(n - 1);
      if Plus(Nth(n - 1), 1) == TOP {
        WordPowers();
        ValWord(n);
        ValWord(W63);
      }
      TopOne(Nth(n - 1));
    }
  }

  lemma TopZero()
    ensures !Top(0)
  {
  }

  lemma TopVal(x: bv64)
    ensures Top(x) <==> Val(x) >= W63
  {
    hide Plus, Top, Val, Nth;
    WordVal(x);
    ValBound(x);
    if Val(x) < W63 {
      TopClear(Val(x));
    } else {
      var n := Val(x) - W63;
      TopClear(n);
      WordAdd(n, W63);
      WordPowers();
      TopHigh(Nth(n));
    }
  }

  lemma HalfVal(x: bv64)
    ensures Val(Half(x)) == Val(x) / 2 && Val(Bit(x)) == Val(x) % 2
  {
    hide Plus, Top, Half, Bit, Val, Nth;
    var h, b := Half(x), Bit(x);
    Halves(x);
    TopVal(h);
    AddVal(h, h);
    AddVal(Plus(h, h), b);
    BitVal(b);
  }

  lemma BitVal(b: bv64)
    requires b == 0 || b == 1
    ensures Val(b) == if b == 0 then 0 else 1
  {
    ValStep(0);
    ValStep(1);
  }

  // Shifts.

  function Shr(x: bv64, k: bv7): bv64
    requires k < 64
  {
    x >> k
  }

  function Shl(x: bv64, k: bv7): bv64
    requires k < 64
  {
    x << k
  }

  lemma Peel32(x: bv64, k: bv7)
    requires 32 <= k < 64
    ensures Shr(x, k) == Shr(x >> 32, k ^ 32)
  {
    assert x >> k == (x >> 32) >> (k ^ 32);
  }

  lemma PeelLeft32(x: bv64, k: bv7)
    requires 32 <= k < 64
    ensures Shl(x, k) == Shl(x << 32, k ^ 32)
  {
    assert x << k == (x << 32) << (k ^ 32);
  }

  lemma Peel16(x: bv64, k: bv7)
    requires 16 <= k < 32
    ensures Shr(x, k) == Shr(x >> 16, k ^ 16)
  {
    assert x >> k == (x >> 16) >> (k ^ 16);
  }

  lemma PeelLeft16(x: bv64, k: bv7)
    requires 16 <= k < 32
    ensures Shl(x, k) == Shl(x << 16, k ^ 16)
  {
    assert x << k == (x << 16) << (k ^ 16);
  }

  lemma Peel8(x: bv64, k: bv7)
    requires 8 <= k < 16
    ensures Shr(x, k) == Shr(x >> 8, k ^ 8)
  {
    assert x >> k == (x >> 8) >> (k ^ 8);
  }

  lemma PeelLeft8(x: bv64, k: bv7)
    requires 8 <= k < 16
    ensures Shl(x, k) == Shl(x << 8, k ^ 8)
  {
    assert x << k == (x << 8) << (k ^ 8);
  }

  lemma Peel4(x: bv64, k: bv7)
    requires 4 <= k < 8
    ensures Shr(x, k) == Shr(x >> 4, k ^ 4)
  {
    assert x >> k == (x >> 4) >> (k ^ 4);
  }

  lemma PeelLeft4(x: bv64, k: bv7)
    requires 4 <= k < 8
    ensures Shl(x, k) == Shl(x << 4, k ^ 4)
  {
    assert x << k == (x << 4) << (k ^ 4);
  }

  lemma Peel2(x: bv64, k: bv7)
    requires 2 <= k < 4
    ensures Shr(x, k) == Shr(x >> 2, k ^ 2)
  {
    assert x >> k == (x >> 2) >> (k ^ 2);
  }

  lemma PeelLeft2(x: bv64, k: bv7)
    requires 2 <= k < 4
    ensures Shl(x, k) == Shl(x << 2, k ^ 2)
  {
    assert x << k == (x << 2) << (k ^ 2);
  }

  lemma ShrPowers(x: bv64)
    ensures x >> 32 == Shr(x, 32) == Shr(x >> 16, 16)
    ensures x >> 16 == Shr(x, 16) == Shr(x >> 8, 8)
    ensures x >> 8 == Shr(x, 8) == Shr(x >> 4, 4)
    ensures x >> 4 == Shr(x, 4) == Shr(x >> 2, 2)
    ensures x >> 2 == Shr(x, 2) == Shr(x >> 1, 1)
    ensures x >> 1 == Shr(x, 1)
  {
  }

  lemma ShlPowers(x: bv64)
    ensures x << 32 == Shl(x, 32) == Shl(x << 16, 16)
    ensures x << 16 == Shl(x, 16) == Shl(x << 8, 8)
    ensures x << 8 == Shl(x, 8) == Shl(x << 4, 4)
    ensures x << 4 == Shl(x, 4) == Shl(x << 2, 2)
    ensures x << 2 == Shl(x, 2) == Shl(x << 1, 1)
    ensures x << 1 == Shl(x, 1)
  {
  }

  lemma Distances(k: bv7)
    ensures k < 64 ==> k as nat < 64
    ensures 32 <= k < 64 ==> k ^ 32 < 64 && (k ^ 32) as nat == k as nat - 32
    ensures 16 <= k < 32 ==> k ^ 16 < 64 && (k ^ 16) as nat == k as nat - 16
    ensures 8 <= k < 16 ==> k ^ 8 < 64 && (k ^ 8) as nat == k as nat - 8
    ensures 4 <= k < 8 ==> k ^ 4 < 64 && (k ^ 4) as nat == k as nat - 4
    ensures 2 <= k < 4 ==> k ^ 2 < 64 && (k ^ 2) as nat == k as nat - 2
  {
  }

  /** The highest bit of the distance first. */
  lemma Peel(x: bv64, k: bv7) returns (b: bv7, h: bv7)
    requires 1 < k < 64
    ensures b < 64 && h < k && h < 64 && b as nat == 2 * h as nat && 0 < b as nat <= k as nat < 64
    ensures k ^ b < 64 && (k ^ b) as nat == k as nat - b as nat
    ensures Shr(x, k) == Shr(Shr(x, b), k ^ b) && Shr(x, b) == Shr(Shr(x, h), h)
    ensures Shl(x, k) == Shl(Shl(x, b), k ^ b) && Shl(x, b) == Shl(Shl(x, h), h)
  {
    hide Shr, Shl;
    ShrPowers(x);
    ShlPowers(x);
    Distances(k);
    if k >= 32 {
      Peel32(x, k);
      PeelLeft32(x, k);
      b, h := 32, 16;
    } else if k >= 16 {
      Peel16(x, k);
      PeelLeft16(x, k);
      b, h := 16, 8;
    } else if k >= 8 {
      Peel8(x, k);
      PeelLeft8(x, k);
      b, h := 8, 4;
    } else if k >= 4 {
      Peel4(x, k);
      PeelLeft4(x, k);
      b, h := 4, 2;
    } else if k >= 2 {
      Peel2(x, k);
      PeelLeft2(x, k);
      b, h := 2, 1;
    }
  }

  lemma ShrSmall(x: bv64)
    ensures Shr(x, 0) == x && Shr(x, 1) == Half(x)
  {
  }

  lemma DivDiv(n: nat, j: nat, k: nat)
    ensures n / Pow2(j) / Pow2(k) == n / Pow2(j + k)
    decreases j
  {
    if j > 0 {
      var p, q := Pow2(j - 1), Pow2(j - 1 + k);
      Div2(n, p);
      Div2(n, q);
      DivDiv(n / 2, j - 1, k);
    }
  }

  lemma Div2(n: nat, p: nat)
    requires p > 0
    ensures n / (2 * p) == n / 2 / p
  {
    var q, r := n / 2 / p, n / 2 % p;
    assert n / 2 == p * q + r;
    assert n == (2 * p) * q + (2 * r + n % 2);
    Quotient(n, 2 * p, q, 2 * r + n % 2);
  }

  lemma OneMore(q: nat, d: nat)
    ensures (q + 1) * d == d * q + d
  {
  }

  lemma Quotient(n: nat, d: nat, q: nat, r: nat)
    requires d > 0 && n == d * q + r && r < d
    ensures n / d == q && n % d == r
  {
    var k, m := n / d, n % d;
    assert n == d * k + m;
    if q < k {
      MulMono(q + 1, k, d);
      OneMore(q, d);
    } else if k < q {
      MulMono(k + 1, q, d);
      OneMore(k, d);
    }
  }

  lemma Twice(x: bv64, y: bv64, z: bv64, j: nat, k: nat)
    requires Val(y) == Val(x) / Pow2(j) && Val(z) == Val(y) / Pow2(k)
    ensures Val(z) == Val(x) / Pow2(j + k)
  {
    hide Val, Pow2;
    DivDiv(Val(x), j, k);
  }

  lemma ShrBase(x: bv64, k: bv7)
    requires k <= 1
    ensures Val(Shr(x, k)) == Val(x) / Pow2(k as nat)
  {
    hide Val, Shr, Half;
    ShrSmall(x);
    HalfVal(x);
    assert Pow2(0) == 1 && Pow2(1) == 2;
    assert k as nat == if k == 0 then 0 else 1;
  }

  /** A shift to the right divides. */
  lemma {:induction false} ShrVal(x: bv64, k: bv7)
    requires k < 64
    ensures Val(Shr(x, k)) == Val(x) / Pow2(k as nat)
    decreases k as nat
  {
    hide Val, Shr, Half, Pow2;
    if k <= 1 {
      ShrBase(x, k);
    } else {
      var b, h := Peel(x, k);
      ShrVal(x, h);
      ShrVal(Shr(x, h), h);
      Twice(x, Shr(x, h), Shr(x, b), h as nat, h as nat);
      ShrVal(Shr(x, b), k ^ b);
      Twice(x, Shr(x, b), Shr(x, k), b as nat, (k ^ b) as nat);
    }
  }

  lemma ShlSmall(x: bv64)
    ensures Shl(x, 0) == x && Shl(x, 1) == Plus(x, x)
  {
  }

  lemma ModMul(a: nat, j: nat, k: nat)
    ensures a * j % W64 * k % W64 == a * (j * k) % W64
  {
    var q, r := a * j / W64, a * j % W64;
    Associate(a, j, k);
    Spread(q, r, k);
    ModOff(q * k, r * k);
  }

  lemma Associate(a: nat, j: nat, k: nat)
    ensures a * (j * k) == (a * j) * k
  {
  }

  lemma Spread(q: nat, r: nat, k: nat)
    ensures (W64 * q + r) * k == W64 * (q * k) + r * k
  {
  }

  lemma ModOff(q: nat, r: nat)
    ensures (W64 * q + r) % W64 == r % W64
  {
  }

  lemma ShlBase(x: bv64, k: bv7)
    requires k <= 1
    ensures Val(Shl(x, k)) == Val(x) * Pow2(k as nat) % W64
  {
    hide Val, Shl, Plus;
    ShlSmall(x);
    ValBound(x);
    AddVal(x, x);
    assert Pow2(0) == 1 && Pow2(1) == 2;
    assert k as nat == if k == 0 then 0 else 1;
  }

  /** A shift to the left multiplies. */
  lemma {:induction false} ShlVal(x: bv64, k: bv7)
    requires k < 64
    ensures Val(Shl(x, k)) == Val(x) * Pow2(k as nat) % W64
    decreases k as nat
  {
    hide Val, Shl, Pow2;
    if k <= 1 {
      ShlBase(x, k);
    } else {
      var b, h := Peel(x, k);
      ShlVal(x, h);
      ShlVal(Shl(x, h), h);
      ShlTwice(x, Shl(x, h), Shl(x, b), h as nat, h as nat);
      ShlVal(Shl(x, b), k ^ b);
      ShlTwice(x, Shl(x, b), Shl(x, k), b as nat, (k ^ b) as nat);
    }
  }

  lemma ShlTwice(x: bv64, y: bv64, z: bv64, j: nat, k: nat)
    requires Val(y) == Val(x) * Pow2(j) % W64 && Val(z) == Val(y) * Pow2(k) % W64
    ensures Val(z) == Val(x) * Pow2(j + k) % W64
  {
    hide Val, Pow2;
    ModMul(Val(x), Pow2(j), Pow2(k));
    PowAdd(j, k);
  }

  function Div(n: nat, d: nat): nat
    requires d > 0
  {
    n / d
  }

  // Rotation and exclusive or.

  /** The bits shifted out come in at the other end. */
  function Rot(n: nat, r: nat, size: nat): nat
    requires r <= size
  {
    (n * Pow2(r) + n / Pow2(size - r)) % Pow2(size)
  }

  function Rotl(x: bv64, r: bv7): bv64
    requires 0 < r < 64
  {
    (x << r) | (x >> (64 - r))
  }

  lemma RotlIs(x: bv64, r: bv7)
    requires 0 < r < 64
    ensures Rotl(x, r) == Plus(Shl(x, r), Shr(x, 64 - r))
  {
    assert (x << r) | (x >> (64 - r)) == (x << r) + (x >> (64 - r));
  }

  lemma RotlVal(x: bv64, r: bv7)
    requires 0 < r < 64
    ensures r as nat < 64 && Val(Rotl(x, r)) == Rot(Val(x), r as nat, 64)
  {
    hide Val, Rotl, Plus, Shl, Shr, Pow2, Rot;
    Rest64(r);
    RotlIs(x, r);
    ShlVal(x, r);
    ShrVal(x, 64 - r);
    AddVal(Shl(x, r), Shr(x, 64 - r));
    RotIs(Val(x), r as nat);
  }

  lemma RotIs(n: nat, r: nat)
    requires r <= 64
    ensures (n * Pow2(r) % W64 + n / Pow2(64 - r)) % W64 == Rot(n, r, 64)
  {
    hide Pow2;
    PowIs64();
    ModAdd(n * Pow2(r), n / Pow2(64 - r));
  }

  lemma ModAdd(a: nat, b: nat)
    ensures (a % W64 + b) % W64 == (a + b) % W64
  {
  }

  lemma Rest64(r: bv7)
    requires 0 < r < 64
    ensures (64 - r) as nat == 64 - r as nat && 64 - r < 64 && r as nat < 64
  {
  }

  /** Exclusive or, digit by digit. */
  function XorN(a: nat, b: nat): nat
    decreases a + b
  {
    if a == 0 && b == 0 then 0 else (a + b) % 2 + 2 * XorN(a / 2, b / 2)
  }

  function Xor(x: bv64, y: bv64): bv64 { x ^ y }

  lemma XorHalf(x: bv64, y: bv64)
    ensures Half(Xor(x, y)) == Xor(Half(x), Half(y)) && Xor(0, 0) == 0
    ensures Bit(Xor(x, y)) == if Bit(x) == Bit(y) then 0 else 1
  {
  }

  lemma XorStep(a: nat, b: nat)
    ensures XorN(a, b) == (a + b) % 2 + 2 * XorN(a / 2, b / 2)
  {
  }

  lemma {:induction false} XorVal(x: bv64, y: bv64)
    ensures Val(Xor(x, y)) == XorN(Val(x), Val(y))
    decreases Val(x) + Val(y)
  {
    hide Val, Xor, Half, Bit, XorN;
    if Val(x) + Val(y) == 0 {
      ZeroVal(x);
      ZeroVal(y);
      XorHalf(x, y);
      XorNone();
    } else {
      HalfLess(x, y);
      XorVal(Half(x), Half(y));
      XorParts(x, y);
      HalvesDown(x, y);
      Recombine(Val(Xor(x, y)), Val(x), Val(y));
    }
  }

  lemma HalfLess(x: bv64, y: bv64)
    requires Val(x) + Val(y) > 0
    ensures Val(Half(x)) + Val(Half(y)) < Val(x) + Val(y)
  {
    hide Val, Half, Bit;
    HalfVal(x);
    HalfVal(y);
  }

  lemma HalvesDown(x: bv64, y: bv64)
    ensures Val(Half(x)) == Val(x) / 2 && Val(Half(y)) == Val(y) / 2
  {
    hide Val, Half, Bit;
    HalfVal(x);
    HalfVal(y);
  }

  lemma XorParts(x: bv64, y: bv64)
    ensures Val(Xor(x, y)) / 2 == Val(Xor(Half(x), Half(y))) && Val(Xor(x, y)) % 2 == (Val(x) % 2 + Val(y) % 2) % 2
  {
    hide Val, Xor, Half, Bit;
    HalfVal(x);
    HalfVal(y);
    HalfVal(Xor(x, y));
    XorHalf(x, y);
    XorBit(x, y);
  }

  lemma Recombine(n: nat, a: nat, b: nat)
    requires n / 2 == XorN(a / 2, b / 2) && n % 2 == (a % 2 + b % 2) % 2
    ensures n == XorN(a, b)
  {
    hide XorN;
    XorStep(a, b);
  }

  lemma XorNone()
    ensures XorN(0, 0) == 0
  {
  }

  lemma XorBit(x: bv64, y: bv64)
    ensures Val(Bit(Xor(x, y))) == (Val(Bit(x)) + Val(Bit(y))) % 2
  {
    hide Val, Xor, Half, Bit;
    XorHalf(x, y);
    BitIs(x);
    BitIs(y);
    BitVal(0);
    BitVal(1);
  }

  lemma ZeroVal(x: bv64)
    ensures Val(x) == 0 <==> x == 0
  {
  }

  // Words of 32 bits.

  ghost function Val32(x: bv32): nat { Val(Up(x)) }

  function Up(x: bv32): bv64 { x as bv64 }

  function Low(x: bv64): bv64 { x & 0xFFFF_FFFF }

  lemma HighLow(x: bv64)
    ensures Plus(Shl(Shr(x, 32), 32), Low(x)) == x
  {
    assert ((x >> 32) << 32) + (x & 0xFFFF_FFFF) == x;
  }

  lemma LowVal(x: bv64)
    ensures Val(Low(x)) == Val(x) % W32
  {
    hide Val, Plus, Minus, Shl, Shr, Low, Nth;
    var high := Shl(Shr(x, 32), 32);
    var n := Val(x);
    HighLow(x);
    ShrVal(x, 32);
    ShlVal(Shr(x, 32), 32);
    PowIs64();
    ValBound(x);
    WordVal(x);
    WordVal(high);
    WordAdd(n / W32 * W32, n % W32);
    Cancel(high, Low(x));
    Cancel(high, Nth(n % W32));
    ValWord(n % W32);
  }

  lemma UpLow(x: bv32)
    ensures Low(Up(x)) == Up(x)
  {
  }

  lemma Bound32(x: bv32)
    ensures Val32(x) < W32
  {
    hide Val, Up, Low;
    UpLow(x);
    LowVal(Up(x));
  }

  function Plus32(x: bv32, y: bv32): bv32 { x + y }

  function Times32(x: bv32, y: bv32): bv32 { x * y }

  /** The same word, written in two ways. */
  function LowSum(x: bv32, y: bv32): (r: bv64)
    ensures r == (x + y) as bv64
  {
    (x as bv64 + y as bv64) & 0xFFFF_FFFF
  }

  function LowProduct(x: bv32, y: bv32): (r: bv64)
    ensures r == (x * y) as bv64
  {
    (x as bv64 * y as bv64) & 0xFFFF_FFFF
  }

  lemma Sum32(x: bv32, y: bv32)
    ensures Up(x + y) == LowSum(x, y) == Low(x as bv64 + y as bv64)
  {
  }

  lemma Product32(x: bv32, y: bv32)
    ensures Up(x * y) == LowProduct(x, y) == Low(x as bv64 * y as bv64)
  {
  }

  lemma Wide32(x: bv32, y: bv32)
    ensures Plus(x as bv64, y as bv64) == x as bv64 + y as bv64
    ensures Times(x as bv64, y as bv64) == x as bv64 * y as bv64
    ensures Up(x) == x as bv64
  {
  }

  lemma Is32(x: bv32, y: bv32)
    ensures Plus32(x, y) == x + y && Times32(x, y) == x * y
  {
  }

  lemma AddVal32(x: bv32, y: bv32)
    ensures Val32(Plus32(x, y)) == (Val32(x) + Val32(y)) % W32
  {
    hide Val, Low, Plus, Times, LowSum, Up, Plus32, Times32;
    Is32(x, y);
    Sum32(x, y);
    Wide32(x, y);
    Wide32(y, x);
    AddVal(Up(x), Up(y));
    LowVal(Plus(Up(x), Up(y)));
    ModMod(Val32(x) + Val32(y));
  }

  lemma ModMod(n: nat)
    ensures n % W64 % W32 == n % W32
  {
  }

  lemma MulVal32(x: bv32, y: bv32)
    ensures Val32(Times32(x, y)) == Val32(x) * Val32(y) % W32
  {
    hide Val, Low, Plus, Times, LowProduct, Up, Plus32, Times32;
    Is32(x, y);
    Product32(x, y);
    Wide32(x, y);
    Wide32(y, x);
    MulVal(Up(x), Up(y));
    LowVal(Times(Up(x), Up(y)));
    ModMod(Val32(x) * Val32(y));
  }

  function Shr32(x: bv32, k: bv6): bv32
    requires k < 32
  {
    x >> k
  }

  function Xor32(x: bv32, y: bv32): bv32 { x ^ y }

  lemma ShrVal32(x: bv32, k: bv6)
    requires k < 32
    ensures k as nat < 32 && Val32(Shr32(x, k)) == Val32(x) / Pow2(k as nat)
  {
    hide Val, Up, Shr, Shr32, Pow2;
    UpShr(x, k);
    ShrVal(Up(x), k as bv7);
  }

  lemma UpShr(x: bv32, k: bv6)
    requires k < 32
    ensures Up(Shr32(x, k)) == Shr(Up(x), k as bv7) && (k as bv7) as nat == k as nat < 32
  {
    assert (x >> k) as bv64 == x as bv64 >> k;
  }

  lemma XorVal32(x: bv32, y: bv32)
    ensures Val32(Xor32(x, y)) == XorN(Val32(x), Val32(y))
  {
    hide Val, Up, Xor, Xor32;
    UpXor(x, y);
    XorVal(Up(x), Up(y));
  }

  lemma UpXor(x: bv32, y: bv32)
    ensures Up(Xor32(x, y)) == Xor(Up(x), Up(y))
  {
  }

  function Rotl32(x: bv32, r: bv6): bv32
    requires 0 < r < 32
  {
    (x << r) | (x >> (32 - r))
  }

  lemma UpRotl(x: bv32, r: bv6)
    requires 0 < r < 32 && r as bv7 < 64 && (32 - r) as bv7 < 64
    ensures Up(Rotl32(x, r)) == Low(Plus(Shl(Up(x), r as bv7), Shr(Up(x), (32 - r) as bv7)))
  {
    assert ((x << r) | (x >> (32 - r))) as bv64 ==
           ((x as bv64 << r) + (x as bv64 >> (32 - r))) & 0xFFFF_FFFF;
  }

  lemma Rest32(r: bv6)
    requires 0 < r < 32
    ensures r as bv7 < 64 && (32 - r) as bv7 < 64 && (r as bv7) as nat == r as nat < 32
    ensures ((32 - r) as bv7) as nat == 32 - r as nat
  {
  }

  lemma RotlVal32(x: bv32, r: bv6)
    requires 0 < r < 32
    ensures r as nat < 32 && Val32(Rotl32(x, r)) == Rot(Val32(x), r as nat, 32)
  {
    hide Val, Up, Low, Plus, Shl, Shr, Rotl32, Pow2, Rot;
    Rest32(r);
    UpRotl(x, r);
    var n, j := Val32(x), r as nat;
    ShlVal(Up(x), r as bv7);
    ShrVal(Up(x), (32 - r) as bv7);
    AddVal(Shl(Up(x), r as bv7), Shr(Up(x), (32 - r) as bv7));
    LowVal(Plus(Shl(Up(x), r as bv7), Shr(Up(x), (32 - r) as bv7)));
    RotIs32(n, j);
  }

  lemma RotIs32(n: nat, r: nat)
    requires r <= 32
    ensures (n * Pow2(r) % W64 + n / Pow2(32 - r)) % W64 % W32 == Rot(n, r, 32)
  {
    hide Pow2;
    PowIs64();
    ModAdd(n * Pow2(r), n / Pow2(32 - r));
    ModMod(n * Pow2(r) + n / Pow2(32 - r));
  }

  // Constants.

  ghost predicate Stands(n: nat, x: bv64) { Nth(n) == x }

  lemma Digits()
    ensures Stands(0, 0) && Stands(1, 1) && Stands(2, 2) && Stands(3, 3) && Stands(4, 4) && Stands(5, 5)
    ensures Stands(6, 6) && Stands(7, 7) && Stands(8, 8) && Stands(9, 9) && Stands(10, 10) && Stands(11, 11)
    ensures Stands(12, 12) && Stands(13, 13) && Stands(14, 14) && Stands(15, 15) && Stands(16, 16)
  {
    assert Stands(0, 0);
    assert Stands(1, 1);
    assert Stands(2, 2);
    assert Stands(3, 3);
    assert Stands(4, 4);
    assert Stands(5, 5);
    assert Stands(6, 6);
    assert Stands(7, 7);
    assert Stands(8, 8);
    assert Stands(9, 9);
    assert Stands(10, 10);
    assert Stands(11, 11);
    assert Stands(12, 12);
    assert Stands(13, 13);
    assert Stands(14, 14);
    assert Stands(15, 15);
  }

  lemma Next(n: nat, x: bv64, d: nat, e: bv64)
    requires Stands(n, x) && Stands(d, e)
    ensures Stands(16 * n + d, Plus(Times(16, x), e))
  {
    hide Plus, Times, Nth;
    Digits();
    WordMul(16, n);
    WordAdd(16 * n, d);
  }

  /** Four hexadecimal digits more. */
  function Four(n: nat, d: (nat, nat, nat, nat)): nat {
    (((n * 16 + d.0) * 16 + d.1) * 16 + d.2) * 16 + d.3
  }

  function FourW(x: bv64, e: (bv64, bv64, bv64, bv64)): bv64 {
    Plus(Times(16, Plus(Times(16, Plus(Times(16, Plus(Times(16, x), e.0)), e.1)), e.2)), e.3)
  }

  lemma FourStands(n: nat, x: bv64, d: (nat, nat, nat, nat), e: (bv64, bv64, bv64, bv64))
    requires Stands(n, x) && Stands(d.0, e.0) && Stands(d.1, e.1) && Stands(d.2, e.2) && Stands(d.3, e.3)
    ensures Stands(Four(n, d), FourW(x, e))
  {
    hide Stands, Plus, Times;
    var a, y := n * 16 + d.0, Plus(Times(16, x), e.0);
    Next(n, x, d.0, e.0);
    var b, z := a * 16 + d.1, Plus(Times(16, y), e.1);
    Next(a, y, d.1, e.1);
    var c, u := b * 16 + d.2, Plus(Times(16, z), e.2);
    Next(b, z, d.2, e.2);
    Next(c, u, d.3, e.3);
  }

  lemma StandsVal(n: nat, x: bv64)
    requires Stands(n, x) && n < W64
    ensures Val(x) == n
  {
    ValWord(n);
  }
}
