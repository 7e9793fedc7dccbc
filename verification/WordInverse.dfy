/** Which operations on words can be undone: adding, multiplying by an odd constant, rotating, exclusive or, and mixing
    a word with its own upper bits. Equal results come from equal words. */
module WordInverse {
  import opened Basics
  import opened Words

  lemma SameVal(x: bv64, y: bv64)
    requires Val(x) == Val(y)
    ensures x == y
  {
    hide Val, Nth;
    WordVal(x);
    WordVal(y);
  }

  lemma SameVal32(x: bv32, y: bv32)
    requires Val32(x) == Val32(y)
    ensures x == y
  {
    hide Val;
    SameVal(Up(x), Up(y));
    SameUp(x, y);
  }

  lemma SameUp(x: bv32, y: bv32)
    requires Up(x) == Up(y)
    ensures x == y
  {
  }

  // Sums, products and rotations, in integers.

  lemma SameSum(a: nat, x: nat, y: nat)
    requires x < W64 && y < W64 && (a + x) % W64 == (a + y) % W64
    ensures x == y
  {
    var i, j := (a + x) / W64, (a + y) / W64;
    assert x - y == W64 * (i - j);
  }

  lemma SameSum32(a: nat, x: nat, y: nat)
    requires x < W32 && y < W32 && (a + x) % W32 == (a + y) % W32
    ensures x == y
  {
    var i, j := (a + x) / W32, (a + y) / W32;
    assert x - y == W32 * (i - j);
  }

  lemma SamePlus(a: bv64, x: bv64, y: bv64)
    requires Plus(a, x) == Plus(a, y)
    ensures x == y
  {
    hide Val, Plus;
    AddVal(a, x);
    AddVal(a, y);
    ValBound(x);
    ValBound(y);
    SameSum(Val(a), Val(x), Val(y));
    SameVal(x, y);
  }

  lemma SamePlus32(a: bv32, x: bv32, y: bv32)
    requires Plus32(a, x) == Plus32(a, y)
    ensures x == y
  {
    hide Val32, Plus32;
    AddVal32(a, x);
    AddVal32(a, y);
    Bound32(x);
    Bound32(y);
    SameSum32(Val32(a), Val32(x), Val32(y));
    SameVal32(x, y);
  }

  lemma Spread(a: nat, b: nat, c: nat, d: nat)
    ensures (a * b + c) * d == a * (b * d) + c * d
  {
  }

  lemma Spread1(x: nat, w: nat, j: nat)
    ensures x * (w * j + 1) == w * (x * j) + x
  {
  }

  lemma Join(w: nat, a: nat, b: nat)
    ensures w * a + w * b == w * (a + b)
  {
  }

  lemma Product(x: nat, p: nat, q: nat)
    ensures (x * p) * q == x * (p * q)
  {
  }

  /** Multiplying by the inverse takes back a product. */
  lemma TakenBack(x: nat, p: nat, q: nat, w: nat)
    requires w > 0 && x < w && p * q % w == 1
    ensures x * p % w * q % w == x
  {
    var n := x * p * q;
    OneWay(x, p, q, w);
    OtherWay(x, p, q, w);
  }

  lemma OneWay(x: nat, p: nat, q: nat, w: nat)
    requires w > 0 && x < w && p * q % w == 1
    ensures (x * p) * q % w == x
  {
    var j := p * q / w;
    DivMod(p * q, w);
    Product(x, p, q);
    Spread1(x, w, j);
    Quotient((x * p) * q, w, x * j, x);
  }

  lemma OtherWay(x: nat, p: nat, q: nat, w: nat)
    requires w > 0
    ensures (x * p) * q % w == x * p % w * q % w
  {
    var n := x * p;
    var k, r := n / w, n % w;
    var i, s := r * q / w, r * q % w;
    DivMod(n, w);
    DivMod(r * q, w);
    Combined(n, w, k, r, q, i, s);
    Quotient(n * q, w, k * q + i, s);
  }

  lemma Combined(n: nat, w: nat, k: nat, r: nat, q: nat, i: nat, s: nat)
    requires n == w * k + r && r * q == w * i + s
    ensures n * q == w * (k * q + i) + s
  {
    Spread(w, k, r, q);
    Join(w, k * q, i);
  }

  lemma DivMod(n: nat, w: nat)
    requires w > 0
    ensures n == w * (n / w) + n % w && n % w < w
  {
  }

  lemma SameTimes(x: bv64, y: bv64, p: bv64, q: nat)
    requires Val(p) * q % W64 == 1 && Times(x, p) == Times(y, p)
    ensures x == y
  {
    hide Val, Times;
    MulVal(x, p);
    MulVal(y, p);
    ValBound(x);
    ValBound(y);
    TakenBack(Val(x), Val(p), q, W64);
    TakenBack(Val(y), Val(p), q, W64);
    SameVal(x, y);
  }

  lemma SameTimes32(x: bv32, y: bv32, p: bv32, q: nat)
    requires Val32(p) * q % W32 == 1 && Times32(x, p) == Times32(y, p)
    ensures x == y
  {
    hide Val32, Times32;
    MulVal32(x, p);
    MulVal32(y, p);
    Bound32(x);
    Bound32(y);
    TakenBack(Val32(x), Val32(p), q, W32);
    TakenBack(Val32(y), Val32(p), q, W32);
    SameVal32(x, y);
  }

  /** The upper and the lower part of a word change places. */
  lemma RotParts(n: nat, r: nat, size: nat)
    requires r <= size && n < Pow2(size)
    ensures Rot(n, r, size) / Pow2(r) == n % Pow2(size - r) && Rot(n, r, size) % Pow2(r) == n / Pow2(size - r)
  {
    var a, b := Pow2(r), Pow2(size - r);
    PowAdd(r, size - r);
    hide Pow2;
    SplitProduct(n, a, b);
  }

  lemma SplitProduct(n: nat, a: nat, b: nat)
    requires a > 0 && b > 0 && n < a * b
    ensures (n * a + n / b) % (a * b) / a == n % b && (n * a + n / b) % (a * b) % a == n / b
  {
    var q, m := n / b, n % b;
    DivMod(n, b);
    Quotients(q, a, b, m);
    Below(m, a, b, q);
    Turned(n, a, b, q, m);
    Quotient(n * a + q, a * b, q, a * m + q);
    Quotient(a * m + q, a, m, q);
  }

  lemma Turned(n: nat, a: nat, b: nat, q: nat, m: nat)
    requires n == b * q + m
    ensures n * a + q == (a * b) * q + (a * m + q)
  {
    Spread(b, q, m, a);
    Regroup(b, q, a);
  }

  lemma Regroup(b: nat, q: nat, a: nat)
    ensures b * (q * a) == (a * b) * q
  {
  }

  lemma Quotients(q: nat, a: nat, b: nat, m: nat)
    requires b > 0 && b * q + m < a * b
    ensures q < a
  {
    if q >= a {
      MulMono(a, q, b);
    }
  }

  lemma Below(m: nat, a: nat, b: nat, q: nat)
    requires m < b && q < a
    ensures a * m + q < a * b
  {
    MulMono(m + 1, b, a);
    OneMore(m, a);
  }

  lemma SameRot(x: nat, y: nat, r: nat, size: nat)
    requires r <= size && x < Pow2(size) && y < Pow2(size) && Rot(x, r, size) == Rot(y, r, size)
    ensures x == y
  {
    hide Rot, Pow2;
    RotParts(x, r, size);
    RotParts(y, r, size);
  }

  lemma SameRotl(x: bv64, y: bv64, r: bv7)
    requires 0 < r < 64 && Rotl(x, r) == Rotl(y, r)
    ensures x == y
  {
    hide Val, Rotl, Rot, Pow2;
    RotlVal(x, r);
    RotlVal(y, r);
    ValBound(x);
    ValBound(y);
    PowIs64();
    SameRot(Val(x), Val(y), r as nat, 64);
    SameVal(x, y);
  }

  lemma SameRotl32(x: bv32, y: bv32, r: bv6)
    requires 0 < r < 32 && Rotl32(x, r) == Rotl32(y, r)
    ensures x == y
  {
    hide Val32, Rotl32, Rot, Pow2;
    RotlVal32(x, r);
    RotlVal32(y, r);
    Bound32(x);
    Bound32(y);
    PowIs64();
    SameRot(Val32(x), Val32(y), r as nat, 32);
    SameVal32(x, y);
  }

  lemma PlusOrder(x: bv64, y: bv64)
    ensures Plus(x, y) == Plus(y, x)
  {
  }

  lemma PlusOrder32(x: bv32, y: bv32)
    ensures Plus32(x, y) == Plus32(y, x)
  {
  }

  lemma SameXor(a: bv64, x: bv64, y: bv64)
    requires Xor(a, x) == Xor(a, y) || Xor(x, a) == Xor(y, a)
    ensures x == y
  {
  }

  // Mixing in the upper bits.

  function Unmix33(z: bv64): bv64 { z ^ (z >> 33) }

  lemma Unmix33Is(x: bv64)
    ensures Unmix33(x ^ (x >> 33)) == x && Xor(x, x >> 33) == x ^ (x >> 33) && Shr(x, 33) == x >> 33
  {
  }

  lemma SameMix33(x: bv64, y: bv64)
    requires Xor(x, Shr(x, 33)) == Xor(y, Shr(y, 33))
    ensures x == y
  {
    hide Unmix33, Xor, Shr;
    Unmix33Is(x);
    Unmix33Is(y);
  }

  function Unmix29(z: bv64): bv64 { z ^ (z >> 29) ^ (z >> 58) }

  lemma Unmix29Is(x: bv64)
    ensures Unmix29(x ^ (x >> 29)) == x && Xor(x, x >> 29) == x ^ (x >> 29) && Shr(x, 29) == x >> 29
  {
  }

  lemma SameMix29(x: bv64, y: bv64)
    requires Xor(x, Shr(x, 29)) == Xor(y, Shr(y, 29))
    ensures x == y
  {
    hide Unmix29, Xor, Shr;
    Unmix29Is(x);
    Unmix29Is(y);
  }

  function Unmix32(z: bv64): bv64 { z ^ (z >> 32) }

  lemma Unmix32Is(x: bv64)
    ensures Unmix32(x ^ (x >> 32)) == x && Xor(x, x >> 32) == x ^ (x >> 32) && Shr(x, 32) == x >> 32
  {
  }

  lemma SameMix32(x: bv64, y: bv64)
    requires Xor(x, Shr(x, 32)) == Xor(y, Shr(y, 32))
    ensures x == y
  {
    hide Unmix32, Xor, Shr;
    Unmix32Is(x);
    Unmix32Is(y);
  }

  function Unmix15(z: bv32): bv32 { z ^ (z >> 15) ^ (z >> 30) }

  lemma Unmix15Is(x: bv32)
    ensures Unmix15(x ^ (x >> 15)) == x && Xor32(x, x >> 15) == x ^ (x >> 15) && Shr32(x, 15) == x >> 15
  {
  }

  lemma SameMix15(x: bv32, y: bv32)
    requires Xor32(x, Shr32(x, 15)) == Xor32(y, Shr32(y, 15))
    ensures x == y
  {
    hide Unmix15, Xor32, Shr32;
    Unmix15Is(x);
    Unmix15Is(y);
  }

  function Unmix13(z: bv32): bv32 { z ^ (z >> 13) ^ (z >> 26) }

  lemma Unmix13Is(x: bv32)
    ensures Unmix13(x ^ (x >> 13)) == x && Xor32(x, x >> 13) == x ^ (x >> 13) && Shr32(x, 13) == x >> 13
  {
  }

  lemma SameMix13(x: bv32, y: bv32)
    requires Xor32(x, Shr32(x, 13)) == Xor32(y, Shr32(y, 13))
    ensures x == y
  {
    hide Unmix13, Xor32, Shr32;
    Unmix13Is(x);
    Unmix13Is(y);
  }

  function Unmix16(z: bv32): bv32 { z ^ (z >> 16) }

  lemma Unmix16Is(x: bv32)
    ensures Unmix16(x ^ (x >> 16)) == x && Xor32(x, x >> 16) == x ^ (x >> 16) && Shr32(x, 16) == x >> 16
  {
  }

  lemma SameMix16(x: bv32, y: bv32)
    requires Xor32(x, Shr32(x, 16)) == Xor32(y, Shr32(y, 16))
    ensures x == y
  {
    hide Unmix16, Xor32, Shr32;
    Unmix16Is(x);
    Unmix16Is(y);
  }
}
