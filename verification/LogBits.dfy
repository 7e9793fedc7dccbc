/** The dirty log: 64-bit units, one bit per 64-byte line, the most significant bit first
    (include/tasvir/defs.h:53-62), and the function that sets its bits (include/tasvir/tasvir.h:212-233).
    A unit is the sequence of its 64 bits, so position 0 is the most significant one. */
module LogBits {

  type Unit = u: seq<bool> | |u| == 64 witness seq(64, _ => false)

  function Zero(): Unit { seq(64, _ => false) }

  function Ones(): Unit { seq(64, _ => true) }

  function Top(): Unit { seq(64, k => k == 0) }

  predicate IsZero(x: Unit) {
    forall k :: 0 <= k < 64 ==> !x[k]
  }

  function Or(x: Unit, y: Unit): Unit {
    seq(64, k requires 0 <= k < 64 => x[k] || y[k])
  }

  lemma OrZero(x: Unit, y: Unit)
    requires IsZero(x)
    ensures Or(x, y) == y && x == Zero()
  {
  }

  function And(x: Unit, y: Unit): Unit {
    seq(64, k requires 0 <= k < 64 => x[k] && y[k])
  }

  function Not(x: Unit): Unit {
    seq(64, k requires 0 <= k < 64 => !x[k])
  }

  /** Shift towards the most significant end, zeros coming in; shifting by 64 leaves zero. */
  function Shl(x: Unit, s: nat): Unit {
    seq(64, k requires 0 <= k < 64 => k + s < 64 && x[k + s])
  }

  /** Logical right shift. */
  function Shr(x: Unit, s: nat): Unit {
    seq(64, k requires 0 <= k < 64 => k >= s && x[k - s])
  }

  /** Right shift of a signed word: the sign bit is repeated. */
  function Sar(x: Unit, s: nat): Unit {
    seq(64, k requires 0 <= k < 64 => if k >= s then x[k - s] else x[0])
  }

  /** Number of zero bits before the first set one, 64 for a zero unit. */
  function Lzcnt(x: Unit): (n: nat)
    ensures n <= 64
    ensures forall k :: 0 <= k < n ==> !x[k]
    ensures n < 64 ==> x[n]
  {
    LeadingZeros(x)
  }

  function LeadingZeros(x: seq<bool>): (n: nat)
    ensures n <= |x|
    ensures forall k :: 0 <= k < n ==> !x[k]
    ensures n < |x| ==> x[n]
  {
    if x == [] || x[0] then 0 else 1 + LeadingZeros(x[1..])
  }

  /** Is the dirty bit of this line set? */
  predicate Dirty(log: seq<Unit>, line: nat) {
    line / 64 < |log| && log[line / 64][line % 64]
  }

  /** Does the byte range [data, data+len) touch this 64-byte line? */
  predicate Meets(data: nat, len: nat, line: nat) {
    64 * line < data + len && data < 64 * line + 64
  }

  /** The units that lie wholly between the first and the last one touched are filled. */
  method FillMiddle(log: array<Unit>, first: nat, last: nat)
    requires first < last < log.Length
    modifies log
    ensures forall u :: 0 <= u < log.Length ==>
              log[u] == if first < u < last then Ones() else old(log[u])
  {
    for i := first + 1 to last
      invariant forall u :: 0 <= u < log.Length ==>
                  log[u] == if first < u < i then Ones() else old(log[u])
    {
      log[i] := Ones();
    }
  }

  /** tasvir_log; `data` is the byte offset into the data region. Exactly the bits of the lines that the
      range touches are added, and no other bit changes. */
  method TasvirLog(log: array<Unit>, data: nat, len: nat)
    requires 0 < len && data + len <= 4096 * log.Length
    modifies log
    ensures forall line: nat {:trigger Dirty(log[..], line)} :: line < 64 * log.Length ==>
              (Dirty(log[..], line) <==> old(Dirty(log[..], line)) || Meets(data, len, line))
  {
    var bit0 := data / 64;
    var bit1 := (data + len - 1) / 64;
    var unit0 := bit0 / 64;
    var unit1 := bit1 / 64;
    var mask0 := Shr(Ones(), bit0 % 64);
    var mask1 := Sar(Top(), bit1 % 64);
    ghost var was := log[..];
    if unit0 == unit1 {
      var val := Or(log[unit0], And(mask0, mask1));
      if log[unit0] != val {
        log[unit0] := val;
      }
    } else {
      log[unit0] := Or(log[unit0], mask0);
      FillMiddle(log, unit0, unit1);
      log[unit1] := Or(log[unit1], mask1);
    }
    forall line: nat | line < 64 * log.Length
      ensures Dirty(log[..], line) <==> Dirty(was, line) || Meets(data, len, line)
    {
      assert bit0 <= line <= bit1 <==> Meets(data, len, line);
      LoggedUnit(was[line / 64], log[line / 64], line, bit0, bit1);
    }
  }

  /** One unit before and after tasvir_log, seen at one line. */
  lemma LoggedUnit(before: Unit, after: Unit, line: nat, bit0: nat, bit1: nat)
    requires bit0 <= bit1
    requires var u, u0, u1 := line / 64, bit0 / 64, bit1 / 64;
             var mask0, mask1 := Shr(Ones(), bit0 % 64), Sar(Top(), bit1 % 64);
             after == if u0 == u1 then (if u == u0 then Or(before, And(mask0, mask1)) else before)
                      else if u == u0 then Or(before, mask0)
                      else if u == u1 then Or(before, mask1)
                      else if u0 < u < u1 then Ones() else before
    ensures after[line % 64] <==> before[line % 64] || bit0 <= line <= bit1
  {
    var k := line % 64;
    var mask0, mask1 := Shr(Ones(), bit0 % 64), Sar(Top(), bit1 % 64);
    assert mask0[k] <==> bit0 % 64 <= k;
    assert mask1[k] <==> k <= bit1 % 64;
  }
}
