/**
  Bitwise operations on naturals, bit by bit, as far as the power-of-two rings of buffer.go
  and mem_ackqueue.go use them.
 */
module Bits {
  function Pow2(k: nat): (p: nat)
    ensures p >= 1
  {
    if k == 0 then 1 else 2 * Pow2(k - 1)
  }

  ghost predicate IsPow2(n: nat) {
    exists k: nat :: n == Pow2(k)
  }

  /** x & y */
  function BitAnd(x: nat, y: nat): nat {
    if x == 0 || y == 0 then 0 else (x % 2) * (y % 2) + 2 * BitAnd(x / 2, y / 2)
  }

  /** x | y */
  function BitOr(x: nat, y: nat): nat
    decreases x + y
  {
    if x == 0 then y
    else if y == 0 then x
    else (if x % 2 == 1 || y % 2 == 1 then 1 else 0) + 2 * BitOr(x / 2, y / 2)
  }

  /** x >> k */
  function ShiftRight(x: nat, k: nat): nat {
    if k == 0 then x else ShiftRight(x / 2, k - 1)
  }

  // ---------- masking ----------

  /** Masking with a power of two less one is the remainder: how both rings wrap. */
  lemma {:induction false} MaskIsRemainder(x: nat, k: nat)
    ensures BitAnd(x, Pow2(k) - 1) == x % Pow2(k)
  {
    if k == 0 {
    } else {
      var p := Pow2(k - 1);
      HalfMask(x, p);
      MaskIsRemainder(x / 2, k - 1);
      DoubleRemainder(x, p);
    }
  }

  lemma HalfMask(x: nat, p: nat)
    requires p > 0
    ensures BitAnd(x, 2 * p - 1) == x % 2 + 2 * BitAnd(x / 2, p - 1)
  {
  }

  lemma DoubleRemainder(x: nat, p: nat)
    requires p > 0
    ensures x % (2 * p) == x % 2 + 2 * ((x / 2) % p)
  {
    var h := x / 2;
    var q, r := h / p, h % p;
    assert x == 2 * h + x % 2;
    var t := p * q;
    assert h == t + r;
    assert (2 * p) * q == 2 * t;
    RemainderUnique(x, 2 * p, q, x % 2 + 2 * r);
  }

  lemma RemainderUnique(x: int, d: int, q: int, r: int)
    requires 0 <= r < d && x == d * q + r
    ensures x % d == r
  {
    var q2, r2 := x / d, x % d;
    assert x == d * q2 + r2;
    var e := q - q2;
    assert d * e == d * q - d * q2;
    NoMultipleBetween(d, e);
  }

  lemma NoMultipleBetween(d: int, e: int)
    requires d > 0 && -d < d * e < d
    ensures e == 0
  {
  }

  /** powerOfTwo64 */
  predicate PowerOfTwo(n: nat) {
    n != 0 && BitAnd(n, n - 1) == 0
  }

  lemma {:induction false} PowerOfTwoTest(n: nat)
    ensures PowerOfTwo(n) <==> IsPow2(n)
  {
    if n == 1 {
      assert n == Pow2(0);
    } else if n > 1 && n % 2 == 1 {
      AndSelf(n / 2);
      assert (n - 1) / 2 == n / 2;
      OddIsNoPower(n);
    } else if n > 1 {
      var h := n / 2;
      assert (n - 1) % 2 == 1 && (n - 1) / 2 == h - 1;
      PowerOfTwoTest(h);
      if IsPow2(h) {
        var k: nat :| h == Pow2(k);
        assert n == Pow2(k + 1);
      }
      if IsPow2(n) {
        var k: nat :| n == Pow2(k);
        assert h == Pow2(k - 1);
      }
    }
  }

  lemma {:induction false} AndSelf(x: nat)
    ensures BitAnd(x, x) == x
  {
    if x > 0 {
      AndSelf(x / 2);
    }
  }

  lemma OddIsNoPower(n: nat)
    requires n > 1 && n % 2 == 1
    ensures !IsPow2(n)
  {
  }

  // ---------- rounding up to a power of two ----------

  /** The or of a number with its own shift. */
  function Smear(x: nat, k: nat): nat {
    BitOr(x, ShiftRight(x, k))
  }

  /** roundUpPowerOfTwo64 of a positive argument. */
  function RoundUpPowerOfTwo(n: nat): nat
    requires n > 0
  {
    Smear(Smear(Smear(Smear(Smear(Smear(n - 1, 1), 2), 4), 8), 16), 32) + 1
  }

  function Ones(m: nat): nat {
    Pow2(m) - 1
  }

  /** h with m ones behind it. */
  function Stack(h: nat, m: nat): nat {
    if m == 0 then h else 1 + 2 * Stack(h, m - 1)
  }

  lemma {:induction false} OrShift(x: nat, y: nat, k: nat)
    ensures ShiftRight(BitOr(x, y), k) == BitOr(ShiftRight(x, k), ShiftRight(y, k))
  {
    if k > 0 {
      assert BitOr(x, y) / 2 == BitOr(x / 2, y / 2);
      OrShift(x / 2, y / 2, k - 1);
    }
  }

  lemma {:induction false} ShiftTwice(x: nat, j: nat, k: nat)
    ensures ShiftRight(ShiftRight(x, j), k) == ShiftRight(x, j + k)
  {
    if j > 0 { ShiftTwice(x / 2, j - 1, k); }
  }

  /** Or with m ones fills the low m bits. */
  lemma {:induction false} OrOnes(u: nat, m: nat)
    ensures BitOr(u, Ones(m)) == Stack(ShiftRight(u, m), m)
  {
    if m > 0 {
      assert Ones(m) % 2 == 1 && Ones(m) / 2 == Ones(m - 1);
      OrOnes(u / 2, m - 1);
      if u == 0 { StackZero(m); }
    }
  }

  lemma {:induction false} StackZero(m: nat)
    ensures ShiftRight(0, m) == 0 && Stack(0, m) == Ones(m)
  {
    if m > 0 { StackZero(m - 1); }
  }

  lemma {:induction false} StackOnes(a: nat, m: nat)
    ensures Stack(Ones(a), m) == Ones(a + m)
  {
    if m > 0 { StackOnes(a, m - 1); }
  }

  lemma {:induction false} ShiftOnes(m: nat, k: nat)
    requires k <= m
    ensures ShiftRight(Ones(m), k) == Ones(m - k)
  {
    if k > 0 {
      assert Ones(m) / 2 == Ones(m - 1);
      ShiftOnes(m - 1, k - 1);
    }
  }

  lemma {:induction false} ShiftZero(x: nat, k: nat)
    ensures ShiftRight(x, k) == 0 <==> x < Pow2(k)
  {
    if k > 0 { ShiftZero(x / 2, k - 1); }
  }

  lemma {:induction false} PowMonotone(j: nat, k: nat)
    requires j <= k
    ensures Pow2(j) <= Pow2(k)
    ensures j < k ==> 2 * Pow2(j) <= Pow2(k)
  {
    if j < k { PowMonotone(j, k - 1); }
  }

  lemma {:induction false} HighestBit(x: nat) returns (b: nat)
    requires x > 0
    ensures Pow2(b) <= x < Pow2(b + 1) && ShiftRight(x, b) == 1
  {
    if x == 1 {
      b := 0;
      assert Pow2(1) == 2;
    } else {
      var c := HighestBit(x / 2);
      b := c + 1;
    }
  }

  /** x has b + 1 bits and the top m of them, or all of them, are ones. */
  predicate TopOnes(x: nat, b: nat, m: nat) {
    if m <= b + 1 then ShiftRight(x, b + 1 - m) == Ones(m) else x == Ones(b + 1)
  }

  /** One or with a shift doubles the run of ones. */
  lemma SmearDoubles(x: nat, b: nat, m: nat)
    requires m > 0 && TopOnes(x, b, m)
    ensures TopOnes(Smear(x, m), b, 2 * m)
  {
    if m > b {
      NothingToDo(x, b, m);
    } else {
      var y := ShiftRight(x, m);
      var low: nat := if 2 * m <= b + 1 then b + 1 - 2 * m else 0;
      var fill := b + 1 - m - low;
      var u := ShiftRight(x, low);
      ShiftTwice(x, low, fill);
      ShiftTwice(x, m, low);
      ShiftTwice(x, low, m);
      ShiftTwice(x, low + fill, m - fill);
      ShiftOnes(m, m - fill);
      assert ShiftRight(u, fill) == Ones(m) && ShiftRight(y, low) == Ones(fill);
      OrShift(x, y, low);
      OrOnes(u, fill);
      StackOnes(m, fill);
      assert ShiftRight(Smear(x, m), low) == Ones(m + fill);
    }
  }

  lemma NothingToDo(x: nat, b: nat, m: nat)
    requires m > b && TopOnes(x, b, m)
    ensures Smear(x, m) == x && x == Ones(b + 1)
  {
    PowMonotone(b + 1, m);
    ShiftZero(Ones(b + 1), m);
  }

  /** For every argument up to the largest power of two of the type, rounding gives the
      least power of two that is not smaller. */
  lemma RoundUpIsLeast(n: nat) returns (k: nat)
    requires 0 < n <= Pow2(62)
    ensures RoundUpPowerOfTwo(n) == Pow2(k)
    ensures n <= Pow2(k)
    ensures forall j: nat :: n <= Pow2(j) ==> Pow2(k) <= Pow2(j)
  {
    hide Smear, ShiftRight, BitOr, Pow2;
    if n == 1 {
      ZeroSmear(1); ZeroSmear(2); ZeroSmear(4); ZeroSmear(8); ZeroSmear(16); ZeroSmear(32);
      PowZero();
      return 0;
    }
    var b := HighestBit(n - 1);
    assert b < 62 by { if b >= 62 { PowMonotone(62, b); } }
    SmearedToOnes(n - 1, b);
    k := b + 1;
    forall j: nat | n <= Pow2(j) ensures Pow2(k) <= Pow2(j) {
      PowMonotone(if j <= b then j else k, if j <= b then b else j);
    }
  }

  lemma SmearedToOnes(x: nat, b: nat)
    requires ShiftRight(x, b) == 1 && b < 62
    ensures Smear(Smear(Smear(Smear(Smear(Smear(x, 1), 2), 4), 8), 16), 32) == Ones(b + 1)
  {
    hide Smear, ShiftRight, BitOr;
    assert Ones(1) == 1;
    assert TopOnes(x, b, 1);
    SmearDoubles(x, b, 1);
    var x1 := Smear(x, 1);
    SmearDoubles(x1, b, 2);
    var x2 := Smear(x1, 2);
    SmearDoubles(x2, b, 4);
    var x3 := Smear(x2, 4);
    SmearDoubles(x3, b, 8);
    var x4 := Smear(x3, 8);
    SmearDoubles(x4, b, 16);
    var x5 := Smear(x4, 16);
    SmearDoubles(x5, b, 32);
  }

  lemma PowZero()
    ensures Pow2(0) == 1
  {
  }

  lemma ZeroSmear(k: nat)
    ensures Smear(0, k) == 0
  {
    StackZero(k);
  }
}
