module Wrappers {
  datatype Option<+T> = None | Some(value: T)
}

/** 32-bit machine words as the ring uses them: free-running counters that wrap
    at 2^32, a bitwise mask for the slot index, and the conversion to `int`. */
module Words {

  const MODULUS: int := 0x1_0000_0000
  const HALF: int := 0x8000_0000

  type Word = n: nat | n < MODULUS

  function Wrap(i: int): Word {
    i % MODULUS
  }

  function Sub(a: Word, b: Word): Word {
    Wrap(a - b)
  }

  function Add(a: Word, b: Word): Word {
    Wrap(a + b)
  }

  /** Reading an `unsigned int` as an `int` (two's complement). */
  function ToInt(w: Word): int {
    if w < HALF then w else w - MODULUS
  }

  function Min(a: nat, b: nat): nat {
    if a < b then a else b
  }

  function Pow2(e: nat): (p: nat)
    ensures p > 0
  {
    if e == 0 then 1 else 2 * Pow2(e - 1)
  }

  /** Bitwise and of two naturals, one binary digit at a time. */
  function And(a: nat, b: nat): (r: nat)
    ensures r <= a && r <= b
  {
    if a == 0 || b == 0 then 0 else 2 * And(a / 2, b / 2) + (if a % 2 == 1 && b % 2 == 1 then 1 else 0)
  }

  /** `__CHECK_POWER_OF_2`. */
  predicate CheckPowerOf2(x: nat) {
    x > 0 && And(x, x - 1) == 0
  }

  /** What the static assertion lets through: a 32-bit power of two. */
  predicate IsCapacity(size: nat) {
    CheckPowerOf2(size) && size < MODULUS
  }

  /** A non-zero multiple of d is at least d away from zero. */
  lemma MultipleFar(k: int, d: int)
    requires d > 0
    ensures k >= 1 ==> k * d >= d
    ensures k <= -1 ==> k * d <= -d
  {
  }

  /** Quotient and remainder are unique. */
  lemma ModUnique(x: int, d: int, q: int, r: int)
    requires 0 <= r < d
    requires x == q * d + r
    ensures x / d == q && x % d == r
  {
    var k := q - x / d;
    assert k * d == x % d - r;
    MultipleFar(k, d);
  }

  /** Adding whole laps leaves the remainder alone. */
  lemma ModLaps(x: int, d: int, laps: int)
    requires d > 0
    ensures (x + laps * d) % d == x % d
  {
    assert x + laps * d == (x / d + laps) * d + x % d;
    ModUnique(x + laps * d, d, x / d + laps, x % d);
  }

  /** Two positions less than one lap apart do not share a slot. */
  lemma ModApart(a: int, b: int, d: int)
    requires a < b < a + d
    ensures a % d != b % d
  {
    var q := b / d - a / d;
    assert b - a == q * d + (b % d - a % d);
    MultipleFar(q, d);
  }

  /** Masking with 2^e - 1 is the remainder by 2^e. */
  lemma {:induction false} AndMask(x: nat, e: nat)
    ensures And(x, Pow2(e) - 1) == x % Pow2(e)
  {
    hide And;
    if e == 0 || x == 0 {
      AndZero(x);
      AndZero(Pow2(e) - 1);
      ModUnique(0, Pow2(e), 0, 0);
    } else {
      AndMask(x / 2, e - 1);
      AndMaskDouble(x, Pow2(e - 1));
    }
  }

  lemma AndMaskDouble(x: nat, m: nat)
    requires x > 0 && m > 0 && And(x / 2, m - 1) == x / 2 % m
    ensures And(x, 2 * m - 1) == x % (2 * m)
  {
    hide And;
    ModDouble(x, m);
    AndDigit(x, 2 * m - 1);
  }

  lemma AndZero(a: nat)
    ensures And(a, 0) == 0 && And(0, a) == 0
  {
  }

  lemma AndDigit(a: nat, b: nat)
    requires a > 0 && b % 2 == 1
    ensures And(a, b) == 2 * And(a / 2, b / 2) + a % 2
  {
  }

  lemma ModDouble(x: nat, m: nat)
    requires m > 0
    ensures (2 * m - 1) / 2 == m - 1 && (2 * m - 1) % 2 == 1
    ensures x % (2 * m) == 2 * (x / 2 % m) + x % 2
  {
    var q, r := x / 2 / m, x / 2 % m;
    assert x / 2 == q * m + r;
    assert x == 2 * (q * m + r) + x % 2;
    assert 2 * (q * m + r) == q * (2 * m) + 2 * r;
    ModUnique(x, 2 * m, q, 2 * r + x % 2);
  }

  lemma {:induction false} AndSelf(x: nat)
    ensures And(x, x) == x
  {
    if x > 0 {
      AndSelf(x / 2);
      assert x % 2 == 0 || x % 2 == 1;
    }
  }

  /** The static assertion accepts exactly the powers of two. */
  lemma CheckPowerOf2Exact(x: nat)
    ensures CheckPowerOf2(x) <==> exists e: nat :: x == Pow2(e)
  {
    if e: nat :| x == Pow2(e) {
      AndMask(x, e);
      ModUnique(x, x, 1, 0);
    }
    if CheckPowerOf2(x) {
      var e := Exponent(x);
    }
  }

  lemma {:induction false} Exponent(x: nat) returns (e: nat)
    requires CheckPowerOf2(x)
    ensures x == Pow2(e)
  {
    if x == 1 {
      e := 0;
    } else {
      var y := x / 2;
      AndSelf(y);
      assert (x - 1) / 2 == if x % 2 == 1 then y else y - 1;
      if x % 2 == 1 {
        assert false;
      } else {
        e := Exponent(y);
        e := e + 1;
      }
    }
  }

  lemma {:induction false} Pow2Sum(a: nat, b: nat)
    ensures Pow2(a + b) == Pow2(a) * Pow2(b)
  {
    if a > 0 {
      Pow2Sum(a - 1, b);
      assert Pow2(a + b) == 2 * Pow2(a - 1 + b);
    }
  }

  /** A capacity is at most 2^31 and divides the range of the counters. */
  lemma CapacityDivides(size: nat) returns (laps: nat)
    requires IsCapacity(size)
    ensures 0 < size <= HALF
    ensures laps * size == MODULUS
  {
    var e := Exponent(size);
    Pow2Of32();
    if e >= 32 {
      Pow2Sum(32, e - 32);
      MultipleFar(Pow2(e - 32), MODULUS);
    }
    Pow2Sum(32 - e, e);
    Pow2Sum(31 - e, e);
    MultipleFar(Pow2(31 - e), size);
    laps := Pow2(32 - e);
  }

  lemma Pow2Of32()
    ensures Pow2(31) == HALF && Pow2(32) == MODULUS
  {
    assert Pow2(8) == 256;
    Pow2Sum(8, 8);
    Pow2Sum(16, 16);
  }

  /** The masked index of a wrapped counter is the position modulo the capacity,
      also after the counter has overflowed. */
  lemma MaskedIndex(size: nat, position: nat)
    requires IsCapacity(size)
    ensures size > 0 && And(Wrap(position), size - 1) == position % size
  {
    var laps := CapacityDivides(size);
    var e := Exponent(size);
    AndMask(Wrap(position), e);
    WrapThenMod(position, size, laps);
  }

  lemma MulAssoc(a: int, b: int, c: int)
    ensures a * (b * c) == (a * b) * c
  {
  }

  lemma WrapThenMod(x: int, size: int, laps: int)
    requires size > 0 && laps * size == MODULUS
    ensures Wrap(x) % size == x % size
  {
    var q := -(x / MODULUS);
    MulAssoc(q, laps, size);
    assert Wrap(x) == x + q * MODULUS;
    ModLaps(x, size, q * laps);
  }

  /** `capacity - in + out` on 32-bit words is the true free space. */
  lemma FreeSpace(size: nat, head: nat, tail: nat)
    requires size <= HALF
    requires tail <= head <= tail + size
    ensures Add(Sub(size, Wrap(head)), Wrap(tail)) == size - (head - tail)
  {
    hide Wrap;
    WrapDrop(size, head);
    WrapAdd(size - head, tail);
    WrapNear(size - head + tail);
  }

  /** Wrapping early or late makes no difference. */
  lemma WrapAdd(a: int, b: int)
    ensures Wrap(Wrap(a) + Wrap(b)) == Wrap(a + b)
  {
    var q := a / MODULUS + b / MODULUS;
    assert a + b == (Wrap(a) + Wrap(b)) + q * MODULUS;
    ModLaps(Wrap(a) + Wrap(b), MODULUS, q);
  }

  lemma WrapDrop(a: int, b: int)
    ensures Wrap(a - Wrap(b)) == Wrap(a - b)
  {
    ModLaps(a - b, MODULUS, b / MODULUS);
    assert a - b + (b / MODULUS) * MODULUS == a - Wrap(b);
  }

  /** `in - out` on 32-bit words is the true occupancy. */
  lemma Occupancy(head: nat, tail: nat)
    requires tail <= head < tail + MODULUS
    ensures Sub(Wrap(head), Wrap(tail)) == head - tail
  {
    hide Wrap;
    WrapDrop(Wrap(head), tail);
    WrapLess(head, tail);
    WrapNear(head - tail);
  }

  lemma WrapLess(a: int, b: int)
    ensures Wrap(Wrap(a) - b) == Wrap(a - b)
  {
    ModLaps(Wrap(a) - b, MODULUS, a / MODULUS);
    assert Wrap(a) - b + (a / MODULUS) * MODULUS == a - b;
  }

  /** Advancing a counter commutes with wrapping. */
  lemma Advance(position: nat, n: nat)
    ensures Wrap(Wrap(position) + n) == Wrap(position + n)
  {
    ModLaps(position + n, MODULUS, -(position / MODULUS));
  }

  /** Wrapping a number of less than one lap, above or below. */
  lemma WrapNear(i: int)
    requires -MODULUS <= i < 2 * MODULUS
    ensures Wrap(i) == if i < 0 then i + MODULUS else if i < MODULUS then i else i - MODULUS
  {
  }
}
