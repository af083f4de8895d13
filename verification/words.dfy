/** Instruction words and their bit fields.

    A word is a `u32`. The decoder reads it with right shifts and masks
    (`(word >> k) & m`); on a non-negative integer these are exactly
    division by 2^k and remainder modulo m + 1, and an `|` of fields whose
    bits do not overlap is their sum. The model writes them that way. */
module Words {

  /** A `u32`. */
  type Word = x: nat | x < 0x1_0000_0000

  /** 2^i, for every bit position i of a word. */
  function BitWeight(i: nat): (p: nat)
    requires i < 32
    ensures p > 0
  {
    match i
    case 0 => 0x1
    case 1 => 0x2
    case 2 => 0x4
    case 3 => 0x8
    case 4 => 0x10
    case 5 => 0x20
    case 6 => 0x40
    case 7 => 0x80
    case 8 => 0x100
    case 9 => 0x200
    case 10 => 0x400
    case 11 => 0x800
    case 12 => 0x1000
    case 13 => 0x2000
    case 14 => 0x4000
    case 15 => 0x8000
    case 16 => 0x1_0000
    case 17 => 0x2_0000
    case 18 => 0x4_0000
    case 19 => 0x8_0000
    case 20 => 0x10_0000
    case 21 => 0x20_0000
    case 22 => 0x40_0000
    case 23 => 0x80_0000
    case 24 => 0x100_0000
    case 25 => 0x200_0000
    case 26 => 0x400_0000
    case 27 => 0x800_0000
    case 28 => 0x1000_0000
    case 29 => 0x2000_0000
    case 30 => 0x4000_0000
    case _ => 0x8000_0000
  }

  /** Whether bit `i` of `w` is set (bit 0 is the least significant). */
  predicate BitSet(w: Word, i: nat)
    requires i < 32
  {
    w / BitWeight(i) % 2 == 1
  }

  /** The field w[hi:lo] read as an unsigned number, in the RISC-V manual's
      notation for instruction fields. */
  function Field(w: Word, hi: nat, lo: nat): nat
    requires lo <= hi < 32 && hi - lo < 31
  {
    w / BitWeight(lo) % BitWeight(hi - lo + 1)
  }

  // ---------------------------------------------------------------------
  // Reading a field back out of a number assembled from fields.
  // ---------------------------------------------------------------------

  lemma MulAtLeast(k: nat, d: int)
    requires d >= 1
    ensures k * d >= k
  {
    assert k * d == k + k * (d - 1);
  }

  /** Division by `k` of a number written as `low + k * q`, `low < k`. */
  lemma DivPlus(low: nat, k: nat, q: nat)
    requires low < k
    ensures (low + k * q) / k == q
    ensures (low + k * q) % k == low
  {
    var v := low + k * q;
    var d := v / k - q;
    assert v == k * (v / k) + v % k;
    assert k * (v / k) == k * q + k * d;
    assert k * d == low - v % k;
    if d > 0 {
      MulAtLeast(k, d);
    }
  }

  /** The digit in position `k`, radix `m`, of `low + k * (digit + m * rest)`. */
  lemma Digit(v: nat, k: nat, low: nat, digit: nat, rest: nat, m: nat)
    requires low < k && digit < m
    requires v == low + k * (digit + m * rest)
    ensures v / k % m == digit
  {
    DivPlus(low, k, digit + m * rest);
    DivPlus(digit, m, rest);
  }

  /** Dividing by `a` and then by `b` is dividing by `a * b`. */
  lemma DivDiv(w: nat, a: nat, b: nat)
    requires a > 0 && b > 0
    ensures w / a / b == w / (a * b)
  {
    var q := w / a;
    var r := w % a;
    var q2 := q / b;
    var r2 := q % b;
    assert w == a * q + r;
    assert q == b * q2 + r2;
    assert w == (a * b) * q2 + (a * r2 + r);
    MulAtLeast(a, b - r2);
    assert a * (b - r2) == a * b - a * r2;
    DivPlus(a * r2 + r, a * b, q2);
  }

  /** Adding a multiple of `k` adds to the quotient by `k`. */
  lemma DivAddMultiple(w: nat, k: nat, c: nat)
    requires k > 0
    ensures (w + k * c) / k == w / k + c
  {
    assert w + k * c == w % k + k * (w / k + c);
    DivPlus(w % k, k, w / k + c);
  }

  /** Adding a multiple of `m` leaves the remainder modulo `m` alone. */
  lemma ModAddMultiple(w: nat, m: nat, c: nat)
    requires m > 0
    ensures (w + m * c) % m == w % m
  {
    assert w + m * c == w % m + m * (w / m + c);
    DivPlus(w % m, m, w / m + c);
  }

  /** Adding a multiple of `a * m` leaves the radix-`m` digit at `a`
      unchanged. */
  lemma DigitUnchanged(w: nat, a: nat, m: nat, c: nat, d: nat)
    requires a > 0 && m > 0 && d == a * (m * c)
    ensures (w + d) / a % m == w / a % m
  {
    DivAddMultiple(w, a, m * c);
    ModAddMultiple(w / a, m, c);
  }
}
