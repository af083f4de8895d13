/** Rust's `{}` rendering of an integer (optional '-' then decimal digits)
    and `{:x}` rendering of a non-negative integer (lower-case hexadecimal
    digits, no prefix), with readers that invert them. */
module Numerals {

  import opened Wrappers

  const HexDigits: string := "0123456789abcdef"

  /** The character for digit value `d`. */
  function DigitChar(d: nat): (c: char)
    requires d < 16
  {
    HexDigits[d]
  }

  /** The value of digit character `c` in the given base, if it is one. */
  function DigitValue(c: char, base: nat): (d: Option<nat>)
    requires 2 <= base <= 16
    ensures d.Some? ==> d.value < base && DigitChar(d.value) == c
  {
    if '0' <= c <= '9' && (c as int - '0' as int) < base then Some(c as int - '0' as int)
    else if 'a' <= c <= 'f' && (c as int - 'a' as int) + 10 < base then Some(c as int - 'a' as int + 10)
    else None
  }

  lemma DigitValueOfChar(d: nat, base: nat)
    requires 2 <= base <= 16 && d < base
    ensures DigitValue(DigitChar(d), base) == Some(d)
  {
  }

  predicate IsDigit(c: char, base: nat)
    requires 2 <= base <= 16
  {
    DigitValue(c, base).Some?
  }

  lemma DivMod(n: nat, base: nat)
    requires 2 <= base <= n
    ensures 0 < n / base < n
    ensures (n / base) * base + n % base == n
  {
  }

  /** Only the value 0 is written '0'. */
  lemma DigitCharZero(d: nat)
    requires d < 16
    ensures DigitChar(d) == '0' <==> d == 0
  {
  }

  /** The digits of `n` in `base`, most significant first, with no leading
      zero (0 itself is "0"). */
  function Digits(n: nat, base: nat): (s: string)
    requires 2 <= base <= 16
    ensures 0 < |s|
    ensures forall i | 0 <= i < |s| :: IsDigit(s[i], base)
    ensures s[0] == '0' <==> n == 0
    decreases n
  {
    DigitValueOfChar(n % base, base);
    DigitCharZero(n % base);
    if n < base then [DigitChar(n)]
    else
      DivMod(n, base);
      var high := Digits(n / base, base);
      var s := high + [DigitChar(n % base)];
      assert s[0] == high[0];
      assert forall i | 0 <= i < |high| :: s[i] == high[i];
      s
  }

  /** A number of two or more digits is its leading digits followed by its
      last digit. */
  lemma DigitsStep(n: nat, base: nat)
    requires 2 <= base <= 16 && base <= n
    ensures Digits(n, base) == Digits(n / base, base) + [DigitChar(n % base)]
  {
  }

  /** The value of a string of digits in `base`, most significant first;
      `None` if it is empty or holds anything that is not a digit. */
  function ParseDigits(s: string, base: nat): (r: Option<nat>)
    requires 2 <= base <= 16
    ensures r.Some? ==> 0 < |s|
    decreases |s|
  {
    if |s| == 0 then None
    else
      var last := DigitValue(s[|s| - 1], base);
      if last.None? then None
      else if |s| == 1 then last
      else
        var high := ParseDigits(s[..|s| - 1], base);
        if high.None? then None else Some(high.value * base + last.value)
  }

  /** Reading the digits of `n` gives back `n`. */
  lemma {:induction false} DigitsRoundTrip(n: nat, base: nat)
    requires 2 <= base <= 16
    ensures ParseDigits(Digits(n, base), base) == Some(n)
    decreases n
  {
    if n < base {
      DigitValueOfChar(n, base);
      assert Digits(n, base) == [DigitChar(n)];
    } else {
      DigitValueOfChar(n % base, base);
      DivMod(n, base);
      DigitsRoundTrip(n / base, base);
      assert Digits(n, base) == Digits(n / base, base) + [DigitChar(n % base)];
      ParseDigitsSnoc(Digits(n / base, base), DigitChar(n % base), base);
    }
  }

  /** Appending digit `c` to a string of digits worth `h` gives a string
      worth `h * base` plus the digit's value. */
  lemma ParseDigitsSnoc(high: string, c: char, base: nat)
    requires 2 <= base <= 16
    requires ParseDigits(high, base).Some? && DigitValue(c, base).Some?
    ensures ParseDigits(high + [c], base)
      == Some(ParseDigits(high, base).value * base + DigitValue(c, base).value)
  {
    var s := high + [c];
    assert s[..|s| - 1] == high;
    assert s[|s| - 1] == c;
  }

  /** Rust's `{}` for an `isize`. */
  function Decimal(i: int): (s: string)
    ensures 0 < |s|
    ensures s[0] == '-' <==> i < 0
  {
    if i < 0 then "-" + Digits(-i, 10) else Digits(i, 10)
  }

  /** Reads what `Decimal` writes. */
  function ParseDecimal(s: string): Option<int>
  {
    if 0 < |s| && s[0] == '-' then
      var magnitude := ParseDigits(s[1..], 10);
      if magnitude.Some? && magnitude.value > 0 then Some(0 - magnitude.value) else None
    else
      var magnitude := ParseDigits(s, 10);
      if magnitude.Some? then Some(magnitude.value) else None
  }

  /** Reading the decimal text of `i` gives back `i`. */
  lemma DecimalRoundTrip(i: int)
    ensures ParseDecimal(Decimal(i)) == Some(i)
  {
    if i < 0 {
      DigitsRoundTrip(-i, 10);
      assert ("-" + Digits(-i, 10))[1..] == Digits(-i, 10);
    } else {
      DigitsRoundTrip(i, 10);
      var s := Digits(i, 10);
      assert IsDigit(s[0], 10);
    }
  }

  /** Rust's `{:x}` for a non-negative integer. */
  function LowerHex(n: nat): (s: string)
    ensures 0 < |s|
    ensures forall i | 0 <= i < |s| :: '0' <= s[i] <= '9' || 'a' <= s[i] <= 'f'
  {
    Digits(n, 16)
  }

  /** Reading the hexadecimal text of `n` gives back `n`. */
  lemma LowerHexRoundTrip(n: nat)
    ensures ParseDigits(LowerHex(n), 16) == Some(n)
  {
    DigitsRoundTrip(n, 16);
  }
}
