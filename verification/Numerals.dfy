/** Decimal numerals over ASCII bytes, and 64-bit signed arithmetic. */
module Numerals {
  import opened Basics

  const ZERO: Byte := 0x30
  const NINE: Byte := 0x39

  predicate IsDigit(b: Byte) {
    ZERO <= b <= NINE
  }

  predicate AllDigits(s: Bytes) {
    forall k :: 0 <= k < |s| ==> IsDigit(s[k])
  }

  function DigitValue(b: Byte): int {
    b as int - 0x30
  }

  /** The number an all-digit text denotes. */
  function Value(s: Bytes): (v: int)
    ensures AllDigits(s) ==> v >= 0
  {
    if s == [] then 0 else Value(s[..|s| - 1]) * 10 + DigitValue(s[|s| - 1])
  }

  /** The decimal spelling of n, without leading zeros. */
  function Numeral(n: nat): (s: Bytes)
    ensures s != [] && AllDigits(s)
    ensures s[0] == ZERO ==> n == 0
    ensures Value(s) == n
  {
    var digit := ZERO + (n % 10) as Byte;
    if n < 10 then
      assert [digit][..0] == [];
      [digit]
    else
      var s := Numeral(n / 10) + [digit];
      assert s[..|s| - 1] == Numeral(n / 10);
      s
  }

  /** What a numeral reads as, without looking at how it is spelled. */
  lemma NumeralReads(n: nat)
    ensures Numeral(n) != [] && AllDigits(Numeral(n)) && Value(Numeral(n)) == n
    ensures Numeral(n)[0] == ZERO ==> |Numeral(n)| == 1
  {
  }

  const TWO_62 := 0x4000_0000_0000_0000
  const TWO_63 := 0x8000_0000_0000_0000
  const TWO_64 := 0x1_0000_0000_0000_0000

  /** The value a 64-bit signed integer holds after computing x. */
  function Wrap64(x: int): (w: int)
    ensures -TWO_63 <= w < TWO_63
    ensures -TWO_63 <= x < TWO_63 ==> w == x
  {
    (x + TWO_63) % TWO_64 - TWO_63
  }

  lemma WrapsOnce(x: int)
    requires TWO_63 <= x < TWO_64 + TWO_63
    ensures Wrap64(x) == x - TWO_64
  {
  }

  /** Wrapping at every step is wrapping once at the end. */
  lemma WrapStep(x: int, d: int)
    ensures Wrap64(Wrap64(x) * 10 + d) == Wrap64(x * 10 + d)
  {
    var k := (x + TWO_63) / TWO_64;
    assert Wrap64(x) == x - k * TWO_64;
    SameRemainder(x * 10 + d + TWO_63, 10 * k);
  }

  lemma SameRemainder(y: int, m: int)
    ensures (y - m * TWO_64) % TWO_64 == y % TWO_64
  {
    var q, r := y / TWO_64, y % TWO_64;
    assert y - m * TWO_64 == (q - m) * TWO_64 + r;
  }
}
