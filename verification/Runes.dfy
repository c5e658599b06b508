/** UTF-8 decoding as Go's unicode/utf8 does it: the well-formed sequences are
    those of section 3 of RFC 3629 (no surrogates, no overlong forms, nothing past
    U+10FFFF), and anything else is the replacement rune with width 1. */
module Runes {
  import opened Basics

  const REPLACEMENT := 0xFFFD

  datatype Decoded = Decoded(rune: int, width: nat)

  predicate Continuation(b: Byte) {
    0x80 <= b <= 0xBF
  }

  /** The bytes that may follow a given lead byte, which is where overlong forms,
      surrogates and out-of-range values are excluded. */
  predicate SecondOk(lead: Byte, second: Byte) {
    if lead == 0xE0 then 0xA0 <= second <= 0xBF
    else if lead == 0xED then 0x80 <= second <= 0x9F
    else if lead == 0xF0 then 0x90 <= second <= 0xBF
    else if lead == 0xF4 then 0x80 <= second <= 0x8F
    else Continuation(second)
  }

  /** How many bytes a lead byte announces; 0 for a byte that leads nothing. */
  function Announced(lead: Byte): nat {
    if lead < 0x80 then 1
    else if 0xC2 <= lead <= 0xDF then 2
    else if 0xE0 <= lead <= 0xEF then 3
    else if 0xF0 <= lead <= 0xF4 then 4
    else 0
  }

  /** utf8.DecodeRuneInString over text[i..]. */
  function Decode(text: Bytes, i: nat): Decoded
    requires i <= |text|
  {
    if i == |text| then Decoded(REPLACEMENT, 0)
    else
      var lead := text[i] as int;
      var n := Announced(text[i]);
      if n == 1 then Decoded(lead, 1)
      else if n == 0 || i + n > |text| || !SecondOk(text[i], text[i + 1]) then Decoded(REPLACEMENT, 1)
      else
        var second := text[i + 1] as int - 0x80;
        if n == 2 then Decoded((lead - 0xC0) * 0x40 + second, 2)
        else if !Continuation(text[i + 2]) then Decoded(REPLACEMENT, 1)
        else
          var third := text[i + 2] as int - 0x80;
          if n == 3 then Decoded((lead - 0xE0) * 0x1000 + second * 0x40 + third, 3)
          else if !Continuation(text[i + 3]) then Decoded(REPLACEMENT, 1)
          else Decoded((lead - 0xF0) * 0x40000 + second * 0x1000 + third * 0x40 + (text[i + 3] as int - 0x80), 4)
  }

  /** runeWidth: the step of Go's scan after matching nothing at i. */
  function RuneWidth(text: Bytes, i: nat): (w: nat)
    ensures 1 <= w <= 4
    ensures i < |text| ==> i + w <= |text|
    ensures i >= |text| ==> w == 1
  {
    if i >= |text| then 1
    else
      var w := Decode(text, i).width;
      if w < 1 then 1 else w
  }

  /** A multi-byte rune is never entered twice: every position strictly inside it
      holds a continuation byte, from which decoding advances one byte only. */
  lemma InsideARune(text: Bytes, i: nat, p: nat)
    requires i < p < i + RuneWidth(text, i)
    ensures p < |text| && Continuation(text[p]) && RuneWidth(text, p) == 1
  {
    assert i < |text|;
    var n := Announced(text[i]);
    assert RuneWidth(text, i) == n;
    assert p == i + 1 || p == i + 2 || p == i + 3;
  }

  predicate Scalar(rune: int) {
    0 <= rune <= 0x10FFFF && !(0xD800 <= rune <= 0xDFFF)
  }

  /** The encoding of section 3 of RFC 3629. */
  function Encode(rune: int): Bytes
    requires Scalar(rune)
  {
    if rune < 0x80 then [rune as Byte]
    else if rune < 0x800 then [(0xC0 + rune / 0x40) as Byte, Tail(rune)]
    else if rune < 0x1_0000 then [(0xE0 + rune / 0x1000) as Byte, Tail(rune / 0x40), Tail(rune)]
    else [(0xF0 + rune / 0x40000) as Byte, Tail(rune / 0x1000), Tail(rune / 0x40), Tail(rune)]
  }

  function Tail(n: int): Byte {
    (0x80 + n % 0x40) as Byte
  }

  predicate StartsAt(text: Bytes, i: nat, part: Bytes) {
    i + |part| <= |text| && forall k :: 0 <= k < |part| ==> text[i + k] == part[k]
  }

  /** Every encoded rune is decoded as itself, and the scan passes over all of it. */
  lemma DecodeUndoesEncode(text: Bytes, i: nat, rune: int)
    requires Scalar(rune) && StartsAt(text, i, Encode(rune))
    ensures Decode(text, i) == Decoded(rune, |Encode(rune)|)
    ensures RuneWidth(text, i) == |Encode(rune)|
  {
    var e := Encode(rune);
    assert text[i] == e[0];
    assert |e| > 1 ==> text[i + 1] == e[1];
    assert |e| > 2 ==> text[i + 2] == e[2];
    assert |e| > 3 ==> text[i + 3] == e[3];
    SixBits(rune);
    SixBits(rune / 0x40);
    SixBits(rune / 0x1000);
  }

  lemma SixBits(n: int)
    ensures n == n / 0x40 * 0x40 + n % 0x40
    ensures n / 0x40 / 0x40 == n / 0x1000 && n / 0x1000 / 0x40 == n / 0x40000
  {
  }

  lemma Assembled(a: int, b: int, c: int, d: int)
    requires 0 <= a && 0 <= b < 0x40 && 0 <= c < 0x40 && 0 <= d < 0x40
    ensures var rune := a * 0x40000 + b * 0x1000 + c * 0x40 + d;
            && rune / 0x40000 == a && rune / 0x1000 % 0x40 == b && rune / 0x40 % 0x40 == c && rune % 0x40 == d
            && rune / 0x1000 == a * 0x40 + b && rune / 0x40 == a * 0x1000 + b * 0x40 + c
  {
    var rune, high, higher := a * 0x40000 + b * 0x1000 + c * 0x40 + d, a * 0x1000 + b * 0x40 + c, a * 0x40 + b;
    LowSix(high, d);
    LowSix(higher, c);
    LowSix(a, b);
    SixBits(rune);
    SixBits(high);
  }

  lemma LowSix(q: int, r: int)
    requires 0 <= r < 0x40
    ensures (q * 0x40 + r) / 0x40 == q && (q * 0x40 + r) % 0x40 == r
  {
  }

  /** Where the scan passes over several bytes, they are the encoding of the rune decoded,
      so an overlong form, a surrogate or a stray byte is passed over one byte at a time. */
  lemma WideRuneIsEncoded(text: Bytes, i: nat)
    requires RuneWidth(text, i) > 1
    ensures Scalar(Decode(text, i).rune) && StartsAt(text, i, Encode(Decode(text, i).rune))
  {
    match RuneWidth(text, i)
    case 2 => WideTwo(text, i);
    case 3 => WideThree(text, i);
    case 4 => WideFour(text, i);
  }

  lemma WideTwo(text: Bytes, i: nat)
    requires RuneWidth(text, i) == 2
    ensures Scalar(Decode(text, i).rune) && StartsAt(text, i, Encode(Decode(text, i).rune))
  {
    TwoBytes(text[i] as int - 0xC0, text[i + 1] as int - 0x80);
  }

  lemma WideThree(text: Bytes, i: nat)
    requires RuneWidth(text, i) == 3
    ensures Scalar(Decode(text, i).rune) && StartsAt(text, i, Encode(Decode(text, i).rune))
  {
    ThreeBytes(text[i] as int - 0xE0, text[i + 1] as int - 0x80, text[i + 2] as int - 0x80);
  }

  lemma WideFour(text: Bytes, i: nat)
    requires RuneWidth(text, i) == 4
    ensures Scalar(Decode(text, i).rune) && StartsAt(text, i, Encode(Decode(text, i).rune))
  {
    FourBytes(text[i] as int - 0xF0, text[i + 1] as int - 0x80, text[i + 2] as int - 0x80, text[i + 3] as int - 0x80);
  }

  lemma TwoBytes(a: int, b: int)
    requires 2 <= a < 0x20 && 0 <= b < 0x40
    ensures Scalar(a * 0x40 + b)
    ensures Encode(a * 0x40 + b) == [(0xC0 + a) as Byte, (0x80 + b) as Byte]
  {
  }

  lemma ThreeBytes(a: int, b: int, c: int)
    requires 0 <= a < 0x10 && 0 <= b < 0x40 && 0 <= c < 0x40
    requires (a == 0 ==> b >= 0x20) && (a == 0xD ==> b < 0x20)
    ensures Scalar(a * 0x1000 + b * 0x40 + c)
    ensures Encode(a * 0x1000 + b * 0x40 + c) == [(0xE0 + a) as Byte, (0x80 + b) as Byte, (0x80 + c) as Byte]
  {
    Assembled(0, 0, b, c);
    var rune := a * 0x1000 + b * 0x40 + c;
    assert rune / 0x1000 == a && rune / 0x40 == a * 0x40 + b;
    assert rune / 0x40 % 0x40 == b && rune % 0x40 == c;
  }

  lemma FourBytes(a: int, b: int, c: int, d: int)
    requires 0 <= a < 5 && 0 <= b < 0x40 && 0 <= c < 0x40 && 0 <= d < 0x40
    requires (a == 0 ==> b >= 0x10) && (a == 4 ==> b < 0x10)
    ensures Scalar(a * 0x40000 + b * 0x1000 + c * 0x40 + d)
    ensures Encode(a * 0x40000 + b * 0x1000 + c * 0x40 + d)
         == [(0xF0 + a) as Byte, (0x80 + b) as Byte, (0x80 + c) as Byte, (0x80 + d) as Byte]
  {
    Assembled(a, b, c, d);
  }

  /** Decoding looks at nothing before its place. */
  lemma DecodeIsLocal(before: Bytes, text: Bytes)
    ensures Decode(before + text, |before|) == Decode(text, 0)
  {
    var all, n := before + text, |before|;
    assert forall k :: 0 <= k < |text| ==> all[n + k] == text[k];
    assert |text| > 0 ==> all[n] == text[0];
    assert |text| > 1 ==> all[n + 1] == text[1];
    assert |text| > 2 ==> all[n + 2] == text[2];
    assert |text| > 3 ==> all[n + 3] == text[3];
  }

  /** Some runes, encoded one behind the other. */
  function Spelled(runes: seq<int>): Bytes
    requires forall k :: 0 <= k < |runes| ==> Scalar(runes[k])
  {
    if runes == [] then [] else Encode(runes[0]) + Spelled(runes[1..])
  }
}
