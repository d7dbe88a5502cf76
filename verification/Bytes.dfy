/** Byte strings, and the two encodings built from them: the length-prefixed
    little-endian pieces of a canonical form, and decimal text. */
module Bytes {

  type byte = b: int | 0 <= b < 256

  /** A Rust `String` is its UTF-8 bytes; equality and order are theirs. */
  type Text = seq<byte>

  const U64_LIMIT := 0x1_0000_0000_0000_0000
  const I64_LIMIT := 0x8000_0000_0000_0000

  type Int64 = x: int | -I64_LIMIT <= x < I64_LIMIT

  /** The bytes of an ASCII literal. */
  function Ascii(literal: string): Text
    requires forall i :: 0 <= i < |literal| ==> literal[i] < 128 as char
  {
    seq(|literal|, i requires 0 <= i < |literal| => literal[i] as int)
  }

  // ---- fixed-width little-endian integers ------------------------------

  function Pow256(width: nat): (r: nat)
    ensures r > 0
  {
    if width == 0 then 1 else 256 * Pow256(width - 1)
  }

  function LittleEndian(n: nat, width: nat): (bytes: Text)
    ensures |bytes| == width
  {
    if width == 0 then [] else [n % 256] + LittleEndian(n / 256, width - 1)
  }

  function FromLittleEndian(bytes: Text): nat
  {
    if bytes == [] then 0 else bytes[0] + 256 * FromLittleEndian(bytes[1..])
  }

  /** Reading back a value that fits its width returns it. */
  lemma {:induction false} LittleEndianReadsBack(n: nat, width: nat)
    requires n < Pow256(width)
    ensures FromLittleEndian(LittleEndian(n, width)) == n
  {
    if width > 0 {
      LittleEndianReadsBack(n / 256, width - 1);
      assert LittleEndian(n, width)[1..] == LittleEndian(n / 256, width - 1);
    }
  }

  lemma LittleEndianIsInjective(m: nat, n: nat, width: nat)
    requires m < Pow256(width) && n < Pow256(width)
    requires LittleEndian(m, width) == LittleEndian(n, width)
    ensures m == n
  {
    LittleEndianReadsBack(m, width);
    LittleEndianReadsBack(n, width);
  }

  /** Big-endian, the order a UUID's sixteen bytes are in. */
  function BigEndian(n: nat, width: nat): (bytes: Text)
    ensures |bytes| == width
  {
    if width == 0 then [] else BigEndian(n / 256, width - 1) + [n % 256]
  }

  lemma {:induction false} BigEndianIsInjective(m: nat, n: nat, width: nat)
    requires m < Pow256(width) && n < Pow256(width)
    requires BigEndian(m, width) == BigEndian(n, width)
    ensures m == n
  {
    if width > 0 {
      var a, b := BigEndian(m, width), BigEndian(n, width);
      assert a[..width - 1] == BigEndian(m / 256, width - 1);
      assert b[..width - 1] == BigEndian(n / 256, width - 1);
      assert a[width - 1] == m % 256 && b[width - 1] == n % 256;
      BigEndianIsInjective(m / 256, n / 256, width - 1);
    }
  }

  lemma EightBytesHoldAU64()
    ensures Pow256(8) == U64_LIMIT
  {
    assert Pow256(2) == 256 * Pow256(1) == 256 * (256 * Pow256(0)) == 0x1_0000;
    PowersAdd(2, 2);
    PowersAdd(4, 4);
  }

  lemma SixteenBytesHoldAU128()
    ensures Pow256(16) == U64_LIMIT * U64_LIMIT
  {
    EightBytesHoldAU64();
    PowersAdd(8, 8);
  }

  lemma {:induction false} PowersAdd(a: nat, b: nat)
    ensures Pow256(a + b) == Pow256(a) * Pow256(b)
  {
    if a > 0 {
      PowersAdd(a - 1, b);
      assert Pow256(a + b) == 256 * Pow256(a - 1 + b);
    }
  }

  /** An `i64` as its two's-complement `u64`, the bytes `to_le_bytes` writes. */
  function TwosComplement(x: Int64): (u: nat)
    ensures u < U64_LIMIT
    ensures x >= 0 ==> u == x
  {
    if x < 0 then x + U64_LIMIT else x
  }

  // ---- length-prefixed values ------------------------------------------

  function U64Bytes(n: nat): (bytes: Text)
    ensures |bytes| == 8
  {
    LittleEndian(n, 8)
  }

  /** A value under its own `u64` length prefix, so that no concatenation of
      values is ambiguous. */
  function Prefixed(value: Text): Text
  {
    U64Bytes(|value|) + value
  }

  lemma Associates(a: Text, b: Text, c: Text)
    ensures (a + b) + c == a + (b + c)
  {
  }

  /** A fixed-width field followed by anything: both halves are determined. */
  lemma FixedWidthCancels(a: Text, x: Text, b: Text, y: Text)
    requires |a| == |b|
    requires a + x == b + y
    ensures a == b && x == y
  {
    assert a == (a + x)[..|a|] == (b + y)[..|b|] == b;
    assert x == (a + x)[|a|..] == (b + y)[|b|..] == y;
  }

  /** A prefixed field followed by anything: both halves are determined. */
  lemma PrefixedCancels(a: Text, x: Text, b: Text, y: Text)
    requires |a| < U64_LIMIT && |b| < U64_LIMIT
    requires Prefixed(a) + x == Prefixed(b) + y
    ensures a == b && x == y
  {
    assert Prefixed(a) + x == U64Bytes(|a|) + (a + x);
    assert Prefixed(b) + y == U64Bytes(|b|) + (b + y);
    FixedWidthCancels(U64Bytes(|a|), a + x, U64Bytes(|b|), b + y);
    EightBytesHoldAU64();
    LittleEndianIsInjective(|a|, |b|, 8);
    FixedWidthCancels(a, x, b, y);
  }

  /** The fields of a canonical form, each under its own prefix. */
  function PrefixedAll(values: seq<Text>): Text
  {
    if values == [] then [] else Prefixed(values[0]) + PrefixedAll(values[1..])
  }

  /** Appending one more value is what `put` does to the buffer. */
  lemma {:induction false} PutAppends(values: seq<Text>, value: Text)
    ensures PrefixedAll(values + [value]) == PrefixedAll(values) + Prefixed(value)
  {
    if values == [] {
      assert PrefixedAll([value]) == Prefixed(value) + PrefixedAll([]);
    } else {
      PutAppends(values[1..], value);
      assert (values + [value])[1..] == values[1..] + [value];
    }
  }

  ghost predicate AllAddressable(values: seq<Text>)
  {
    forall i :: 0 <= i < |values| ==> |values[i]| < U64_LIMIT
  }

  /** As many prefixed fields followed by anything: every field is determined. */
  lemma {:induction false} PrefixedAllCancels(a: seq<Text>, x: Text, b: seq<Text>, y: Text)
    requires |a| == |b| && AllAddressable(a) && AllAddressable(b)
    requires PrefixedAll(a) + x == PrefixedAll(b) + y
    ensures a == b && x == y
  {
    if a != [] {
      assert PrefixedAll(a) + x == Prefixed(a[0]) + (PrefixedAll(a[1..]) + x);
      assert PrefixedAll(b) + y == Prefixed(b[0]) + (PrefixedAll(b[1..]) + y);
      PrefixedCancels(a[0], PrefixedAll(a[1..]) + x, b[0], PrefixedAll(b[1..]) + y);
      PrefixedAllCancels(a[1..], x, b[1..], y);
      assert a == [a[0]] + a[1..] && b == [b[0]] + b[1..];
    } else {
      assert PrefixedAll(a) + x == x && PrefixedAll(b) + y == y;
    }
  }

  // ---- decimal text ----------------------------------------------------

  const ZERO: byte := 48
  const MINUS: byte := 45
  const PLUS: byte := 43
  const COMMA: byte := 44

  predicate IsDigit(b: byte) { ZERO <= b <= 57 }

  predicate AllDigits(text: Text)
  {
    forall i :: 0 <= i < |text| ==> IsDigit(text[i])
  }

  /** Unsigned decimal, with no leading zero except `0` itself. */
  function Decimal(n: nat): (text: Text)
    ensures text != [] && AllDigits(text)
  {
    if n < 10 then [ZERO + n] else Decimal(n / 10) + [ZERO + n % 10]
  }

  function DigitsValue(text: Text): nat
    requires AllDigits(text)
  {
    if text == [] then 0 else 10 * DigitsValue(text[..|text| - 1]) + (text[|text| - 1] - ZERO)
  }

  lemma {:induction false} DecimalReadsBack(n: nat)
    ensures DigitsValue(Decimal(n)) == n
  {
    if n < 10 {
      assert Decimal(n)[..0] == [];
      assert DigitsValue([]) == 0;
    } else {
      DecimalReadsBack(n / 10);
      assert Decimal(n)[..|Decimal(n)| - 1] == Decimal(n / 10);
    }
  }

  function Pow10(digits: nat): (r: nat)
    ensures r > 0
  {
    if digits == 0 then 1 else 10 * Pow10(digits - 1)
  }

  lemma TwentyOneDigits()
    ensures Pow10(21) == 1_000_000_000_000_000_000_000
  {
    Pow10Adds(7, 7);
    Pow10Adds(14, 7);
    assert Pow10(7) == 10_000_000 by {
      Pow10Adds(3, 4);
      assert Pow10(3) == 10 * Pow10(2) == 1000 && Pow10(4) == 10 * Pow10(3);
    }
  }

  lemma {:induction false} Pow10Adds(a: nat, b: nat)
    ensures Pow10(a + b) == Pow10(a) * Pow10(b)
  {
    if a > 0 {
      Pow10Adds(a - 1, b);
      assert Pow10(a + b) == 10 * Pow10(a - 1 + b);
    }
  }

  /** A number below `10^digits` prints in at most `digits` digits. */
  lemma {:induction false} DecimalIsShort(n: nat, digits: nat)
    requires digits > 0 && n < Pow10(digits)
    ensures |Decimal(n)| <= digits
  {
    if n >= 10 {
      assert digits > 1;
      DecimalIsShort(n / 10, digits - 1);
    }
  }

  /** Signed decimal. */
  function SignedDecimal(x: int): (text: Text)
    ensures text != []
    ensures x < 0 <==> text[0] == MINUS
  {
    if x < 0 then [MINUS] + Decimal(-x) else assert IsDigit(Decimal(x)[0]); Decimal(x)
  }

  lemma SignedDecimalIsInjective(x: int, y: int)
    requires SignedDecimal(x) == SignedDecimal(y)
    ensures x == y
  {
    if x < 0 && y < 0 {
      assert Decimal(-x) == SignedDecimal(x)[1..] == SignedDecimal(y)[1..] == Decimal(-y);
      DecimalReadsBack(-x);
      DecimalReadsBack(-y);
    } else if x >= 0 && y >= 0 {
      DecimalReadsBack(x);
      DecimalReadsBack(y);
    }
  }
}
