/** The read path's texts: a cursor, and the page key of an account statement. */
module Reports {
  import opened Wrappers
  import opened Bytes
  import opened Spaces
  import opened Domain

  // ---- numerals --------------------------------------------------------

  predicate IsNumeral(text: Text)
  {
    text != [] && AllDigits(text)
  }

  function Unsigned(text: Text): Option<nat>
  {
    if IsNumeral(text) then Some(DigitsValue(text)) else None
  }

  function WithoutPlus(text: Text): Text
  {
    if text != [] && text[0] == PLUS then text[1..] else text
  }

  /** An unsigned 64-bit parse: an optional `+`, digits, and no overflow. */
  function ParseU64(text: Text): Option<Cursor>
  {
    var value := Unsigned(WithoutPlus(text));
    if value.Some? && value.value < U64_LIMIT then Some(value.value) else None
  }

  /** A signed parse of a type whose least value is `-limit`. */
  function ParseSigned(text: Text, limit: int): (x: Option<int>)
    requires limit > 0
    ensures x.Some? ==> -limit <= x.value < limit
  {
    var negative := text != [] && text[0] == MINUS;
    var digits := if negative then text[1..] else WithoutPlus(text);
    if !IsNumeral(digits) then None else
    var magnitude: int := DigitsValue(digits);
    var x := if negative then -magnitude else magnitude;
    if -limit <= x < limit then Some(x) else None
  }

  // ---- cursors ---------------------------------------------------------

  /** PostgreSQL's `xid8`. */
  type Cursor = n: nat | n < U64_LIMIT

  /** A negative text is read as the backend reads it, wrapping. */
  function ParseCursor(text: Text): Option<Cursor>
  {
    ParseTrimmed(Trim(text))
  }

  function ParseTrimmed(trimmed: Text): Option<Cursor>
  {
    match ParseU64(trimmed)
    case Some(value) => Some(value)
    case None =>
      var wrapping := ParseSigned(trimmed, I64_LIMIT);
      if wrapping.Some? then Some(TwosComplement(wrapping.value)) else None
  }

  /** Printable ASCII at both ends: only the padding is trimmed. */
  lemma OnlyThePaddingIsTrimmed(left: Text, middle: Text, right: Text)
    requires AllSpaces(left) && AllSpaces(right)
    requires middle != [] && 0x20 < middle[0] < 0x7F && 0x20 < middle[|middle| - 1] < 0x7F
    ensures Trim(left + middle + right) == middle
  {
    NotASpace(middle + right);
    NotASpaceBehind(middle);
    TrimmingDropsTheSpaces(left, middle, right);
  }

  /** Any numeral that fits, however padded, is the cursor it spells. */
  lemma ANumeralIsItsCursor(left: Text, digits: Text, right: Text)
    requires AllSpaces(left) && AllSpaces(right) && IsNumeral(digits)
    requires DigitsValue(digits) < U64_LIMIT
    ensures ParseCursor(left + digits + right) == Some(DigitsValue(digits))
  {
    OnlyThePaddingIsTrimmed(left, digits, right);
  }

  lemma UnpaddedIsLeftAlone(text: Text)
    requires text != [] && 0x20 < text[0] < 0x7F && 0x20 < text[|text| - 1] < 0x7F
    ensures Trim(text) == text
  {
    NoSpaces();
    OnlyThePaddingIsTrimmed([], text, []);
    assert [] + text + [] == text;
  }

  /** A cursor reads back what it prints. */
  lemma ACursorReadsBack(cursor: Cursor)
    ensures ParseCursor(Decimal(cursor)) == Some(cursor)
  {
    DecimalReadsBack(cursor);
    UnpaddedIsLeftAlone(Decimal(cursor));
  }

  /** A negative number a signed 64-bit integer holds is read as itself plus `2^64`. */
  lemma ANegativeCursorWraps(left: Text, digits: Text, right: Text)
    requires AllSpaces(left) && AllSpaces(right) && IsNumeral(digits)
    requires 0 < DigitsValue(digits) <= I64_LIMIT
    ensures ParseCursor(left + ([MINUS] + digits) + right) == Some(U64_LIMIT - DigitsValue(digits))
  {
    var text := [MINUS] + digits;
    assert text[1..] == digits;
    assert !IsDigit(text[0]) && text[0] != PLUS;
    OnlyThePaddingIsTrimmed(left, text, right);
  }

  // ---- UUID text -------------------------------------------------------

  function HexDigit(n: nat): byte
    requires n < 16
  {
    if n < 10 then ZERO + n else 87 + n
  }

  /** Either case reads. */
  function HexValueOf(b: byte): Option<nat>
  {
    if IsDigit(b) then Some(b - ZERO)
    else if 97 <= b <= 102 then Some(b - 87)
    else if 65 <= b <= 70 then Some(b - 55)
    else None
  }

  function Hex(n: nat, width: nat): (text: Text)
    ensures |text| == width
  {
    if width == 0 then [] else Hex(n / 16, width - 1) + [HexDigit(n % 16)]
  }

  function ParseHex(text: Text): Option<nat>
  {
    if text == [] then Some(0) else
    var last := HexValueOf(text[|text| - 1]);
    var before := ParseHex(text[..|text| - 1]);
    if last.Some? && before.Some? then Some(16 * before.value + last.value) else None
  }

  function Pow16(width: nat): (r: nat)
    ensures r > 0
  {
    if width == 0 then 1 else 16 * Pow16(width - 1)
  }

  lemma {:induction false} HexReadsBack(n: nat, width: nat)
    requires n < Pow16(width)
    ensures ParseHex(Hex(n, width)) == Some(n)
  {
    if width > 0 {
      HexReadsBack(n / 16, width - 1);
      assert Hex(n, width)[..width - 1] == Hex(n / 16, width - 1);
      assert HexValueOf(HexDigit(n % 16)) == Some(n % 16);
    }
  }

  lemma {:induction false} HexIsShort(text: Text)
    requires ParseHex(text).Some?
    ensures ParseHex(text).value < Pow16(|text|)
  {
    if text != [] {
      HexIsShort(text[..|text| - 1]);
    }
  }

  lemma {:induction false} Pow16Adds(a: nat, b: nat)
    ensures Pow16(a + b) == Pow16(a) * Pow16(b)
  {
    if a > 0 {
      Pow16Adds(a - 1, b);
      assert Pow16(a + b) == 16 * Pow16(a - 1 + b);
    }
  }

  lemma ThirtyTwoDigitsHoldAUuid()
    ensures Pow16(32) == UUID_LIMIT
  {
    assert Pow16(4) == 65536 by {
      Pow16Adds(2, 2);
      assert Pow16(2) == 16 * Pow16(1) && Pow16(1) == 16;
    }
    Pow16Adds(4, 4);
    Pow16Adds(8, 8);
    Pow16Adds(16, 16);
  }

  const HYPHEN: byte := 45

  function Hyphenated(hex: Text): (text: Text)
    requires |hex| == 32
    ensures |text| == 36
  {
    hex[..8] + [HYPHEN] + hex[8..12] + [HYPHEN] + hex[12..16] + [HYPHEN] + hex[16..20] + [HYPHEN] + hex[20..]
  }

  function Unhyphenated(text: Text): (hex: Option<Text>)
    ensures hex.Some? ==> |hex.value| == 32
  {
    if |text| == 36 && text[8] == text[13] == text[18] == text[23] == HYPHEN
    then Some(text[..8] + text[9..13] + text[14..18] + text[19..23] + text[24..])
    else None
  }

  lemma HyphensComeOut(hex: Text)
    requires |hex| == 32
    ensures Unhyphenated(Hyphenated(hex)) == Some(hex)
  {
    var text := Hyphenated(hex);
    assert text[..8] == hex[..8] && text[9..13] == hex[8..12] && text[14..18] == hex[12..16];
    assert text[19..23] == hex[16..20] && text[24..] == hex[20..];
    assert text[..8] + text[9..13] + text[14..18] + text[19..23] + text[24..] == hex;
  }

  function UuidText(id: Uuid): Text
  {
    Hyphenated(Hex(id, 32))
  }

  /** The simple form, or the hyphenated one: bare, braced, or as a URN. */
  function ThirtyTwoDigits(text: Text): (hex: Option<Text>)
    ensures hex.Some? ==> |hex.value| == 32
  {
    if |text| == 32 then Some(text)
    else if |text| == 38 && text[0] == 123 && text[37] == 125 then Unhyphenated(text[1..37])
    else if |text| == 45 && text[..9] == Ascii("urn:uuid:") then Unhyphenated(text[9..])
    else Unhyphenated(text)
  }

  function ParseUuid(text: Text): Option<Uuid>
  {
    var hex := ThirtyTwoDigits(text);
    if hex.None? then None else
    var value := ParseHex(hex.value);
    if value.None? then None else
    HexIsShort(hex.value);
    ThirtyTwoDigitsHoldAUuid();
    Some(value.value)
  }

  lemma AUuidReadsBack(id: Uuid)
    ensures ParseUuid(UuidText(id)) == Some(id)
  {
    ThirtyTwoDigitsHoldAUuid();
    HexReadsBack(id, 32);
    HyphensComeOut(Hex(id, 32));
  }

  // ---- page keys -------------------------------------------------------

  datatype StatementAxis = Recorded | Effective

  datatype StatementKey =
    | RecordedKey(xactId: Cursor, entryId: Uuid)
    | EffectiveKey(effectiveAt: Instant, xactId: Cursor, entryId: Uuid)
  {
    function Axis(): StatementAxis
    {
      if RecordedKey? then Recorded else Effective
    }

    /** An instant the calendar holds. */
    predicate WellFormed()
    {
      EffectiveKey? ==> FIRST_REPRESENTABLE <= effectiveAt < YEAR_10000
    }

    function Rendered(): Text
    {
      match this
      case RecordedKey(xactId, entryId) => Decimal(xactId) + [COMMA] + UuidText(entryId)
      case EffectiveKey(effectiveAt, xactId, entryId) =>
        SignedDecimal(effectiveAt) + [COMMA] + (Decimal(xactId) + [COMMA] + UuidText(entryId))
    }
  }

  function Split(text: Text): (parts: seq<Text>)
    ensures parts != []
  {
    if text == [] then [[]]
    else if text[0] == COMMA then [[]] + Split(text[1..])
    else var rest := Split(text[1..]); [[text[0]] + rest[0]] + rest[1..]
  }

  const I128_LIMIT := I64_LIMIT * U64_LIMIT

  function ParseInstant(text: Text): Option<Instant>
  {
    var nanos := ParseSigned(text, I128_LIMIT);
    if nanos.Some? && FIRST_REPRESENTABLE <= nanos.value < YEAR_10000 then nanos else None
  }

  /** The arity is the axis's, and nothing may follow the key. */
  function ParseKey(text: Text, axis: StatementAxis): (key: Option<StatementKey>)
    ensures key.Some? ==> key.value.Axis() == axis && key.value.WellFormed()
  {
    var parts := Split(text);
    match axis
    case Recorded =>
      if |parts| != 2 then None else
      var xactId, entryId := ParseCursor(parts[0]), ParseUuid(parts[1]);
      if xactId.Some? && entryId.Some? then Some(RecordedKey(xactId.value, entryId.value)) else None
    case Effective =>
      if |parts| != 3 then None else
      var effectiveAt, xactId, entryId := ParseInstant(parts[0]), ParseCursor(parts[1]), ParseUuid(parts[2]);
      if effectiveAt.Some? && xactId.Some? && entryId.Some?
      then Some(EffectiveKey(effectiveAt.value, xactId.value, entryId.value)) else None
  }

  lemma {:induction false} SplitTakesTheFirstPart(part: Text, rest: Text)
    requires COMMA !in part
    ensures Split(part + [COMMA] + rest) == [part] + Split(rest)
  {
    var text := part + [COMMA] + rest;
    if part == [] {
      assert text == [COMMA] + rest && text[1..] == rest;
    } else {
      assert text[1..] == part[1..] + [COMMA] + rest;
      SplitTakesTheFirstPart(part[1..], rest);
      assert [part[0]] + part[1..] == part;
    }
  }

  lemma {:induction false} NothingToSplit(part: Text)
    requires COMMA !in part
    ensures Split(part) == [part]
  {
    if part != [] {
      NothingToSplit(part[1..]);
      assert [part[0]] + part[1..] == part;
    }
  }

  lemma {:induction false} HexHasNoComma(n: nat, width: nat)
    ensures COMMA !in Hex(n, width)
  {
    if width > 0 {
      HexHasNoComma(n / 16, width - 1);
    }
  }

  lemma UuidTextHasNoComma(id: Uuid)
    ensures COMMA !in UuidText(id)
  {
    HexHasNoComma(id, 32);
  }

  lemma NumeralsHaveNoComma(x: int)
    ensures COMMA !in SignedDecimal(x)
  {
    var digits := Decimal(if x < 0 then -x else x);
    assert COMMA !in digits;
  }

  lemma AnInstantReadsBack(at: Instant)
    requires FIRST_REPRESENTABLE <= at < YEAR_10000
    ensures ParseInstant(SignedDecimal(at)) == Some(at)
  {
    if at < 0 {
      assert SignedDecimal(at)[1..] == Decimal(-at);
      DecimalReadsBack(-at);
    } else {
      assert IsDigit(SignedDecimal(at)[0]);
      DecimalReadsBack(at);
    }
  }

  lemma TheRecordedTail(xactId: Cursor, entryId: Uuid)
    ensures Split(Decimal(xactId) + [COMMA] + UuidText(entryId)) == [Decimal(xactId), UuidText(entryId)]
    ensures ParseCursor(Decimal(xactId)) == Some(xactId) && ParseUuid(UuidText(entryId)) == Some(entryId)
  {
    UuidTextHasNoComma(entryId);
    NumeralsHaveNoComma(xactId);
    SplitTakesTheFirstPart(Decimal(xactId), UuidText(entryId));
    NothingToSplit(UuidText(entryId));
    ACursorReadsBack(xactId);
    AUuidReadsBack(entryId);
  }

  /** A page key read on its own axis is itself; on the other axis it is nothing. */
  lemma AKeyReadsBackOnItsOwnAxis(key: StatementKey, axis: StatementAxis)
    requires key.WellFormed()
    ensures ParseKey(key.Rendered(), axis) == if axis == key.Axis() then Some(key) else None
  {
    TheRecordedTail(key.xactId, key.entryId);
    if key.EffectiveKey? {
      var tail := Decimal(key.xactId) + [COMMA] + UuidText(key.entryId);
      NumeralsHaveNoComma(key.effectiveAt);
      SplitTakesTheFirstPart(SignedDecimal(key.effectiveAt), tail);
      AnInstantReadsBack(key.effectiveAt);
      assert Split(key.Rendered()) == [SignedDecimal(key.effectiveAt), Decimal(key.xactId), UuidText(key.entryId)];
    }
  }

  /** The order an axis's pages come in, and so what a page key bounds. */
  function Rank(key: StatementKey): seq<int>
  {
    match key
    case RecordedKey(xactId, entryId) => [xactId, entryId]
    case EffectiveKey(effectiveAt, xactId, entryId) => [effectiveAt, xactId, entryId]
  }
}
