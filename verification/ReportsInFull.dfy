/** What the read path's texts are read as, in full: the white space around them, a cursor,
    an identifier in any of its forms, an instant, and a page key of each axis; and how a
    key is printed. */
module ReportsInFull {
  import opened Wrappers
  import opened Bytes
  import opened Spaces
  import opened Domain
  import opened Reports

  // ---- white space -----------------------------------------------------

  /** A code point's UTF-8, up to three bytes of it. */
  function Utf8(point: nat): Text
    requires point < 0x1_0000
  {
    if point < 0x80 then [point]
    else if point < 0x800 then [0xC0 + point / 0x40, 0x80 + point % 0x40]
    else [0xE0 + point / 0x1000, 0x80 + point / 0x40 % 0x40, 0x80 + point % 0x40]
  }

  /** The 25 code points Unicode gives the White_Space property. */
  predicate IsWhiteSpace(point: nat)
  {
    point in {0x09, 0x0A, 0x0B, 0x0C, 0x0D, 0x20, 0x85, 0xA0, 0x1680, 0x2000, 0x2001, 0x2002, 0x2003, 0x2004, 0x2005, 0x2006, 0x2007, 0x2008,
              0x2009, 0x200A, 0x2028, 0x2029, 0x202F, 0x205F, 0x3000}
  }

  lemma TheWhiteSpaceIsThis(point: nat)
    requires point < 0x1_0000
    ensures IsSpace(Utf8(point)) <==> IsWhiteSpace(point)
  {
    if point >= 0x800 {
      assert point == 0x1000 * (point / 0x1000) + 0x40 * (point / 0x40 % 0x40) + point % 0x40;
    }
  }

  // ---- numbers ---------------------------------------------------------

  predicate IsDigits(text: Text)
  {
    text != [] && forall i :: 0 <= i < |text| ==> 48 <= text[i] <= 57
  }

  /** The number some digits spell. */
  function Spelled(digits: Text): int
  {
    if digits == [] then 0 else 10 * Spelled(digits[..|digits| - 1]) + digits[|digits| - 1] - 48
  }

  lemma {:induction false} SpelledIsItsValue(digits: Text)
    requires AllDigits(digits)
    ensures Spelled(digits) == DigitsValue(digits)
    decreases |digits|
  {
    if digits != [] {
      SpelledIsItsValue(digits[..|digits| - 1]);
    }
  }

  /** A cursor's text, its padding off: digits, perhaps after a plus, below 2^64; or a minus
      and digits up to 2^63, which wrap; and nothing else. */
  function CursorRead(text: Text): Option<int>
  {
    var digits := if text != [] && text[0] in {43, 45} then text[1..] else text;
    var minus := text != [] && text[0] == 45;
    if !IsDigits(digits) then None
    else if !minus && Spelled(digits) < 0x1_0000_0000_0000_0000 then Some(Spelled(digits))
    else if minus && Spelled(digits) == 0 then Some(0)
    else if minus && Spelled(digits) <= 0x8000_0000_0000_0000 then Some(0x1_0000_0000_0000_0000 - Spelled(digits))
    else None
  }

  lemma DigitsAreANumeral(text: Text)
    ensures IsNumeral(text) <==> IsDigits(text)
    ensures IsNumeral(text) ==> Spelled(text) == DigitsValue(text)
  {
    if IsNumeral(text) {
      SpelledIsItsValue(text);
    }
  }

  /** Every text, whatever is in it, is read as this cursor or as none. */
  lemma ACursorIsReadInFull(text: Text)
    ensures ParseCursor(text) == CursorRead(Trim(text))
  {
    var trimmed := Trim(text);
    DigitsAreANumeral(trimmed);
    if trimmed != [] {
      DigitsAreANumeral(trimmed[1..]);
    }
  }

  // ---- identifiers -----------------------------------------------------

  predicate IsHexDigit(b: byte)
  {
    48 <= b <= 57 || 97 <= b <= 102 || 65 <= b <= 70
  }

  /** Either case stands for the same. */
  function HexPlace(b: byte): int
  {
    if b <= 57 then b - 48 else if b <= 70 then b - 65 + 10 else b - 97 + 10
  }

  function HexSpelled(text: Text): int
  {
    if text == [] then 0 else 16 * HexSpelled(text[..|text| - 1]) + HexPlace(text[|text| - 1])
  }

  lemma {:induction false} HexIsReadInFull(text: Text)
    ensures ParseHex(text) == if forall i :: 0 <= i < |text| ==> IsHexDigit(text[i]) then Some(HexSpelled(text)) else None
    decreases |text|
  {
    if text != [] {
      HexIsReadInFull(text[..|text| - 1]);
    }
  }

  /** The thirty-two digits of the hyphenated form: groups of 8, 4, 4, 4 and 12. */
  function Groups(text: Text): Text
    requires |text| == 36
  {
    text[0..8] + text[9..13] + text[14..18] + text[19..23] + text[24..36]
  }

  predicate IsHyphenated(text: Text)
  {
    |text| == 36 && text[8] == 45 && text[13] == 45 && text[18] == 45 && text[23] == 45
  }

  /** The digits of an identifier: bare, hyphenated, hyphenated in braces, or hyphenated
      after `urn:uuid:`. */
  function DigitsOfAnId(text: Text): Option<Text>
  {
    if |text| == 32 then Some(text)
    else if IsHyphenated(text) then Some(Groups(text))
    else if |text| == 38 && text[0] == 123 && text[37] == 125 && IsHyphenated(text[1..37]) then Some(Groups(text[1..37]))
    else if |text| == 45 && text[..9] == [117, 114, 110, 58, 117, 117, 105, 100, 58] && IsHyphenated(text[9..45]) then Some(Groups(text[9..45]))
    else None
  }

  /** Every text is read as this identifier or as none. */
  lemma AUuidIsReadInFull(text: Text)
    ensures ParseUuid(text)
         == var digits := DigitsOfAnId(text);
            if digits.Some? && forall i :: 0 <= i < |digits.value| ==> IsHexDigit(digits.value[i]) then Some(HexSpelled(digits.value)) else None
  {
    assert Ascii("urn:uuid:") == [117, 114, 110, 58, 117, 117, 105, 100, 58];
    assert |text| == 45 ==> text[9..] == text[9..45];
    TheFormsAgree(text);
    if DigitsOfAnId(text).Some? {
      HexIsReadInFull(DigitsOfAnId(text).value);
    }
  }

  lemma TheFormsAgree(text: Text)
    requires Ascii("urn:uuid:") == [117, 114, 110, 58, 117, 117, 105, 100, 58]
    ensures ThirtyTwoDigits(text) == DigitsOfAnId(text)
  {
    if |text| == 36 {
      UnhyphenatedIsItsGroups(text);
    } else if |text| == 38 {
      UnhyphenatedIsItsGroups(text[1..37]);
    } else if |text| == 45 {
      assert text[9..] == text[9..45];
      UnhyphenatedIsItsGroups(text[9..45]);
    }
  }

  lemma UnhyphenatedIsItsGroups(text: Text)
    requires |text| == 36
    ensures Unhyphenated(text) == if IsHyphenated(text) then Some(Groups(text)) else None
  {
    assert text[..8] == text[0..8] && text[24..] == text[24..36];
  }

  // ---- instants --------------------------------------------------------

  /** Nanoseconds since the epoch, perhaps after a sign, from year -9999 to year 9999. */
  function InstantRead(text: Text): Option<int>
  {
    var digits := if text != [] && text[0] in {43, 45} then text[1..] else text;
    var at := if text != [] && text[0] == 45 then -Spelled(digits) else Spelled(digits);
    if IsDigits(digits) && -377_705_116_800_000_000_000 <= at < 253_402_300_800_000_000_000 then Some(at) else None
  }

  lemma AnInstantIsReadInFull(text: Text)
    ensures ParseInstant(text) == InstantRead(text)
  {
    DigitsAreANumeral(text);
    if text != [] {
      DigitsAreANumeral(text[1..]);
    }
  }

  // ---- page keys -------------------------------------------------------

  function Commas(text: Text): nat
  {
    if text == [] then 0 else Commas(text[1..]) + if text[0] == 44 then 1 else 0
  }

  lemma {:induction false} OnePartMoreThanCommas(text: Text)
    ensures |Split(text)| == Commas(text) + 1
  {
    if text != [] {
      OnePartMoreThanCommas(text[1..]);
    }
  }

  /** A recorded key is a cursor and an identifier, an effective key an instant before
      them; with any other number of parts a text is no key. */
  lemma AKeyHasItsParts(text: Text, axis: StatementAxis)
    requires ParseKey(text, axis).Some?
    ensures Commas(text) == if axis == Recorded then 1 else 2
  {
    OnePartMoreThanCommas(text);
  }

  lemma ARecordedKeyIsReadInFull(xactId: Text, id: Text)
    requires 44 !in xactId && 44 !in id
    ensures ParseKey(xactId + [44] + id, Recorded)
         == if ParseCursor(xactId).Some? && ParseUuid(id).Some? then Some(RecordedKey(ParseCursor(xactId).value, ParseUuid(id).value)) else None
  {
    SplitTakesTheFirstPart(xactId, id);
    NothingToSplit(id);
    assert Split(xactId + [44] + id) == [xactId, id];
  }

  lemma AnEffectiveKeyIsReadInFull(at: Text, xactId: Text, id: Text)
    requires 44 !in at && 44 !in xactId && 44 !in id
    ensures ParseKey(at + [44] + (xactId + [44] + id), Effective)
         == if ParseInstant(at).Some? && ParseCursor(xactId).Some? && ParseUuid(id).Some?
            then Some(EffectiveKey(ParseInstant(at).value, ParseCursor(xactId).value, ParseUuid(id).value)) else None
  {
    SplitTakesTheFirstPart(at, xactId + [44] + id);
    SplitTakesTheFirstPart(xactId, id);
    NothingToSplit(id);
    assert Split(at + [44] + (xactId + [44] + id)) == [at, xactId, id];
  }

  // ---- what is printed -------------------------------------------------

  /** A number's digits, with no zero to lead them. */
  predicate IsDecimal(text: Text, n: int)
  {
    IsDigits(text) && Spelled(text) == n && (text[0] == 48 ==> |text| == 1)
  }

  lemma {:induction false} NoZeroLeads(n: nat)
    ensures Decimal(n)[0] == 48 ==> n == 0
  {
    if n >= 10 {
      NoZeroLeads(n / 10);
    }
  }

  lemma ANumberIsPrintedInFull(n: nat)
    ensures IsDecimal(Decimal(n), n)
  {
    NoZeroLeads(n);
    DecimalReadsBack(n);
    SpelledIsItsValue(Decimal(n));
  }

  /** Hyphenated, in small letters. */
  predicate IsAnIdsText(text: Text, id: int)
  {
    && IsHyphenated(text) && HexSpelled(Groups(text)) == id
    && forall i :: 0 <= i < |Groups(text)| ==> IsASmallHexDigit(Groups(text)[i])
  }

  predicate IsASmallHexDigit(b: byte)
  {
    48 <= b <= 57 || 97 <= b <= 102
  }

  lemma {:induction false} HexIsPrintedInFull(n: nat, width: nat)
    requires n < Pow16(width)
    ensures HexSpelled(Hex(n, width)) == n && forall i :: 0 <= i < width ==> IsASmallHexDigit(Hex(n, width)[i])
    decreases width
  {
    if width > 0 {
      HexIsPrintedInFull(n / 16, width - 1);
      assert Hex(n, width)[..width - 1] == Hex(n / 16, width - 1);
    }
  }

  lemma ItsGroupsComeOut(hex: Text)
    requires |hex| == 32
    ensures IsHyphenated(Hyphenated(hex)) && Groups(Hyphenated(hex)) == hex
  {
    var text := Hyphenated(hex);
    assert text[0..8] == hex[..8] && text[9..13] == hex[8..12] && text[14..18] == hex[12..16];
    assert text[19..23] == hex[16..20] && text[24..36] == hex[20..];
    assert hex[..8] + hex[8..12] == hex[..12] && hex[..12] + hex[12..16] == hex[..16];
    assert hex[..16] + hex[16..20] == hex[..20] && hex[..20] + hex[20..] == hex;
  }

  lemma AnIdIsPrintedInFull(id: Uuid)
    ensures IsAnIdsText(UuidText(id), id)
  {
    ThirtyTwoDigitsHoldAUuid();
    HexIsPrintedInFull(id, 32);
    ItsGroupsComeOut(Hex(id, 32));
  }

  /** A minus for an instant before 1970, and the digits. */
  predicate IsSigned(text: Text, n: int)
  {
    if n < 0 then text != [] && text[0] == 45 && IsDecimal(text[1..], -n) else IsDecimal(text, n)
  }

  /** A key's parts, in order, with a comma after each but the last. */
  lemma AKeyIsPrintedInFull(key: StatementKey) returns (date: Text, cursor: Text, entry: Text)
    ensures IsDecimal(cursor, key.xactId) && IsAnIdsText(entry, key.entryId)
    ensures key.RecordedKey? ==> key.Rendered() == cursor + [44] + entry
    ensures key.EffectiveKey? ==> key.Rendered() == date + [44] + (cursor + [44] + entry) && IsSigned(date, key.effectiveAt)
  {
    date, cursor, entry := [], Decimal(key.xactId), UuidText(key.entryId);
    ANumberIsPrintedInFull(key.xactId);
    AnIdIsPrintedInFull(key.entryId);
    if key.EffectiveKey? {
      var at := key.effectiveAt;
      date := SignedDecimal(at);
      ANumberIsPrintedInFull(if at < 0 then -at else at);
      assert at < 0 ==> date[1..] == Decimal(-at);
    }
  }
}
