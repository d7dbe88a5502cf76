/** Defining a period and closing one: the two commands, the key a close derives,
    their canonical byte forms, and the one instant a close computes. */
module Periods {
  import opened Wrappers
  import opened Bytes
  import opened Spaces
  import opened Domain
  import Accounts

  datatype DefinePeriod = DefinePeriod(
    tenantId: Text,
    idempotencyKey: Text,
    code: Text,
    startsAt: OffsetDateTime,
    endsAt: OffsetDateTime,
    tz: Text)
  {
    /** What `DefinePeriod::new` lets through: representable instants, which reach
        further back than the four-digit years the canonical form can print. */
    predicate WellFormed()
    {
      && !IsBlank(tenantId) && IsIdentity(tenantId)
      && idempotencyKey != [] && IsIdentity(idempotencyKey)
      && !IsBlank(code) && IsIdentity(code)
      && !IsBlank(tz) && IsIdentity(tz)
      && FIRST_REPRESENTABLE <= startsAt.utc < endsAt.utc < YEAR_10000
    }

    /** The stored payload keeps the caller's own renderings. */
    predicate PayloadRenders()
    {
      RendersLocally(startsAt) && RendersLocally(endsAt)
    }
  }

  predicate SameDefinition(a: DefinePeriod, b: DefinePeriod)
  {
    && a.tenantId == b.tenantId && a.code == b.code && a.tz == b.tz
    && a.startsAt.utc == b.startsAt.utc && a.endsAt.utc == b.endsAt.utc
  }

  function PeriodTag(): Text { Ascii("openledger.period.v1") }

  function DefineFields(c: DefinePeriod, starts: Text, ends: Text): seq<Text>
  {
    [c.tenantId, c.code, starts, ends, c.tz]
  }

  function CanonicalDefine(c: DefinePeriod): Option<Text>
  {
    var starts, ends := Rendered(c.startsAt.utc), Rendered(c.endsAt.utc);
    if starts.None? || ends.None? then None
    else Some(PeriodTag() + PrefixedAll(DefineFields(c, starts.value, ends.value)))
  }

  /** `canonical_bytes`: the rendering can fail, and then there is no hash. */
  method DefinitionBytes(c: DefinePeriod) returns (bytes: Option<Text>)
    ensures bytes == CanonicalDefine(c)
  {
    var starts, ends := Rendered(c.startsAt.utc), Rendered(c.endsAt.utc);
    if starts.None? || ends.None? {
      return None;
    }
    var buf := PutAll(PeriodTag(), DefineFields(c, starts.value, ends.value));
    return Some(buf);
  }

  /** The hash of a definition its constructor accepted can still fail: exactly
      when the period starts before year 0. */
  lemma HashingADefinitionFailsExactlyBeforeYearZero(c: DefinePeriod)
    requires c.WellFormed()
    ensures CanonicalDefine(c).None? <==> c.startsAt.utc < YEAR_0
  {
  }

  function DefinedBetween(startsAt: OffsetDateTime, endsAt: OffsetDateTime): DefinePeriod
  {
    DefinePeriod([97], [107], [48], startsAt, endsAt, [90])
  }

  /** One such definition, which a caller can spell: it starts at 0000-01-01T00:00+01:00,
      in year 0 where it stands and before it in UTC. */
  lemma ADefinitionThatPassesItsConstructorAndCannotBeHashed() returns (c: DefinePeriod)
    ensures c.WellFormed() && c.PayloadRenders() && CanonicalDefine(c).None?
  {
    c := DefinedBetween(OffsetDateTime(YEAR_0 - 3_600 * NANOSECONDS, 3_600), OffsetDateTime(YEAR_1, 0));
    assert 97 in c.tenantId && 48 in c.code && 90 in c.tz;
  }

  /** And one that hashes and cannot be rendered: the first half hour of year 0, held
      an hour west of UTC. */
  lemma ADefinitionThatHashesAndCannotBeRendered() returns (c: DefinePeriod)
    ensures c.WellFormed() && CanonicalDefine(c).Some? && !c.PayloadRenders()
  {
    c := DefinedBetween(OffsetDateTime(YEAR_0 + 1_800 * NANOSECONDS, -3_600), OffsetDateTime(YEAR_1, 0));
    assert 97 in c.tenantId && 48 in c.code && 90 in c.tz;
  }

  lemma EqualBytesMeanTheSameDefinition(a: DefinePeriod, b: DefinePeriod)
    requires a.WellFormed() && b.WellFormed()
    requires CanonicalDefine(a).Some? && CanonicalDefine(b).Some?
    ensures CanonicalDefine(a) == CanonicalDefine(b) <==> SameDefinition(a, b)
  {
    if CanonicalDefine(a) == CanonicalDefine(b) {
      RenderedIsShort(a.startsAt.utc);
      RenderedIsShort(a.endsAt.utc);
      RenderedIsShort(b.startsAt.utc);
      RenderedIsShort(b.endsAt.utc);
      var fa := DefineFields(a, Rendered(a.startsAt.utc).value, Rendered(a.endsAt.utc).value);
      var fb := DefineFields(b, Rendered(b.startsAt.utc).value, Rendered(b.endsAt.utc).value);
      FixedWidthCancels(PeriodTag(), PrefixedAll(fa), PeriodTag(), PrefixedAll(fb));
      assert PrefixedAll(fa) + [] == PrefixedAll(fb) + [];
      PrefixedAllCancels(fa, [], fb, []);
      assert fa[0] == fb[0] && fa[1] == fb[1] && fa[2] == fb[2] && fa[3] == fb[3] && fa[4] == fb[4];
      RenderedIsInjective(a.startsAt.utc, b.startsAt.utc);
      RenderedIsInjective(a.endsAt.utc, b.endsAt.utc);
    }
  }

  // ---- closing ---------------------------------------------------------

  datatype ClosePeriod = ClosePeriod(tenantId: Text, periodCode: Text, currency: Text)
  {
    /** What `ClosePeriod::new` lets through: the derived key is capped too. */
    predicate WellFormed()
    {
      && !IsBlank(tenantId) && IsIdentity(tenantId)
      && !IsBlank(periodCode) && IsIdentity(periodCode)
      && IsCurrency(currency)
      && IsIdentity(DerivedKey())
    }

    /** `tenant:close:period:currency`. */
    function DerivedKey(): Text
    {
      tenantId + Ascii(":close:") + periodCode + Ascii(":") + currency
    }
  }

  function CloseTag(): Text { Ascii("openledger.close.v1") }

  function CloseFields(c: ClosePeriod): seq<Text> { [c.tenantId, c.periodCode, c.currency] }

  function CanonicalClose(c: ClosePeriod): Text
  {
    CloseTag() + PrefixedAll(CloseFields(c))
  }

  method CloseBytes(c: ClosePeriod) returns (bytes: Text)
    ensures bytes == CanonicalClose(c)
  {
    bytes := PutAll(CloseTag(), CloseFields(c));
  }

  lemma EqualBytesMeanTheSameClose(a: ClosePeriod, b: ClosePeriod)
    requires a.WellFormed() && b.WellFormed()
    ensures CanonicalClose(a) == CanonicalClose(b) <==> a == b
  {
    if CanonicalClose(a) == CanonicalClose(b) {
      var fa, fb := CloseFields(a), CloseFields(b);
      FixedWidthCancels(CloseTag(), PrefixedAll(fa), CloseTag(), PrefixedAll(fb));
      assert PrefixedAll(fa) + [] == PrefixedAll(fb) + [];
      PrefixedAllCancels(fa, [], fb, []);
      assert fa[0] == fb[0] && fa[1] == fb[1] && fa[2] == fb[2];
    }
  }

  /** Within one tenant two closes derive one key only when they are one close:
      the currency's width is fixed, so the code cannot absorb any of it. */
  lemma WithinATenantTheDerivedKeyNamesTheClose(a: ClosePeriod, b: ClosePeriod)
    requires a.WellFormed() && b.WellFormed() && a.tenantId == b.tenantId
    ensures a.DerivedKey() == b.DerivedKey() <==> a == b
  {
    if a.DerivedKey() == b.DerivedKey() {
      var head := a.tenantId + Ascii(":close:");
      assert a.DerivedKey() == head + (a.periodCode + (Ascii(":") + a.currency));
      assert b.DerivedKey() == head + (b.periodCode + (Ascii(":") + b.currency));
      FixedWidthCancels(head, a.periodCode + (Ascii(":") + a.currency), head, b.periodCode + (Ascii(":") + b.currency));
      FixedWidthCancels(a.periodCode, Ascii(":") + a.currency, b.periodCode, Ascii(":") + b.currency);
      FixedWidthCancels(Ascii(":"), a.currency, Ascii(":"), b.currency);
    }
  }

  // The letter at which the four operations' tags all disagree.
  const TAG_LETTER := 12
  const POST_LETTER: byte := 111
  const ACCOUNT_LETTER: byte := 99
  const PERIOD_LETTER: byte := 101
  const CLOSE_LETTER: byte := 108

  predicate TaggedBy(hash: Text, letter: byte)
  {
    |hash| > TAG_LETTER && hash[TAG_LETTER] == letter
  }

  lemma PostFormsAreTagged(c: PostTransaction)
    requires CanonicalPost(c).Some?
    ensures TaggedBy(CanonicalPost(c).value, POST_LETTER)
  {
    assert PostTag()[TAG_LETTER] == POST_LETTER;
  }

  lemma OpenFormsAreTagged(c: Accounts.OpenAccount)
    ensures TaggedBy(Accounts.CanonicalOpen(c), ACCOUNT_LETTER)
  {
    assert Accounts.AccountTag()[TAG_LETTER] == ACCOUNT_LETTER;
  }

  lemma DefineFormsAreTagged(c: DefinePeriod)
    requires CanonicalDefine(c).Some?
    ensures TaggedBy(CanonicalDefine(c).value, PERIOD_LETTER)
  {
    assert PeriodTag()[TAG_LETTER] == PERIOD_LETTER;
  }

  lemma CloseFormsAreTagged(c: ClosePeriod)
    ensures TaggedBy(CanonicalClose(c), CLOSE_LETTER)
  {
    assert CloseTag()[TAG_LETTER] == CLOSE_LETTER;
  }

  /** The four operations hash in separate spaces, whatever their bodies. */
  lemma FormsOfDifferentOperationsNeverCollide(post: PostTransaction, open: Accounts.OpenAccount, define: DefinePeriod, close: ClosePeriod)
    requires CanonicalPost(post).Some? && CanonicalDefine(define).Some?
    ensures CanonicalPost(post).value != Accounts.CanonicalOpen(open)
    ensures CanonicalPost(post).value != CanonicalDefine(define).value
    ensures CanonicalPost(post).value != CanonicalClose(close)
    ensures Accounts.CanonicalOpen(open) != CanonicalDefine(define).value
    ensures Accounts.CanonicalOpen(open) != CanonicalClose(close)
    ensures CanonicalDefine(define).value != CanonicalClose(close)
  {
    PostFormsAreTagged(post);
    OpenFormsAreTagged(open);
    DefineFormsAreTagged(define);
    CloseFormsAreTagged(close);
  }

  lemma RenderedIsShort(utc: Instant)
    requires Rendered(utc).Some?
    ensures |Rendered(utc).value| < U64_LIMIT
  {
    InstantBytesAreShort(Some(OffsetDateTime(utc, 0)));
  }

  const MICROSECOND := 1000

  /** One microsecond inside a half-open period; nothing at the very floor of the
      representable range. */
  function TheLastInstantInside(endsAt: Instant): (at: Option<Instant>)
    ensures at.Some? ==> at.value < endsAt
  {
    if FIRST_REPRESENTABLE <= endsAt - MICROSECOND then Some(endsAt - MICROSECOND) else None
  }
}
