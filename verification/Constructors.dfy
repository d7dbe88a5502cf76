/** The commands' constructors: what each refuses, in the order it asks, and that what is
    left is exactly the shape every other module takes a command in. */
module Constructors {
  import opened Wrappers
  import opened Bytes
  import opened Spaces
  import opened Domain
  import opened Accounts
  import opened Periods

  datatype Field = TenantId | IdempotencyKey | Purpose | OwnerId | Code | Tz | DerivedKey

  /** Why a constructor refuses. */
  datatype Invalid =
    | AmountMustBePositive
    | CurrencyMustBeThreeUppercaseLetters
    | TheSameAccountTwice
    | AResolvingTransactionCannotBePending
    | ATransactionCannotBothResolveAndReverse
    | AReversingTransactionCannotBePending
    | AReversalCarriesNoPostings
    | MustNotBeBlank(field: Field)
    | KeyMustNotBeEmpty
    | MustNotContainNul(field: Field)
    | MustBeAtMost512Bytes(field: Field)
    | PostingsMustNotBeEmpty
    | EffectiveAtIsRequired
    | OutsideTheYears
    | StripesOutsideTheirWindow
    | EndsBeforeItStarts

  /** `validate_identity`, or nothing to refuse. */
  function IdentityRefused(value: Text, field: Field): Option<Invalid>
  {
    if exists i :: 0 <= i < |value| && value[i] == 0 then Some(MustNotContainNul(field))
    else if |value| > 512 then Some(MustBeAtMost512Bytes(field))
    else None
  }

  /** An identity that may not be blank either. */
  function NameRefused(value: Text, field: Field): Option<Invalid>
  {
    if Trim(value) == [] then Some(MustNotBeBlank(field)) else IdentityRefused(value, field)
  }

  function TenantAndKeyRefused(tenantId: Text, idempotencyKey: Text): Option<Invalid>
  {
    if Trim(tenantId) == [] then Some(MustNotBeBlank(TenantId))
    else if idempotencyKey == [] then Some(KeyMustNotBeEmpty)
    else if IdentityRefused(tenantId, TenantId).Some? then IdentityRefused(tenantId, TenantId)
    else IdentityRefused(idempotencyKey, IdempotencyKey)
  }

  predicate IsThreeUppercaseLetters(currency: Text)
  {
    |currency| == 3 && 65 <= currency[0] <= 90 && 65 <= currency[1] <= 90 && 65 <= currency[2] <= 90
  }

  function NewPosting(source: Uuid, destination: Uuid, amountMinor: Int64, currency: Text): Result<Posting, Invalid>
  {
    if amountMinor <= 0 then Err(AmountMustBePositive)
    else if !IsThreeUppercaseLetters(currency) then Err(CurrencyMustBeThreeUppercaseLetters)
    else if source == destination then Err(TheSameAccountTwice)
    else Ok(Posting(source, destination, amountMinor, currency))
  }

  /** What the pointers, the status and the postings are refused for together. */
  function ShapeRefused(status: TransactionStatus, resolvesId: Option<Uuid>, reversesId: Option<Uuid>, postings: seq<Posting>): Option<Invalid>
  {
    if resolvesId.Some? && status == Pending then Some(AResolvingTransactionCannotBePending)
    else if reversesId.Some? && resolvesId.Some? then Some(ATransactionCannotBothResolveAndReverse)
    else if reversesId.Some? && status == Pending then Some(AReversingTransactionCannotBePending)
    else if reversesId.Some? && postings != [] then Some(AReversalCarriesNoPostings)
    else None
  }

  /** From the first instant of year 1 to the last of year 9999, in UTC. */
  predicate IsInsideTheYears(at: Instant)
  {
    -62_135_596_800_000_000_000 <= at < 253_402_300_800_000_000_000
  }

  function NewPostTransaction(tenantId: Text, idempotencyKey: Text, effectiveAt: Option<OffsetDateTime>, status: TransactionStatus,
                              resolvesId: Option<Uuid>, reversesId: Option<Uuid>, postings: seq<Posting>): Result<PostTransaction, Invalid>
  {
    var shape, names := ShapeRefused(status, resolvesId, reversesId, postings), TenantAndKeyRefused(tenantId, idempotencyKey);
    if shape.Some? then Err(shape.value)
    else if names.Some? then Err(names.value)
    else if reversesId.None? && postings == [] then Err(PostingsMustNotBeEmpty)
    else if reversesId.None? && effectiveAt.None? then Err(EffectiveAtIsRequired)
    else if effectiveAt.Some? && !IsInsideTheYears(effectiveAt.value.utc) then Err(OutsideTheYears)
    else Ok(PostTransaction(tenantId, idempotencyKey, effectiveAt, status, resolvesId, reversesId, postings))
  }

  /** An owner that disagrees with its type is let through: the writer has a name for it. */
  function NewOpenAccount(tenantId: Text, idempotencyKey: Text, purpose: Text, ownerType: AccountOwnerType, ownerId: Option<Text>, currency: Text,
                          stripeCount: Option<Int64>, metadata: Option<Text>): Result<OpenAccount, Invalid>
  {
    var names, types := TenantAndKeyRefused(tenantId, idempotencyKey), NameRefused(purpose, Purpose);
    if names.Some? then Err(names.value)
    else if types.Some? then Err(types.value)
    else if ownerId.Some? && NameRefused(ownerId.value, OwnerId).Some? then Err(NameRefused(ownerId.value, OwnerId).value)
    else if !IsThreeUppercaseLetters(currency) then Err(CurrencyMustBeThreeUppercaseLetters)
    else if stripeCount.Some? && (stripeCount.value < 1 || 1_024 < stripeCount.value) then Err(StripesOutsideTheirWindow)
    else Ok(OpenAccount(tenantId, idempotencyKey, purpose, ownerType, ownerId, currency,
                        if stripeCount.Some? then Some(stripeCount.value) else None, metadata))
  }

  /** The instants have only to be representable in UTC: from year -9999 to year 9999. */
  function NewDefinePeriod(tenantId: Text, idempotencyKey: Text, code: Text, startsAt: OffsetDateTime, endsAt: OffsetDateTime, tz: Text)
    : Result<DefinePeriod, Invalid>
  {
    var names := TenantAndKeyRefused(tenantId, idempotencyKey);
    if names.Some? then Err(names.value)
    else if NameRefused(code, Code).Some? then Err(NameRefused(code, Code).value)
    else if NameRefused(tz, Tz).Some? then Err(NameRefused(tz, Tz).value)
    else if endsAt.utc <= startsAt.utc then Err(EndsBeforeItStarts)
    else if startsAt.utc < -377_705_116_800_000_000_000 || 253_402_300_800_000_000_000 <= endsAt.utc then Err(OutsideTheYears)
    else Ok(DefinePeriod(tenantId, idempotencyKey, code, startsAt, endsAt, tz))
  }

  function NewClosePeriod(tenantId: Text, periodCode: Text, currency: Text): Result<ClosePeriod, Invalid>
  {
    var command := ClosePeriod(tenantId, periodCode, currency);
    if NameRefused(tenantId, TenantId).Some? then Err(NameRefused(tenantId, TenantId).value)
    else if NameRefused(periodCode, Code).Some? then Err(NameRefused(periodCode, Code).value)
    else if !IsThreeUppercaseLetters(currency) then Err(CurrencyMustBeThreeUppercaseLetters)
    else if IdentityRefused(command.DerivedKey(), DerivedKey).Some? then Err(IdentityRefused(command.DerivedKey(), DerivedKey).value)
    else Ok(command)
  }

  // ---- what is left is the shape ---------------------------------------

  lemma RefusedIsNotAnIdentity(value: Text, field: Field)
    ensures IdentityRefused(value, field).None? <==> IsIdentity(value)
    ensures NameRefused(value, field).None? <==> !IsBlank(value) && IsIdentity(value)
  {
    BlankIsTrimmedAway(value);
  }

  lemma APostingIsLetThroughExactly(source: Uuid, destination: Uuid, amountMinor: Int64, currency: Text)
    ensures var made := NewPosting(source, destination, amountMinor, currency);
            && (made.Ok? <==> Posting(source, destination, amountMinor, currency).WellFormed())
            && (made.Ok? ==> made.value == Posting(source, destination, amountMinor, currency))
  {
  }

  /** A posting command is let through exactly in the shape the writer takes it in. */
  lemma APostIsLetThroughExactly(tenantId: Text, idempotencyKey: Text, effectiveAt: Option<OffsetDateTime>, status: TransactionStatus,
                                 resolvesId: Option<Uuid>, reversesId: Option<Uuid>, postings: seq<Posting>)
    requires |postings| < 0x1_0000_0000_0000_0000 && forall i :: 0 <= i < |postings| ==> postings[i].WellFormed()
    ensures var made := NewPostTransaction(tenantId, idempotencyKey, effectiveAt, status, resolvesId, reversesId, postings);
            var c := PostTransaction(tenantId, idempotencyKey, effectiveAt, status, resolvesId, reversesId, postings);
            (made.Ok? <==> c.WellFormed()) && (made.Ok? ==> made.value == c)
  {
    RefusedIsNotAnIdentity(tenantId, TenantId);
    RefusedIsNotAnIdentity(idempotencyKey, IdempotencyKey);
  }

  /** So is an opening; its metadata is a JSON object's text. */
  lemma AnOpeningIsLetThroughExactly(tenantId: Text, idempotencyKey: Text, purpose: Text, ownerType: AccountOwnerType, ownerId: Option<Text>,
                                     currency: Text, stripes: Option<Int64>, metadata: Option<Text>)
    requires metadata.Some? ==> 2 <= |metadata.value| < 0x1_0000_0000_0000_0000
    ensures var made := NewOpenAccount(tenantId, idempotencyKey, purpose, ownerType, ownerId, currency, stripes, metadata);
            if stripes.Some? && stripes.value < 0 then made.Err? else
            var c := OpenAccount(tenantId, idempotencyKey, purpose, ownerType, ownerId, currency, if stripes.Some? then Some(stripes.value) else None, metadata);
            (made.Ok? <==> c.WellFormed()) && (made.Ok? ==> made.value == c)
  {
    RefusedIsNotAnIdentity(tenantId, TenantId);
    RefusedIsNotAnIdentity(idempotencyKey, IdempotencyKey);
    RefusedIsNotAnIdentity(purpose, Purpose);
    if ownerId.Some? {
      RefusedIsNotAnIdentity(ownerId.value, OwnerId);
    }
  }

  /** So is a definition. */
  lemma ADefinitionIsLetThroughExactly(tenantId: Text, idempotencyKey: Text, code: Text, startsAt: OffsetDateTime, endsAt: OffsetDateTime, tz: Text)
    ensures var made := NewDefinePeriod(tenantId, idempotencyKey, code, startsAt, endsAt, tz);
            var c := DefinePeriod(tenantId, idempotencyKey, code, startsAt, endsAt, tz);
            (made.Ok? <==> c.WellFormed()) && (made.Ok? ==> made.value == c)
  {
    RefusedIsNotAnIdentity(tenantId, TenantId);
    RefusedIsNotAnIdentity(idempotencyKey, IdempotencyKey);
    RefusedIsNotAnIdentity(code, Code);
    RefusedIsNotAnIdentity(tz, Tz);
  }

  /** And so is a close, whose derived key is capped too. */
  lemma ACloseIsLetThroughExactly(tenantId: Text, periodCode: Text, currency: Text)
    ensures var made, c := NewClosePeriod(tenantId, periodCode, currency), ClosePeriod(tenantId, periodCode, currency);
            (made.Ok? <==> c.WellFormed()) && (made.Ok? ==> made.value == c)
  {
    RefusedIsNotAnIdentity(tenantId, TenantId);
    RefusedIsNotAnIdentity(periodCode, Code);
    RefusedIsNotAnIdentity(ClosePeriod(tenantId, periodCode, currency).DerivedKey(), DerivedKey);
  }
}
