/** Opening an account: the command, what the chart says of its purpose, and its
    canonical byte form. */
module Accounts {
  import opened Wrappers
  import opened Bytes
  import opened Spaces
  import opened Domain

  datatype AccountOwnerType = Company | Platform | BankAccount | House
  {
    function Word(): Text
    {
      match this
      case Company => Ascii("company")
      case Platform => Ascii("platform")
      case BankAccount => Ascii("bank_account")
      case House => Ascii("house")
    }
  }

  datatype Category = Asset | Liability | Equity | Revenue | Expense
  {
    /** The categories a close sweeps. */
    predicate Temporary() { Revenue? || Expense? }
  }

  datatype CounterpartyScope = Unscoped | Shared | PerShard

  /** What an account type is, as the chart holds it; never the caller's to send. */
  datatype ChartTriple = ChartTriple(category: Category, debitNormal: bool, scope: CounterpartyScope)
  {
    predicate MustBeOwned() { scope.PerShard? }
  }

  datatype OpenAccount = OpenAccount(
    tenantId: Text,
    idempotencyKey: Text,
    purpose: Text,
    ownerType: AccountOwnerType,
    ownerId: Option<Text>,
    currency: Text,
    stripeCount: Option<nat>,
    /** A JSON object, as its key-ordered text. */
    metadata: Option<Text>)
  {
    /** What `OpenAccount::new` lets through. An owner that disagrees with its type
        is let through on purpose: the writer refuses it under a name of its own. */
    predicate WellFormed()
    {
      && !IsBlank(tenantId) && IsIdentity(tenantId)
      && idempotencyKey != [] && IsIdentity(idempotencyKey)
      && !IsBlank(purpose) && IsIdentity(purpose)
      && (ownerId.Some? ==> !IsBlank(ownerId.value) && IsIdentity(ownerId.value))
      && IsCurrency(currency)
      && (stripeCount.Some? ==> 1 <= stripeCount.value <= 1024)
      && (metadata.Some? ==> 2 <= |metadata.value| < U64_LIMIT)
    }
  }

  predicate SameOpening(a: OpenAccount, b: OpenAccount)
  {
    a.(idempotencyKey := []) == b.(idempotencyKey := [])
  }

  function AccountTag(): Text { Ascii("openledger.account.v1") }

  function OptionalText(value: Option<Text>): Text
  {
    if value.Some? then value.value else []
  }

  function OptionalStripes(stripes: Option<nat>): Text
  {
    if stripes.Some? then LittleEndian(stripes.value, 2) else []
  }

  function OpenFields(c: OpenAccount): seq<Text>
  {
    [c.tenantId, c.purpose, c.ownerType.Word(), OptionalText(c.ownerId), c.currency,
     OptionalStripes(c.stripeCount), OptionalText(c.metadata)]
  }

  function CanonicalOpen(c: OpenAccount): Text
  {
    AccountTag() + PrefixedAll(OpenFields(c))
  }

  /** `canonical_bytes`, value by value. */
  method CanonicalBytes(c: OpenAccount) returns (bytes: Text)
    ensures bytes == CanonicalOpen(c)
  {
    bytes := PutAll(AccountTag(), OpenFields(c));
  }

  lemma OwnerWordsAreInjective(a: AccountOwnerType, b: AccountOwnerType)
    requires a.Word() == b.Word()
    ensures a == b
  {
    assert |Ascii("company")| == 7 && |Ascii("platform")| == 8;
    assert |Ascii("bank_account")| == 12 && |Ascii("house")| == 5;
  }

  lemma StripesAreInjective(a: Option<nat>, b: Option<nat>)
    requires a.Some? ==> a.value <= 1024
    requires b.Some? ==> b.value <= 1024
    requires OptionalStripes(a) == OptionalStripes(b)
    ensures a == b
  {
    if a.Some? && b.Some? {
      assert Pow256(2) == 256 * Pow256(1) == 256 * (256 * Pow256(0));
      LittleEndianIsInjective(a.value, b.value, 2);
    }
  }

  /** Equal bytes if and only if everything but the idempotency key agrees; an
      omitted stripe count is not the value it would default to. */
  lemma EqualBytesMeanTheSameOpening(a: OpenAccount, b: OpenAccount)
    requires a.WellFormed() && b.WellFormed()
    ensures CanonicalOpen(a) == CanonicalOpen(b) <==> SameOpening(a, b)
  {
    if CanonicalOpen(a) == CanonicalOpen(b) {
      var fa, fb := OpenFields(a), OpenFields(b);
      FixedWidthCancels(AccountTag(), PrefixedAll(fa), AccountTag(), PrefixedAll(fb));
      assert PrefixedAll(fa) + [] == PrefixedAll(fb) + [];
      PrefixedAllCancels(fa, [], fb, []);
      assert fa[0] == fb[0] && fa[1] == fb[1] && fa[2] == fb[2] && fa[3] == fb[3];
      assert fa[4] == fb[4] && fa[5] == fb[5] && fa[6] == fb[6];
      OwnerWordsAreInjective(a.ownerType, b.ownerType);
      StripesAreInjective(a.stripeCount, b.stripeCount);
    }
  }
}
