/** A posting command: its shape once its constructor has let it through, and the
    canonical byte form its idempotency hash is computed over. */
module Domain {
  import opened Wrappers
  import opened Bytes
  import opened Spaces

  const UUID_LIMIT := U64_LIMIT * U64_LIMIT

  type Uuid = u: nat | u < UUID_LIMIT

  function UuidBytes(id: Uuid): (bytes: Text)
    ensures |bytes| == 16
  {
    BigEndian(id, 16)
  }

  lemma UuidBytesAreInjective(a: Uuid, b: Uuid)
    requires UuidBytes(a) == UuidBytes(b)
    ensures a == b
  {
    SixteenBytesHoldAU128();
    BigEndianIsInjective(a, b, 16);
  }

  // ---- instants --------------------------------------------------------

  /** Nanoseconds since the epoch, in UTC. */
  type Instant = int

  const NANOSECONDS := 1_000_000_000
  /** The first instant of years -9999, 0, 1 and 10000, in UTC. */
  const FIRST_REPRESENTABLE: Instant := -377705116800 * NANOSECONDS
  const YEAR_0: Instant := -62167219200 * NANOSECONDS
  const YEAR_1: Instant := -62135596800 * NANOSECONDS
  const YEAR_10000: Instant := 253402300800 * NANOSECONDS

  /** What a caller sends: an instant, and the offset it was written at, in seconds
      east of UTC. */
  datatype OffsetDateTime = OffsetDateTime(utc: Instant, offset: int)

  /** The reading of a clock at the caller's own offset. */
  function LocalOf(at: OffsetDateTime): Instant
  {
    at.utc + at.offset * NANOSECONDS
  }

  const A_DAY := 86_400
  const A_MINUTE := 60

  /** Does RFC 3339 (section 5.6) have a text for it at its own offset? A year of four
      digits, and an offset of whole minutes short of a day. */
  predicate RendersLocally(at: OffsetDateTime)
  {
    YEAR_0 <= LocalOf(at) < YEAR_10000 && -A_DAY < at.offset < A_DAY && at.offset % A_MINUTE == 0
  }

  /** The UTC rendering of section 5.6 of RFC 3339, whose years have four digits.
      The text itself is abstracted to one that is non-empty and injective. */
  function Rendered(utc: Instant): (text: Option<Text>)
    ensures text.Some? <==> YEAR_0 <= utc < YEAR_10000
    ensures text.Some? ==> text.value != []
  {
    if YEAR_0 <= utc < YEAR_10000 then Some(SignedDecimal(utc)) else None
  }

  // ---- the command -----------------------------------------------------

  datatype Posting = Posting(source: Uuid, destination: Uuid, amountMinor: Int64, currency: Text)
  {
    /** What `Posting::new` lets through. */
    predicate WellFormed()
    {
      amountMinor > 0 && IsCurrency(currency) && source != destination
    }
  }

  predicate IsCurrency(currency: Text)
  {
    |currency| == 3 && forall i :: 0 <= i < 3 ==> 65 <= currency[i] <= 90
  }

  /** The contract every identity string shares. */
  predicate IsIdentity(value: Text)
  {
    0 !in value && |value| <= 512
  }

  datatype TransactionStatus = Pending | Posted
  {
    function Word(): Text
    {
      if Pending? then Ascii("pending") else Ascii("posted")
    }
  }

  datatype PostTransaction = PostTransaction(
    tenantId: Text,
    idempotencyKey: Text,
    effectiveAt: Option<OffsetDateTime>,
    status: TransactionStatus,
    resolvesId: Option<Uuid>,
    reversesId: Option<Uuid>,
    postings: seq<Posting>)
  {
    /** What `PostTransaction::new` lets through. */
    predicate WellFormed()
    {
      && (resolvesId.Some? ==> status.Posted?)
      && (reversesId.Some? ==> resolvesId.None? && status.Posted? && postings == [])
      && !IsBlank(tenantId) && IsIdentity(tenantId)
      && idempotencyKey != [] && IsIdentity(idempotencyKey)
      && (reversesId.None? ==> postings != [] && effectiveAt.Some?)
      && (effectiveAt.Some? ==> YEAR_1 <= effectiveAt.value.utc < YEAR_10000)
      // A `Vec`'s length is a machine word.
      && |postings| < U64_LIMIT
      && forall i :: 0 <= i < |postings| ==> postings[i].WellFormed()
    }

    /** The stored payload keeps the caller's own rendering of the instant. */
    predicate PayloadRenders()
    {
      effectiveAt.Some? ==> RendersLocally(effectiveAt.value)
    }

    /** A plain posted posting: the only kind that may share a statement. */
    predicate Plain()
    {
      resolvesId.None? && reversesId.None? && status.Posted?
    }
  }

  /** Two commands asking for the same thing: everything agrees but the key, with
      dates compared as instants. */
  predicate SameRequest(a: PostTransaction, b: PostTransaction)
  {
    && a.tenantId == b.tenantId
    && a.effectiveAt.Some? == b.effectiveAt.Some?
    && (a.effectiveAt.Some? ==> a.effectiveAt.value.utc == b.effectiveAt.value.utc)
    && a.status == b.status
    && a.resolvesId == b.resolvesId
    && a.reversesId == b.reversesId
    && a.postings == b.postings
  }

  // ---- the canonical byte form -----------------------------------------

  function PostTag(): Text { Ascii("openledger.post.v1") }

  /** Zero bytes for an absence: distinct from every real value's. */
  function OptionalUuidBytes(id: Option<Uuid>): Text
  {
    if id.Some? then UuidBytes(id.value) else []
  }

  function OptionalInstantBytes(at: Option<OffsetDateTime>): Option<Text>
  {
    if at.Some? then Rendered(at.value.utc) else Some([])
  }

  function PostingBytes(p: Posting): Text
  {
    UuidBytes(p.source) + (UuidBytes(p.destination) + (U64Bytes(TwosComplement(p.amountMinor)) + Prefixed(p.currency)))
  }

  function PostingsBytes(postings: seq<Posting>): Text
  {
    if postings == [] then [] else PostingsBytes(postings[..|postings| - 1]) + PostingBytes(postings[|postings| - 1])
  }

  /** The values under a length prefix, in order. */
  function PostFields(c: PostTransaction, effective: Text): seq<Text>
  {
    [c.tenantId, effective, c.status.Word(), OptionalUuidBytes(c.resolvesId), OptionalUuidBytes(c.reversesId)]
  }

  /** `None` is the rendering failing, which no well-formed command reaches. */
  function CanonicalPost(c: PostTransaction): (bytes: Option<Text>)
    ensures c.WellFormed() ==> bytes.Some?
  {
    var effective := OptionalInstantBytes(c.effectiveAt);
    if effective.None? then None else
    Some(PostTag() + (PrefixedAll(PostFields(c, effective.value)) + PostingsTail(c.postings)))
  }

  function PostingsTail(postings: seq<Posting>): Text
  {
    U64Bytes(|postings|) + PostingsBytes(postings)
  }

  /** `canonical_bytes`, appending to its buffer value by value. */
  method CanonicalBytes(c: PostTransaction) returns (bytes: Option<Text>)
    ensures bytes == CanonicalPost(c)
  {
    var effective := OptionalInstantBytes(c.effectiveAt);
    if effective.None? {
      return None;
    }
    var tag, fields := PostTag(), PostFields(c, effective.value);
    var buf := PutAll(tag, fields);
    buf := PutPostings(buf, c.postings);
    Associates(tag, PrefixedAll(fields), PostingsTail(c.postings));
    return Some(buf);
  }

  /** The posting count, then each posting's four values. */
  method PutPostings(head: Text, postings: seq<Posting>) returns (buf: Text)
    ensures buf == head + PostingsTail(postings)
  {
    buf := head + U64Bytes(|postings|);
    for i := 0 to |postings|
      invariant buf == head + (U64Bytes(|postings|) + PostingsBytes(postings[..i]))
    {
      assert postings[..i + 1][..i] == postings[..i];
      buf := buf + PostingBytes(postings[i]);
    }
    assert postings[..|postings|] == postings;
  }

  /** `put`, once per value. */
  method PutAll(tag: Text, values: seq<Text>) returns (buf: Text)
    ensures buf == tag + PrefixedAll(values)
  {
    buf := tag;
    for i := 0 to |values|
      invariant buf == tag + PrefixedAll(values[..i])
    {
      PutAppends(values[..i], values[i]);
      assert values[..i + 1] == values[..i] + [values[i]];
      buf := buf + Prefixed(values[i]);
    }
    assert values[..|values|] == values;
  }

  // ---- equal bytes mean the same request -------------------------------

  /** A posting its constructor accepts can still fail to render: one at an offset
      with seconds in it. */
  lemma APostingWhosePayloadCannotBeRendered() returns (c: PostTransaction)
    ensures c.WellFormed() && CanonicalPost(c).Some? && !c.PayloadRenders()
  {
    var p := Posting(1, 2, 1, [85, 83, 68]);
    c := PostTransaction([97], [107], Some(OffsetDateTime(0, 30)), Posted, None, None, [p]);
    assert 97 in c.tenantId && p.WellFormed();
  }

  lemma RenderedIsInjective(a: Instant, b: Instant)
    requires Rendered(a).Some? && Rendered(a) == Rendered(b)
    ensures a == b
  {
    SignedDecimalIsInjective(a, b);
  }

  lemma OptionalInstantBytesAreInjective(a: Option<OffsetDateTime>, b: Option<OffsetDateTime>)
    requires OptionalInstantBytes(a).Some? && OptionalInstantBytes(a) == OptionalInstantBytes(b)
    ensures a.Some? == b.Some? && (a.Some? ==> a.value.utc == b.value.utc)
  {
    if a.Some? && b.Some? {
      RenderedIsInjective(a.value.utc, b.value.utc);
    }
  }

  lemma OptionalUuidBytesAreInjective(a: Option<Uuid>, b: Option<Uuid>)
    requires OptionalUuidBytes(a) == OptionalUuidBytes(b)
    ensures a == b
  {
    if a.Some? && b.Some? {
      UuidBytesAreInjective(a.value, b.value);
    }
  }

  lemma StatusWordsAreInjective(a: TransactionStatus, b: TransactionStatus)
    requires a.Word() == b.Word()
    ensures a == b
  {
    assert |Ascii("pending")| == 7 && |Ascii("posted")| == 6;
  }

  lemma PostingBytesAreInjective(a: Posting, b: Posting)
    requires a.WellFormed() && b.WellFormed()
    requires PostingBytes(a) == PostingBytes(b)
    ensures a == b
  {
    var restA := UuidBytes(a.destination) + (U64Bytes(TwosComplement(a.amountMinor)) + Prefixed(a.currency));
    var restB := UuidBytes(b.destination) + (U64Bytes(TwosComplement(b.amountMinor)) + Prefixed(b.currency));
    FixedWidthCancels(UuidBytes(a.source), restA, UuidBytes(b.source), restB);
    FixedWidthCancels(UuidBytes(a.destination), U64Bytes(TwosComplement(a.amountMinor)) + Prefixed(a.currency),
                      UuidBytes(b.destination), U64Bytes(TwosComplement(b.amountMinor)) + Prefixed(b.currency));
    FixedWidthCancels(U64Bytes(TwosComplement(a.amountMinor)), Prefixed(a.currency),
                      U64Bytes(TwosComplement(b.amountMinor)), Prefixed(b.currency));
    UuidBytesAreInjective(a.source, b.source);
    UuidBytesAreInjective(a.destination, b.destination);
    EightBytesHoldAU64();
    LittleEndianIsInjective(a.amountMinor, b.amountMinor, 8);
    assert Prefixed(a.currency) == Prefixed(a.currency) + [];
    assert Prefixed(b.currency) == Prefixed(b.currency) + [];
    PrefixedCancels(a.currency, [], b.currency, []);
  }

  /** Every posting's bytes are as long as every other's. */
  lemma PostingWidth(p: Posting)
    requires p.WellFormed()
    ensures |PostingBytes(p)| == 51
  {
  }

  lemma {:induction false} PostingsBytesAreInjective(a: seq<Posting>, b: seq<Posting>)
    requires |a| == |b|
    requires forall i :: 0 <= i < |a| ==> a[i].WellFormed() && b[i].WellFormed()
    requires PostingsBytes(a) == PostingsBytes(b)
    ensures a == b
    decreases |a|
  {
    if a != [] {
      var n := |a| - 1;
      PostingWidth(a[n]);
      PostingWidth(b[n]);
      FixedWidthCancels(PostingsBytes(a[..n]), PostingBytes(a[n]), PostingsBytes(b[..n]), PostingBytes(b[n]));
      PostingsBytesAreInjective(a[..n], b[..n]);
      PostingBytesAreInjective(a[n], b[n]);
      assert a == a[..n] + [a[n]] && b == b[..n] + [b[n]];
    }
  }

  /** The hash covers exactly the request: equal bytes if and only if everything
      but the idempotency key agrees. */
  lemma EqualBytesMeanTheSameRequest(a: PostTransaction, b: PostTransaction)
    requires a.WellFormed() && b.WellFormed()
    ensures CanonicalPost(a) == CanonicalPost(b) <==> SameRequest(a, b)
  {
    if CanonicalPost(a) == CanonicalPost(b) {
      var ea, eb := OptionalInstantBytes(a.effectiveAt).value, OptionalInstantBytes(b.effectiveAt).value;
      InstantBytesAreShort(a.effectiveAt);
      InstantBytesAreShort(b.effectiveAt);
      var fa, fb := PostFields(a, ea), PostFields(b, eb);
      FixedWidthCancels(PostTag(), PrefixedAll(fa) + PostingsTail(a.postings),
                        PostTag(), PrefixedAll(fb) + PostingsTail(b.postings));
      PrefixedAllCancels(fa, PostingsTail(a.postings), fb, PostingsTail(b.postings));
      EqualFieldsMeanEqualValues(a, ea, b, eb);
      PostingsTailIsInjective(a.postings, b.postings);
    }
  }

  lemma EqualFieldsMeanEqualValues(a: PostTransaction, ea: Text, b: PostTransaction, eb: Text)
    requires OptionalInstantBytes(a.effectiveAt) == Some(ea) && OptionalInstantBytes(b.effectiveAt) == Some(eb)
    requires PostFields(a, ea) == PostFields(b, eb)
    ensures SameRequest(a, b.(postings := a.postings))
  {
    var fa, fb := PostFields(a, ea), PostFields(b, eb);
    assert fa[0] == fb[0] && fa[1] == fb[1] && fa[2] == fb[2] && fa[3] == fb[3] && fa[4] == fb[4];
    OptionalInstantBytesAreInjective(a.effectiveAt, b.effectiveAt);
    StatusWordsAreInjective(a.status, b.status);
    OptionalUuidBytesAreInjective(a.resolvesId, b.resolvesId);
    OptionalUuidBytesAreInjective(a.reversesId, b.reversesId);
  }

  lemma PostingsTailIsInjective(a: seq<Posting>, b: seq<Posting>)
    requires |a| < U64_LIMIT && |b| < U64_LIMIT
    requires forall i :: 0 <= i < |a| ==> a[i].WellFormed()
    requires forall i :: 0 <= i < |b| ==> b[i].WellFormed()
    requires PostingsTail(a) == PostingsTail(b)
    ensures a == b
  {
    FixedWidthCancels(U64Bytes(|a|), PostingsBytes(a), U64Bytes(|b|), PostingsBytes(b));
    EightBytesHoldAU64();
    LittleEndianIsInjective(|a|, |b|, 8);
    PostingsBytesAreInjective(a, b);
  }

  lemma InstantBytesAreShort(at: Option<OffsetDateTime>)
    requires OptionalInstantBytes(at).Some?
    ensures |OptionalInstantBytes(at).value| < U64_LIMIT
  {
    if at.Some? {
      var magnitude: nat := if at.value.utc < 0 then -at.value.utc else at.value.utc;
      TwentyOneDigits();
      DecimalIsShort(magnitude, 21);
    }
  }
}
