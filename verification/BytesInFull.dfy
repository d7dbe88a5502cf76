/** The bytes each operation's hash is taken over, in full: which values, in which order,
    and each as which bytes. An instant's text in UTC is the one `Domain` stands in for it. */
module BytesInFull {
  import opened Wrappers
  import opened Bytes
  import opened Domain
  import opened Accounts
  import opened Periods

  // ---- the words -------------------------------------------------------

  /** The number some bytes spell, the lowest byte first. */
  function Low(bytes: Text): nat
  {
    if bytes == [] then 0 else bytes[0] + 256 * Low(bytes[1..])
  }

  /** And the highest first. */
  function High(bytes: Text): nat
  {
    if bytes == [] then 0 else 256 * High(bytes[..|bytes| - 1]) + bytes[|bytes| - 1]
  }

  function Joined(parts: seq<Text>): Text
  {
    if parts == [] then [] else Joined(parts[..|parts| - 1]) + parts[|parts| - 1]
  }

  /** A value under its own length, in eight bytes. */
  predicate IsUnder(field: Text, value: Text)
  {
    |field| == 8 + |value| && Low(field[..8]) == |value| && field[8..] == value
  }

  predicate AreUnder(fields: seq<Text>, values: seq<Text>)
  {
    |fields| == |values| && forall i :: 0 <= i < |values| ==> IsUnder(fields[i], values[i])
  }

  /** An id is sixteen bytes, and the absence of one is none. */
  predicate IsAnId(bytes: Text, id: Option<Uuid>)
  {
    if id.None? then bytes == [] else |bytes| == 16 && High(bytes) == id.value
  }

  predicate IsAnInstant(text: Text, at: Option<OffsetDateTime>)
  {
    if at.None? then text == [] else Rendered(at.value.utc) == Some(text)
  }

  /** `pending` or `posted`. */
  function StatusWord(status: TransactionStatus): Text
  {
    match status
    case Pending => [112, 101, 110, 100, 105, 110, 103]
    case Posted => [112, 111, 115, 116, 101, 100]
  }

  /** `company`, `platform`, `bank_account` or `house`. */
  function OwnerWord(ownerType: AccountOwnerType): Text
  {
    match ownerType
    case Company => [99, 111, 109, 112, 97, 110, 121]
    case Platform => [112, 108, 97, 116, 102, 111, 114, 109]
    case BankAccount => [98, 97, 110, 107, 95, 97, 99, 99, 111, 117, 110, 116]
    case House => [104, 111, 117, 115, 101]
  }

  /** Source, destination, amount, and the currency under its length. */
  predicate IsAPosting(bytes: Text, p: Posting)
  {
    && |bytes| == 51 && High(bytes[..16]) == p.source && High(bytes[16..32]) == p.destination
    && Low(bytes[32..40]) == p.amountMinor && Low(bytes[40..48]) == 3 && bytes[48..] == p.currency
  }

  /** `openledger.post.v1` */
  const POST: Text := [111, 112, 101, 110, 108, 101, 100, 103, 101, 114, 46, 112, 111, 115, 116, 46, 118, 49]
  /** `openledger.account.v1` */
  const ACCOUNT: Text := [111, 112, 101, 110, 108, 101, 100, 103, 101, 114, 46, 97, 99, 99, 111, 117, 110, 116, 46, 118, 49]
  /** `openledger.period.v1` */
  const PERIOD: Text := [111, 112, 101, 110, 108, 101, 100, 103, 101, 114, 46, 112, 101, 114, 105, 111, 100, 46, 118, 49]
  /** `openledger.close.v1` */
  const CLOSE: Text := [111, 112, 101, 110, 108, 101, 100, 103, 101, 114, 46, 99, 108, 111, 115, 101, 46, 118, 49]

  // ---- the numbers agree -----------------------------------------------

  lemma {:induction false} LowReads(n: nat, width: nat)
    requires n < Pow256(width)
    ensures Low(LittleEndian(n, width)) == n
  {
    if width > 0 {
      LowReads(n / 256, width - 1);
      assert LittleEndian(n, width)[1..] == LittleEndian(n / 256, width - 1);
    }
  }

  lemma {:induction false} HighReads(n: nat, width: nat)
    requires n < Pow256(width)
    ensures High(BigEndian(n, width)) == n
  {
    if width > 0 {
      HighReads(n / 256, width - 1);
      assert BigEndian(n, width)[..width - 1] == BigEndian(n / 256, width - 1);
    }
  }

  lemma PrefixedIsUnder(value: Text)
    requires |value| < U64_LIMIT
    ensures IsUnder(Prefixed(value), value)
  {
    EightBytesHoldAU64();
    LowReads(|value|, 8);
    assert Prefixed(value)[..8] == U64Bytes(|value|);
  }

  lemma {:induction false} TheFieldsAre(values: seq<Text>) returns (fields: seq<Text>)
    requires AllAddressable(values)
    ensures PrefixedAll(values) == Joined(fields) && AreUnder(fields, values)
    decreases |values|
  {
    fields := [];
    if values != [] {
      var n := |values| - 1;
      var front := TheFieldsAre(values[..n]);
      PrefixedIsUnder(values[n]);
      PutAppends(values[..n], values[n]);
      assert values == values[..n] + [values[n]];
      fields := front + [Prefixed(values[n])];
      assert fields[..n] == front;
      forall i | 0 <= i < |values| ensures IsUnder(fields[i], values[i]) {
        if i < n {
          assert IsUnder(front[i], values[..n][i]);
        }
      }
    }
  }

  lemma AnIdIsItsBytes(id: Option<Uuid>)
    ensures IsAnId(OptionalUuidBytes(id), id)
  {
    if id.Some? {
      SixteenBytesHoldAU128();
      HighReads(id.value, 16);
    }
  }

  lemma FivePieces(source: Text, destination: Text, amount: Text, length: Text, currency: Text)
    requires |source| == |destination| == 16 && |amount| == |length| == 8 && |currency| == 3
    ensures var bytes := source + (destination + (amount + (length + currency)));
            && |bytes| == 51 && bytes[..16] == source && bytes[16..32] == destination && bytes[32..40] == amount
            && bytes[40..48] == length && bytes[48..] == currency
  {
  }

  lemma ItsPiecesRead(p: Posting)
    requires p.WellFormed()
    ensures High(UuidBytes(p.source)) == p.source && High(UuidBytes(p.destination)) == p.destination
    ensures Low(U64Bytes(TwosComplement(p.amountMinor))) == p.amountMinor && Low(U64Bytes(3)) == 3
  {
    SixteenBytesHoldAU128();
    EightBytesHoldAU64();
    HighReads(p.source, 16);
    HighReads(p.destination, 16);
    LowReads(p.amountMinor, 8);
    LowReads(3, 8);
  }

  lemma APostingIsItsBytes(p: Posting)
    requires p.WellFormed()
    ensures IsAPosting(PostingBytes(p), p)
  {
    ItsPiecesRead(p);
    FivePieces(UuidBytes(p.source), UuidBytes(p.destination), U64Bytes(TwosComplement(p.amountMinor)), U64Bytes(3), p.currency);
  }

  lemma {:induction false} PostingsAreTheirBytes(postings: seq<Posting>) returns (each: seq<Text>)
    requires forall i :: 0 <= i < |postings| ==> postings[i].WellFormed()
    ensures PostingsBytes(postings) == Joined(each) && |each| == |postings|
    ensures forall i :: 0 <= i < |postings| ==> IsAPosting(each[i], postings[i])
    decreases |postings|
  {
    each := [];
    if postings != [] {
      var n := |postings| - 1;
      var front := PostingsAreTheirBytes(postings[..n]);
      APostingIsItsBytes(postings[n]);
      each := front + [PostingBytes(postings[n])];
      assert each[..n] == front;
      forall i | 0 <= i < |postings| ensures IsAPosting(each[i], postings[i]) {
        if i < n {
          assert IsAPosting(front[i], postings[..n][i]);
        }
      }
    }
  }

  // ---- the four forms --------------------------------------------------

  lemma TheTagsAre()
    ensures PostTag() == POST && AccountTag() == ACCOUNT && PeriodTag() == PERIOD && CloseTag() == CLOSE
  {
  }

  lemma TheWordsAre(status: TransactionStatus, ownerType: AccountOwnerType)
    ensures status.Word() == StatusWord(status) && ownerType.Word() == OwnerWord(ownerType)
  {
  }

  /** The values of a posting, with the date's text. */
  lemma ThePostsValuesAre(c: PostTransaction, date: Text) returns (values: seq<Text>)
    requires c.WellFormed() && OptionalInstantBytes(c.effectiveAt) == Some(date)
    ensures values == PostFields(c, date) && AllAddressable(values) && |values| == 5
    ensures values[0] == c.tenantId && IsAnInstant(values[1], c.effectiveAt) && values[2] == StatusWord(c.status)
    ensures IsAnId(values[3], c.resolvesId) && IsAnId(values[4], c.reversesId)
  {
    InstantBytesAreShort(c.effectiveAt);
    values := PostFields(c, date);
    TheWordsAre(c.status, House);
    AnIdIsItsBytes(c.resolvesId);
    AnIdIsItsBytes(c.reversesId);
  }

  lemma TheCountIs(n: nat)
    requires n < U64_LIMIT
    ensures Low(U64Bytes(n)) == n
  {
    EightBytesHoldAU64();
    LowReads(n, 8);
  }

  /** A posting's: the tag, five values each under its length, the number of postings, and
      the postings. */
  lemma ThePostsBytesAre(c: PostTransaction) returns (values: seq<Text>, fields: seq<Text>, count: Text, each: seq<Text>)
    requires c.WellFormed()
    ensures CanonicalPost(c) == Some(POST + (Joined(fields) + (count + Joined(each)))) && AreUnder(fields, values) && |values| == 5
    ensures values[0] == c.tenantId && IsAnInstant(values[1], c.effectiveAt) && values[2] == StatusWord(c.status)
    ensures IsAnId(values[3], c.resolvesId) && IsAnId(values[4], c.reversesId)
    ensures |count| == 8 && Low(count) == |c.postings| == |each|
    ensures forall k :: 0 <= k < |each| ==> IsAPosting(each[k], c.postings[k])
  {
    var date := OptionalInstantBytes(c.effectiveAt).value;
    values := ThePostsValuesAre(c, date);
    fields := TheFieldsAre(values);
    count := U64Bytes(|c.postings|);
    TheCountIs(|c.postings|);
    each := PostingsAreTheirBytes(c.postings);
    TheTagsAre();
  }

  /** An opening's: the tag and seven values, an absence being no bytes and a stripe count
      two. */
  lemma TheOpeningsBytesAre(c: OpenAccount) returns (values: seq<Text>, fields: seq<Text>)
    requires c.WellFormed()
    ensures CanonicalOpen(c) == ACCOUNT + Joined(fields) && AreUnder(fields, values) && |values| == 7
    ensures values[0] == c.tenantId && values[1] == c.purpose && values[2] == OwnerWord(c.ownerType)
    ensures values[3] == (if c.ownerId.Some? then c.ownerId.value else []) && values[4] == c.currency
    ensures if c.stripeCount.None? then values[5] == [] else |values[5]| == 2 && Low(values[5]) == c.stripeCount.value
    ensures values[6] == if c.metadata.Some? then c.metadata.value else []
  {
    TheTagsAre();
    TheWordsAre(Posted, c.ownerType);
    values := OpenFields(c);
    fields := TheFieldsAre(values);
    if c.stripeCount.Some? {
      assert Pow256(2) == 256 * Pow256(1) == 256 * (256 * Pow256(0));
      LowReads(c.stripeCount.value, 2);
    }
  }

  /** A definition's: the tag and five values. */
  lemma TheDefinitionsBytesAre(c: DefinePeriod) returns (values: seq<Text>, fields: seq<Text>)
    requires c.WellFormed() && CanonicalDefine(c).Some?
    ensures CanonicalDefine(c) == Some(PERIOD + Joined(fields)) && AreUnder(fields, values) && |values| == 5
    ensures values[0] == c.tenantId && values[1] == c.code && IsAnInstant(values[2], Some(c.startsAt)) && IsAnInstant(values[3], Some(c.endsAt))
    ensures values[4] == c.tz
  {
    TheTagsAre();
    InstantBytesAreShort(Some(c.startsAt));
    InstantBytesAreShort(Some(c.endsAt));
    assert OptionalInstantBytes(Some(c.startsAt)) == Rendered(c.startsAt.utc) && OptionalInstantBytes(Some(c.endsAt)) == Rendered(c.endsAt.utc);
    values := DefineFields(c, Rendered(c.startsAt.utc).value, Rendered(c.endsAt.utc).value);
    fields := TheFieldsAre(values);
  }

  /** A close's: the tag and three values. */
  lemma TheClosesBytesAre(c: ClosePeriod) returns (fields: seq<Text>)
    requires c.WellFormed()
    ensures CanonicalClose(c) == CLOSE + Joined(fields) && AreUnder(fields, [c.tenantId, c.periodCode, c.currency])
  {
    TheTagsAre();
    fields := TheFieldsAre(CloseFields(c));
  }
}
