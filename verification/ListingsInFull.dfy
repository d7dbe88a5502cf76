/** What the two listings answer, in full: every refusal, the cursor a statement is pinned
    at, which rows a page holds, in which order, and where the next page begins. */
module ListingsInFull {
  import opened Wrappers
  import opened Bytes
  import opened Reports
  import opened PinnedReads
  import opened KeysetWalk
  import opened Listings
  import Order

  // ---- the words -------------------------------------------------------

  /** `recorded`, byte by byte. */
  const RECORDED_NAME: Text := [114, 101, 99, 111, 114, 100, 101, 100]
  /** `effective`, byte by byte. */
  const EFFECTIVE_NAME: Text := [101, 102, 102, 101, 99, 116, 105, 118, 101]

  /** Its transaction has committed. */
  predicate HasCommitted(c: Cluster, row: Row)
  {
    row.xactId !in c.running && row.xactId !in c.aborted
  }

  /** An entry of the account the query asks about, within the dates it asks about. */
  predicate IsAskedFor(q: StatementQuery, row: Row)
  {
    && row.EntryRow? && row.tenant == q.tenant && row.leg.account == q.account
    && (q.effectiveFrom.None? || q.effectiveFrom.value <= row.effectiveAt)
    && (q.effectiveTo.None? || row.effectiveAt < q.effectiveTo.value)
  }

  predicate IsAdmitted(c: Cluster, q: StatementQuery, cursor: Cursor, row: Row)
  {
    row in c.rows && HasCommitted(c, row) && row.xactId < cursor && IsAskedFor(q, row)
  }

  /** Commit order, and then the id. */
  predicate RecordedBefore(a: Row, b: Row)
  {
    a.xactId < b.xactId || (a.xactId == b.xactId && a.id < b.id)
  }

  /** The date, then commit order, and then the id. */
  predicate DatedBefore(a: Row, b: Row)
    requires a.EntryRow? && b.EntryRow?
  {
    a.effectiveAt < b.effectiveAt || (a.effectiveAt == b.effectiveAt && RecordedBefore(a, b))
  }

  predicate Before(name: Text, a: Row, b: Row)
    requires a.EntryRow? && b.EntryRow?
  {
    if name == RECORDED_NAME then RecordedBefore(a, b) else DatedBefore(a, b)
  }

  /** The row is past the key a page is asked to begin after. */
  predicate IsPast(after: Option<StatementKey>, row: Row)
    requires row.EntryRow?
  {
    match after
    case None => true
    case Some(RecordedKey(xactId, id)) => xactId < row.xactId || (xactId == row.xactId && id < row.id)
    case Some(EffectiveKey(at, xactId, id)) =>
      at < row.effectiveAt || (at == row.effectiveAt && (xactId < row.xactId || (xactId == row.xactId && id < row.id)))
  }

  function KeyOfTheLast(name: Text, row: Row): StatementKey
    requires row.EntryRow?
  {
    if name == RECORDED_NAME then RecordedKey(row.xactId, row.id) else EffectiveKey(row.effectiveAt, row.xactId, row.id)
  }

  /** A hundred rows unless asked otherwise; asked for fewer than one or more than a
      thousand, a refusal. */
  predicate IsAPageSize(asked: Option<Int64>)
  {
    asked.None? || 1 <= asked.value <= 1_000
  }

  function SizeOf(asked: Option<Int64>): nat
    requires IsAPageSize(asked)
  {
    if asked.None? then 100 else asked.value
  }

  function AxisOf(name: Text): StatementAxis
  {
    if name == RECORDED_NAME then Recorded else Effective
  }

  // ---- the cursor ------------------------------------------------------

  /** Nothing running is below it, and it has been issued or is the next to be. */
  predicate IsUnderTheHorizon(c: Cluster, cursor: Cursor)
  {
    cursor <= c.next && forall x :: x in c.running ==> cursor <= x
  }

  /** Some committed entry of the tenant is at or above it, and none is below. */
  predicate IsAtOrUnderTheFloor(c: Cluster, tenant: Text, cursor: Cursor)
  {
    && (exists row :: row in c.rows && row.EntryRow? && row.tenant == tenant && HasCommitted(c, row))
    && (forall row :: row in c.rows && row.EntryRow? && row.tenant == tenant && HasCommitted(c, row) ==> cursor <= row.xactId)
  }

  /** The cursor a read is pinned at: the greatest value nothing running is below, unless
      one is supplied; and one that is supplied is refused above that, or where it admits
      no entry the book has. */
  ghost predicate IsThePin(c: Cluster, tenant: Text, supplied: Option<Text>, pin: Result<Cursor, ReadError>)
  {
    if supplied.None? then pin.Ok? && IsUnderTheHorizon(c, pin.value) && forall other: Cursor :: IsUnderTheHorizon(c, other) ==> other <= pin.value
    else if ParseCursor(supplied.value).None? then pin == Err(InvalidRequest)
    else if !IsUnderTheHorizon(c, ParseCursor(supplied.value).value) then pin == Err(CursorInvalid)
    else if IsAtOrUnderTheFloor(c, tenant, ParseCursor(supplied.value).value) then pin == Err(CursorInvalid)
    else pin == Ok(ParseCursor(supplied.value).value)
  }

  lemma TheHorizonIsThisOne(c: Cluster, cursor: Cursor)
    requires forall x :: x in c.running ==> x < c.next
    ensures cursor <= Horizon(c) <==> IsUnderTheHorizon(c, cursor)
  {
  }

  lemma TheFloorIsThisOne(c: Cluster, tenant: Text, cursor: Cursor)
    ensures Floor(c, tenant).Some? && cursor <= Floor(c, tenant).value <==> IsAtOrUnderTheFloor(c, tenant, cursor)
  {
    if Floor(c, tenant).Some? {
      var row := TheFloorIsAnEntrys(c.rows, c, tenant);
    }
    forall row | row in c.rows && row.EntryRow? && row.tenant == tenant && HasCommitted(c, row)
      ensures Floor(c, tenant).Some? && Floor(c, tenant).value <= row.xactId {
      TheFloorIsBelowEveryEntry(c.rows, c, tenant, row);
    }
  }

  /** Whatever the state, a read is pinned or refused by this rule. */
  lemma ACursorIsPinnedInFull(c: Cluster, tenant: Text, supplied: Option<Text>)
    requires forall x :: x in c.running ==> x < c.next
    ensures IsThePin(c, tenant, supplied, Pinned(c, tenant, supplied))
  {
    if supplied.None? {
      forall other: Cursor ensures IsUnderTheHorizon(c, other) ==> other <= Horizon(c) {
        TheHorizonIsThisOne(c, other);
      }
      TheHorizonIsThisOne(c, Horizon(c));
    } else if ParseCursor(supplied.value).Some? {
      TheHorizonIsThisOne(c, ParseCursor(supplied.value).value);
      TheFloorIsThisOne(c, tenant, ParseCursor(supplied.value).value);
    }
  }

  // ---- the orders ------------------------------------------------------

  lemma TwoPartsCompare(a: seq<int>, b: seq<int>)
    requires |a| == |b| == 2
    ensures Order.Less(a, b) <==> a[0] < b[0] || (a[0] == b[0] && a[1] < b[1])
  {
    assert Order.Less(a[1..], b[1..]) <==> a[1..][0] < b[1..][0];
  }

  lemma ThreePartsCompare(a: seq<int>, b: seq<int>)
    requires |a| == |b| == 3
    ensures Order.Less(a, b) <==> a[0] < b[0] || (a[0] == b[0] && (a[1] < b[1] || (a[1] == b[1] && a[2] < b[2])))
  {
    TwoPartsCompare(a[1..], b[1..]);
  }

  lemma TheOrderIsThisOne(name: Text, a: Row, b: Row)
    requires a.EntryRow? && b.EntryRow?
    ensures Order.Less(EntryOrder(AxisOf(name))(a), EntryOrder(AxisOf(name))(b)) <==> Before(name, a, b)
  {
    if name == RECORDED_NAME {
      TwoPartsCompare([a.xactId, a.id], [b.xactId, b.id]);
    } else {
      ThreePartsCompare([a.effectiveAt, a.xactId, a.id], [b.effectiveAt, b.xactId, b.id]);
    }
  }

  lemma BeyondIsPast(name: Text, after: Option<StatementKey>, row: Row)
    requires row.EntryRow? && (after.Some? ==> after.value.Axis() == AxisOf(name))
    ensures IsBeyond(EntryOrder(AxisOf(name))(row), AfterRank(after)) <==> IsPast(after, row)
  {
    if after.Some? {
      match after.value
      case RecordedKey(xactId, id) => TwoPartsCompare([xactId, id], [row.xactId, row.id]);
      case EffectiveKey(at, xactId, id) => ThreePartsCompare([at, xactId, id], [row.effectiveAt, row.xactId, row.id]);
    }
  }

  // ---- a statement -----------------------------------------------------

  /** The page: admitted entries past the key, strictly in order; every one of them, or a
      full page that those left out come after; and the last of a full page as the next
      key. */
  ghost predicate IsThePage(c: Cluster, q: StatementQuery, name: Text, after: Option<StatementKey>, size: nat, answer: Statement)
    requires size > 0
  {
    var entries := answer.entries;
    && answer.axis == AxisOf(name) && |entries| <= size
    && (forall i :: 0 <= i < |entries| ==> IsAdmitted(c, q, answer.pinnedCursor, entries[i]) && IsPast(after, entries[i]))
    && (forall i, j :: 0 <= i < j < |entries| ==> Before(name, entries[i], entries[j]))
    && (forall x :: IsAdmitted(c, q, answer.pinnedCursor, x) && IsPast(after, x) && x !in entries ==>
          |entries| == size && Before(name, entries[size - 1], x))
    && answer.nextAfter == (if |entries| == size then Some(KeyOfTheLast(name, entries[size - 1])) else None)
  }

  /** The answer to an account statement, whatever the state: the first of these conditions
      that holds decides it. */
  ghost predicate IsTheStatement(c: Cluster, q: StatementQuery, answer: Result<Statement, ReadError>)
  {
    if q.axis != Some(RECORDED_NAME) && q.axis != Some(EFFECTIVE_NAME) then answer == Err(InvalidRequest)
    else if !IsAPageSize(q.limit) then answer == Err(InvalidRequest)
    else if q.after.Some? && ParseKey(q.after.value, AxisOf(q.axis.value)).None? then answer == Err(InvalidRequest)
    else if q.axis == Some(RECORDED_NAME) && (q.effectiveFrom.Some? || q.effectiveTo.Some?) then answer == Err(InvalidRequest)
    else
      if answer.Err? && answer.error != ReadError.AccountUnknown then IsThePin(c, q.tenant, q.cursor, Err(answer.error))
      else if answer.Err? then
        && (exists pin: Cursor :: IsThePin(c, q.tenant, q.cursor, Ok(pin)))
        && !exists row :: row in c.rows && row.AccountRow? && row.tenant == q.tenant && row.id == q.account && HasCommitted(c, row)
      else
        && IsThePin(c, q.tenant, q.cursor, Ok(answer.value.pinnedCursor))
        && (exists row :: row in c.rows && row.AccountRow? && row.tenant == q.tenant && row.id == q.account && HasCommitted(c, row))
        && IsThePage(c, q, q.axis.value, if q.after.None? then None else ParseKey(q.after.value, AxisOf(q.axis.value)), SizeOf(q.limit), answer.value)
  }

  lemma AdmittedIsBelow(c: Cluster, q: StatementQuery, cursor: Cursor, x: Row)
    ensures x in EntriesFor(q, Below(c, cursor)) <==> IsAdmitted(c, q, cursor, x)
  {
    WhatAnEntryIs(q, Below(c, cursor), x);
    BelowIsCommittedAndBelow(c.rows, c, cursor, x);
  }

  lemma ItsPageIs(c: Cluster, q: StatementQuery, name: Text, after: Option<StatementKey>, size: nat, answer: Statement)
    requires KeysApart(c.rows) && size > 0 && (after.Some? ==> after.value.Axis() == AxisOf(name))
    requires answer.axis == AxisOf(name) && answer.nextAfter == NextPage(answer.entries, size, AxisOf(name))
    requires answer.entries == Page(EntryOrder(AxisOf(name)), EntriesFor(q, Below(c, answer.pinnedCursor)), AfterRank(after), size)
    ensures IsThePage(c, q, name, after, size, answer)
  {
    var order, rows, entries := EntryOrder(AxisOf(name)), EntriesFor(q, Below(c, answer.pinnedCursor)), answer.entries;
    RowsBelowKeepKeysApart(c.rows, c, answer.pinnedCursor);
    EntriesHaveDistinctKeys(q, Below(c, answer.pinnedCursor), AxisOf(name));
    APageAscends(order, rows, AfterRank(after), size);
    forall i | 0 <= i < |entries| ensures IsAdmitted(c, q, answer.pinnedCursor, entries[i]) && IsPast(after, entries[i]) {
      WhatAPageHolds(order, rows, AfterRank(after), size, entries[i]);
      AdmittedIsBelow(c, q, answer.pinnedCursor, entries[i]);
      BeyondIsPast(name, after, entries[i]);
    }
    forall i, j | 0 <= i < j < |entries| ensures Before(name, entries[i], entries[j]) {
      TheOrderIsThisOne(name, entries[i], entries[j]);
    }
    forall x | IsAdmitted(c, q, answer.pinnedCursor, x) && IsPast(after, x) && x !in entries
      ensures |entries| == size && Before(name, entries[size - 1], x) {
      WhatAPageHolds(order, rows, AfterRank(after), size, x);
      AdmittedIsBelow(c, q, answer.pinnedCursor, x);
      BeyondIsPast(name, after, x);
      TheOrderIsThisOne(name, entries[|entries| - 1], x);
    }
  }

  /** Whatever the state, an account statement is refused by the first condition that
      holds, or answers this page in this order. */
  lemma AStatementIsAnsweredInFull(c: Cluster, q: StatementQuery)
    requires Sound(c)
    ensures IsTheStatement(c, q, AccountStatement(c, q))
  {
    var answer := AccountStatement(c, q);
    ACursorIsPinnedInFull(c, q.tenant, q.cursor);
    TheNamesAreThese(q.axis);
    if answer.Ok? {
      var after := if q.after.None? then None else ParseKey(q.after.value, AxisOf(q.axis.value));
      ItsPageIs(c, q, q.axis.value, after, SizeOf(q.limit), answer.value);
    }
  }

  lemma TheNamesAreThese(name: Option<Text>)
    ensures AxisNamed(name) == if name == Some(RECORDED_NAME) then Ok(Recorded) else if name == Some(EFFECTIVE_NAME) then Ok(Effective)
                               else Err(InvalidRequest)
  {
    assert Ascii("recorded") == RECORDED_NAME && Ascii("effective") == EFFECTIVE_NAME;
  }

  // ---- the register ----------------------------------------------------

  /** A committed account of the tenant, of the asked purpose and owner. */
  predicate IsRegistered(c: Cluster, q: ListingQuery, row: Row)
  {
    && row in c.rows && HasCommitted(c, row) && row.AccountRow? && row.tenant == q.tenant
    && (q.purpose.None? || row.purpose == q.purpose.value)
    && (q.ownerId.None? || (row.ownerId.Some? && row.ownerId.value == q.ownerId.value))
    && (q.after.None? || q.after.value < row.id)
  }

  ghost predicate IsTheRegistersPage(c: Cluster, q: ListingQuery, size: nat, answer: Listing)
    requires size > 0
  {
    var accounts := answer.accounts;
    && |accounts| <= size
    && (forall i :: 0 <= i < |accounts| ==> IsRegistered(c, q, accounts[i]))
    && (forall i, j :: 0 <= i < j < |accounts| ==> accounts[i].id < accounts[j].id)
    && (forall x :: IsRegistered(c, q, x) && x !in accounts ==> |accounts| == size && accounts[size - 1].id < x.id)
    && answer.nextAfter == (if |accounts| == size then Some(accounts[size - 1].id) else None)
  }

  lemma OnePartCompares(a: int, b: int)
    ensures Order.Less([a], [b]) <==> a < b
  {
    assert [a][1..] == [] && [b][1..] == [];
  }

  lemma RegisteredIsBeyond(c: Cluster, q: ListingQuery, x: Row)
    requires Sound(c)
    ensures x in Register(c, q) && IsBeyond(AccountOrder()(x), if q.after.None? then None else Some([q.after.value])) <==> IsRegistered(c, q, x)
  {
    WhatIsListed(q, Below(c, c.next), x);
    BelowIsCommittedAndBelow(c.rows, c, c.next, x);
    if q.after.Some? {
      OnePartCompares(q.after.value, x.id);
    }
  }

  lemma ItsRegistersPageIs(c: Cluster, q: ListingQuery, size: nat, answer: Listing, after: Option<Key>)
    requires Sound(c) && size > 0 && after == (if q.after.None? then None else Some([q.after.value]))
    requires answer.accounts == Page(AccountOrder(), Register(c, q), after, size)
    requires answer.nextAfter == (var last := LastOfAFullPage(answer.accounts, size); if last.None? then None else Some(last.value.id))
    ensures IsTheRegistersPage(c, q, size, answer)
  {
    var order, rows, accounts := AccountOrder(), Register(c, q), answer.accounts;
    RowsBelowKeepKeysApart(c.rows, c, c.next);
    AccountsHaveDistinctKeys(q, Below(c, c.next));
    APageAscends(order, rows, after, size);
    forall i | 0 <= i < |accounts| ensures IsRegistered(c, q, accounts[i]) {
      WhatAPageHolds(order, rows, after, size, accounts[i]);
      RegisteredIsBeyond(c, q, accounts[i]);
    }
    forall i, j | 0 <= i < j < |accounts| ensures accounts[i].id < accounts[j].id {
      OnePartCompares(accounts[i].id, accounts[j].id);
    }
    forall x | IsRegistered(c, q, x) && x !in accounts ensures |accounts| == size && accounts[size - 1].id < x.id {
      RegisteredIsBeyond(c, q, x);
      WhatAPageHolds(order, rows, after, size, x);
      OnePartCompares(accounts[|accounts| - 1].id, x.id);
    }
  }

  /** Whatever the state, the register refuses a page size outside its window, and nothing
      else, and answers this page by id. */
  lemma ARegisterIsAnsweredInFull(c: Cluster, q: ListingQuery)
    requires Sound(c)
    ensures var answer := ListAccounts(c, q);
            if !IsAPageSize(q.limit) then answer == Err(InvalidRequest)
            else answer.Ok? && IsTheRegistersPage(c, q, SizeOf(q.limit), answer.value)
  {
    if IsAPageSize(q.limit) {
      ItsRegistersPageIs(c, q, SizeOf(q.limit), ListAccounts(c, q).value, if q.after.None? then None else Some([q.after.value]));
    }
  }
}
