/** The two listings of the read path: an account statement at a pinned cursor, and
    the account register as it grows. */
module Listings {
  import opened Wrappers
  import opened Bytes
  import opened Domain
  import opened Reports
  import opened PinnedReads
  import opened KeysetWalk

  // ---- what a request may ask ------------------------------------------

  const A_PAGE := 100
  const AT_MOST := 1_000

  /** Refused outside the window, never clamped. */
  function PageSize(asked: Option<Int64>): (size: Result<nat, ReadError>)
    ensures size.Ok? ==> 1 <= size.value <= AT_MOST
  {
    if asked.None? then Ok(A_PAGE)
    else if 1 <= asked.value <= AT_MOST then Ok(asked.value)
    else Err(InvalidRequest)
  }

  function AxisNamed(name: Option<Text>): Result<StatementAxis, ReadError>
  {
    if name == Some(Ascii("recorded")) then Ok(Recorded)
    else if name == Some(Ascii("effective")) then Ok(Effective)
    else Err(InvalidRequest)
  }

  function PageKey(after: Option<Text>, axis: StatementAxis): Result<Option<StatementKey>, ReadError>
  {
    if after.None? then Ok(None) else
    var key := ParseKey(after.value, axis);
    if key.None? then Err(InvalidRequest) else Ok(key)
  }

  // ---- the account statement -------------------------------------------

  datatype StatementQuery = StatementQuery(
    tenant: Text, account: Uuid, axis: Option<Text>, cursor: Option<Text>,
    effectiveFrom: Option<Instant>, effectiveTo: Option<Instant>, limit: Option<Int64>, after: Option<Text>)

  datatype Statement = Statement(pinnedCursor: Cursor, axis: StatementAxis, nextAfter: Option<StatementKey>, entries: seq<Row>)

  function KeyOn(axis: StatementAxis, row: Row): StatementKey
  {
    if row.EntryRow? && axis.Effective? then EffectiveKey(row.effectiveAt, row.xactId, row.id)
    else RecordedKey(row.xactId, row.id)
  }

  function EntryOrder(axis: StatementAxis): Row -> Key
  {
    row => Rank(KeyOn(axis, row))
  }

  /** Is the row an entry of the account, inside the half-open effective range? */
  predicate Concerns(q: StatementQuery, row: Row)
  {
    && row.EntryRow? && row.tenant == q.tenant && row.leg.account == q.account
    && (q.effectiveFrom.Some? ==> q.effectiveFrom.value <= row.effectiveAt)
    && (q.effectiveTo.Some? ==> row.effectiveAt < q.effectiveTo.value)
  }

  function EntriesFor(q: StatementQuery, rows: seq<Row>): seq<Row>
  {
    if rows == [] then []
    else if Concerns(q, rows[0]) then [rows[0]] + EntriesFor(q, rows[1..])
    else EntriesFor(q, rows[1..])
  }

  predicate AccountExists(c: Cluster, tenant: Text, account: Uuid)
  {
    exists r :: r in c.rows && r.AccountRow? && r.tenant == tenant && r.id == account && IsCommitted(c, r)
  }

  function AfterRank(after: Option<StatementKey>): Option<Key>
  {
    if after.None? then None else Some(Rank(after.value))
  }

  function NextPage(page: seq<Row>, limit: nat, axis: StatementAxis): Option<StatementKey>
  {
    match LastOfAFullPage(page, limit)
    case Some(last) => Some(KeyOn(axis, last))
    case None => None
  }

  /** Everything refusable on the request's own face first, then the cursor rule,
      then the read. */
  ghost function AccountStatement(c: Cluster, q: StatementQuery): Result<Statement, ReadError>
  {
    var axis := AxisNamed(q.axis);
    if axis.Err? then Err(axis.error) else
    var limit := PageSize(q.limit);
    if limit.Err? then Err(limit.error) else
    var after := PageKey(q.after, axis.value);
    if after.Err? then Err(after.error) else
    if axis.value.Recorded? && (q.effectiveFrom.Some? || q.effectiveTo.Some?) then Err(InvalidRequest) else
    var cursor := Pinned(c, q.tenant, q.cursor);
    if cursor.Err? then Err(cursor.error) else
    if !AccountExists(c, q.tenant, q.account) then Err(ReadError.AccountUnknown) else
    var page := Page(EntryOrder(axis.value), EntriesFor(q, Below(c, cursor.value)), AfterRank(after.value), limit.value);
    Ok(Statement(cursor.value, axis.value, NextPage(page, limit.value, axis.value), page))
  }

  // ---- keys are distinct -----------------------------------------------

  lemma {:induction false} RowsBelowKeepKeysApart(rows: seq<Row>, c: Cluster, cursor: Cursor)
    requires KeysApart(rows)
    ensures KeysApart(RowsBelow(rows, c, cursor))
  {
    if rows != [] {
      var n := |rows| - 1;
      var before := RowsBelow(rows[..n], c, cursor);
      RowsBelowKeepKeysApart(rows[..n], c, cursor);
      forall i | 0 <= i < |before| ensures !SamePrimaryKey(before[i], rows[n]) {
        BelowIsCommittedAndBelow(rows[..n], c, cursor, before[i]);
        var j :| 0 <= j < n && rows[..n][j] == before[i];
        assert !SamePrimaryKey(rows[j], rows[n]);
      }
    }
  }

  lemma {:induction false} WhatAnEntryIs(q: StatementQuery, rows: seq<Row>, x: Row)
    ensures x in EntriesFor(q, rows) <==> x in rows && Concerns(q, x)
  {
    if rows != [] {
      WhatAnEntryIs(q, rows[1..], x);
      assert rows == [rows[0]] + rows[1..];
    }
  }

  lemma {:induction false} EntriesHaveDistinctKeys(q: StatementQuery, rows: seq<Row>, axis: StatementAxis)
    requires KeysApart(rows)
    ensures DistinctKeys(EntryOrder(axis), EntriesFor(q, rows))
  {
    if rows != [] {
      var rest := EntriesFor(q, rows[1..]);
      EntriesHaveDistinctKeys(q, rows[1..], axis);
      if Concerns(q, rows[0]) {
        forall k | 0 <= k < |rest| ensures EntryOrder(axis)(rest[k]) != EntryOrder(axis)(rows[0]) {
          WhatAnEntryIs(q, rows[1..], rest[k]);
          var i :| 0 <= i < |rows[1..]| && rows[1..][i] == rest[k];
          assert !SamePrimaryKey(rows[0], rows[i + 1]);
          RanksTellEntriesApart(axis, rest[k], rows[0]);
        }
      }
    }
  }

  lemma RanksTellEntriesApart(axis: StatementAxis, a: Row, b: Row)
    requires a.EntryRow? && b.EntryRow? && a.id != b.id
    ensures EntryOrder(axis)(a) != EntryOrder(axis)(b)
  {
    var ra, rb := EntryOrder(axis)(a), EntryOrder(axis)(b);
    assert ra[|ra| - 1] == a.id && rb[|rb| - 1] == b.id;
  }

  // ---- a statement walk ------------------------------------------------

  /** The same question, apart from where the page starts and how the cursor is spelt. */
  predicate SameQuestion(a: StatementQuery, b: StatementQuery)
  {
    a.(cursor := None, after := None) == b.(cursor := None, after := None)
  }

  /** One page read at one state of a run. */
  datatype Reading = Reading(state: nat, query: StatementQuery, answer: Statement)

  ghost predicate IsAnswered(states: seq<Cluster>, reading: Reading)
  {
    reading.state < |states| && AccountStatement(states[reading.state], reading.query) == Ok(reading.answer)
  }

  /** The next page is asked for later, with the key the last was answered with. */
  predicate Follows(before: Reading, after: Reading)
  {
    && before.state <= after.state && SameQuestion(before.query, after.query)
    && before.answer.pinnedCursor == after.answer.pinnedCursor
    && before.answer.nextAfter.Some?
    && after.query.after == Some(before.answer.nextAfter.value.Rendered())
  }

  /** A caller reads page after page at one pinned cursor, whatever commits meanwhile. */
  ghost predicate IsStatementWalk(states: seq<Cluster>, readings: seq<Reading>)
  {
    readings != [] ==>
      var n := |readings| - 1;
      && IsStatementWalk(states, readings[..n])
      && IsAnswered(states, readings[n])
      && (if n == 0 then readings[n].query.after.None? else Follows(readings[n - 1], readings[n]))
  }

  function PagesOf(readings: seq<Reading>): (pages: seq<seq<Row>>)
    ensures |pages| == |readings|
  {
    if readings == [] then [] else PagesOf(readings[..|readings| - 1]) + [readings[|readings| - 1].answer.entries]
  }

  /** What the first page's cursor admits of what it asks for. */
  ghost function Admitted(states: seq<Cluster>, first: Reading): seq<Row>
    requires first.state < |states|
  {
    EntriesFor(first.query, Below(states[first.state], first.answer.pinnedCursor))
  }

  lemma {:induction false} TheSameEntries(a: StatementQuery, b: StatementQuery, rows: seq<Row>)
    requires SameQuestion(a, b)
    ensures EntriesFor(a, rows) == EntriesFor(b, rows)
  {
    if rows != [] {
      assert a.tenant == b.tenant && a.account == b.account && a.effectiveFrom == b.effectiveFrom && a.effectiveTo == b.effectiveTo by {
        assert a.(cursor := None, after := None).tenant == b.(cursor := None, after := None).tenant;
      }
      TheSameEntries(a, b, rows[1..]);
    }
  }

  lemma AnAnsweredCursorIsUnderTheHorizon(states: seq<Cluster>, reading: Reading)
    requires IsAnswered(states, reading)
    ensures reading.answer.pinnedCursor <= Horizon(states[reading.state])
  {
  }

  /** Later readings admit what the first did. */
  lemma LaterReadingsAdmitTheSame(states: seq<Cluster>, steps: seq<Step>, first: Reading, later: Reading)
    requires IsARun(states, steps) && IsAnswered(states, first) && IsAnswered(states, later)
    requires first.state <= later.state && SameQuestion(first.query, later.query)
    requires first.answer.pinnedCursor == later.answer.pinnedCursor
    ensures Admitted(states, later) == Admitted(states, first)
  {
    AnAnsweredCursorIsUnderTheHorizon(states, first);
    WhatIsBelowTheHorizonIsSettled(states, steps, first.state, later.state, first.answer.pinnedCursor);
    TheSameEntries(first.query, later.query, Below(states[first.state], first.answer.pinnedCursor));
  }

  /** The axis and the page size a reading was answered at. */
  predicate Asks(reading: Reading, axis: StatementAxis, limit: nat)
  {
    AxisNamed(reading.query.axis) == Ok(axis) && PageSize(reading.query.limit) == Ok(limit) && reading.answer.axis == axis
  }

  lemma AnAnswerAsks(states: seq<Cluster>, reading: Reading) returns (axis: StatementAxis, limit: nat)
    requires IsAnswered(states, reading)
    ensures Asks(reading, axis, limit) && limit > 0
  {
    axis, limit := reading.answer.axis, PageSize(reading.query.limit).value;
  }

  /** One answered page is the page beyond the key its request carried. */
  predicate IsPageOf(reading: Reading, axis: StatementAxis, limit: nat, rows: seq<Row>)
  {
    var after := PageKey(reading.query.after, axis);
    && after.Ok?
    && reading.answer.entries == Page(EntryOrder(axis), rows, AfterRank(after.value), limit)
    && reading.answer.nextAfter == NextPage(reading.answer.entries, limit, axis)
  }

  lemma AnAnswersPage(states: seq<Cluster>, reading: Reading, axis: StatementAxis, limit: nat)
    requires IsAnswered(states, reading) && Asks(reading, axis, limit)
    ensures IsPageOf(reading, axis, limit, Admitted(states, reading))
  {
  }

  /** What the pages of one question at one state are taken from. */
  ghost predicate AreKeyedEntries(rows: seq<Row>, axis: StatementAxis)
  {
    DistinctKeys(EntryOrder(axis), rows) && forall x :: x in rows ==> x.EntryRow? && IsStorable(x)
  }

  lemma AdmittedEntriesAreKeyed(states: seq<Cluster>, steps: seq<Step>, reading: Reading, axis: StatementAxis)
    requires IsARun(states, steps) && reading.state < |states|
    ensures AreKeyedEntries(Admitted(states, reading), axis)
  {
    var c, cursor := states[reading.state], reading.answer.pinnedCursor;
    EveryReachableClusterIsSound(states, steps, reading.state);
    RowsBelowKeepKeysApart(c.rows, c, cursor);
    EntriesHaveDistinctKeys(reading.query, Below(c, cursor), axis);
    forall x | x in Admitted(states, reading) ensures x.EntryRow? && IsStorable(x) {
      WhatAnEntryIs(reading.query, Below(c, cursor), x);
      BelowIsCommittedAndBelow(c.rows, c, cursor, x);
    }
  }

  /** The key a page was answered with comes back as the rank of its last entry. */
  lemma TheKeyComesBack(axis: StatementAxis, rows: seq<Row>, after: Option<Key>, limit: nat, page: seq<Row>, next: StatementKey)
    requires AreKeyedEntries(rows, axis) && limit > 0 && page == Page(EntryOrder(axis), rows, after, limit)
    requires NextPage(page, limit, axis) == Some(next)
    ensures PageKey(Some(next.Rendered()), axis) == Ok(Some(next))
    ensures LastOfAFullPage(page, limit).Some? && Rank(next) == EntryOrder(axis)(LastOfAFullPage(page, limit).value)
  {
    var last := page[|page| - 1];
    WhatAPageHolds(EntryOrder(axis), rows, after, limit, last);
    AKeyReadsBackOnItsOwnAxis(next, axis);
  }

  /** Every reading of a walk asks the first one's question, at or after its state. */
  ghost predicate Continues(states: seq<Cluster>, first: Reading, last: Reading)
  {
    && IsAnswered(states, first) && IsAnswered(states, last)
    && first.state <= last.state && SameQuestion(first.query, last.query)
    && first.answer.pinnedCursor == last.answer.pinnedCursor
  }

  lemma {:induction false} AWalkAsksOneQuestion(states: seq<Cluster>, readings: seq<Reading>)
    requires IsStatementWalk(states, readings) && readings != []
    ensures Continues(states, readings[0], readings[|readings| - 1]) && readings[0].query.after.None?
    decreases |readings|
  {
    if |readings| > 1 {
      AWalkAsksOneQuestion(states, readings[..|readings| - 1]);
    }
  }

  lemma AContinuationAsksTheSame(states: seq<Cluster>, steps: seq<Step>, first: Reading, last: Reading, axis: StatementAxis, limit: nat)
    requires IsARun(states, steps) && Continues(states, first, last) && Asks(first, axis, limit)
    ensures Asks(last, axis, limit) && Admitted(states, last) == Admitted(states, first)
  {
    LaterReadingsAdmitTheSame(states, steps, first, last);
    var a, l := AnAnswerAsks(states, last);
    assert first.query.axis == last.query.axis && first.query.limit == last.query.limit by {
      assert first.query.(cursor := None, after := None).axis == last.query.(cursor := None, after := None).axis;
    }
  }

  lemma TheLastReading(states: seq<Cluster>, steps: seq<Step>, readings: seq<Reading>, axis: StatementAxis, limit: nat, rows: seq<Row>)
    requires IsARun(states, steps) && IsStatementWalk(states, readings) && readings != []
    requires readings[0].state < |states| && Asks(readings[0], axis, limit) && rows == Admitted(states, readings[0])
    ensures var last := readings[|readings| - 1];
            IsAnswered(states, last) && Asks(last, axis, limit) && Admitted(states, last) == rows
  {
    AWalkAsksOneQuestion(states, readings);
    AContinuationAsksTheSame(states, steps, readings[0], readings[|readings| - 1], axis, limit);
  }

  /** A walk, apart from the states it was read at. */
  predicate PagesInTurn(readings: seq<Reading>, axis: StatementAxis, limit: nat, rows: seq<Row>)
  {
    readings != [] ==>
      var n := |readings| - 1;
      && PagesInTurn(readings[..n], axis, limit, rows)
      && IsPageOf(readings[n], axis, limit, rows)
      && (if n == 0 then readings[n].query.after.None? else
            && readings[n - 1].answer.nextAfter.Some?
            && readings[n].query.after == Some(readings[n - 1].answer.nextAfter.value.Rendered()))
  }

  lemma {:induction false} AWalkIsPagesInTurn(states: seq<Cluster>, steps: seq<Step>, readings: seq<Reading>,
                                              axis: StatementAxis, limit: nat, rows: seq<Row>)
    requires IsARun(states, steps) && IsStatementWalk(states, readings)
    requires readings != [] ==> readings[0].state < |states| && Asks(readings[0], axis, limit) && rows == Admitted(states, readings[0])
    ensures PagesInTurn(readings, axis, limit, rows)
    decreases |readings|
  {
    if readings != [] {
      var n := |readings| - 1;
      AWalkIsPagesInTurn(states, steps, readings[..n], axis, limit, rows);
      TheLastReading(states, steps, readings, axis, limit, rows);
      AnAnswersPage(states, readings[n], axis, limit);
    }
  }

  /** A reading that sends the last one's key back reads the page beyond its last entry. */
  lemma OneReadingAfterTheOther(last: Reading, next: Reading, axis: StatementAxis, limit: nat, rows: seq<Row>)
    requires limit > 0 && AreKeyedEntries(rows, axis) && IsPageOf(last, axis, limit, rows) && IsPageOf(next, axis, limit, rows)
    requires last.answer.nextAfter.Some? && next.query.after == Some(last.answer.nextAfter.value.Rendered())
    ensures var end := LastOfAFullPage(last.answer.entries, limit);
            end.Some? && next.answer.entries == Page(EntryOrder(axis), rows, Some(EntryOrder(axis)(end.value)), limit)
  {
    TheKeyComesBack(axis, rows, AfterRank(PageKey(last.query.after, axis).value), limit, last.answer.entries, last.answer.nextAfter.value);
  }

  lemma ThePrefixOfPages(readings: seq<Reading>)
    requires readings != []
    ensures PagesOf(readings)[..|readings| - 1] == PagesOf(readings[..|readings| - 1])
    ensures PagesOf(readings)[|readings| - 1] == readings[|readings| - 1].answer.entries
  {
  }

  lemma ALaterReadingsPage(readings: seq<Reading>, axis: StatementAxis, limit: nat, rows: seq<Row>)
    requires |readings| > 1 && PagesInTurn(readings, axis, limit, rows)
    ensures var last, next := readings[|readings| - 2], readings[|readings| - 1];
            && IsPageOf(last, axis, limit, rows) && IsPageOf(next, axis, limit, rows)
            && last.answer.nextAfter.Some? && next.query.after == Some(last.answer.nextAfter.value.Rendered())
  {
    var n := |readings| - 1;
    assert readings[..n][n - 1] == readings[n - 1];
  }

  lemma TheFirstReadingsPage(readings: seq<Reading>, axis: StatementAxis, limit: nat, rows: seq<Row>)
    requires |readings| == 1 && PagesInTurn(readings, axis, limit, rows)
    ensures readings[0].answer.entries == Page(EntryOrder(axis), rows, None, limit)
  {
  }

  lemma ALaterReadingGoesOn(readings: seq<Reading>, axis: StatementAxis, limit: nat, rows: seq<Row>)
    requires |readings| > 1 && PagesInTurn(readings, axis, limit, rows) && limit > 0 && AreKeyedEntries(rows, axis)
    ensures var end := LastOfAFullPage(readings[|readings| - 2].answer.entries, limit);
            end.Some? && readings[|readings| - 1].answer.entries == Page(EntryOrder(axis), rows, Some(EntryOrder(axis)(end.value)), limit)
  {
    ALaterReadingsPage(readings, axis, limit, rows);
    OneReadingAfterTheOther(readings[|readings| - 2], readings[|readings| - 1], axis, limit, rows);
  }

  lemma BeyondTheLastPage<T>(key: T -> Key, before: seq<seq<T>>, page: seq<T>, limit: nat)
    requires before != [] && before[|before| - 1] == page && LastOfAFullPage(page, limit).Some?
    ensures NextAfter(key, before, limit) == Some(key(LastOfAFullPage(page, limit).value))
  {
  }

  /** The last reading's page is the one beyond the pages before it. */
  lemma TheLastReadingGoesOn(readings: seq<Reading>, before: seq<seq<Row>>, axis: StatementAxis, limit: nat, rows: seq<Row>)
    requires readings != [] && before == PagesOf(readings[..|readings| - 1])
    requires PagesInTurn(readings, axis, limit, rows) && limit > 0 && AreKeyedEntries(rows, axis)
    ensures before != [] ==> NextAfter(EntryOrder(axis), before, limit).Some?
    ensures readings[|readings| - 1].answer.entries == Page(EntryOrder(axis), rows, NextAfter(EntryOrder(axis), before, limit), limit)
  {
    var n := |readings| - 1;
    if n == 0 {
      TheFirstReadingsPage(readings, axis, limit, rows);
    } else {
      ALaterReadingGoesOn(readings, axis, limit, rows);
      TheLastPageOf(readings[..n]);
      BeyondTheLastPage(EntryOrder(axis), before, readings[n - 1].answer.entries, limit);
    }
  }

  lemma TheLastPageOf(readings: seq<Reading>)
    requires readings != []
    ensures PagesOf(readings)[|readings| - 1] == readings[|readings| - 1].answer.entries
  {
  }

  /** The readings' pages are a walk of the one fixed set. */
  lemma {:induction false} TheReadingsAreAWalk(readings: seq<Reading>, axis: StatementAxis, limit: nat, rows: seq<Row>)
    requires PagesInTurn(readings, axis, limit, rows) && limit > 0 && AreKeyedEntries(rows, axis)
    ensures IsFixedWalk(EntryOrder(axis), rows, PagesOf(readings), limit)
    decreases |readings|
  {
    if readings != [] {
      var n := |readings| - 1;
      var before, page := PagesOf(readings[..n]), readings[n].answer.entries;
      TheLastReadingGoesOn(readings, before, axis, limit, rows);
      TheReadingsAreAWalk(readings[..n], axis, limit, rows);
      OnePageMoreOfTheSame(EntryOrder(axis), rows, before, limit, page);
      ThePrefixOfPages(readings);
      assert PagesOf(readings) == before + [page];
    }
  }

  /** Following `next_after` at one pinned cursor gives every admitted entry once, in
      the axis's order, whatever commits between the pages. */
  lemma AStatementWalkIsExact(states: seq<Cluster>, steps: seq<Step>, readings: seq<Reading>)
    requires IsARun(states, steps) && IsStatementWalk(states, readings) && readings != []
    requires readings[|readings| - 1].answer.nextAfter.None?
    ensures IsAnswered(states, readings[0])
    ensures Flatten(PagesOf(readings)) == Sorted(EntryOrder(readings[0].answer.axis), Admitted(states, readings[0]))
    ensures Ascends(EntryOrder(readings[0].answer.axis), Flatten(PagesOf(readings)))
  {
    AWalkAsksOneQuestion(states, readings);
    var axis, limit := AnAnswerAsks(states, readings[0]);
    var rows := Admitted(states, readings[0]);
    AdmittedEntriesAreKeyed(states, steps, readings[0], axis);
    AWalkIsPagesInTurn(states, steps, readings, axis, limit, rows);
    PagesInTurnAreExact(readings, axis, limit, rows);
  }

  lemma PagesInTurnAreExact(readings: seq<Reading>, axis: StatementAxis, limit: nat, rows: seq<Row>)
    requires PagesInTurn(readings, axis, limit, rows) && limit > 0 && AreKeyedEntries(rows, axis)
    requires readings != [] && readings[|readings| - 1].answer.nextAfter.None?
    ensures Flatten(PagesOf(readings)) == Sorted(EntryOrder(axis), rows) && Ascends(EntryOrder(axis), Flatten(PagesOf(readings)))
  {
    TheReadingsAreAWalk(readings, axis, limit, rows);
    ThePrefixOfPages(readings);
    AFinishedWalkIsTheWholeInOrder(EntryOrder(axis), rows, PagesOf(readings), limit);
  }

  lemma PagesInTurnEnd(readings: seq<Reading>, axis: StatementAxis, limit: nat, rows: seq<Row>, before: nat)
    requires PagesInTurn(readings, axis, limit, rows) && limit > 0 && AreKeyedEntries(rows, axis)
    requires |readings| == before + 1
    ensures before * limit <= |rows|
  {
    TheReadingsAreAWalk(readings, axis, limit, rows);
    AWalkOfAFixedSetTerminates(EntryOrder(axis), rows, PagesOf(readings), limit, before);
  }

  /** And it ends: it cannot go past one page more than the admitted entries fill. */
  lemma AStatementWalkTerminates(states: seq<Cluster>, steps: seq<Step>, readings: seq<Reading>, axis: StatementAxis, limit: nat, before: nat)
    requires IsARun(states, steps) && IsStatementWalk(states, readings) && |readings| == before + 1
    requires readings[0].state < |states| && Asks(readings[0], axis, limit) && limit > 0
    ensures before * limit <= |Admitted(states, readings[0])|
  {
    var rows := Admitted(states, readings[0]);
    AdmittedEntriesAreKeyed(states, steps, readings[0], axis);
    AWalkIsPagesInTurn(states, steps, readings, axis, limit, rows);
    PagesInTurnEnd(readings, axis, limit, rows, before);
  }

  /** The question asked again at its own cursor, from its next key on. */
  function FollowUp(first: Reading): StatementQuery
    requires first.answer.nextAfter.Some?
  {
    first.query.(cursor := Some(Decimal(first.answer.pinnedCursor)), after := Some(first.answer.nextAfter.value.Rendered()))
  }

  /** A full page holds an entry its cursor admits, and its key is read back. */
  lemma AFullPageHoldsAnEntry(states: seq<Cluster>, steps: seq<Step>, first: Reading) returns (row: Row)
    requires IsARun(states, steps) && IsAnswered(states, first) && first.answer.nextAfter.Some?
    ensures row in Admitted(states, first)
    ensures PageKey(Some(first.answer.nextAfter.value.Rendered()), first.answer.axis) == Ok(first.answer.nextAfter)
  {
    var axis, limit := AnAnswerAsks(states, first);
    var rows, after := Admitted(states, first), AfterRank(PageKey(first.query.after, axis).value);
    AnAnswersPage(states, first, axis, limit);
    AdmittedEntriesAreKeyed(states, steps, first, axis);
    TheKeyComesBack(axis, rows, after, limit, first.answer.entries, first.answer.nextAfter.value);
    row := LastOfAFullPage(first.answer.entries, limit).value;
    WhatAPageHolds(EntryOrder(axis), rows, after, limit, row);
  }

  /** Its own cursor stays pinned, however the run goes on. */
  lemma TheCursorOfAFullPageLasts(states: seq<Cluster>, steps: seq<Step>, first: Reading, k: nat)
    requires IsARun(states, steps) && IsAnswered(states, first) && first.state <= k < |states| && first.answer.nextAfter.Some?
    ensures Pinned(states[k], first.query.tenant, Some(Decimal(first.answer.pinnedCursor))) == Ok(first.answer.pinnedCursor)
  {
    var c, cursor := states[first.state], first.answer.pinnedCursor;
    var row := AFullPageHoldsAnEntry(states, steps, first);
    WhatAnEntryIs(first.query, Below(c, cursor), row);
    BelowIsCommittedAndBelow(c.rows, c, cursor, row);
    AnAnsweredCursorIsUnderTheHorizon(states, first);
    TheHorizonNeverFalls(states, steps, first.state, k);
    CommittedRowsStay(states, steps, first.state, k, row);
    TheFloorIsBelowEveryEntry(states[k].rows, states[k], first.query.tenant, row);
    ACursorReadsBack(cursor);
  }

  lemma TheAccountStays(states: seq<Cluster>, steps: seq<Step>, first: Reading, k: nat)
    requires IsARun(states, steps) && IsAnswered(states, first) && first.state <= k < |states|
    ensures AccountExists(states[k], first.query.tenant, first.query.account)
  {
    var c := states[first.state];
    var r :| r in c.rows && r.AccountRow? && r.tenant == first.query.tenant && r.id == first.query.account && IsCommitted(c, r);
    CommittedRowsStay(states, steps, first.state, k, r);
  }

  /** A question nothing is refused for is answered. */
  lemma AQuestionIsAnswered(c: Cluster, q: StatementQuery, axis: StatementAxis, cursor: Cursor)
    requires AxisNamed(q.axis) == Ok(axis) && PageSize(q.limit).Ok? && PageKey(q.after, axis).Ok?
    requires axis.Recorded? ==> q.effectiveFrom.None? && q.effectiveTo.None?
    requires Pinned(c, q.tenant, q.cursor) == Ok(cursor) && AccountExists(c, q.tenant, q.account)
    ensures var answer := AccountStatement(c, q);
            answer.Ok? && answer.value.pinnedCursor == cursor && answer.value.axis == axis
  {
  }

  lemma WhatAnAnswerAsked(c: Cluster, q: StatementQuery, answer: Statement)
    requires AccountStatement(c, q) == Ok(answer)
    ensures AxisNamed(q.axis) == Ok(answer.axis) && PageSize(q.limit).Ok?
    ensures answer.axis.Recorded? ==> q.effectiveFrom.None? && q.effectiveTo.None?
  {
  }

  /** A page that hands back a key can be followed: at any later state of the run, the same
      question sent back with that key and the pinned cursor is answered, at that cursor. */
  lemma AFullPageCanBeFollowed(states: seq<Cluster>, steps: seq<Step>, first: Reading, k: nat) returns (next: Reading)
    requires IsARun(states, steps) && IsAnswered(states, first) && first.state <= k < |states| && first.answer.nextAfter.Some?
    ensures next == Reading(k, FollowUp(first), next.answer) && IsAnswered(states, next) && Follows(first, next)
    ensures next.answer.pinnedCursor == first.answer.pinnedCursor && next.answer.axis == first.answer.axis
  {
    var row := AFullPageHoldsAnEntry(states, steps, first);
    TheCursorOfAFullPageLasts(states, steps, first, k);
    TheAccountStays(states, steps, first, k);
    WhatAnAnswerAsked(states[first.state], first.query, first.answer);
    AQuestionIsAnswered(states[k], FollowUp(first), first.answer.axis, first.answer.pinnedCursor);
    next := Reading(k, FollowUp(first), AccountStatement(states[k], FollowUp(first)).value);
  }

  // ---- the account register --------------------------------------------

  datatype ListingQuery = ListingQuery(tenant: Text, limit: Option<Int64>, after: Option<Uuid>, purpose: Option<Text>, ownerId: Option<Text>)

  datatype Listing = Listing(nextAfter: Option<Uuid>, accounts: seq<Row>)

  predicate IsListed(q: ListingQuery, row: Row)
  {
    && row.AccountRow? && row.tenant == q.tenant
    && (q.purpose.Some? ==> row.purpose == q.purpose.value)
    && (q.ownerId.Some? ==> row.ownerId == q.ownerId)
  }

  function AccountsFor(q: ListingQuery, rows: seq<Row>): seq<Row>
  {
    if rows == [] then []
    else if IsListed(q, rows[0]) then [rows[0]] + AccountsFor(q, rows[1..])
    else AccountsFor(q, rows[1..])
  }

  function AccountOrder(): Row -> Key
  {
    (row: Row) => [row.id]
  }

  /** Pinned by nothing: every row's transaction is below the next one to be issued. */
  function Register(c: Cluster, q: ListingQuery): seq<Row>
  {
    AccountsFor(q, Below(c, c.next))
  }

  function ListAccounts(c: Cluster, q: ListingQuery): Result<Listing, ReadError>
  {
    var limit := PageSize(q.limit);
    if limit.Err? then Err(limit.error) else
    var page := Page(AccountOrder(), Register(c, q), if q.after.None? then None else Some([q.after.value]), limit.value);
    var last := LastOfAFullPage(page, limit.value);
    Ok(Listing(if last.None? then None else Some(last.value.id), page))
  }

  datatype Leafing = Leafing(state: nat, query: ListingQuery, answer: Listing)

  ghost predicate IsRegisterWalk(states: seq<Cluster>, leaves: seq<Leafing>)
  {
    leaves != [] ==>
      var n := |leaves| - 1;
      && IsRegisterWalk(states, leaves[..n])
      && leaves[n].state < |states| && ListAccounts(states[leaves[n].state], leaves[n].query) == Ok(leaves[n].answer)
      && (if n == 0 then leaves[n].query.after.None? else
            && leaves[n - 1].state <= leaves[n].state
            && leaves[n].query.(after := None) == leaves[0].query
            && leaves[n - 1].answer.nextAfter.Some? && leaves[n].query.after == leaves[n - 1].answer.nextAfter)
  }

  function LeavesOf(leaves: seq<Leafing>): (pages: seq<seq<Row>>)
    ensures |pages| == |leaves|
  {
    if leaves == [] then [] else LeavesOf(leaves[..|leaves| - 1]) + [leaves[|leaves| - 1].answer.accounts]
  }

  ghost function RegistersOf(states: seq<Cluster>, leaves: seq<Leafing>): (tables: seq<seq<Row>>)
    requires IsRegisterWalk(states, leaves)
    ensures |tables| == |leaves|
  {
    if leaves == [] then [] else
    var n := |leaves| - 1;
    RegistersOf(states, leaves[..n]) + [Register(states[leaves[n].state], leaves[n].query)]
  }

  lemma {:induction false} WhatIsListed(q: ListingQuery, rows: seq<Row>, x: Row)
    ensures x in AccountsFor(q, rows) <==> x in rows && IsListed(q, x)
  {
    if rows != [] {
      WhatIsListed(q, rows[1..], x);
      assert rows == [rows[0]] + rows[1..];
    }
  }

  lemma {:induction false} AccountsHaveDistinctKeys(q: ListingQuery, rows: seq<Row>)
    requires KeysApart(rows)
    ensures DistinctKeys(AccountOrder(), AccountsFor(q, rows))
  {
    if rows != [] {
      var rest := AccountsFor(q, rows[1..]);
      AccountsHaveDistinctKeys(q, rows[1..]);
      if IsListed(q, rows[0]) {
        forall k | 0 <= k < |rest| ensures AccountOrder()(rest[k]) != AccountOrder()(rows[0]) {
          WhatIsListed(q, rows[1..], rest[k]);
          var i :| 0 <= i < |rows[1..]| && rows[1..][i] == rest[k];
          assert !SamePrimaryKey(rows[0], rows[i + 1]);
          assert [rest[k].id][0] != [rows[0].id][0];
        }
      }
    }
  }

  lemma TheRegisterIsKeyed(states: seq<Cluster>, steps: seq<Step>, k: nat, q: ListingQuery)
    requires IsARun(states, steps) && k < |states|
    ensures DistinctKeys(AccountOrder(), Register(states[k], q))
  {
    var c := states[k];
    EveryReachableClusterIsSound(states, steps, k);
    RowsBelowKeepKeysApart(c.rows, c, c.next);
    AccountsHaveDistinctKeys(q, Below(c, c.next));
  }

  /** The register only grows. */
  lemma TheRegisterGrows(states: seq<Cluster>, steps: seq<Step>, j: nat, k: nat, before: ListingQuery, after: ListingQuery)
    requires IsARun(states, steps) && j <= k < |states|
    requires before.tenant == after.tenant && before.purpose == after.purpose && before.ownerId == after.ownerId
    ensures Grew(Register(states[j], before), Register(states[k], after))
  {
    var c, d := states[j], states[k];
    EveryReachableClusterIsSound(states, steps, k);
    forall x | x in Register(c, before) ensures x in Register(d, after) {
      WhatIsListed(before, Below(c, c.next), x);
      BelowIsCommittedAndBelow(c.rows, c, c.next, x);
      CommittedRowsStay(states, steps, j, k, x);
      BelowIsCommittedAndBelow(d.rows, d, d.next, x);
      WhatIsListed(after, Below(d, d.next), x);
    }
  }

  lemma {:induction false} TheLeavesAreAWalk(states: seq<Cluster>, steps: seq<Step>, leaves: seq<Leafing>)
    requires IsARun(states, steps) && IsRegisterWalk(states, leaves) && leaves != []
    ensures PageSize(leaves[0].query.limit).Ok?
    ensures IsWalk(AccountOrder(), RegistersOf(states, leaves), LeavesOf(leaves), PageSize(leaves[0].query.limit).value)
    decreases |leaves|
  {
    var n := |leaves| - 1;
    var before := leaves[..n];
    TheRegisterIsKeyed(states, steps, leaves[n].state, leaves[n].query);
    LeavesAskOneQuestion(states, leaves);
    if n > 0 {
      TheLeavesAreAWalk(states, steps, before);
      LeavesAskOneQuestion(states, before);
      TheRegisterGrows(states, steps, leaves[n - 1].state, leaves[n].state, leaves[n - 1].query, leaves[n].query);
    }
    OnePageMore(AccountOrder(), RegistersOf(states, before), LeavesOf(before), PageSize(leaves[0].query.limit).value,
                Register(states[leaves[n].state], leaves[n].query), leaves[n].answer.accounts);
  }

  lemma LeavesAskOneQuestion(states: seq<Cluster>, leaves: seq<Leafing>)
    requires IsRegisterWalk(states, leaves) && leaves != []
    ensures var a, b := leaves[0].query, leaves[|leaves| - 1].query;
            a.tenant == b.tenant && a.purpose == b.purpose && a.ownerId == b.ownerId && a.limit == b.limit
    ensures PageSize(leaves[|leaves| - 1].query.limit).Ok?
  {
    assert leaves[..1][0] == leaves[0];
  }

  /** Walking the register while it grows gives every account present at the start
      exactly once, and none twice. */
  lemma ARegisterWalkMissesNothing(states: seq<Cluster>, steps: seq<Step>, leaves: seq<Leafing>, x: Row)
    requires IsARun(states, steps) && IsRegisterWalk(states, leaves) && leaves != []
    requires leaves[|leaves| - 1].answer.nextAfter.None?
    requires leaves[0].state < |states|
    ensures x in Register(states[leaves[0].state], leaves[0].query) || x in Flatten(LeavesOf(leaves))
            ==> AppearsOnce(Flatten(LeavesOf(leaves)), x)
  {
    var limit := PageSize(leaves[0].query.limit).value;
    LeavesAskOneQuestion(states, leaves);
    TheLeavesAreAWalk(states, steps, leaves);
    TheFirstRegister(states, leaves);
    AFinishedWalkMissesNothing(AccountOrder(), RegistersOf(states, leaves), LeavesOf(leaves), limit, x);
  }

  lemma {:induction false} TheFirstRegister(states: seq<Cluster>, leaves: seq<Leafing>)
    requires IsRegisterWalk(states, leaves) && leaves != []
    ensures leaves[0].state < |states|
    ensures RegistersOf(states, leaves)[0] == Register(states[leaves[0].state], leaves[0].query)
    decreases |leaves|
  {
    if |leaves| > 1 {
      TheFirstRegister(states, leaves[..|leaves| - 1]);
    }
  }
}
