/** Pinned reads. Brackets begin, insert, commit and abort in any order; a read is
    pinned at a cursor no higher than the horizon, and what lies below it is settled. */
module PinnedReads {
  import opened Wrappers
  import opened Bytes
  import opened Domain
  import opened Reports
  import opened Postings
  import Spaces

  /** A row as a reader meets it, under the transaction id it was written by. */
  datatype Row =
    | EntryRow(tenant: Text, xactId: Cursor, id: Uuid, transaction: nat, posted: bool, effectiveAt: Instant, leg: Leg)
    | AccountRow(tenant: Text, xactId: Cursor, id: Uuid, purpose: Text, ownerId: Option<Text>)

  /** Every row ever inserted; a running or aborted transaction's are invisible. */
  datatype Cluster = Cluster(next: Cursor, running: set<Cursor>, aborted: set<Cursor>, rows: seq<Row>)

  /** Counting starts at 3. */
  const STARTED := Cluster(3, {}, {}, [])

  // ---- steps -----------------------------------------------------------

  datatype Step =
    | Begin
    | Insert(row: Row)
    | Commit(xactId: Cursor)
    | Abort(xactId: Cursor)

  /** A primary key names one row of one table. */
  predicate SamePrimaryKey(a: Row, b: Row)
  {
    a.EntryRow? == b.EntryRow? && a.tenant == b.tenant && a.id == b.id
  }

  predicate IsNew(rows: seq<Row>, row: Row)
  {
    forall r :: r in rows ==> !SamePrimaryKey(r, row)
  }

  predicate IsStorable(row: Row)
  {
    row.EntryRow? ==> FIRST_REPRESENTABLE <= row.effectiveAt < YEAR_10000 && 0 < row.leg.amountMinor < I64_LIMIT
  }

  predicate Enabled(c: Cluster, step: Step)
  {
    match step
    case Begin => c.next + 1 < U64_LIMIT
    case Insert(row) => row.xactId in c.running && IsNew(c.rows, row) && IsStorable(row)
    case Commit(xactId) => xactId in c.running
    case Abort(xactId) => xactId in c.running
  }

  function Next(c: Cluster, step: Step): Cluster
    requires Enabled(c, step)
  {
    match step
    case Begin => c.(next := c.next + 1, running := c.running + {c.next})
    case Insert(row) => c.(rows := c.rows + [row])
    case Commit(xactId) => c.(running := c.running - {xactId})
    case Abort(xactId) => c.(running := c.running - {xactId}, aborted := c.aborted + {xactId})
  }

  ghost predicate IsARun(states: seq<Cluster>, steps: seq<Step>)
  {
    && |states| == |steps| + 1 && states[0] == STARTED
    && forall k :: 0 <= k < |steps| ==> Enabled(states[k], steps[k]) && states[k + 1] == Next(states[k], steps[k])
  }

  // ---- the horizon -----------------------------------------------------

  /** `h` is the least transaction id still running, or the next one to be issued. */
  ghost predicate IsHorizon(next: Cursor, running: set<Cursor>, h: Cursor)
  {
    (h in running || h == next) && h <= next && forall x :: x in running ==> h <= x
  }

  lemma {:induction false} ThereIsAHorizon(next: Cursor, running: set<Cursor>)
    ensures exists h: Cursor :: IsHorizon(next, running, h)
    decreases running
  {
    if x :| x in running {
      ThereIsAHorizon(next, running - {x});
      var h: Cursor :| IsHorizon(next, running - {x}, h);
      forall y | y in running ensures (if x < h then x else h) <= y {
        assert y == x || y in running - {x};
      }
      assert IsHorizon(next, running, if x < h then x else h);
    } else {
      assert IsHorizon(next, running, next);
    }
  }

  /** `report_cursor()`. */
  ghost function Horizon(c: Cluster): (h: Cursor)
    ensures IsHorizon(c.next, c.running, h)
  {
    ThereIsAHorizon(c.next, c.running);
    var h: Cursor :| IsHorizon(c.next, c.running, h);
    h
  }

  ghost predicate Sound(c: Cluster)
  {
    && (forall x :: x in c.running ==> x < c.next && x !in c.aborted)
    && (forall x :: x in c.aborted ==> x < c.next)
    && (forall r :: r in c.rows ==> r.xactId < c.next && IsStorable(r))
    && KeysApart(c.rows)
  }

  ghost predicate KeysApart(rows: seq<Row>)
  {
    forall i, j :: 0 <= i < j < |rows| ==> !SamePrimaryKey(rows[i], rows[j])
  }

  lemma EveryStepIsSound(c: Cluster, step: Step)
    requires Sound(c) && Enabled(c, step)
    ensures Sound(Next(c, step))
  {
  }

  lemma {:induction false} EveryReachableClusterIsSound(states: seq<Cluster>, steps: seq<Step>, k: nat)
    requires IsARun(states, steps) && k < |states|
    ensures Sound(states[k])
    decreases k
  {
    if k > 0 {
      EveryReachableClusterIsSound(states, steps, k - 1);
      EveryStepIsSound(states[k - 1], steps[k - 1]);
    }
  }

  lemma AStepRaisesTheHorizon(c: Cluster, step: Step)
    requires Sound(c) && Enabled(c, step)
    ensures Horizon(c) <= Horizon(Next(c, step))
  {
  }

  /** The horizon never decreases. */
  lemma {:induction false} TheHorizonNeverFalls(states: seq<Cluster>, steps: seq<Step>, j: nat, k: nat)
    requires IsARun(states, steps) && j <= k < |states|
    ensures Horizon(states[j]) <= Horizon(states[k])
    decreases k
  {
    if j < k {
      TheHorizonNeverFalls(states, steps, j, k - 1);
      EveryReachableClusterIsSound(states, steps, k - 1);
      AStepRaisesTheHorizon(states[k - 1], steps[k - 1]);
    }
  }

  // ---- what a read admits ----------------------------------------------

  predicate IsCommitted(c: Cluster, row: Row)
  {
    row.xactId !in c.running && row.xactId !in c.aborted
  }

  /** What every report filters by. */
  function RowsBelow(rows: seq<Row>, c: Cluster, cursor: Cursor): (below: seq<Row>)
  {
    if rows == [] then [] else
    var last := rows[|rows| - 1];
    var before := RowsBelow(rows[..|rows| - 1], c, cursor);
    if IsCommitted(c, last) && last.xactId < cursor then before + [last] else before
  }

  /** The committed rows strictly below a cursor. */
  function Below(c: Cluster, cursor: Cursor): seq<Row>
  {
    RowsBelow(c.rows, c, cursor)
  }

  lemma {:induction false} BelowIsCommittedAndBelow(rows: seq<Row>, c: Cluster, cursor: Cursor, row: Row)
    ensures row in RowsBelow(rows, c, cursor) <==> row in rows && IsCommitted(c, row) && row.xactId < cursor
  {
    if rows != [] {
      BelowIsCommittedAndBelow(rows[..|rows| - 1], c, cursor, row);
      assert rows == rows[..|rows| - 1] + [rows[|rows| - 1]];
    }
  }

  /** Two clusters that agree on the fate of every transaction below a cursor. */
  ghost predicate SameFates(c: Cluster, d: Cluster, cursor: Cursor)
  {
    forall x: Cursor :: x < cursor ==> (x in c.running <==> x in d.running) && (x in c.aborted <==> x in d.aborted)
  }

  lemma {:induction false} SameFatesSameRows(rows: seq<Row>, c: Cluster, d: Cluster, cursor: Cursor)
    requires SameFates(c, d, cursor)
    ensures RowsBelow(rows, c, cursor) == RowsBelow(rows, d, cursor)
  {
    if rows != [] {
      SameFatesSameRows(rows[..|rows| - 1], c, d, cursor);
    }
  }

  lemma AStepLeavesWhatIsBelow(c: Cluster, step: Step, cursor: Cursor)
    requires Sound(c) && Enabled(c, step) && cursor <= Horizon(c)
    ensures Below(Next(c, step), cursor) == Below(c, cursor)
  {
    var d := Next(c, step);
    SameFatesSameRows(c.rows, c, d, cursor);
    if step.Insert? {
      assert d.rows[..|d.rows| - 1] == c.rows && d.rows[|d.rows| - 1] == step.row;
    }
  }

  /** The committed rows strictly below any value at or under the horizon never
      change again. */
  lemma {:induction false} WhatIsBelowTheHorizonIsSettled(states: seq<Cluster>, steps: seq<Step>, j: nat, k: nat, cursor: Cursor)
    requires IsARun(states, steps) && j <= k < |states| && cursor <= Horizon(states[j])
    ensures Below(states[k], cursor) == Below(states[j], cursor)
    decreases k
  {
    if j < k {
      WhatIsBelowTheHorizonIsSettled(states, steps, j, k - 1, cursor);
      EveryReachableClusterIsSound(states, steps, k - 1);
      TheHorizonNeverFalls(states, steps, j, k - 1);
      AStepLeavesWhatIsBelow(states[k - 1], steps[k - 1], cursor);
    }
  }

  // ---- the floor -------------------------------------------------------

  predicate IsEntryOf(c: Cluster, tenant: Text, row: Row)
  {
    row.EntryRow? && row.tenant == tenant && IsCommitted(c, row)
  }

  /** The oldest entry's transaction, or nothing on a book with no entries. */
  function FloorOf(rows: seq<Row>, c: Cluster, tenant: Text): Option<Cursor>
  {
    if rows == [] then None else
    var last := rows[|rows| - 1];
    var before := FloorOf(rows[..|rows| - 1], c, tenant);
    if IsEntryOf(c, tenant, last) && (before.None? || last.xactId < before.value) then Some(last.xactId) else before
  }

  function Floor(c: Cluster, tenant: Text): Option<Cursor>
  {
    FloorOf(c.rows, c, tenant)
  }

  lemma {:induction false} TheFloorIsBelowEveryEntry(rows: seq<Row>, c: Cluster, tenant: Text, row: Row)
    requires row in rows && IsEntryOf(c, tenant, row)
    ensures FloorOf(rows, c, tenant).Some? && FloorOf(rows, c, tenant).value <= row.xactId
  {
    if row in rows[..|rows| - 1] {
      TheFloorIsBelowEveryEntry(rows[..|rows| - 1], c, tenant, row);
    } else {
      assert row == rows[|rows| - 1];
    }
  }

  lemma {:induction false} TheFloorIsAnEntrys(rows: seq<Row>, c: Cluster, tenant: Text) returns (row: Row)
    requires FloorOf(rows, c, tenant).Some?
    ensures row in rows && IsEntryOf(c, tenant, row) && row.xactId == FloorOf(rows, c, tenant).value
  {
    var last := rows[|rows| - 1];
    var before := FloorOf(rows[..|rows| - 1], c, tenant);
    if IsEntryOf(c, tenant, last) && (before.None? || last.xactId < before.value) {
      row := last;
    } else {
      row := TheFloorIsAnEntrys(rows[..|rows| - 1], c, tenant);
    }
  }

  lemma WhatIsCommittedStays(c: Cluster, step: Step, row: Row)
    requires Sound(c) && Enabled(c, step) && row in c.rows && IsCommitted(c, row)
    ensures row in Next(c, step).rows && IsCommitted(Next(c, step), row)
  {
  }

  lemma {:induction false} CommittedRowsStay(states: seq<Cluster>, steps: seq<Step>, j: nat, k: nat, row: Row)
    requires IsARun(states, steps) && j <= k < |states| && row in states[j].rows && IsCommitted(states[j], row)
    ensures row in states[k].rows && IsCommitted(states[k], row)
    decreases k
  {
    if j < k {
      CommittedRowsStay(states, steps, j, k - 1, row);
      EveryReachableClusterIsSound(states, steps, k - 1);
      WhatIsCommittedStays(states[k - 1], steps[k - 1], row);
    }
  }

  /** The floor may sink, and never rises. */
  lemma TheFloorNeverRises(states: seq<Cluster>, steps: seq<Step>, j: nat, k: nat, tenant: Text)
    requires IsARun(states, steps) && j <= k < |states| && Floor(states[j], tenant).Some?
    ensures Floor(states[k], tenant).Some? && Floor(states[k], tenant).value <= Floor(states[j], tenant).value
  {
    var row := TheFloorIsAnEntrys(states[j].rows, states[j], tenant);
    CommittedRowsStay(states, steps, j, k, row);
    TheFloorIsBelowEveryEntry(states[k].rows, states[k], tenant, row);
  }

  /** An entry that lands on a book with none lands at or above every earlier horizon. */
  lemma AFirstEntryIsAboveTheHorizon(states: seq<Cluster>, steps: seq<Step>, j: nat, k: nat, tenant: Text)
    requires IsARun(states, steps) && j <= k < |states|
    requires Floor(states[j], tenant).None? && Floor(states[k], tenant).Some?
    ensures Floor(states[k], tenant).value >= Horizon(states[j])
  {
    var c, d, h := states[j], states[k], Horizon(states[j]);
    var row := TheFloorIsAnEntrys(d.rows, d, tenant);
    if row.xactId < h {
      WhatIsBelowTheHorizonIsSettled(states, steps, j, k, h);
      BelowIsCommittedAndBelow(d.rows, d, h, row);
      BelowIsCommittedAndBelow(c.rows, c, h, row);
      TheFloorIsBelowEveryEntry(c.rows, c, tenant, row);
    }
  }

  // ---- the cursor rule -------------------------------------------------

  datatype ReadBounds = ReadBounds(horizon: Cursor, oldestEntry: Option<Cursor>)

  datatype ReadError = InvalidRequest | CursorInvalid | AccountUnknown

  /** An absent cursor is the horizon; a supplied one sits at or below the horizon
      and strictly above the floor, where there is one. */
  function PinTheCursor(supplied: Option<Text>, bounds: ReadBounds): Result<Cursor, ReadError>
  {
    match supplied
    case None => Ok(bounds.horizon)
    case Some(text) =>
      var cursor := ParseCursor(text);
      if cursor.None? then Err(InvalidRequest)
      else if cursor.value > bounds.horizon then Err(CursorInvalid)
      else if bounds.oldestEntry.Some? && cursor.value <= bounds.oldestEntry.value then Err(CursorInvalid)
      else Ok(cursor.value)
  }

  ghost function BoundsOf(c: Cluster, tenant: Text): ReadBounds
  {
    ReadBounds(Horizon(c), Floor(c, tenant))
  }

  ghost function Pinned(c: Cluster, tenant: Text, supplied: Option<Text>): Result<Cursor, ReadError>
  {
    PinTheCursor(supplied, BoundsOf(c, tenant))
  }

  /** A supplied cursor that was accepted stays accepted in a later state exactly
      when the book had a floor then, or still has none. */
  lemma AcceptanceLastsExactlyWithAFloor(states: seq<Cluster>, steps: seq<Step>, j: nat, k: nat, tenant: Text, text: Text)
    requires IsARun(states, steps) && j <= k < |states| && Pinned(states[j], tenant, Some(text)).Ok?
    ensures Pinned(states[k], tenant, Some(text)) == Pinned(states[j], tenant, Some(text))
            <==> Floor(states[j], tenant).Some? || Floor(states[k], tenant).None?
  {
    TheHorizonNeverFalls(states, steps, j, k);
    if Floor(states[j], tenant).Some? {
      TheFloorNeverRises(states, steps, j, k, tenant);
    } else if Floor(states[k], tenant).Some? {
      AFirstEntryIsAboveTheHorizon(states, steps, j, k, tenant);
    }
  }

  /** And on a book with a floor it admits at least one entry. */
  lemma AnAcceptedCursorAdmitsAnEntry(c: Cluster, tenant: Text, text: Text) returns (row: Row)
    requires Floor(c, tenant).Some? && Pinned(c, tenant, Some(text)).Ok?
    ensures row in Below(c, Pinned(c, tenant, Some(text)).value) && IsEntryOf(c, tenant, row)
  {
    row := TheFloorIsAnEntrys(c.rows, c, tenant);
    BelowIsCommittedAndBelow(c.rows, c, Pinned(c, tenant, Some(text)).value, row);
  }

  /** What an absent cursor was answered at is accepted when sent back, except on a
      book whose every entry sits at or above the horizon. */
  lemma ThePinnedCursorComesBack(c: Cluster, tenant: Text)
    ensures Pinned(c, tenant, None) == Ok(Horizon(c))
    ensures Pinned(c, tenant, Some(Decimal(Horizon(c)))).Ok?
            <==> Floor(c, tenant).None? || Floor(c, tenant).value < Horizon(c)
    ensures Pinned(c, tenant, Some(Decimal(Horizon(c)))).Ok? ==> Pinned(c, tenant, Some(Decimal(Horizon(c)))) == Ok(Horizon(c))
  {
    ACursorReadsBack(Horizon(c));
  }

  /** A negative number is refused as a cursor rather than read as a text, wherever
      the value it wraps to is above the horizon or at or below the floor. */
  lemma ANegativeCursorIsRefused(bounds: ReadBounds, digits: Text)
    requires IsNumeral(digits) && 0 < DigitsValue(digits) <= I64_LIMIT
    ensures PinTheCursor(Some([MINUS] + digits), bounds) == Err(CursorInvalid)
            <==> U64_LIMIT - DigitsValue(digits) > bounds.horizon
                 || (bounds.oldestEntry.Some? && U64_LIMIT - DigitsValue(digits) <= bounds.oldestEntry.value)
  {
    Spaces.NoSpaces();
    ANegativeCursorWraps([], digits, []);
    assert [] + ([MINUS] + digits) + [] == [MINUS] + digits;
  }

  /** So it is not always refused: `-1` wraps to the greatest cursor there is, and is
      accepted where the horizon has reached it and no floor has. */
  lemma ANegativeCursorMayBeAccepted(bounds: ReadBounds)
    requires bounds == ReadBounds(U64_LIMIT - 1, None)
    ensures PinTheCursor(Some([MINUS] + Decimal(1)), bounds) == Ok(U64_LIMIT - 1)
  {
    DecimalReadsBack(1);
    Spaces.NoSpaces();
    ANegativeCursorWraps([], Decimal(1), []);
    assert [] + ([MINUS] + Decimal(1)) + [] == [MINUS] + Decimal(1);
  }

  /** One run in which it is refused: an older transaction holds the horizon at 3
      while the book's one entry is committed at 4. */
  lemma ThePinnedCursorMayBeRefused(tenant: Text, row: Row, states: seq<Cluster>, steps: seq<Step>)
    requires row.EntryRow? && row.tenant == tenant && row.xactId == 4 && IsStorable(row)
    requires states == [STARTED, Cluster(4, {3}, {}, []), Cluster(5, {3, 4}, {}, []), Cluster(5, {3, 4}, {}, [row]), Cluster(5, {3}, {}, [row])]
    requires steps == [Begin, Begin, Insert(row), Commit(4)]
    ensures IsARun(states, steps)
    ensures Pinned(states[4], tenant, None) == Ok(3)
    ensures Pinned(states[4], tenant, Some(Decimal(3))) == Err(CursorInvalid)
  {
    assert {3} + {4} == {3, 4} && states[3].running - {4} == {3};
    assert IsHorizon(5, {3}, Horizon(states[4]));
    TheFloorIsBelowEveryEntry(states[4].rows, states[4], tenant, row);
    var oldest := TheFloorIsAnEntrys(states[4].rows, states[4], tenant);
    ThePinnedCursorComesBack(states[4], tenant);
    ACursorReadsBack(3);
  }

  // ---- acceptance on an empty book does not last ------------------------

  lemma TheBookGainsItsFirstEntry(tenant: Text, row: Row, states: seq<Cluster>, steps: seq<Step>)
    requires row.EntryRow? && row.tenant == tenant && row.xactId == 3 && IsStorable(row)
    requires states == [STARTED, Cluster(4, {3}, {}, []), Cluster(4, {3}, {}, [row]), Cluster(4, {}, {}, [row])]
    requires steps == [Begin, Insert(row), Commit(3)]
    ensures IsARun(states, steps)
    ensures BoundsOf(states[0], tenant) == ReadBounds(3, None) && BoundsOf(states[3], tenant) == ReadBounds(4, Some(3))
  {
    assert states[1].running - {3} == {};
    assert IsHorizon(3, {}, Horizon(STARTED)) && IsHorizon(4, {}, Horizon(states[3]));
    TheFloorIsBelowEveryEntry(states[3].rows, states[3], tenant, row);
    var oldest := TheFloorIsAnEntrys(states[3].rows, states[3], tenant);
  }

  /** One run: a book with no entries, a cursor accepted at its horizon, then a
      first entry at that very transaction id; the same cursor is then refused. */
  lemma AcceptanceOnAnEmptyBookIsLost(tenant: Text, row: Row, states: seq<Cluster>, steps: seq<Step>)
    requires row.EntryRow? && row.tenant == tenant && row.xactId == 3 && IsStorable(row)
    requires states == [STARTED, Cluster(4, {3}, {}, []), Cluster(4, {3}, {}, [row]), Cluster(4, {}, {}, [row])]
    requires steps == [Begin, Insert(row), Commit(3)]
    ensures IsARun(states, steps)
    ensures Pinned(states[0], tenant, Some(Decimal(3))) == Ok(3)
    ensures Pinned(states[3], tenant, Some(Decimal(3))) == Err(CursorInvalid)
  {
    ACursorReadsBack(3);
    TheBookGainsItsFirstEntry(tenant, row, states, steps);
  }
}
