/** A close's two statements at two states: the sweep sees one set of commits, the
    checkpoint after it may see more. When the temporary accounts are still stored at zero. */
module SplitClose {
  import opened Wrappers
  import opened Postings
  import opened Reports
  import opened PinnedReads
  import opened LateWriters
  import opened BookInvariants
  import Book
  import C = Closing
  import E = CloseExactness

  // ---- the sweep, where it is read -------------------------------------

  /** A close, its plan, and the register it classifies accounts by. */
  datatype Sweep = Sweep(close: CloseRun, plan: C.ClosePlan, accounts: map<nat, Book.Account>)
  {
    predicate IsOfOneClose() { plan.endsAt == close.endsAt && plan.closesAt < plan.endsAt }

    /** The book the closing statement sees: what is committed, below its own id. */
    function SeenAt(c: Cluster): Book.Book
    {
      Book.EMPTY_BOOK.(txns := Journal(c, close.tenant), accounts := accounts, nextXact := close.xactId)
    }

    /** The legs it writes. */
    function LegsAt(c: Cluster): seq<Leg>
    {
      C.SweepLegs(C.SweptPositions(SeenAt(c), close.currency, plan), close.currency, plan.retainedEarnings)
    }

    function Seen(): Bound { Book.Admitted(close.endsAt, close.xactId) }
  }

  type Bound = Book.Bound

  /** The close's own legs among some rows, in order. */
  function CloseLegs(rows: seq<Row>, close: CloseRun): seq<Leg>
  {
    if rows == [] then [] else
    var last := rows[|rows| - 1];
    CloseLegs(rows[..|rows| - 1], close) + if IsOfTheClose(last, close) then [last.leg] else []
  }

  predicate IsASweptRow(r: Row, sweep: Sweep)
  {
    IsOfTheClose(r, sweep.close) && r.xactId == sweep.close.xactId && r.posted && r.effectiveAt == sweep.plan.closesAt
  }

  /** The sweep was read at `c`; at `e` its legs are written, and the checkpoint is read. */
  ghost predicate HasSwept(c: Cluster, e: Cluster, sweep: Sweep)
  {
    && sweep.close.xactId in e.running
    && (forall r :: r in c.rows ==> !IsOfTheClose(r, sweep.close))
    && (forall r :: r in e.rows && IsOfTheClose(r, sweep.close) ==> IsASweptRow(r, sweep))
    && CloseLegs(e.rows, sweep.close) == sweep.LegsAt(c)
  }

  // ---- what settles between the two ------------------------------------

  /** Counted by the checkpoint, no part of the close, and not seen by the sweep. */
  predicate IsBetween(c: Cluster, e: Cluster, sweep: Sweep, r: Row)
  {
    && Counts(e, Some(sweep.close.xactId), sweep.close.tenant, sweep.close.Bound(), r)
    && !IsOfTheClose(r, sweep.close) && !Counts(c, None, sweep.close.tenant, sweep.Seen(), r)
  }

  function BetweenLegs(rows: seq<Row>, c: Cluster, e: Cluster, sweep: Sweep): seq<Leg>
  {
    if rows == [] then [] else
    var last := rows[|rows| - 1];
    BetweenLegs(rows[..|rows| - 1], c, e, sweep) + if IsBetween(c, e, sweep, last) then [last.leg] else []
  }

  /** What the sweep saw the checkpoint counts, and what the close wrote it counts. */
  ghost predicate IsKept(c: Cluster, e: Cluster, sweep: Sweep, r: Row)
  {
    && (Counts(c, None, sweep.close.tenant, sweep.Seen(), r) ==>
          Counts(e, Some(sweep.close.xactId), sweep.close.tenant, sweep.close.Bound(), r) && !IsOfTheClose(r, sweep.close))
    && (IsOfTheClose(r, sweep.close) ==> Counts(e, Some(sweep.close.xactId), sweep.close.tenant, sweep.close.Bound(), r))
  }

  lemma {:induction false} TheThreeParts(rows: seq<Row>, c: Cluster, e: Cluster, sweep: Sweep, row: Key, direction: Direction)
    requires forall i :: 0 <= i < |rows| ==> IsKept(c, e, sweep, rows[i])
    ensures Total(Counted(rows, e, Some(sweep.close.xactId), sweep.close.tenant, sweep.close.Bound()), row, direction)
         == Total(Counted(rows, c, None, sweep.close.tenant, sweep.Seen()), row, direction)
            + Total(CloseLegs(rows, sweep.close), row, direction) + Total(BetweenLegs(rows, c, e, sweep), row, direction)
    decreases |rows|
  {
    if rows != [] {
      var n := |rows| - 1;
      var last, tenant, own := rows[n], sweep.close.tenant, Some(sweep.close.xactId);
      var leg := if last.EntryRow? then last.leg else Leg(0, sweep.close.currency, Debit, 0);
      TheThreeParts(rows[..n], c, e, sweep, row, direction);
      assert IsKept(c, e, sweep, last);
      OneMoreLegOrNone(Counted(rows[..n], e, own, tenant, sweep.close.Bound()), leg, Counts(e, own, tenant, sweep.close.Bound(), last), row, direction);
      OneMoreLegOrNone(Counted(rows[..n], c, None, tenant, sweep.Seen()), leg, Counts(c, None, tenant, sweep.Seen(), last), row, direction);
      OneMoreLegOrNone(CloseLegs(rows[..n], sweep.close), leg, IsOfTheClose(last, sweep.close), row, direction);
      OneMoreLegOrNone(BetweenLegs(rows[..n], c, e, sweep), leg, IsBetween(c, e, sweep, last), row, direction);
    }
  }

  lemma EveryRowIsKept(c: Cluster, e: Cluster, sweep: Sweep)
    requires Sound(c) && IssuedIdsFollow(c, e) && HasSwept(c, e, sweep) && sweep.IsOfOneClose() && sweep.close.xactId in c.running
    ensures forall i :: 0 <= i < |e.rows| ==> IsKept(c, e, sweep, e.rows[i])
    ensures forall i :: |c.rows| <= i < |e.rows| ==> !Counts(c, None, sweep.close.tenant, sweep.Seen(), e.rows[i])
  {
    forall i | 0 <= i < |e.rows| ensures IsKept(c, e, sweep, e.rows[i])
                                 ensures i >= |c.rows| ==> !Counts(c, None, sweep.close.tenant, sweep.Seen(), e.rows[i]) {
      var r := e.rows[i];
      assert r in e.rows;
      if i < |c.rows| {
        assert c.rows[i] == r && r in c.rows;
      }
    }
  }

  /** The stored position of a temporary account is the net of what settled between. */
  lemma TheStoredPosition(c: Cluster, e: Cluster, sweep: Sweep, account: nat)
    requires Sound(c) && IssuedIdsFollow(c, e) && HasSwept(c, e, sweep) && sweep.IsOfOneClose() && sweep.close.xactId in c.running
    requires C.IsTemporary(sweep.accounts, account) && account != sweep.plan.retainedEarnings
    ensures var stored := C.CheckpointOn(sweep.close.TakenAt(e).checkpoint, account);
            stored.input - stored.output == C.Net(BetweenLegs(e.rows, c, e, sweep), Key(account, sweep.close.currency))
  {
    var close, row := sweep.close, Key(account, sweep.close.currency);
    var seen, swept, between := Counted(c.rows, c, None, close.tenant, sweep.Seen()), sweep.LegsAt(c), BetweenLegs(e.rows, c, e, sweep);
    EveryRowIsKept(c, e, sweep);
    TheThreeParts(e.rows, c, e, sweep, row, Debit);
    TheThreeParts(e.rows, c, e, sweep, row, Credit);
    CountingMoreRows(e.rows, |c.rows|, c, None, close.tenant, sweep.Seen());
    assert e.rows[..|c.rows|] == c.rows;
    TheViewsLegs(e.rows, e, Some(close.xactId), close.tenant, close.Bound());
    TheViewsLegs(c.rows, c, None, close.tenant, sweep.Seen());
    C.CheckpointHoldsTheTotals(View(e.rows, e, Some(close.xactId), close.tenant), close.currency, close.endsAt, close.xactId, close.transaction, account);
    E.TheSweepLeavesNothing(sweep.SeenAt(c), close.currency, sweep.plan, account);
    C.NetConcat(seen, swept, row);
  }

  /** At one state: zeroed if and only if what settled between nets to nothing on every
      temporary account. */
  lemma ZeroedWhereNothingNetSettled(c: Cluster, e: Cluster, sweep: Sweep)
    requires Sound(c) && IssuedIdsFollow(c, e) && HasSwept(c, e, sweep) && sweep.IsOfOneClose() && sweep.close.xactId in c.running
    ensures TemporariesAreZeroed(sweep.accounts, Some(sweep.plan.retainedEarnings), sweep.close.TakenAt(e))
            <==> forall account: nat :: C.IsTemporary(sweep.accounts, account) && account != sweep.plan.retainedEarnings
                   ==> C.Net(BetweenLegs(e.rows, c, e, sweep), Key(account, sweep.close.currency)) == 0
  {
    forall account: nat | C.IsTemporary(sweep.accounts, account) && account != sweep.plan.retainedEarnings
      ensures var stored := C.CheckpointOn(sweep.close.TakenAt(e).checkpoint, account);
              stored.input - stored.output == C.Net(BetweenLegs(e.rows, c, e, sweep), Key(account, sweep.close.currency)) {
      TheStoredPosition(c, e, sweep, account);
    }
  }

  // ---- nobody older was running ----------------------------------------

  lemma {:induction false} NobodyIsBetween(rows: seq<Row>, c: Cluster, e: Cluster, sweep: Sweep)
    requires forall i :: 0 <= i < |rows| ==> !IsBetween(c, e, sweep, rows[i])
    ensures BetweenLegs(rows, c, e, sweep) == []
    decreases |rows|
  {
    if rows != [] {
      NobodyIsBetween(rows[..|rows| - 1], c, e, sweep);
    }
  }

  lemma OnlyAnOlderWriterIsBetween(c: Cluster, e: Cluster, sweep: Sweep)
    requires Sound(c) && IssuedIdsFollow(c, e) && HasSwept(c, e, sweep) && sweep.close.xactId in c.running
    requires NobodyOlderRuns(c, sweep.close.xactId)
    ensures BetweenLegs(e.rows, c, e, sweep) == []
  {
    forall i | 0 <= i < |e.rows| ensures !IsBetween(c, e, sweep, e.rows[i]) {
      if i < |c.rows| {
        assert c.rows[i] == e.rows[i] && c.rows[i] in c.rows;
      }
    }
    NobodyIsBetween(e.rows, c, e, sweep);
  }

  /** The sweep is about to be written. */
  ghost predicate IsSweeping(c: Cluster, sweep: Sweep)
  {
    sweep.IsOfOneClose() && sweep.close.xactId in c.running && forall r :: r in c.rows ==> !IsOfTheClose(r, sweep.close)
  }

  /** However the run goes on until its checkpoint, the close stores every temporary account
      at zero. */
  ghost predicate StoresZeros(states: seq<Cluster>, steps: seq<Step>, sweep: Sweep)
    requires states != []
  {
    forall e: Cluster :: MayComeTo(states, steps, e) && HasSwept(Last(states), e, sweep)
      ==> TemporariesAreZeroed(sweep.accounts, Some(sweep.plan.retainedEarnings), sweep.close.TakenAt(e))
  }

  lemma WithNobodyOlderItStoresZeros(states: seq<Cluster>, steps: seq<Step>, sweep: Sweep)
    requires IsARun(states, steps) && IsSweeping(Last(states), sweep) && NobodyOlderRuns(Last(states), sweep.close.xactId)
    ensures StoresZeros(states, steps, sweep)
  {
    forall e: Cluster | MayComeTo(states, steps, e) && HasSwept(Last(states), e, sweep)
      ensures TemporariesAreZeroed(sweep.accounts, Some(sweep.plan.retainedEarnings), sweep.close.TakenAt(e)) {
      WhatARunComesTo(states, steps, e);
      OnlyAnOlderWriterIsBetween(Last(states), e, sweep);
      ZeroedWhereNothingNetSettled(Last(states), e, sweep);
    }
  }

  // ---- an older writer settles between the two -------------------------

  /** The rows the sweep writes, under keys of their own. */
  ghost predicate AreTheSweepsRows(c: Cluster, sweep: Sweep, swept: seq<Row>)
  {
    CloseLegs(swept, sweep.close) == sweep.LegsAt(c) && forall r :: r in swept ==> IsASweptRow(r, sweep) && IsStorable(r)
  }

  lemma {:induction false} WriteTheSweep(states: seq<Cluster>, steps: seq<Step>, d: Cluster, sweep: Sweep, swept: seq<Row>) returns (e: Cluster)
    requires MayComeTo(states, steps, d) && sweep.close.xactId in d.running && KeysApart(d.rows + swept)
    requires forall r :: r in swept ==> IsASweptRow(r, sweep) && IsStorable(r)
    ensures MayComeTo(states, steps, e) && e == d.(rows := d.rows + swept)
    decreases |swept|
  {
    if swept == [] {
      e := d;
      assert d.rows + swept == d.rows;
    } else {
      var n := |swept| - 1;
      var front, last := swept[..n], swept[n];
      assert d.rows + swept == (d.rows + front) + [last];
      FewerApart(d.rows + front, last);
      var before := WriteTheSweep(states, steps, d, sweep, front);
      assert last in swept;
      e := AStepOn(states, steps, before, Insert(last));
    }
  }

  lemma FewerApart(rows: seq<Row>, last: Row)
    requires KeysApart(rows + [last])
    ensures KeysApart(rows) && IsNew(rows, last)
  {
    var all := rows + [last];
    forall i, j | 0 <= i < j < |rows| ensures !SamePrimaryKey(rows[i], rows[j]) {
      assert all[i] == rows[i] && all[j] == rows[j];
    }
    forall r | r in rows ensures !SamePrimaryKey(r, last) {
      var i :| 0 <= i < |rows| && rows[i] == r;
      assert all[i] == r && all[|rows|] == last;
    }
  }

  lemma {:induction false} TheSweepIsNotBetween(rows: seq<Row>, swept: seq<Row>, c: Cluster, e: Cluster, sweep: Sweep)
    requires forall r :: r in swept ==> IsOfTheClose(r, sweep.close)
    ensures BetweenLegs(rows + swept, c, e, sweep) == BetweenLegs(rows, c, e, sweep)
    decreases |swept|
  {
    if swept == [] {
      assert rows + swept == rows;
    } else {
      var n := |swept| - 1;
      TheSweepIsNotBetween(rows, swept[..n], c, e, sweep);
      assert (rows + swept)[..|rows| + n] == rows + swept[..n];
      assert swept[n] in swept;
    }
  }

  lemma {:induction false} NothingOfTheCloseYet(rows: seq<Row>, swept: seq<Row>, close: CloseRun)
    requires forall r :: r in rows ==> !IsOfTheClose(r, close)
    ensures CloseLegs(rows + swept, close) == CloseLegs(swept, close)
    decreases |rows| + |swept|
  {
    if swept != [] {
      var n := |swept| - 1;
      NothingOfTheCloseYet(rows, swept[..n], close);
      assert (rows + swept)[..|rows| + n] == rows + swept[..n];
    } else {
      assert rows + swept == rows;
      if rows != [] {
        NothingOfTheCloseYet(rows[..|rows| - 1], [], close);
        assert rows[..|rows| - 1] + [] == rows[..|rows| - 1];
      }
    }
  }

  lemma {:induction false} SameFatesSameBetween(rows: seq<Row>, c: Cluster, d: Cluster, e: Cluster, sweep: Sweep)
    requires d.running == e.running && d.aborted == e.aborted
    ensures BetweenLegs(rows, c, d, sweep) == BetweenLegs(rows, c, e, sweep)
    decreases |rows|
  {
    if rows != [] {
      SameFatesSameBetween(rows[..|rows| - 1], c, d, e, sweep);
    }
  }

  lemma OneMoreBetween(rows: seq<Row>, row: Row, c: Cluster, e: Cluster, sweep: Sweep, key: Key)
    requires IsBetween(c, e, sweep, row) && row.leg.Row() == key && row.leg.amountMinor > 0
    ensures C.Net(BetweenLegs(rows + [row], c, e, sweep), key) != C.Net(BetweenLegs(rows, c, e, sweep), key)
  {
    var before := BetweenLegs(rows, c, e, sweep);
    assert (rows + [row])[..|rows|] == rows;
    assert (before + [row.leg])[..|before|] == before;
  }

  /** The older writer settles with something net on the account: with what it had written
      already, or with one row more. */
  lemma TheOlderWriterSettles(states: seq<Cluster>, steps: seq<Step>, sweep: Sweep, y: Cursor, row: Row, swept: seq<Row>)
    returns (d: Cluster, more: seq<Row>)
    requires IsARun(states, steps) && IsSweeping(Last(states), sweep) && y in Last(states).running && y < sweep.close.xactId
    requires CouldStillLand(Last(states), sweep.close, row) && row.xactId == y && KeysApart(Last(states).rows + [row] + swept)
    ensures MayComeTo(states, steps, d) && d.rows == Last(states).rows + more && (more == [] || more == [row])
    ensures d.running == Last(states).running - {y} && d.aborted == Last(states).aborted
    ensures C.Net(BetweenLegs(d.rows, Last(states), d, sweep), Key(row.leg.account, sweep.close.currency)) != 0
  {
    var c, key := Last(states), Key(row.leg.account, sweep.close.currency);
    ARunComesToItsEnd(states, steps);
    WhatARunComesTo(states, steps, c);
    var settled := AStepOn(states, steps, c, Commit(y));
    if C.Net(BetweenLegs(c.rows, c, settled, sweep), key) != 0 {
      d, more := settled, [];
      assert c.rows + more == c.rows;
    } else {
      var written := AStepOn(states, steps, c, Insert(row));
      d := AStepOn(states, steps, written, Commit(y));
      more := [row];
      SameFatesSameBetween(c.rows, c, settled, d, sweep);
      assert !IsOfTheClose(row, sweep.close);
      assert IsBetween(c, d, sweep, row);
      OneMoreBetween(c.rows, row, c, d, sweep, key);
    }
  }

  lemma AppendedApart(rows: seq<Row>, row: Row, more: seq<Row>, swept: seq<Row>)
    requires KeysApart(rows + [row] + swept) && (more == [] || more == [row])
    ensures KeysApart(rows + more + swept)
  {
    var all := rows + [row] + swept;
    if more == [] {
      var some := rows + more + swept;
      forall i, j | 0 <= i < j < |some| ensures !SamePrimaryKey(some[i], some[j]) {
        var p, q := if i < |rows| then i else i + 1, if j < |rows| then j else j + 1;
        assert some[i] == all[p] && some[j] == all[q];
      }
    }
  }

  lemma AnOlderWriterSettlesBetween(states: seq<Cluster>, steps: seq<Step>, sweep: Sweep, y: Cursor, row: Row, swept: seq<Row>) returns (e: Cluster)
    requires IsARun(states, steps) && IsSweeping(Last(states), sweep) && y in Last(states).running && y < sweep.close.xactId
    requires CouldStillLand(Last(states), sweep.close, row) && row.xactId == y && KeysApart(Last(states).rows + [row] + swept)
    requires C.IsTemporary(sweep.accounts, row.leg.account) && row.leg.account != sweep.plan.retainedEarnings
    requires AreTheSweepsRows(Last(states), sweep, swept)
    ensures MayComeTo(states, steps, e) && HasSwept(Last(states), e, sweep)
    ensures !TemporariesAreZeroed(sweep.accounts, Some(sweep.plan.retainedEarnings), sweep.close.TakenAt(e))
  {
    var c := Last(states);
    var d, more := TheOlderWriterSettles(states, steps, sweep, y, row, swept);
    AppendedApart(c.rows, row, more, swept);
    e := WriteTheSweep(states, steps, d, sweep, swept);
    TheSweepIsNotBetween(d.rows, swept, c, e, sweep);
    SameFatesSameBetween(d.rows, c, d, e, sweep);
    assert !IsOfTheClose(row, sweep.close);
    NothingOfTheCloseYet(d.rows, swept, sweep.close);
    WhatARunComesTo(states, steps, e);
    ZeroedWhereNothingNetSettled(c, e, sweep);
  }

  /** A close stores its temporary accounts at zero, however the brackets interleave, if and
      only if no older transaction was running when its sweep was read. */
  lemma ACloseStoresZerosExactlyWithNobodyOlder(states: seq<Cluster>, steps: seq<Step>, sweep: Sweep, row: Row, swept: seq<Row>)
    requires IsARun(states, steps) && IsSweeping(Last(states), sweep)
    requires CouldStillLand(Last(states), sweep.close, row) && KeysApart(Last(states).rows + [row] + swept)
    requires C.IsTemporary(sweep.accounts, row.leg.account) && row.leg.account != sweep.plan.retainedEarnings
    requires AreTheSweepsRows(Last(states), sweep, swept)
    ensures StoresZeros(states, steps, sweep) <==> NobodyOlderRuns(Last(states), sweep.close.xactId)
  {
    if NobodyOlderRuns(Last(states), sweep.close.xactId) {
      WithNobodyOlderItStoresZeros(states, steps, sweep);
    } else {
      var y: Cursor :| y in Last(states).running && y < sweep.close.xactId;
      var late := EntryRow(row.tenant, y, row.id, row.transaction, row.posted, row.effectiveAt, row.leg);
      SameKeysApart(Last(states).rows, row, late, swept);
      var e := AnOlderWriterSettlesBetween(states, steps, sweep, y, late, swept);
    }
  }

  lemma SameKeysApart(rows: seq<Row>, row: Row, other: Row, swept: seq<Row>)
    requires KeysApart(rows + [row] + swept) && SamePrimaryKey(row, other)
    ensures KeysApart(rows + [other] + swept)
  {
    var one, two := rows + [row] + swept, rows + [other] + swept;
    forall i, j | 0 <= i < j < |two| ensures !SamePrimaryKey(two[i], two[j]) {
      assert !SamePrimaryKey(one[i], one[j]);
    }
  }

  lemma AnEmptyJournalSweepsNothing(sweep: Sweep, c: Cluster)
    requires c.rows == []
    ensures sweep.LegsAt(c) == []
  {
    assert Journal(c, sweep.close.tenant) == [];
    assert Book.LegsWhere([], Book.Admitted(sweep.plan.endsAt, sweep.close.xactId)) == [];
    assert C.Sweepable(sweep.SeenAt(c), sweep.close.currency, sweep.plan) == {};
  }

  /** One run: 3 begins, the close begins at 4 and finds nothing to sweep, 3 lands a row on a
      temporary account and commits, and the close's checkpoint stores it. */
  lemma TheCloseThatStoresMore(sweep: Sweep, row: Row, states: seq<Cluster>, steps: seq<Step>)
    requires row.xactId == 3 && sweep.close.xactId == 4 && CouldStillLand(STARTED, sweep.close, row) && sweep.IsOfOneClose()
    requires C.IsTemporary(sweep.accounts, row.leg.account) && row.leg.account != sweep.plan.retainedEarnings
    requires states == [STARTED, Cluster(4, {3}, {}, []), Cluster(5, {3, 4}, {}, []), Cluster(5, {3, 4}, {}, [row]), Cluster(5, {4}, {}, [row])]
    requires steps == [Begin, Begin, Insert(row), Commit(3)]
    ensures IsARun(states, steps) && HasSwept(states[2], states[4], sweep)
    ensures !TemporariesAreZeroed(sweep.accounts, Some(sweep.plan.retainedEarnings), sweep.close.TakenAt(states[4]))
  {
    var c, e := states[2], states[4];
    assert {3} + {4} == {3, 4} && states[3].running - {3} == {4};
    assert IsARun(states, steps);
    EveryReachableClusterIsSound(states, steps, 2);
    LaterStatesFollow(states, steps, 2, 4);
    AnEmptyJournalSweepsNothing(sweep, c);
    assert !IsOfTheClose(row, sweep.close) && [row][..0] == [] && e.rows == [] + [row];
    assert CloseLegs(e.rows, sweep.close) == [];
    assert IsBetween(c, e, sweep, row);
    OneMoreBetween([], row, c, e, sweep, row.leg.Row());
    ZeroedWhereNothingNetSettled(c, e, sweep);
  }
}
