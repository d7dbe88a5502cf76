/** The period close is exact: what the sweep leaves, what the checkpoint stores,
    and what the reader answers from it afterwards. */
module CloseExactness {
  import opened Wrappers
  import opened Bytes
  import opened Periods
  import opened Postings
  import opened KeyOrder
  import opened Port
  import opened Book
  import opened Closing
  import opened BookInvariants
  import opened Writer
  import opened WriterInvariants

  // ---- the swept positions ---------------------------------------------

  function PositionsAt(order: seq<Key>, legs: seq<Leg>): (swept: seq<SweptPosition>)
    ensures |swept| == |order|
  {
    seq(|order|, i requires 0 <= i < |order| => SweptPosition(order[i].account, Net(legs, order[i])))
  }

  /** Each listed row gives up its own position and nothing else. */
  lemma {:induction false} EachRowGivesUpItsPosition(order: seq<Key>, legs: seq<Leg>, currency: Text, account: nat)
    requires forall i, j :: 0 <= i < j < |order| ==> order[i] != order[j]
    requires forall i :: 0 <= i < |order| ==> order[i].currency == currency
    ensures SweptFrom(PositionsAt(order, legs), account)
         == if Key(account, currency) in order then Net(legs, Key(account, currency)) else 0
    decreases |order|
  {
    if order != [] {
      var n := |order| - 1;
      EachRowGivesUpItsPosition(order[..n], legs, currency, account);
      assert PositionsAt(order, legs)[..n] == PositionsAt(order[..n], legs);
      assert order == order[..n] + [order[n]];
      if order[n] == Key(account, currency) {
        assert order[n] !in order[..n];
      }
    }
  }

  lemma TheSweepTakesEveryPosition(b: Book, currency: Text, plan: ClosePlan, account: nat)
    ensures SweptFrom(SweptPositions(b, currency, plan), account)
         == if Key(account, currency) in Sweepable(b, currency, plan)
            then Net(LegsWhere(b.txns, Admitted(plan.endsAt, b.nextXact)), Key(account, currency)) else 0
  {
    var order := InKeyOrder(Sweepable(b, currency, plan));
    var legs := LegsWhere(b.txns, Admitted(plan.endsAt, b.nextXact));
    InKeyOrderAscends(Sweepable(b, currency, plan));
    InKeyOrderListsEveryKey(Sweepable(b, currency, plan));
    AscendingKeysAreDistinct(order);
    assert SweptPositions(b, currency, plan) == PositionsAt(order, legs);
    forall i | 0 <= i < |order| ensures order[i].currency == currency {
      assert order[i] in order;
    }
    EachRowGivesUpItsPosition(order, legs, currency, account);
  }

  /** A temporary account is left with nothing by the sweep. */
  lemma TheSweepLeavesNothing(b: Book, currency: Text, plan: ClosePlan, account: nat)
    requires IsTemporary(b.accounts, account) && account != plan.retainedEarnings
    ensures var swept := SweptPositions(b, currency, plan);
            Net(LegsWhere(b.txns, Admitted(plan.endsAt, b.nextXact)) + SweepLegs(swept, currency, plan.retainedEarnings), Key(account, currency)) == 0
  {
    var legs, swept, row := LegsWhere(b.txns, Admitted(plan.endsAt, b.nextXact)), SweptPositions(b, currency, plan), Key(account, currency);
    TheSweepTakesEveryPosition(b, currency, plan, account);
    TheSweepMoves(swept, currency, plan.retainedEarnings, account);
    NetConcat(legs, SweepLegs(swept, currency, plan.retainedEarnings), row);
    if row !in KeysOf(legs) {
      UntouchedKeysHaveNothing(legs, row);
    }
  }

  /** Retained earnings gain exactly what the temporary accounts gave up. */
  lemma RetainedEarningsMoveByTheSweptTotal(b: Book, currency: Text, plan: ClosePlan)
    ensures var swept := SweptPositions(b, currency, plan);
            Net(SweepLegs(swept, currency, plan.retainedEarnings), Key(plan.retainedEarnings, currency)) == SweptTotal(swept)
  {
    TheSweepTakesEveryPosition(b, currency, plan, plan.retainedEarnings);
    TheSweepMoves(SweptPositions(b, currency, plan), currency, plan.retainedEarnings, plan.retainedEarnings);
  }

  // ---- the sweep may be written ----------------------------------------

  /** A part of the posted journal totals no more than the whole of it. */
  lemma {:induction false} APartTotalsNoMore(txns: seq<Txn>, bound: Bound, row: Key, direction: Direction)
    requires AllPositive(AllLegs(txns))
    ensures 0 <= Total(LegsWhere(txns, bound), row, direction) <= Total(PostedLegs(txns), row, direction)
    decreases |txns|
  {
    if txns != [] {
      var front, last := txns[..|txns| - 1], txns[|txns| - 1];
      assert txns == front + [last];
      AllEntriesOneMore(front, last);
      assert AllPositive(AllLegs(front)) by {
        forall i | 0 <= i < |AllLegs(front)| ensures 0 < AllLegs(front)[i].amountMinor < I64_LIMIT {
          assert AllLegs(txns)[i] == AllLegs(front)[i];
        }
      }
      assert AllPositive(LegsIn(last.entries)) by {
        forall i | 0 <= i < |last.entries| ensures 0 < LegsIn(last.entries)[i].amountMinor < I64_LIMIT {
          assert AllLegs(txns)[|AllLegs(front)| + i] == LegsIn(last.entries)[i];
        }
      }
      APartTotalsNoMore(front, bound, row, direction);
      TotalsAreNotNegative(LegsIn(last.entries), row, direction);
      LegsWhereOneMore(front, last, bound);
      LegsWhereOneMore(front, last, EveryPosted);
      TotalConcat(LegsWhere(front, bound), if bound.Admits(last) then LegsIn(last.entries) else [], row, direction);
      TotalConcat(PostedLegs(front), if last.status.Posted? then LegsIn(last.entries) else [], row, direction);
    }
  }

  lemma PositionsFit(b: Book, bound: Bound, row: Key)
    requires EntriesAreSound(b) && CacheIsExact(b.balances, b.txns)
    ensures -I64_LIMIT < Net(LegsWhere(b.txns, bound), row) < I64_LIMIT
  {
    APartTotalsNoMore(b.txns, bound, row, Debit);
    APartTotalsNoMore(b.txns, bound, row, Credit);
    assert BalanceOn(b.balances, row) == RowTotals(b.txns, row);
  }

  /** One swept position's two legs: a positive amount, on accounts that exist. */
  lemma OneSweepIsSound(b: Book, currency: Text, plan: ClosePlan, k: nat)
    requires ValidStaged(b) && RetainedEarnings(b.register, currency) == Some(plan.retainedEarnings)
    requires k < |SweptPositions(b, currency, plan)|
    ensures var p := SweptPositions(b, currency, plan)[k];
            && 0 < Magnitude(p.positionMinor) < I64_LIMIT
            && IsKnown(b.accounts, Key(p.accountId, currency)) && IsKnown(b.accounts, Key(plan.retainedEarnings, currency))
  {
    var row := InKeyOrder(Sweepable(b, currency, plan))[k];
    InKeyOrderListsEveryKey(Sweepable(b, currency, plan));
    assert row in InKeyOrder(Sweepable(b, currency, plan));
    PositionsFit(b, Admitted(plan.endsAt, b.nextXact), row);
    ASweepableRowIsKnown(b, currency, plan, row);
    assert row == Key(row.account, currency);
    assert b.accounts[plan.retainedEarnings].nature == EarningsNature(currency);
  }

  lemma TheSweepIsSound(b: Book, currency: Text, plan: ClosePlan)
    requires ValidStaged(b) && RetainedEarnings(b.register, currency) == Some(plan.retainedEarnings)
    ensures var legs := SweepLegs(SweptPositions(b, currency, plan), currency, plan.retainedEarnings);
            AllPositive(legs) && AllKnown(b.accounts, legs) && Balanced(legs)
  {
    var swept := SweptPositions(b, currency, plan);
    TheSweepBalances(swept, currency, plan.retainedEarnings);
    forall k | 0 <= k < |swept|
      ensures 0 < Magnitude(swept[k].positionMinor) < I64_LIMIT && IsKnown(b.accounts, Key(swept[k].accountId, currency))
      ensures IsKnown(b.accounts, Key(plan.retainedEarnings, currency)) {
      OneSweepIsSound(b, currency, plan, k);
    }
    SweepLegsAreSound(b, swept, currency, plan.retainedEarnings);
  }

  lemma SweepLegsAreSound(b: Book, swept: seq<SweptPosition>, currency: Text, retainedEarnings: nat)
    requires forall k :: 0 <= k < |swept| ==> 0 < Magnitude(swept[k].positionMinor) < I64_LIMIT
    requires forall k :: 0 <= k < |swept| ==> IsKnown(b.accounts, Key(swept[k].accountId, currency))
    requires swept != [] ==> IsKnown(b.accounts, Key(retainedEarnings, currency))
    ensures AllPositive(SweepLegs(swept, currency, retainedEarnings)) && AllKnown(b.accounts, SweepLegs(swept, currency, retainedEarnings))
  {
    var legs := SweepLegs(swept, currency, retainedEarnings);
    forall i | 0 <= i < |legs| ensures 0 < legs[i].amountMinor < I64_LIMIT && IsKnown(b.accounts, legs[i].Row()) {
      var k := if i < |swept| then i else i - |swept|;
      assert 0 < Magnitude(swept[k].positionMinor) < I64_LIMIT;
    }
  }

  lemma ASweepableRowIsKnown(b: Book, currency: Text, plan: ClosePlan, row: Key)
    requires AllKnown(b.accounts, AllLegs(b.txns)) && row in Sweepable(b, currency, plan)
    ensures IsKnown(b.accounts, row)
  {
    AdmittedLegsBelongToTheJournal(b.txns, Admitted(plan.endsAt, b.nextXact));
    var i :| 0 <= i < |AllLegs(b.txns)| && AllLegs(b.txns)[i].Row() == row;
  }

  // ---- the close's own transaction -------------------------------------

  function SweepOf(b: Book, c: ClosePeriod, hash: Text, plan: ClosePlan, swept: seq<SweptPosition>): Book
  {
    Record(b, c.DerivedKey(), hash, CloseShape(plan), SweepLegs(swept, c.currency, plan.retainedEarnings))
  }

  ghost function StoredClose(b: Book, c: ClosePeriod, plan: ClosePlan, txns: seq<Txn>): Close
  {
    Close(plan.endsAt, b.nextId + 1, b.nextXact, Checkpoint(txns, c.currency, plan.endsAt, b.nextXact, b.nextId + 1))
  }

  /** The book after one accepted close, uncommitted. */
  ghost function ClosedBook(b: Book, c: ClosePeriod, hash: Text, plan: ClosePlan): Book
  {
    var swept := SweepOf(b, c, hash, plan, SweptPositions(b, c.currency, plan));
    swept.(closes := b.closes[(c.periodCode, c.currency) := StoredClose(b, c, plan, swept.txns)])
  }

  ghost predicate CanBeClosed(b: Book, c: ClosePeriod, hash: Text)
  {
    && CloseContext(b, c).Some? && CloseContext(b, c).value.retainedEarnings.Some?
    && TheLastInstantInside(CloseContext(b, c).value.endsAt).Some?
    && c.DerivedKey() !in b.events && (c.periodCode, c.currency) !in b.closes
    && var plan := PlanOf(CloseContext(b, c).value);
       plan.startsAt <= plan.closesAt && Fits(SweepOf(b, c, hash, plan, SweptPositions(b, c.currency, plan)).balances)
  }

  lemma TheStatementCloses(b: Book, c: ClosePeriod, hash: Text, plan: ClosePlan)
    requires c.DerivedKey() !in b.events && (c.periodCode, c.currency) !in b.closes
    requires plan.startsAt <= plan.closesAt && Fits(SweepOf(b, c, hash, plan, SweptPositions(b, c.currency, plan)).balances)
    ensures var swept := SweptPositions(b, c.currency, plan);
            var recorded := SweepOf(b, c, hash, plan, swept);
            ClaimAndClosePeriod(b, c, hash, plan)
            == Answered(Some(Closed(b.nextId, b.nextId + 1, b.nextXact, swept)),
                        recorded.(closes := b.closes[(c.periodCode, c.currency) := Close(plan.endsAt, b.nextId + 1, b.nextXact, map[])]))
  {
  }

  lemma TheCheckpointFollows(b: Book, c: ClosePeriod, hash: Text, plan: ClosePlan)
    ensures var recorded := SweepOf(b, c, hash, plan, SweptPositions(b, c.currency, plan));
            var staged := recorded.(closes := b.closes[(c.periodCode, c.currency) := Close(plan.endsAt, b.nextId + 1, b.nextXact, map[])]);
            CheckpointTheClose(staged, c, plan, b.nextId + 1, b.nextXact) == ClosedBook(b, c, hash, plan)
  {
    var name := (c.periodCode, c.currency);
    var entryless := Close(plan.endsAt, b.nextId + 1, b.nextXact, map[]);
    var stored := StoredClose(b, c, plan, SweepOf(b, c, hash, plan, SweptPositions(b, c.currency, plan)).txns);
    assert b.closes[name := entryless][name := stored] == b.closes[name := stored];
  }

  /** What the checkpoint's bound admits: the position at the cursor, and the sweep. */
  ghost predicate AdmitsTheSweep(b: Book, currency: Text, plan: ClosePlan, txns: seq<Txn>)
  {
    LegsWhere(txns, InCheckpoint(plan.endsAt, b.nextXact, b.nextId + 1))
    == LegsWhere(b.txns, Admitted(plan.endsAt, b.nextXact)) + SweepLegs(SweptPositions(b, currency, plan), currency, plan.retainedEarnings)
  }

  /** Everything the journal held at the cursor, and then the close itself: what
      identity admission admits is the at-close position. */
  lemma TheCheckpointAdmitsTheSweep(b: Book, c: ClosePeriod, hash: Text, plan: ClosePlan)
    requires TxnIdsAreFresh(b.txns, b.nextId, b.nextXact) && plan.closesAt < plan.endsAt
    requires forall i :: 0 <= i < |b.txns| ==> b.txns[i].xactId < b.nextXact
    ensures AdmitsTheSweep(b, c.currency, plan, SweepOf(b, c, hash, plan, SweptPositions(b, c.currency, plan)).txns)
  {
    var legs := SweepLegs(SweptPositions(b, c.currency, plan), c.currency, plan.retainedEarnings);
    var t := TxnOf(b, CloseShape(plan), legs);
    var bound := InCheckpoint(plan.endsAt, b.nextXact, b.nextId + 1);
    LegsOfNumbered(b.balances, legs);
    LegsWhereOneMore(b.txns, t, bound);
    SameAdmissions(b.txns, bound, Admitted(plan.endsAt, b.nextXact));
  }

  lemma AFreshCheckpointIsExact(txns: seq<Txn>, currency: Text, close: Close)
    requires close.checkpoint == Checkpoint(txns, currency, close.endsAt, close.computedAtXid, close.transactionId)
    ensures CheckpointIsExact(txns, currency, close)
  {
    var legs := LegsWhere(txns, InCheckpoint(close.endsAt, close.computedAtXid, close.transactionId));
    forall account ensures CheckpointOn(close.checkpoint, account)
        == Checkpointed(Total(legs, Key(account, currency), Debit), Total(legs, Key(account, currency), Credit)) {
      CheckpointHoldsTheTotals(txns, currency, close.endsAt, close.computedAtXid, close.transactionId, account);
    }
  }

  lemma ATemporaryIsCheckpointedAtZero(b: Book, currency: Text, plan: ClosePlan, txns: seq<Txn>, account: nat)
    requires AdmitsTheSweep(b, currency, plan, txns)
    requires IsTemporary(b.accounts, account) && account != plan.retainedEarnings
    ensures var row := CheckpointOn(Checkpoint(txns, currency, plan.endsAt, b.nextXact, b.nextId + 1), account);
            row.input == row.output
  {
    CheckpointHoldsTheTotals(txns, currency, plan.endsAt, b.nextXact, b.nextId + 1, account);
    TheSweepLeavesNothing(b, currency, plan, account);
  }

  lemma TheNewCheckpointIsZeroed(b: Book, currency: Text, plan: ClosePlan, txns: seq<Txn>, close: Close)
    requires AdmitsTheSweep(b, currency, plan, txns)
    requires close.checkpoint == Checkpoint(txns, currency, plan.endsAt, b.nextXact, b.nextId + 1)
    ensures TemporariesAreZeroed(b.accounts, Some(plan.retainedEarnings), close)
  {
    forall account: nat | IsTemporary(b.accounts, account) && account != plan.retainedEarnings
      ensures CheckpointOn(close.checkpoint, account).input == CheckpointOn(close.checkpoint, account).output {
      ATemporaryIsCheckpointedAtZero(b, currency, plan, txns, account);
    }
  }

  lemma TheNewCloseIsExact(b: Book, c: ClosePeriod, hash: Text, plan: ClosePlan)
    requires TxnIdsAreFresh(b.txns, b.nextId, b.nextXact) && plan.closesAt < plan.endsAt
    requires forall i :: 0 <= i < |b.txns| ==> b.txns[i].xactId < b.nextXact
    requires RetainedEarnings(b.register, c.currency) == Some(plan.retainedEarnings)
    ensures var after := PastTheCommit(ClosedBook(b, c, hash, plan));
            CloseIsExact(after, c.currency, after.closes[(c.periodCode, c.currency)])
  {
    var txns := SweepOf(b, c, hash, plan, SweptPositions(b, c.currency, plan)).txns;
    var close := StoredClose(b, c, plan, txns);
    AFreshCheckpointIsExact(txns, c.currency, close);
    TheCheckpointAdmitsTheSweep(b, c, hash, plan);
    TheNewCheckpointIsZeroed(b, c.currency, plan, txns, close);
    assert IsTheCloseOf(txns[|b.txns|], close);
  }

  // ---- what a close means ----------------------------------------------

  lemma ACloseIsRecordable(b: Book, c: ClosePeriod, hash: Text, plan: ClosePlan)
    requires ValidStaged(b) && c.DerivedKey() !in b.events && TaggedBy(hash, CLOSE_LETTER)
    requires RetainedEarnings(b.register, c.currency) == Some(plan.retainedEarnings)
    requires Fits(SweepOf(b, c, hash, plan, SweptPositions(b, c.currency, plan)).balances)
    ensures Recordable(b, c.DerivedKey(), hash, CloseShape(plan), SweepLegs(SweptPositions(b, c.currency, plan), c.currency, plan.retainedEarnings))
  {
    TheSweepIsSound(b, c.currency, plan);
  }

  lemma TheSweepKeepsTheBookValid(b: Book, c: ClosePeriod, hash: Text, plan: ClosePlan)
    requires Valid(b) && c.DerivedKey() !in b.events && TaggedBy(hash, CLOSE_LETTER)
    requires RetainedEarnings(b.register, c.currency) == Some(plan.retainedEarnings)
    requires Fits(SweepOf(b, c, hash, plan, SweptPositions(b, c.currency, plan)).balances)
    ensures Valid(PastTheCommit(SweepOf(b, c, hash, plan, SweptPositions(b, c.currency, plan))))
  {
    var swept := SweptPositions(b, c.currency, plan);
    ACloseIsRecordable(b, c, hash, plan);
    RecordingKeepsTheBookValid(b, c.DerivedKey(), hash, CloseShape(plan), SweepLegs(swept, c.currency, plan.retainedEarnings));
    PassingTheCommitKeepsTheBookValid(SweepOf(b, c, hash, plan, swept));
  }

  lemma AnAcceptedCloseKeepsTheBookValid(b: Book, c: ClosePeriod, hash: Text, plan: ClosePlan)
    requires Valid(b) && c.DerivedKey() !in b.events && TaggedBy(hash, CLOSE_LETTER)
    requires RetainedEarnings(b.register, c.currency) == Some(plan.retainedEarnings) && plan.closesAt < plan.endsAt
    requires Fits(SweepOf(b, c, hash, plan, SweptPositions(b, c.currency, plan)).balances)
    ensures Valid(PastTheCommit(ClosedBook(b, c, hash, plan)))
  {
    var recorded := SweepOf(b, c, hash, plan, SweptPositions(b, c.currency, plan));
    TheSweepKeepsTheBookValid(b, c, hash, plan);
    TheNewCloseIsExact(b, c, hash, plan);
    WithTheClose(b, c, hash, plan);
    OneMoreCloseKeepsTheBookValid(PastTheCommit(recorded), (c.periodCode, c.currency), StoredClose(b, c, plan, recorded.txns));
  }

  lemma WithTheClose(b: Book, c: ClosePeriod, hash: Text, plan: ClosePlan)
    ensures var recorded := PastTheCommit(SweepOf(b, c, hash, plan, SweptPositions(b, c.currency, plan)));
            var close := StoredClose(b, c, plan, recorded.txns);
            PastTheCommit(ClosedBook(b, c, hash, plan)) == recorded.(closes := recorded.closes[(c.periodCode, c.currency) := close])
  {
  }

  lemma OneMoreCloseKeepsTheBookValid(b: Book, name: (Text, Text), close: Close)
    requires Valid(b) && CloseIsExact(b.(closes := b.closes[name := close]), name.1, close)
    ensures Valid(b.(closes := b.closes[name := close]))
  {
    var after := b.(closes := b.closes[name := close]);
    AnotherCloseChangesNone(b, name, close);
    assert EntriesAreSound(after);
  }

  lemma AnotherCloseChangesNone(b: Book, name: (Text, Text), close: Close)
    requires ClosesAreExact(b) && CloseIsExact(b.(closes := b.closes[name := close]), name.1, close)
    ensures ClosesAreExact(b.(closes := b.closes[name := close]))
  {
    var after := b.(closes := b.closes[name := close]);
    forall other | other in after.closes && other != name ensures CloseIsExact(after, other.1, after.closes[other]) {
      assert CloseIsExact(b, other.1, b.closes[other]);
    }
  }

  lemma AnAcceptedCloseIsRecordedWhole(b: Book, c: ClosePeriod, hash: Text)
    requires CanBeClosed(b, c, hash)
    ensures var plan := PlanOf(CloseContext(b, c).value);
            var after := ClosedBook(b, c, hash, plan);
            CloseOutcome(b, c, hash)
            == Outcome(Ok(PeriodClosed(b.nextId, b.nextId + 1, plan.closesAt, b.nextXact, SweptPositions(b, c.currency, plan),
                                       |after.closes[(c.periodCode, c.currency)].checkpoint|)),
                       Committed(b, after))
  {
    var plan := PlanOf(CloseContext(b, c).value);
    TheStatementCloses(b, c, hash, plan);
    TheCheckpointFollows(b, c, hash, plan);
  }

  /** What a close means: accepted exactly when its period and its destination
      exist, its derived key and its own name are free, the closing instant falls
      inside the period and the balances hold the sweep. A repeat is refused, never
      replayed; no valid book reaches the internal refusal. */
  lemma WhatACloseMeans(b: Book, c: ClosePeriod, hash: Text)
    requires PeriodsAreSound(b.periods)
    ensures var o := CloseOutcome(b, c, hash);
            && (o.answer.Ok? <==> CanBeClosed(b, c, hash))
            && (o.answer.Err? ==> o.book == b)
            && o.answer != Err(ClosePeriodError.Internal)
  {
    if CanBeClosed(b, c, hash) {
      AnAcceptedCloseIsRecordedWhole(b, c, hash);
    }
  }

  lemma ClosingUnderItsTag(b: Book, c: ClosePeriod, hash: Text)
    requires Valid(b) && TaggedBy(hash, CLOSE_LETTER)
    ensures Valid(CloseOutcome(b, c, hash).book)
  {
    WhatACloseMeans(b, c, hash);
    if CanBeClosed(b, c, hash) {
      AnAcceptedCloseUnderItsTag(b, c, hash);
    }
  }

  lemma AnAcceptedCloseUnderItsTag(b: Book, c: ClosePeriod, hash: Text)
    requires Valid(b) && TaggedBy(hash, CLOSE_LETTER) && CanBeClosed(b, c, hash)
    ensures Valid(CloseOutcome(b, c, hash).book)
  {
    var plan := PlanOf(CloseContext(b, c).value);
    var after := ClosedBook(b, c, hash, plan);
    AnAcceptedCloseIsRecordedWhole(b, c, hash);
    AnAcceptedCloseKeepsTheBookValid(b, c, hash, plan);
    ACommittedCloseIsPastTheCommit(b, c, hash, plan, after);
  }

  lemma ACommittedCloseIsPastTheCommit(b: Book, c: ClosePeriod, hash: Text, plan: ClosePlan, after: Book)
    requires after == ClosedBook(b, c, hash, plan)
    ensures Committed(b, after) == PastTheCommit(after)
  {
    assert |after.txns| > |b.txns|;
  }

  lemma ClosingKeepsTheBookValid(b: Book, c: ClosePeriod)
    requires Valid(b)
    ensures Valid(CloseOutcome(b, c, CanonicalClose(c)).book)
  {
    CloseFormsAreTagged(c);
    ClosingUnderItsTag(b, c, CanonicalClose(c));
  }
}
