/** What a posting does, in full: every answer it may be given, and everything an accepted
    one stores, over the command's own fields and the book's own rows. */
module PostingInFull {
  import opened Wrappers
  import opened Bytes
  import opened Domain
  import opened Postings
  import opened KeyOrder
  import opened Port
  import opened Book
  import opened BookInvariants
  import opened AppendStatement
  import opened Writer
  import opened WriterInvariants
  import opened InFull

  // ---- the answer, condition by condition ------------------------------

  /** RFC 3339 (section 5.6) at the caller's own offset: a year from 0 to 9999, an offset of
      whole minutes short of a day. */
  predicate HasAText(at: OffsetDateTime)
  {
    && -62_167_219_200_000_000_000 <= at.utc + at.offset * 1_000_000_000 < 253_402_300_800_000_000_000
    && -86_400 < at.offset < 86_400 && at.offset % 60 == 0
  }

  ghost predicate ASideIsTooLarge(postings: seq<Posting>)
  {
    exists account: nat, currency :: TakenOut(postings, account, currency) >= TOO_LARGE || PutIn(postings, account, currency) >= TOO_LARGE
  }

  /** What a reversal moves: its target's entries, the sides swapped. */
  ghost function GivenBack(txns: seq<Txn>, id: nat, account: nat, currency: Text, direction: Direction): int
  {
    if i: nat :| IsAt(txns, id, i) && txns[i].status == TransactionStatus.Posted
    then Entered(txns[i].entries, account, currency, if direction == Debit then Credit else Debit)
    else 0
  }

  /** What the command would add to one side of one row: nothing while it is pending. */
  ghost function Adds(b: Book, c: PostTransaction, account: nat, currency: Text, direction: Direction): int
  {
    if c.status == TransactionStatus.Pending then 0
    else if c.reversesId.Some? then GivenBack(b.txns, c.reversesId.value, account, currency, direction)
    else if direction == Debit then PutIn(c.postings, account, currency)
    else TakenOut(c.postings, account, currency)
  }

  /** An account's balance cannot hold what the command would add to it. */
  ghost predicate CannotBeHeld(b: Book, c: PostTransaction, account: nat, currency: Text)
  {
    IsAnAccount(b, account, currency)
    && (InputOf(b.balances, account, currency) + Adds(b, c, account, currency, Debit) >= TOO_LARGE
        || OutputOf(b.balances, account, currency) + Adds(b, c, account, currency, Credit) >= TOO_LARGE)
  }

  /** A posting names the account in the currency, on either side. */
  predicate IsNamed(postings: seq<Posting>, account: nat, currency: Text)
  {
    exists k :: 0 <= k < |postings| && postings[k].currency == currency && (postings[k].source == account || postings[k].destination == account)
  }

  ghost predicate IsMissing(b: Book, c: PostTransaction, account: nat, currency: Text)
  {
    c.reversesId.None? && IsNamed(c.postings, account, currency) && !IsAnAccount(b, account, currency)
  }

  /** The transaction an event led to. */
  predicate IsTheTransactionOf(txns: seq<Txn>, eventId: nat, id: Option<nat>)
  {
    exists i :: 0 <= i < |txns| && txns[i].eventId == eventId && id == Some(txns[i].id)
  }

  /** The answer a held key is given: its own body's result again, or the reuse. */
  ghost predicate IsTheHeldKeysAnswer(b: Book, c: PostTransaction, answer: PostAnswer)
    requires c.idempotencyKey in b.events
  {
    var claim := b.events[c.idempotencyKey];
    if CanonicalPost(c) == Some(claim.hash) then
      answer.Ok? && answer.value.eventId == claim.id && answer.value.replayed && IsTheTransactionOf(b.txns, claim.id, answer.value.transactionId)
    else answer == Err(WriteError.KeyReused)
  }

  /** Why the transaction a resolution names cannot be resolved. */
  ghost predicate IsTheResolutionsRefusal(b: Book, id: nat, answer: PostAnswer)
  {
    if !exists i: nat :: IsAt(b.txns, id, i) then answer == Err(WriteError.ResolveTargetUnknown(id))
    else if !exists i: nat :: IsAt(b.txns, id, i) && b.txns[i].status == TransactionStatus.Pending then answer == Err(WriteError.ResolveTargetNotPending(id))
    else IsTaken(b.txns, id) && answer == Err(WriteError.TargetAlreadySuperseded(id))
  }

  /** Why the transaction a reversal names cannot be reversed. */
  ghost predicate IsTheReversalsRefusal(b: Book, id: nat, answer: PostAnswer)
  {
    if !exists i: nat :: IsAt(b.txns, id, i) then answer == Err(WriteError.ReverseTargetUnknown(id))
    else if !exists i: nat :: IsAt(b.txns, id, i) && b.txns[i].kind == OrdinaryPosting && b.txns[i].resolvesId.None? && b.txns[i].reversesId.None?
      then answer == Err(WriteError.ReverseTargetNotReversible(id))
    else IsTaken(b.txns, id) && answer == Err(WriteError.TargetAlreadySuperseded(id))
  }

  ghost predicate MayResolve(b: Book, id: nat)
  {
    !IsTaken(b.txns, id) && exists i: nat :: IsAt(b.txns, id, i) && b.txns[i].status == TransactionStatus.Pending
  }

  ghost predicate MayReverse(b: Book, id: nat)
  {
    && !IsTaken(b.txns, id)
    && exists i: nat :: IsAt(b.txns, id, i) && b.txns[i].kind == OrdinaryPosting && b.txns[i].resolvesId.None? && b.txns[i].reversesId.None?
  }

  /** The least missing account, in the order the rows are taken. */
  ghost predicate IsTheMissingAccount(b: Book, c: PostTransaction, row: Key)
  {
    && IsMissing(b, c, row.account, row.currency)
    && forall account: nat, currency :: IsMissing(b, c, account, currency) && Key(account, currency) != row
         ==> ComesBefore(row.account, row.currency, account, currency)
  }

  /** The answer to a posting, whatever the book: the first of these conditions that holds
      decides it. */
  ghost predicate IsTheAnswer(b: Book, c: PostTransaction, answer: PostAnswer)
  {
    if c.effectiveAt.Some? && !HasAText(c.effectiveAt.value) then answer == Err(WriteError.Internal)
    else if ASideIsTooLarge(c.postings) then answer == Err(WriteError.Overflow)
    else if c.idempotencyKey in b.events then IsTheHeldKeysAnswer(b, c, answer)
    else if exists account: nat, currency :: CannotBeHeld(b, c, account, currency) then answer == Err(WriteError.Storage)
    else if c.resolvesId.Some? && !MayResolve(b, c.resolvesId.value) then IsTheResolutionsRefusal(b, c.resolvesId.value, answer)
    else if c.reversesId.Some? && !MayReverse(b, c.reversesId.value) then IsTheReversalsRefusal(b, c.reversesId.value, answer)
    else if exists account: nat, currency :: IsMissing(b, c, account, currency) then
      answer.Err? && answer.error.AccountUnknown? && IsTheMissingAccount(b, c, answer.error.row)
    else answer == Ok(Port.Posted(b.nextId, Some(b.nextId + 1), false))
  }

  // ---- the sums agree --------------------------------------------------

  lemma OverflowIsASide(postings: seq<Posting>)
    ensures ASideIsTooLarge(postings) <==> Overflows(LegsOf(postings))
  {
    if ASideIsTooLarge(postings) {
      var account: nat, currency :| TakenOut(postings, account, currency) >= TOO_LARGE || PutIn(postings, account, currency) >= TOO_LARGE;
      LegsTotalWhatPostingsMove(postings, account, currency);
      assert Total(LegsOf(postings), Key(account, currency), Credit) >= I64_LIMIT || Total(LegsOf(postings), Key(account, currency), Debit) >= I64_LIMIT;
    }
    if Overflows(LegsOf(postings)) {
      var row, direction :| Total(LegsOf(postings), row, direction) >= I64_LIMIT;
      LegsTotalWhatPostingsMove(postings, row.account, row.currency);
      assert direction == Debit || direction == Credit;
      assert TakenOut(postings, row.account, row.currency) >= TOO_LARGE || PutIn(postings, row.account, row.currency) >= TOO_LARGE;
    }
  }

  lemma OneIdOnePlace(b: Book, id: nat, i: nat, j: nat)
    requires TxnIdsAreFresh(b.txns, b.nextId, b.nextXact) && IsAt(b.txns, id, i) && IsAt(b.txns, id, j)
    ensures i == j
  {
  }

  lemma WhatStandsThere(b: Book, id: nat)
    requires TxnIdsAreFresh(b.txns, b.nextId, b.nextXact)
    ensures FindTxn(b.txns, id).Some? <==> exists i: nat :: IsAt(b.txns, id, i)
    ensures forall i: nat :: IsAt(b.txns, id, i) ==> FindTxn(b.txns, id) == Some(b.txns[i])
  {
    FindTxnFinds(b.txns, id);
    forall i: nat | IsAt(b.txns, id, i) ensures FindTxn(b.txns, id) == Some(b.txns[i]) {
      var j :| 0 <= j < |b.txns| && b.txns[j] == FindTxn(b.txns, id).value && b.txns[j].id == id;
      OneIdOnePlace(b, id, i, j);
    }
    if FindTxn(b.txns, id).Some? {
      var j :| 0 <= j < |b.txns| && b.txns[j] == FindTxn(b.txns, id).value && b.txns[j].id == id;
      assert IsAt(b.txns, id, j);
    }
  }

  lemma TakenIsSuperseded(txns: seq<Txn>, id: nat)
    requires SupersessionIsOneDeep(txns)
    ensures IsTaken(txns, id) <==> IsSuperseded(txns, id)
  {
    if IsTaken(txns, id) {
      var i :| 0 <= i < |txns| && (txns[i].resolvesId == Some(id) || txns[i].reversesId == Some(id));
      assert txns[i].Supersedes() == Some(id);
    }
  }

  lemma TheStatementsLegsTotal(b: Book, c: PostTransaction, account: nat, currency: Text, direction: Direction)
    requires TxnIdsAreFresh(b.txns, b.nextId, b.nextXact) && c.WellFormed() && c.status.Posted?
    ensures Total(StatementLegs(b, c), Key(account, currency), direction) == Adds(b, c, account, currency, direction)
  {
    if c.reversesId.None? {
      LegsTotalWhatPostingsMove(c.postings, account, currency);
    } else {
      AReversalsLegsTotal(b, c.reversesId.value, c, account, currency, direction);
    }
  }

  lemma AReversalsLegsTotal(b: Book, id: nat, c: PostTransaction, account: nat, currency: Text, direction: Direction)
    requires TxnIdsAreFresh(b.txns, b.nextId, b.nextXact) && c.WellFormed() && c.reversesId == Some(id)
    ensures Total(StatementLegs(b, c), Key(account, currency), direction) == GivenBack(b.txns, id, account, currency, direction)
  {
    WhatStandsThere(b, id);
    if i: nat :| IsAt(b.txns, id, i) && b.txns[i].status == TransactionStatus.Posted {
      MirroringSwapsTheSides(LegsIn(b.txns[i].entries), Key(account, currency));
      LegsTotalWhatIsEntered(b.txns[i].entries, account, currency, Debit);
      LegsTotalWhatIsEntered(b.txns[i].entries, account, currency, Credit);
      GivenBackIsTheTargets(b, id, i, account, currency, direction);
    }
  }

  lemma GivenBackIsTheTargets(b: Book, id: nat, i: nat, account: nat, currency: Text, direction: Direction)
    requires TxnIdsAreFresh(b.txns, b.nextId, b.nextXact) && IsAt(b.txns, id, i) && b.txns[i].status == TransactionStatus.Posted
    ensures GivenBack(b.txns, id, account, currency, direction)
         == Entered(b.txns[i].entries, account, currency, if direction == Debit then Credit else Debit)
  {
    forall j: nat | IsAt(b.txns, id, j) ensures j == i {
      OneIdOnePlace(b, id, i, j);
    }
  }

  /** One row after the statement's upserts. */
  lemma TheRowAfterwards(b: Book, c: PostTransaction, account: nat, currency: Text)
    requires TxnIdsAreFresh(b.txns, b.nextId, b.nextXact) && c.WellFormed()
    ensures var after := BalanceOn(Upserted(b.balances, KnownLegs(b.accounts, StatementLegs(b, c)), c.status), Key(account, currency));
            if IsAnAccount(b, account, currency) then
              && after.input == InputOf(b.balances, account, currency) + Adds(b, c, account, currency, Debit)
              && after.output == OutputOf(b.balances, account, currency) + Adds(b, c, account, currency, Credit)
            else after == BalanceOn(b.balances, Key(account, currency))
  {
    var legs, row := StatementLegs(b, c), Key(account, currency);
    UpsertOnOneRow(b.balances, KnownLegs(b.accounts, legs), c.status, row);
    KnownLegsKeepKnownRows(b.accounts, legs, row);
    TheRowHolds(b.balances, account, currency);
    if c.status.Posted? {
      TheStatementsLegsTotal(b, c, account, currency, Debit);
      TheStatementsLegsTotal(b, c, account, currency, Credit);
    }
  }

  lemma WhetherItCanBeHeld(b: Book, c: PostTransaction)
    requires ValidStaged(b) && c.WellFormed()
    ensures Fits(Upserted(b.balances, KnownLegs(b.accounts, StatementLegs(b, c)), c.status))
            <==> !exists account: nat, currency :: CannotBeHeld(b, c, account, currency)
  {
    var after := Upserted(b.balances, KnownLegs(b.accounts, StatementLegs(b, c)), c.status);
    if account: nat, currency :| CannotBeHeld(b, c, account, currency) {
      TheRowAfterwards(b, c, account, currency);
      assert BalanceOn(after, Key(account, currency)).input >= I64_LIMIT || BalanceOn(after, Key(account, currency)).output >= I64_LIMIT;
    } else {
      forall row | row in after ensures BalanceOn(after, row).input < I64_LIMIT && BalanceOn(after, row).output < I64_LIMIT {
        TheRowAfterwards(b, c, row.account, row.currency);
        assert !CannotBeHeld(b, c, row.account, row.currency);
        assert BalanceOn(b.balances, row).input < I64_LIMIT && BalanceOn(b.balances, row).output < I64_LIMIT;
      }
    }
  }

  // ---- the refusals agree ----------------------------------------------

  lemma AResolutionsGate(b: Book, c: PostTransaction, id: nat)
    requires ValidStaged(b) && c.resolvesId == Some(id)
    ensures Gate(b, c).None? <==> MayResolve(b, id)
    ensures Gate(b, c).Some? ==> IsTheResolutionsRefusal(b, id, Err(Named(Gate(b, c).value, c)))
  {
    WhatStandsThere(b, id);
    TakenIsSuperseded(b.txns, id);
  }

  lemma AReversalsGate(b: Book, c: PostTransaction, id: nat)
    requires ValidStaged(b) && c.resolvesId.None? && c.reversesId == Some(id)
    ensures Gate(b, c).None? <==> MayReverse(b, id)
    ensures Gate(b, c).Some? ==> IsTheReversalsRefusal(b, id, Err(Named(Gate(b, c).value, c)))
  {
    WhatStandsThere(b, id);
    TakenIsSuperseded(b.txns, id);
  }

  lemma TheGateIsTheseConditions(b: Book, c: PostTransaction)
    requires ValidStaged(b) && c.WellFormed()
    ensures Gate(b, c).None? <==> (c.resolvesId.Some? ==> MayResolve(b, c.resolvesId.value)) && (c.reversesId.Some? ==> MayReverse(b, c.reversesId.value))
    ensures Gate(b, c).Some? && c.resolvesId.Some? ==> IsTheResolutionsRefusal(b, c.resolvesId.value, Err(Named(Gate(b, c).value, c)))
    ensures Gate(b, c).Some? && c.reversesId.Some? ==> IsTheReversalsRefusal(b, c.reversesId.value, Err(Named(Gate(b, c).value, c)))
  {
    if c.resolvesId.Some? {
      AResolutionsGate(b, c, c.resolvesId.value);
    } else if c.reversesId.Some? {
      AReversalsGate(b, c, c.reversesId.value);
    }
  }

  lemma {:induction false} NamedIsARow(postings: seq<Posting>, account: nat, currency: Text)
    ensures IsNamed(postings, account, currency) <==> Key(account, currency) in KeysOf(LegsOf(postings))
    decreases |postings|
  {
    var row, legs := Key(account, currency), LegsOf(postings);
    if IsNamed(postings, account, currency) {
      var k :| 0 <= k < |postings| && postings[k].currency == currency && (postings[k].source == account || postings[k].destination == account);
      EachPostingIsTwoLegs(postings, k);
      assert legs[if postings[k].source == account then 2 * k else 2 * k + 1].Row() == row;
    }
    if row in KeysOf(legs) {
      var i :| 0 <= i < |legs| && legs[i].Row() == row;
      if postings != [] {
        EachPostingIsTwoLegs(postings, 0);
        EachPostingIsTwoLegs(postings, i / 2);
        assert i == 2 * (i / 2) || i == 2 * (i / 2) + 1;
      }
    }
  }

  lemma MissingIsUnknown(b: Book, c: PostTransaction, account: nat, currency: Text)
    requires c.reversesId.None?
    ensures IsMissing(b, c, account, currency) <==> Key(account, currency) in MissingRows(b.accounts, LegsOf(c.postings))
  {
    NamedIsARow(c.postings, account, currency);
  }

  lemma TheUnknownIsTheMissing(b: Book, c: PostTransaction)
    requires c.reversesId.None?
    ensures AllKnown(b.accounts, LegsOf(c.postings)) <==> !exists account: nat, currency :: IsMissing(b, c, account, currency)
    ensures !AllKnown(b.accounts, LegsOf(c.postings)) ==> IsTheMissingAccount(b, c, FirstUnknown(b.accounts, LegsOf(c.postings)).value)
  {
    var legs := LegsOf(c.postings);
    var missing := MissingRows(b.accounts, legs);
    NothingMissingMeansAllKnown(b.accounts, legs);
    forall account: nat, currency ensures IsMissing(b, c, account, currency) <==> Key(account, currency) in missing {
      MissingIsUnknown(b, c, account, currency);
    }
    if missing != {} {
      var row := FirstUnknown(b.accounts, legs).value;
      assert IsLeast(row, missing) && IsMissing(b, c, row.account, row.currency);
      forall account: nat, currency | IsMissing(b, c, account, currency) && Key(account, currency) != row
        ensures ComesBefore(row.account, row.currency, account, currency) {
        ComesBeforeIsPrecedes(row, Key(account, currency));
      }
    }
  }

  // ---- the answer ------------------------------------------------------

  lemma {:induction false} WhatAnEventLedTo(txns: seq<Txn>, eventId: nat)
    ensures TxnOfEvent(txns, eventId).Some? ==> IsTheTransactionOf(txns, eventId, TxnOfEvent(txns, eventId))
    decreases |txns|
  {
    if txns != [] && txns[|txns| - 1].eventId != eventId && TxnOfEvent(txns, eventId).Some? {
      var front := txns[..|txns| - 1];
      WhatAnEventLedTo(front, eventId);
      var i :| 0 <= i < |front| && front[i].eventId == eventId && TxnOfEvent(front, eventId) == Some(front[i].id);
      assert txns[i] == front[i];
    }
  }

  lemma AHeldKeysAnswer(b: Book, c: PostTransaction)
    requires ValidStaged(b) && c.WellFormed() && c.idempotencyKey in b.events && !PlanFails(PlanFor(c))
    ensures IsTheHeldKeysAnswer(b, c, PostOutcome(b, PlanFor(c)).answer)
  {
    var claim := b.events[c.idempotencyKey];
    assert LeadsSomewhere(claim, b.txns, b.register, b.periods);
    assert PostOutcome(b, PlanFor(c)).answer == Replayed(StoredResult(b, PlanFor(c)));
    if claim.hash == HashOf(c) {
      WhatAnEventLedTo(b.txns, claim.id);
    }
  }

  /** A free key: what is asked of the totals, of the target and of the accounts. */
  /** What the single statement leaves to be recorded, if it may. */
  ghost function RecordedFor(b: Book, c: PostTransaction, p: Planned): Book
  {
    Record(b, p.Key(), p.hash, ShapeOf(b, c), KnownLegs(b.accounts, StatementLegs(b, c)))
  }

  lemma AFreeKeyIsClaimed(b: Book, c: PostTransaction, p: Planned)
    requires p.command == c && c.idempotencyKey !in b.events && !PlanFails(p)
    ensures ClaimAndAppend(b, p) == AfterTheUpserts(b, c, RecordedFor(b, c, p))
    ensures PostOutcome(b, p) == AfterTheClaim(b, p, AfterTheUpserts(b, c, RecordedFor(b, c, p)))
    ensures RecordedFor(b, c, p).balances == Upserted(b.balances, KnownLegs(b.accounts, StatementLegs(b, c)), c.status)
  {
  }

  lemma AStatementThatMayNotGoOn(b: Book, c: PostTransaction, p: Planned, recorded: Book)
    requires p.command == c
    ensures var o := AfterTheClaim(b, p, AfterTheUpserts(b, c, recorded)).answer;
            && (!Fits(recorded.balances) ==> o == Err(WriteError.Storage))
            && (Fits(recorded.balances) && Gate(b, c).Some? ==> o == Err(Named(Gate(b, c).value, c)))
  {
  }

  lemma AStatementThatGoesOn(b: Book, c: PostTransaction, p: Planned, recorded: Book)
    requires c.WellFormed() && p == PlanFor(c) && Fits(recorded.balances) && Gate(b, c).None?
    ensures var o := AfterTheClaim(b, p, AfterTheUpserts(b, c, recorded)).answer;
            if c.reversesId.None? && !AllKnown(b.accounts, LegsOf(c.postings)) then
              o == Err(WriteError.AccountUnknown(FirstUnknown(b.accounts, LegsOf(c.postings)).value))
            else o == Ok(Port.Posted(b.nextId, Some(b.nextId + 1), false))
  {
    TheStatementAppends(b, c, recorded);
    TheRefusalNamesTheLeastUnknownAccount(b, recorded.balances, StatementLegs(b, c));
  }

  lemma AFreeKeysAnswer(b: Book, c: PostTransaction, p: Planned)
    requires ValidStaged(b) && c.WellFormed() && p == PlanFor(c) && c.idempotencyKey !in b.events && !PlanFails(p)
    ensures var o := PostOutcome(b, p).answer;
            if !Fits(Upserted(b.balances, KnownLegs(b.accounts, StatementLegs(b, c)), c.status)) then o == Err(WriteError.Storage)
            else if Gate(b, c).Some? then o == Err(Named(Gate(b, c).value, c))
            else if c.reversesId.None? && !AllKnown(b.accounts, LegsOf(c.postings)) then
              o == Err(WriteError.AccountUnknown(FirstUnknown(b.accounts, LegsOf(c.postings)).value))
            else o == Ok(Port.Posted(b.nextId, Some(b.nextId + 1), false))
  {
    var recorded := RecordedFor(b, c, p);
    AFreeKeyIsClaimed(b, c, p);
    AStatementThatMayNotGoOn(b, c, p, recorded);
    if Fits(recorded.balances) && Gate(b, c).None? {
      AStatementThatGoesOn(b, c, p, recorded);
    }
  }

  lemma PlansFailOnTheseConditions(c: PostTransaction)
    requires c.WellFormed()
    ensures PlanFails(PlanFor(c)) <==> (c.effectiveAt.Some? && !HasAText(c.effectiveAt.value)) || ASideIsTooLarge(c.postings)
    ensures PlanRefusal(PlanFor(c)) == if c.effectiveAt.Some? && !HasAText(c.effectiveAt.value) then WriteError.Internal else WriteError.Overflow
  {
    OverflowIsASide(c.postings);
  }

  lemma TheFirstThatHolds(b: Book, c: PostTransaction, answer: PostAnswer)
    requires ValidStaged(b) && c.WellFormed() && c.idempotencyKey !in b.events
    requires !(c.effectiveAt.Some? && !HasAText(c.effectiveAt.value)) && !ASideIsTooLarge(c.postings)
    requires if !Fits(Upserted(b.balances, KnownLegs(b.accounts, StatementLegs(b, c)), c.status)) then answer == Err(WriteError.Storage)
             else if Gate(b, c).Some? then answer == Err(Named(Gate(b, c).value, c))
             else if c.reversesId.None? && !AllKnown(b.accounts, LegsOf(c.postings)) then
               answer == Err(WriteError.AccountUnknown(FirstUnknown(b.accounts, LegsOf(c.postings)).value))
             else answer == Ok(Port.Posted(b.nextId, Some(b.nextId + 1), false))
    ensures IsTheAnswer(b, c, answer)
  {
    WhetherItCanBeHeld(b, c);
    TheGateIsTheseConditions(b, c);
    if c.reversesId.None? {
      TheUnknownIsTheMissing(b, c);
    }
  }

  /** Whatever the valid book, a posting is answered by the first condition that holds of
      it: the text of its date, its own totals, its key, the balances, its target, its
      accounts. */
  lemma APostIsAnsweredInFull(b: Book, c: PostTransaction)
    requires ValidStaged(b) && c.WellFormed()
    ensures IsTheAnswer(b, c, PostOutcome(b, PlanFor(c)).answer)
  {
    var p := PlanFor(c);
    PlansFailOnTheseConditions(c);
    if !PlanFails(p) {
      if c.idempotencyKey in b.events {
        AHeldKeysAnswer(b, c);
      } else {
        AFreeKeysAnswer(b, c, p);
        TheFirstThatHolds(b, c, PostOutcome(b, p).answer);
      }
    }
  }

  // ---- what is stored --------------------------------------------------

  /** The entries are the target's, each on its other side; a target that was pending has
      none to give back. */
  predicate AreTheMirror(entries: seq<Entry>, target: Txn)
  {
    && |entries| == (if target.status == TransactionStatus.Posted then |target.entries| else 0)
    && forall k :: 0 <= k < |entries| ==>
         var leg := target.entries[k].leg;
         entries[k].leg == Leg(leg.account, leg.currency, if leg.direction == Debit then Credit else Debit, leg.amountMinor)
  }

  /** The caller's own date, or the one of the transaction it reverses. */
  predicate IsDated(b: Book, c: PostTransaction, at: Instant)
  {
    if c.effectiveAt.Some? then at == c.effectiveAt.value.utc
    else c.reversesId.Some? && exists i :: 0 <= i < |b.txns| && b.txns[i].id == c.reversesId.value && at == b.txns[i].effectiveAt
  }

  ghost predicate IsTheTransaction(b: Book, c: PostTransaction, t: Txn)
  {
    && t.id == b.nextId + 1 && t.eventId == b.nextId && t.xactId == b.nextXact
    && t.kind == OrdinaryPosting && t.status == c.status && t.resolvesId == c.resolvesId && t.reversesId == c.reversesId
    && IsDated(b, c, t.effectiveAt)
    && (c.reversesId.None? ==> AreThePostings(t.entries, c.postings))
    && (c.reversesId.Some? ==> exists i :: 0 <= i < |b.txns| && b.txns[i].id == c.reversesId.value && AreTheMirror(t.entries, b.txns[i]))
    && AreNumberedFrom(t.entries, b.balances)
  }

  /** Every row moves by what the command adds to it, and counts its entries. */
  ghost predicate HasMoved(b: Book, c: PostTransaction, t: Txn, after: Book, account: nat, currency: Text)
  {
    && InputOf(after.balances, account, currency) == InputOf(b.balances, account, currency) + Adds(b, c, account, currency, Debit)
    && OutputOf(after.balances, account, currency) == OutputOf(b.balances, account, currency) + Adds(b, c, account, currency, Credit)
    && CounterOf(after.balances, account, currency)
       == CounterOf(b.balances, account, currency) + |PlacesOn(t.entries, |t.entries|, account, currency)|
  }

  /** The book with the posting in it, and nothing else changed. */
  ghost predicate IsStored(b: Book, c: PostTransaction, after: Book)
  {
    && |after.txns| == |b.txns| + 1 && after.txns[..|b.txns|] == b.txns && IsTheTransaction(b, c, after.txns[|b.txns|])
    && (forall account: nat, currency :: HasMoved(b, c, after.txns[|b.txns|], after, account, currency))
    && CanonicalPost(c).Some? && after.events == b.events[c.idempotencyKey := Event(b.nextId, CanonicalPost(c).value)]
    && after.accounts == b.accounts && after.register == b.register && after.periods == b.periods && after.closes == b.closes
    && after.nextId == b.nextId + 2 && after.nextXact == b.nextXact + 1
  }

  lemma ItsEntriesAre(b: Book, c: PostTransaction, entries: seq<Entry>)
    requires ValidStaged(b) && c.WellFormed() && Gate(b, c).None? && entries == Numbered(b.balances, StatementLegs(b, c))
    ensures c.reversesId.None? ==> AreThePostings(entries, c.postings)
    ensures c.reversesId.Some? ==> exists i :: 0 <= i < |b.txns| && b.txns[i].id == c.reversesId.value && AreTheMirror(entries, b.txns[i])
    ensures IsDated(b, c, EffectiveAt(b, c))
  {
    LegsOfNumbered(b.balances, StatementLegs(b, c));
    if c.reversesId.None? {
      LegsOfPostingsAreThePostings(entries, c.postings);
    } else {
      FindTxnFinds(b.txns, c.reversesId.value);
      var i :| 0 <= i < |b.txns| && b.txns[i] == FindTxn(b.txns, c.reversesId.value).value && b.txns[i].id == c.reversesId.value;
      forall k | 0 <= k < |entries| ensures entries[k].leg == StatementLegs(b, c)[k] {
        assert LegsIn(entries)[k] == entries[k].leg;
      }
      assert AreTheMirror(entries, b.txns[i]);
    }
  }

  lemma ItsCountersMove(b: Book, legs: seq<Leg>, status: TransactionStatus, account: nat, currency: Text)
    ensures CounterOf(Upserted(b.balances, legs, status), account, currency)
         == CounterOf(b.balances, account, currency) + |PlacesOn(Numbered(b.balances, legs), |legs|, account, currency)|
  {
    var entries := Numbered(b.balances, legs);
    LegsOfNumbered(b.balances, legs);
    PlacesAreCounted(entries, |entries|, account, currency);
    assert LegsIn(entries)[..|entries|] == legs;
    UpsertOnOneRow(b.balances, legs, status, Key(account, currency));
    TheRowHolds(b.balances, account, currency);
    TheRowHolds(Upserted(b.balances, legs, status), account, currency);
  }

  lemma ItsSidesMove(b: Book, c: PostTransaction, account: nat, currency: Text)
    requires ValidStaged(b) && c.WellFormed()
    ensures var after := Upserted(b.balances, StatementLegs(b, c), c.status);
            && InputOf(after, account, currency) == InputOf(b.balances, account, currency) + Adds(b, c, account, currency, Debit)
            && OutputOf(after, account, currency) == OutputOf(b.balances, account, currency) + Adds(b, c, account, currency, Credit)
  {
    UpsertOnOneRow(b.balances, StatementLegs(b, c), c.status, Key(account, currency));
    TheRowHolds(b.balances, account, currency);
    TheRowHolds(Upserted(b.balances, StatementLegs(b, c), c.status), account, currency);
    if c.status.Posted? {
      TheStatementsLegsTotal(b, c, account, currency, Debit);
      TheStatementsLegsTotal(b, c, account, currency, Credit);
    }
  }

  /** An accepted posting is stored: its own date and pointers, its own entries numbered on
      from each row's counter, every row moved by what its postings move, its claim; and
      nothing else changes. Anything but an acceptance changes nothing. */
  lemma AnAcceptedPostIsStoredInFull(b: Book, c: PostTransaction)
    requires ValidStaged(b) && c.WellFormed()
    ensures var o := PostOutcome(b, PlanFor(c));
            if o.answer.Ok? && !o.answer.value.replayed then IsStored(b, c, o.book) else o.book == b
  {
    var p := PlanFor(c);
    WhatAPostMeans(b, p);
    if IsFreshPost(PostOutcome(b, p).answer) {
      WhatIsWritten(b, c, p, PostOutcome(b, p).book);
    }
  }

  lemma WhatIsWritten(b: Book, c: PostTransaction, p: Planned, after: Book)
    requires ValidStaged(b) && c.WellFormed() && p == PlanFor(c) && CanBeWritten(b, p) && after == Committed(b, Written(b, p))
    ensures IsStored(b, c, after)
  {
    var t := TxnOf(b, ShapeOf(b, c), StatementLegs(b, c));
    assert after == PastTheCommit(Written(b, p)) && after.txns == b.txns + [t];
    ItsEntriesAre(b, c, t.entries);
    NumberedIsNumberedFrom(b.balances, StatementLegs(b, c));
    forall account: nat, currency ensures HasMoved(b, c, after.txns[|b.txns|], after, account, currency) {
      ItsCountersMove(b, StatementLegs(b, c), c.status, account, currency);
      ItsSidesMove(b, c, account, currency);
    }
  }
}
