/** What closing a period does, in full: every answer it may be given, what it sweeps where,
    and everything an accepted one stores. */
module ClosingInFull {
  import opened Wrappers
  import opened Bytes
  import opened Domain
  import opened Accounts
  import opened Periods
  import opened Postings
  import opened KeyOrder
  import opened Port
  import opened Book
  import opened BookInvariants
  import opened Closing
  import opened Writer
  import opened CloseExactness
  import opened InFull
  import PostingInFull
  import Order

  // ---- positions -------------------------------------------------------

  /** A posted transaction dated before an instant. */
  predicate IsCounted(t: Txn, before: Instant)
  {
    t.status == TransactionStatus.Posted && t.effectiveAt < before
  }

  /** One side of one account, over everything posted and dated before an instant. */
  function SideAt(txns: seq<Txn>, before: Instant, account: nat, currency: Text, direction: Direction): int
  {
    if txns == [] then 0 else
    var t := txns[|txns| - 1];
    SideAt(txns[..|txns| - 1], before, account, currency, direction)
      + if IsCounted(t, before) then Entered(t.entries, account, currency, direction) else 0
  }

  /** The debit-positive position. */
  function PositionAt(txns: seq<Txn>, before: Instant, account: nat, currency: Text): int
  {
    SideAt(txns, before, account, currency, Debit) - SideAt(txns, before, account, currency, Credit)
  }

  /** Some counted entry is on the account, in the currency. */
  ghost predicate IsTouched(txns: seq<Txn>, before: Instant, account: nat, currency: Text)
  {
    exists t :: t in txns && IsCounted(t, before) && IsOn(t.entries, account, currency)
  }

  predicate IsOn(entries: seq<Entry>, account: nat, currency: Text)
  {
    exists k :: 0 <= k < |entries| && entries[k].leg.account == account && entries[k].leg.currency == currency
  }

  // ---- the sweep -------------------------------------------------------

  /** Revenue and expense are what a close sweeps; assets, liabilities and equity it
      leaves. */
  predicate IsSweptCategory(b: Book, account: nat)
  {
    account in b.accounts && (b.accounts[account].triple.category == Revenue || b.accounts[account].triple.category == Expense)
  }

  /** The house's own retained earnings in the currency. */
  predicate IsTheDestination(b: Book, currency: Text, account: nat)
  {
    account in b.accounts && b.accounts[account].nature == Nature(House, None, Ascii("retained_earnings"), currency)
  }

  ghost predicate IsSwept(b: Book, before: Instant, currency: Text, destination: nat, account: nat)
  {
    IsSweptCategory(b, account) && account != destination && PositionAt(b.txns, before, account, currency) != 0
  }

  /** Exactly the accounts that are swept, ascending, each with its position. */
  ghost predicate IsTheSweep(b: Book, before: Instant, currency: Text, destination: nat, swept: seq<SweptPosition>)
  {
    && (forall i, j :: 0 <= i < j < |swept| ==> swept[i].accountId < swept[j].accountId)
    && (forall i :: 0 <= i < |swept| ==> IsSwept(b, before, currency, destination, swept[i].accountId)
                                         && swept[i].positionMinor == PositionAt(b.txns, before, swept[i].accountId, currency))
    && (forall account: nat :: IsSwept(b, before, currency, destination, account) ==> exists i :: 0 <= i < |swept| && swept[i].accountId == account)
  }

  /** The legs of a sweep: each position out of its account, and then each into the
      destination. */
  predicate AreTheSweeps(entries: seq<Entry>, swept: seq<SweptPosition>, currency: Text, destination: nat)
  {
    |entries| == 2 * |swept| && forall k :: 0 <= k < |swept| ==> AreOneSweeps(entries[k].leg, entries[|swept| + k].leg, swept[k], currency, destination)
  }

  predicate AreOneSweeps(out: Leg, into: Leg, s: SweptPosition, currency: Text, destination: nat)
  {
    var size := if s.positionMinor < 0 then -s.positionMinor else s.positionMinor;
    && out == Leg(s.accountId, currency, if s.positionMinor > 0 then Credit else Debit, size)
    && into == Leg(destination, currency, if s.positionMinor > 0 then Debit else Credit, size)
  }

  // ---- the sums agree --------------------------------------------------

  lemma {:induction false} CountedIsAdmitted(txns: seq<Txn>, bound: Bound, before: Instant, account: nat, currency: Text, direction: Direction)
    requires forall t :: t in txns ==> bound.Admits(t) == IsCounted(t, before)
    ensures Total(LegsWhere(txns, bound), Key(account, currency), direction) == SideAt(txns, before, account, currency, direction)
    decreases |txns|
  {
    if txns != [] {
      var front, t := txns[..|txns| - 1], txns[|txns| - 1];
      assert t in txns;
      CountedIsAdmitted(front, bound, before, account, currency, direction);
      TotalConcat(LegsWhere(front, bound), if bound.Admits(t) then LegsIn(t.entries) else [], Key(account, currency), direction);
      LegsTotalWhatIsEntered(t.entries, account, currency, direction);
    }
  }

  lemma OnIsAKey(entries: seq<Entry>, account: nat, currency: Text)
    ensures IsOn(entries, account, currency) <==> Key(account, currency) in KeysOf(LegsIn(entries))
  {
    if IsOn(entries, account, currency) {
      var k :| 0 <= k < |entries| && entries[k].leg.account == account && entries[k].leg.currency == currency;
      assert LegsIn(entries)[k].Row() == Key(account, currency);
    }
  }

  lemma {:induction false} TouchedIsAKey(txns: seq<Txn>, bound: Bound, before: Instant, account: nat, currency: Text)
    requires forall t :: t in txns ==> bound.Admits(t) == IsCounted(t, before)
    ensures Key(account, currency) in KeysOf(LegsWhere(txns, bound)) <==> IsTouched(txns, before, account, currency)
    decreases |txns|
  {
    if txns != [] {
      var front, t := txns[..|txns| - 1], txns[|txns| - 1];
      assert t in txns && txns == front + [t];
      TouchedIsAKey(front, bound, before, account, currency);
      KeysConcat(LegsWhere(front, bound), if bound.Admits(t) then LegsIn(t.entries) else []);
      OnIsAKey(t.entries, account, currency);
    }
  }

  lemma AtTheCursorEverythingCounts(b: Book, before: Instant)
    requires forall i :: 0 <= i < |b.txns| ==> b.txns[i].xactId < b.nextXact
    ensures forall t :: t in b.txns ==> Admitted(before, b.nextXact).Admits(t) == IsCounted(t, before)
  {
    forall t | t in b.txns ensures Admitted(before, b.nextXact).Admits(t) == IsCounted(t, before) {
      var i :| 0 <= i < |b.txns| && b.txns[i] == t;
    }
  }

  lemma ItsNetIsItsPosition(b: Book, before: Instant, account: nat, currency: Text)
    requires forall i :: 0 <= i < |b.txns| ==> b.txns[i].xactId < b.nextXact
    ensures Net(LegsWhere(b.txns, Admitted(before, b.nextXact)), Key(account, currency)) == PositionAt(b.txns, before, account, currency)
  {
    AtTheCursorEverythingCounts(b, before);
    CountedIsAdmitted(b.txns, Admitted(before, b.nextXact), before, account, currency, Debit);
    CountedIsAdmitted(b.txns, Admitted(before, b.nextXact), before, account, currency, Credit);
  }

  // ---- the sweep is this one -------------------------------------------

  lemma SweptIsSweepable(b: Book, currency: Text, plan: ClosePlan, account: nat)
    requires forall i :: 0 <= i < |b.txns| ==> b.txns[i].xactId < b.nextXact
    ensures Key(account, currency) in Sweepable(b, currency, plan) <==> IsSwept(b, plan.endsAt, currency, plan.retainedEarnings, account)
  {
    var legs, row := LegsWhere(b.txns, Admitted(plan.endsAt, b.nextXact)), Key(account, currency);
    ItsNetIsItsPosition(b, plan.endsAt, account, currency);
    if row !in KeysOf(legs) {
      UntouchedKeysHaveNothing(legs, row);
    }
  }

  lemma TheSweepIsThisOne(b: Book, currency: Text, plan: ClosePlan)
    requires forall i :: 0 <= i < |b.txns| ==> b.txns[i].xactId < b.nextXact
    ensures IsTheSweep(b, plan.endsAt, currency, plan.retainedEarnings, SweptPositions(b, currency, plan))
  {
    var swept, order := SweptPositions(b, currency, plan), InKeyOrder(Sweepable(b, currency, plan));
    InKeyOrderListsEveryKey(Sweepable(b, currency, plan));
    InKeyOrderAscends(Sweepable(b, currency, plan));
    forall i | 0 <= i < |order| ensures order[i].currency == currency && IsSwept(b, plan.endsAt, currency, plan.retainedEarnings, order[i].account)
                                ensures swept[i] == SweptPosition(order[i].account, PositionAt(b.txns, plan.endsAt, order[i].account, currency)) {
      assert order[i] in order && order[i] == Key(order[i].account, currency);
      SweptIsSweepable(b, currency, plan, order[i].account);
      ItsNetIsItsPosition(b, plan.endsAt, order[i].account, currency);
    }
    forall i, j | 0 <= i < j < |swept| ensures swept[i].accountId < swept[j].accountId {
      TheyAscend(order, currency, i, j);
    }
    forall account: nat | IsSwept(b, plan.endsAt, currency, plan.retainedEarnings, account) ensures exists i :: 0 <= i < |swept| && swept[i].accountId == account {
      SweptIsSweepable(b, currency, plan, account);
      var i :| 0 <= i < |order| && order[i] == Key(account, currency);
      assert swept[i].accountId == account;
    }
  }

  lemma TheyAscend(order: seq<Key>, currency: Text, i: nat, j: nat)
    requires Order.Ascending(Ranks(order)) && i < j < |order| && order[i].currency == currency == order[j].currency
    ensures order[i].account < order[j].account
  {
    assert Order.Less(Ranks(order)[i], Ranks(order)[j]);
    ComesBeforeIsPrecedes(order[i], order[j]);
    BytesBeforeIsLess(currency, currency);
    Order.Irreflexive(currency);
  }

  lemma ItsLegsAreTheSweeps(entries: seq<Entry>, swept: seq<SweptPosition>, currency: Text, destination: nat)
    requires LegsIn(entries) == SweepLegs(swept, currency, destination)
    ensures AreTheSweeps(entries, swept, currency, destination)
  {
    forall k | 0 <= k < |swept|
      ensures AreOneSweeps(entries[k].leg, entries[|swept| + k].leg, swept[k], currency, destination) {
      assert LegsIn(entries)[k] == entries[k].leg && LegsIn(entries)[|swept| + k] == entries[|swept| + k].leg;
    }
  }

  // ---- what the sweep moves --------------------------------------------

  /** What the sweep adds to one side of one account. */
  function MovedBySweep(swept: seq<SweptPosition>, destination: nat, account: nat, direction: Direction): int
  {
    if swept == [] then 0 else
    var s := swept[|swept| - 1];
    var size := if s.positionMinor < 0 then -s.positionMinor else s.positionMinor;
    MovedBySweep(swept[..|swept| - 1], destination, account, direction)
      + (if s.accountId == account && direction == (if s.positionMinor > 0 then Credit else Debit) then size else 0)
      + (if destination == account && direction == (if s.positionMinor > 0 then Debit else Credit) then size else 0)
  }

  lemma {:induction false} TheSweepsLegsTotal(swept: seq<SweptPosition>, currency: Text, destination: nat, account: nat, direction: Direction)
    ensures Total(OutLegs(swept, currency), Key(account, currency), direction) + Total(InLegs(swept, currency, destination), Key(account, currency), direction)
         == MovedBySweep(swept, destination, account, direction)
    decreases |swept|
  {
    if swept != [] {
      var n := |swept| - 1;
      TheSweepsLegsTotal(swept[..n], currency, destination, account, direction);
      assert OutLegs(swept, currency)[..n] == OutLegs(swept[..n], currency);
      assert InLegs(swept, currency, destination)[..n] == InLegs(swept[..n], currency, destination);
    }
  }

  lemma TheSweepTotals(swept: seq<SweptPosition>, currency: Text, destination: nat, account: nat, direction: Direction)
    ensures Total(SweepLegs(swept, currency, destination), Key(account, currency), direction) == MovedBySweep(swept, destination, account, direction)
  {
    TotalConcat(OutLegs(swept, currency), InLegs(swept, currency, destination), Key(account, currency), direction);
    TheSweepsLegsTotal(swept, currency, destination, account, direction);
  }

  lemma {:induction false} NoOtherCurrencyMoves(legs: seq<Leg>, currency: Text, row: Key, direction: Direction)
    requires row.currency != currency && forall i :: 0 <= i < |legs| ==> legs[i].currency == currency
    ensures Total(legs, row, direction) == 0
    decreases |legs|
  {
    if legs != [] {
      NoOtherCurrencyMoves(legs[..|legs| - 1], currency, row, direction);
    }
  }

  /** One account's balance cannot hold what the sweep would add to it. */
  predicate CannotHoldTheSweep(b: Book, currency: Text, destination: nat, swept: seq<SweptPosition>, account: nat)
  {
    || InputOf(b.balances, account, currency) + MovedBySweep(swept, destination, account, Debit) >= TOO_LARGE
    || OutputOf(b.balances, account, currency) + MovedBySweep(swept, destination, account, Credit) >= TOO_LARGE
  }

  lemma TheRowAfterTheSweep(b: Book, currency: Text, destination: nat, swept: seq<SweptPosition>, row: Key)
    ensures var after := BalanceOn(Upserted(b.balances, SweepLegs(swept, currency, destination), TransactionStatus.Posted), row);
            if row.currency == currency then
              && after.input == InputOf(b.balances, row.account, currency) + MovedBySweep(swept, destination, row.account, Debit)
              && after.output == OutputOf(b.balances, row.account, currency) + MovedBySweep(swept, destination, row.account, Credit)
            else after.input == BalanceOn(b.balances, row).input && after.output == BalanceOn(b.balances, row).output
  {
    var legs := SweepLegs(swept, currency, destination);
    UpsertOnOneRow(b.balances, legs, TransactionStatus.Posted, row);
    if row.currency == currency {
      TheSweepTotals(swept, currency, destination, row.account, Debit);
      TheSweepTotals(swept, currency, destination, row.account, Credit);
      TheRowHolds(b.balances, row.account, currency);
    } else {
      NoOtherCurrencyMoves(legs, currency, row, Debit);
      NoOtherCurrencyMoves(legs, currency, row, Credit);
    }
  }

  lemma WhetherTheSweepCanBeHeld(b: Book, currency: Text, destination: nat, swept: seq<SweptPosition>)
    requires Fits(b.balances)
    ensures Fits(Upserted(b.balances, SweepLegs(swept, currency, destination), TransactionStatus.Posted))
            <==> !exists account: nat :: CannotHoldTheSweep(b, currency, destination, swept, account)
  {
    var after := Upserted(b.balances, SweepLegs(swept, currency, destination), TransactionStatus.Posted);
    if account: nat :| CannotHoldTheSweep(b, currency, destination, swept, account) {
      TheRowAfterTheSweep(b, currency, destination, swept, Key(account, currency));
      assert BalanceOn(after, Key(account, currency)).input >= I64_LIMIT || BalanceOn(after, Key(account, currency)).output >= I64_LIMIT;
    } else {
      forall row | row in after ensures BalanceOn(after, row).input < I64_LIMIT && BalanceOn(after, row).output < I64_LIMIT {
        TheRowAfterTheSweep(b, currency, destination, swept, row);
        assert !CannotHoldTheSweep(b, currency, destination, swept, row.account);
        assert row in b.balances ==> BalanceOn(b.balances, row).input < I64_LIMIT && BalanceOn(b.balances, row).output < I64_LIMIT;
      }
    }
  }

  /** One microsecond inside, if that instant can be represented at all. */
  lemma TheClosingInstantIs(endsAt: Instant)
    ensures TheLastInstantInside(endsAt)
         == if endsAt < -377_705_116_799_999_999_000 then None else Some(endsAt - 1_000)
  {
  }

  // ---- the answer ------------------------------------------------------

  /** The answer to a close, whatever the book: the first of these conditions that holds
      decides it. A close takes effect one microsecond inside its period. */
  ghost predicate IsTheAnswer(b: Book, c: ClosePeriod, destination: nat, swept: seq<SweptPosition>, answer: CloseAnswer)
  {
    var key := c.tenantId + Ascii(":close:") + c.periodCode + Ascii(":") + c.currency;
    if c.periodCode !in b.periods then answer == Err(PeriodUnknown(c.periodCode))
    else if !exists account: nat :: IsTheDestination(b, c.currency, account) then answer == Err(RetainedEarningsUnknown(c.currency))
    else if key in b.events then
      answer == Err(if b.events[key].hash == CanonicalClose(c) then PeriodAlreadyClosed(c.periodCode, c.currency) else ClosePeriodError.KeyReused)
    else if (c.periodCode, c.currency) in b.closes then answer == Err(PeriodAlreadyClosed(c.periodCode, c.currency))
    else if b.periods[c.periodCode].endsAt - 1_000 < b.periods[c.periodCode].startsAt
            || exists account: nat :: CannotHoldTheSweep(b, c.currency, destination, swept, account) then answer == Err(ClosePeriodError.Storage)
    else
      && answer.Ok? && answer.value.eventId == b.nextId && answer.value.transactionId == b.nextId + 1 && answer.value.computedAtXid == b.nextXact
      && answer.value.effectiveAt == b.periods[c.periodCode].endsAt - 1_000 && answer.value.swept == swept
  }

  ghost predicate IsItsSweep(b: Book, c: ClosePeriod, destination: nat, swept: seq<SweptPosition>)
  {
    && c.periodCode in b.periods && IsTheDestination(b, c.currency, destination)
    && IsTheSweep(b, b.periods[c.periodCode].endsAt, c.currency, destination, swept)
  }

  lemma TheDestinationIsRegistered(b: Book, currency: Text)
    requires RegisterIsExact(b.accounts, b.register)
    ensures RetainedEarnings(b.register, currency).Some? ==> IsTheDestination(b, currency, RetainedEarnings(b.register, currency).value)
    ensures forall account: nat :: IsTheDestination(b, currency, account) ==> RetainedEarnings(b.register, currency) == Some(account)
  {
  }

  lemma AClosesAnswer(b: Book, c: ClosePeriod, hash: Text, plan: ClosePlan, swept: seq<SweptPosition>, answer: CloseAnswer)
    requires CloseContext(b, c).Some? && CloseContext(b, c).value.retainedEarnings.Some?
    requires TheLastInstantInside(CloseContext(b, c).value.endsAt).Some? && plan == PlanOf(CloseContext(b, c).value)
    requires swept == SweptPositions(b, c.currency, plan) && answer == CloseOutcome(b, c, hash).answer
    ensures if c.DerivedKey() in b.events then answer == RepeatedClose(HeldByThisClose(b, c, hash), c)
            else if (c.periodCode, c.currency) in b.closes then answer == Err(PeriodAlreadyClosed(c.periodCode, c.currency))
            else if plan.closesAt < plan.startsAt
                    || !Fits(Upserted(b.balances, SweepLegs(swept, c.currency, plan.retainedEarnings), TransactionStatus.Posted)) then
              answer == Err(ClosePeriodError.Storage)
            else answer.Ok? && answer.value.eventId == b.nextId && answer.value.transactionId == b.nextId + 1
                 && answer.value.computedAtXid == b.nextXact && answer.value.effectiveAt == plan.closesAt && answer.value.swept == swept
  {
    if CanBeClosed(b, c, hash) {
      AnAcceptedCloseIsRecordedWhole(b, c, hash);
    }
  }

  lemma TheAnswerUnderAHash(b: Book, c: ClosePeriod, hash: Text, destination: nat, swept: seq<SweptPosition>)
    requires ValidStaged(b) && hash == CanonicalClose(c) && c.periodCode in b.periods && RetainedEarnings(b.register, c.currency) == Some(destination)
    requires IsTheDestination(b, c.currency, destination)
    requires CloseContext(b, c).Some? && TheLastInstantInside(CloseContext(b, c).value.endsAt).Some?
    requires swept == SweptPositions(b, c.currency, PlanOf(CloseContext(b, c).value))
    ensures IsTheAnswer(b, c, destination, swept, CloseOutcome(b, c, hash).answer)
  {
    WhetherTheSweepCanBeHeld(b, c.currency, destination, swept);
    AClosesAnswer(b, c, hash, PlanOf(CloseContext(b, c).value), swept, CloseOutcome(b, c, hash).answer);
  }

  /** Whatever the valid book, a close is answered by the first condition that holds of it;
      and where its period and its destination exist, its sweep is this one. */
  lemma ACloseIsAnsweredInFull(b: Book, c: ClosePeriod) returns (destination: nat, swept: seq<SweptPosition>)
    requires Valid(b) && c.WellFormed()
    ensures IsTheAnswer(b, c, destination, swept, CloseOutcome(b, c, CanonicalClose(c)).answer)
    ensures c.periodCode in b.periods && (exists account: nat :: IsTheDestination(b, c.currency, account)) ==> IsItsSweep(b, c, destination, swept)
  {
    destination, swept := 0, [];
    TheDestinationIsRegistered(b, c.currency);
    if c.periodCode in b.periods && RetainedEarnings(b.register, c.currency).Some? {
      destination := RetainedEarnings(b.register, c.currency).value;
      swept := SweptPositions(b, c.currency, PlanOf(CloseContext(b, c).value));
      TheSweepIsThisOne(b, c.currency, PlanOf(CloseContext(b, c).value));
      TheAnswerUnderAHash(b, c, CanonicalClose(c), destination, swept);
    }
  }

  // ---- what is stored --------------------------------------------------

  ghost predicate IsTheTransaction(b: Book, c: ClosePeriod, destination: nat, swept: seq<SweptPosition>, t: Txn)
    requires c.periodCode in b.periods
  {
    && t.id == b.nextId + 1 && t.eventId == b.nextId && t.xactId == b.nextXact && t.kind == PeriodClose && t.status == TransactionStatus.Posted
    && t.effectiveAt == b.periods[c.periodCode].endsAt - 1_000 && t.resolvesId.None? && t.reversesId.None?
    && AreTheSweeps(t.entries, swept, c.currency, destination) && AreNumberedFrom(t.entries, b.balances)
  }

  /** A row of the checkpoint for every account touched before the period's end, and what
      each side of it comes to, the sweep included. */
  ghost predicate IsTheCheckpoint(txns: seq<Txn>, before: Instant, currency: Text, checkpoint: map<nat, Checkpointed>)
  {
    && (forall account: nat :: account in checkpoint <==> IsTouched(txns, before, account, currency))
    && (forall account: nat :: account in checkpoint ==>
          checkpoint[account] == Checkpointed(SideAt(txns, before, account, currency, Debit), SideAt(txns, before, account, currency, Credit)))
  }

  /** One row: of the close's own currency, moved by what the sweep moves; of any, numbered
      on by its entries. */
  ghost predicate HasMoved(b: Book, currency: Text, destination: nat, swept: seq<SweptPosition>, entries: seq<Entry>, after: map<Key, Balance>,
                           account: nat, other: Text)
  {
    && InputOf(after, account, other)
       == InputOf(b.balances, account, other) + (if other == currency then MovedBySweep(swept, destination, account, Debit) else 0)
    && OutputOf(after, account, other)
       == OutputOf(b.balances, account, other) + (if other == currency then MovedBySweep(swept, destination, account, Credit) else 0)
    && CounterOf(after, account, other) == CounterOf(b.balances, account, other) + |PlacesOn(entries, |entries|, account, other)|
  }

  ghost predicate IsStored(b: Book, c: ClosePeriod, destination: nat, swept: seq<SweptPosition>, after: Book)
  {
    var key, name := c.tenantId + Ascii(":close:") + c.periodCode + Ascii(":") + c.currency, (c.periodCode, c.currency);
    && c.periodCode in b.periods && var endsAt := b.periods[c.periodCode].endsAt;
    && |after.txns| == |b.txns| + 1 && after.txns[..|b.txns|] == b.txns && IsTheTransaction(b, c, destination, swept, after.txns[|b.txns|])
    && (forall account: nat, other ::
          HasMoved(b, c.currency, destination, swept, after.txns[|b.txns|].entries, after.balances, account, other))
    && after.events == b.events[key := Event(b.nextId, CanonicalClose(c))]
    && name in after.closes && after.closes == b.closes[name := after.closes[name]]
    && after.closes[name] == Close(endsAt, b.nextId + 1, b.nextXact, after.closes[name].checkpoint)
    && IsTheCheckpoint(after.txns, endsAt, c.currency, after.closes[name].checkpoint)
    && after.accounts == b.accounts && after.register == b.register && after.periods == b.periods
    && after.nextId == b.nextId + 2 && after.nextXact == b.nextXact + 1
  }

  lemma EverythingUpToTheCloseCounts(b: Book, t: Txn, before: Instant)
    requires (forall i :: 0 <= i < |b.txns| ==> b.txns[i].xactId < b.nextXact) && t.status.Posted? && t.effectiveAt < before && t.id == b.nextId + 1
    requires TxnIdsAreFresh(b.txns, b.nextId, b.nextXact)
    ensures forall x :: x in b.txns + [t] ==> InCheckpoint(before, b.nextXact, b.nextId + 1).Admits(x) == IsCounted(x, before)
  {
    forall x | x in b.txns + [t] ensures InCheckpoint(before, b.nextXact, b.nextId + 1).Admits(x) == IsCounted(x, before) {
      if x in b.txns {
        var i :| 0 <= i < |b.txns| && b.txns[i] == x;
      }
    }
  }

  lemma ItsCheckpointIs(txns: seq<Txn>, before: Instant, currency: Text, computedAt: nat, closeTxn: nat)
    requires forall t :: t in txns ==> InCheckpoint(before, computedAt, closeTxn).Admits(t) == IsCounted(t, before)
    ensures IsTheCheckpoint(txns, before, currency, Checkpoint(txns, currency, before, computedAt, closeTxn))
  {
    var bound, checkpoint := InCheckpoint(before, computedAt, closeTxn), Checkpoint(txns, currency, before, computedAt, closeTxn);
    forall account: nat ensures account in checkpoint <==> IsTouched(txns, before, account, currency)
      ensures account in checkpoint ==>
        checkpoint[account] == Checkpointed(SideAt(txns, before, account, currency, Debit), SideAt(txns, before, account, currency, Credit)) {
      TouchedIsAKey(txns, bound, before, account, currency);
      CheckpointHasARow(txns, currency, before, computedAt, closeTxn, account);
      CountedIsAdmitted(txns, bound, before, account, currency, Debit);
      CountedIsAdmitted(txns, bound, before, account, currency, Credit);
    }
  }

  lemma CheckpointHasARow(txns: seq<Txn>, currency: Text, before: Instant, computedAt: nat, closeTxn: nat, account: nat)
    ensures var legs, checkpoint := LegsWhere(txns, InCheckpoint(before, computedAt, closeTxn)), Checkpoint(txns, currency, before, computedAt, closeTxn);
            && (account in checkpoint <==> Key(account, currency) in KeysOf(legs))
            && (account in checkpoint ==>
                  checkpoint[account] == Checkpointed(Total(legs, Key(account, currency), Debit), Total(legs, Key(account, currency), Credit)))
  {
  }

  lemma ItsTransactionIs(b: Book, c: ClosePeriod, plan: ClosePlan, swept: seq<SweptPosition>, t: Txn)
    requires c.periodCode in b.periods && plan.closesAt == b.periods[c.periodCode].endsAt - 1_000
    requires t == TxnOf(b, CloseShape(plan), SweepLegs(swept, c.currency, plan.retainedEarnings))
    ensures IsTheTransaction(b, c, plan.retainedEarnings, swept, t)
  {
    var legs := SweepLegs(swept, c.currency, plan.retainedEarnings);
    LegsOfNumbered(b.balances, legs);
    NumberedIsNumberedFrom(b.balances, legs);
    ItsLegsAreTheSweeps(t.entries, swept, c.currency, plan.retainedEarnings);
  }

  lemma ItsRowsMove(b: Book, currency: Text, destination: nat, swept: seq<SweptPosition>, account: nat, other: Text)
    ensures var legs := SweepLegs(swept, currency, destination);
            HasMoved(b, currency, destination, swept, Numbered(b.balances, legs), Upserted(b.balances, legs, TransactionStatus.Posted), account, other)
  {
    var legs := SweepLegs(swept, currency, destination);
    TheRowAfterTheSweep(b, currency, destination, swept, Key(account, other));
    TheRowHolds(b.balances, account, other);
    TheRowHolds(Upserted(b.balances, legs, TransactionStatus.Posted), account, other);
    PostingInFull.ItsCountersMove(b, legs, TransactionStatus.Posted, account, other);
  }

  lemma WhatTheClosedBookHolds(b: Book, c: ClosePeriod, hash: Text, plan: ClosePlan, legs: seq<Leg>, after: Book)
    requires legs == SweepLegs(SweptPositions(b, c.currency, plan), c.currency, plan.retainedEarnings)
    requires after == PastTheCommit(ClosedBook(b, c, hash, plan))
    ensures after.txns == b.txns + [TxnOf(b, CloseShape(plan), legs)] && after.balances == Upserted(b.balances, legs, TransactionStatus.Posted)
    ensures after.events == b.events[c.DerivedKey() := Event(b.nextId, hash)]
    ensures after.closes == b.closes[(c.periodCode, c.currency) := Close(plan.endsAt, b.nextId + 1, b.nextXact,
                                       Checkpoint(after.txns, c.currency, plan.endsAt, b.nextXact, b.nextId + 1))]
    ensures after.accounts == b.accounts && after.register == b.register && after.periods == b.periods
    ensures after.nextId == b.nextId + 2 && after.nextXact == b.nextXact + 1
  {
  }

  lemma TheClosedBookIsStored(b: Book, c: ClosePeriod, hash: Text, plan: ClosePlan, swept: seq<SweptPosition>, after: Book)
    requires Valid(b) && c.periodCode in b.periods && hash == CanonicalClose(c) && plan.closesAt == b.periods[c.periodCode].endsAt - 1_000
    requires plan.endsAt == b.periods[c.periodCode].endsAt && swept == SweptPositions(b, c.currency, plan)
    requires after == PastTheCommit(ClosedBook(b, c, hash, plan))
    ensures IsStored(b, c, plan.retainedEarnings, swept, after)
  {
    var legs := SweepLegs(swept, c.currency, plan.retainedEarnings);
    WhatTheClosedBookHolds(b, c, hash, plan, legs, after);
    ItsPartsAreStored(b, c, plan, swept, legs, TxnOf(b, CloseShape(plan), legs), after);
  }

  lemma ItsPartsAreStored(b: Book, c: ClosePeriod, plan: ClosePlan, swept: seq<SweptPosition>, legs: seq<Leg>, t: Txn, after: Book)
    requires TxnIdsAreFresh(b.txns, b.nextId, b.nextXact) && c.periodCode in b.periods && plan.closesAt == b.periods[c.periodCode].endsAt - 1_000
    requires plan.endsAt == b.periods[c.periodCode].endsAt && legs == SweepLegs(swept, c.currency, plan.retainedEarnings)
    requires t == TxnOf(b, CloseShape(plan), legs) && forall i :: 0 <= i < |b.txns| ==> b.txns[i].xactId < b.nextXact
    requires after.txns == b.txns + [t] && after.balances == Upserted(b.balances, legs, TransactionStatus.Posted)
    requires after.events == b.events[c.DerivedKey() := Event(b.nextId, CanonicalClose(c))]
    requires after.closes == b.closes[(c.periodCode, c.currency) := Close(plan.endsAt, b.nextId + 1, b.nextXact,
                                        Checkpoint(after.txns, c.currency, plan.endsAt, b.nextXact, b.nextId + 1))]
    requires after.accounts == b.accounts && after.register == b.register && after.periods == b.periods
    requires after.nextId == b.nextId + 2 && after.nextXact == b.nextXact + 1
    ensures IsStored(b, c, plan.retainedEarnings, swept, after)
  {
    ItsTransactionIs(b, c, plan, swept, t);
    forall account: nat, other
      ensures HasMoved(b, c.currency, plan.retainedEarnings, swept, t.entries, after.balances, account, other) {
      ItsRowsMove(b, c.currency, plan.retainedEarnings, swept, account, other);
    }
    EverythingUpToTheCloseCounts(b, t, plan.endsAt);
    ItsCheckpointIs(after.txns, plan.endsAt, c.currency, b.nextXact, b.nextId + 1);
  }

  lemma WhatAnAcceptedCloseLeaves(b: Book, c: ClosePeriod, hash: Text, plan: ClosePlan, swept: seq<SweptPosition>)
    requires Valid(b) && hash == CanonicalClose(c) && CanBeClosed(b, c, hash) && plan == PlanOf(CloseContext(b, c).value)
    requires swept == SweptPositions(b, c.currency, plan)
    ensures var o := CloseOutcome(b, c, hash);
            && o.answer.Ok? && o.answer.value.swept == swept && IsStored(b, c, plan.retainedEarnings, swept, o.book)
            && o.answer.value.checkpointRows == |o.book.closes[(c.periodCode, c.currency)].checkpoint|
  {
    AnAcceptedCloseIsRecordedWhole(b, c, hash);
    ACommittedCloseIsPastTheCommit(b, c, hash, plan, ClosedBook(b, c, hash, plan));
    TheClosedBookIsStored(b, c, hash, plan, swept, PastTheCommit(ClosedBook(b, c, hash, plan)));
  }

  /** An accepted close stores its sweep, its record and its checkpoint; anything else
      changes nothing. */
  lemma AnAcceptedCloseIsStoredInFull(b: Book, c: ClosePeriod) returns (destination: nat, swept: seq<SweptPosition>)
    requires Valid(b) && c.WellFormed()
    ensures var o := CloseOutcome(b, c, CanonicalClose(c));
            if o.answer.Ok? then
              && o.answer.value.swept == swept && IsItsSweep(b, c, destination, swept) && IsStored(b, c, destination, swept, o.book)
              && o.answer.value.checkpointRows == |o.book.closes[(c.periodCode, c.currency)].checkpoint|
            else o.book == b
  {
    var hash := CanonicalClose(c);
    destination, swept := 0, [];
    WhatACloseMeans(b, c, hash);
    if CanBeClosed(b, c, hash) {
      var plan := PlanOf(CloseContext(b, c).value);
      destination, swept := plan.retainedEarnings, SweptPositions(b, c.currency, plan);
      TheDestinationIsRegistered(b, c.currency);
      TheSweepIsThisOne(b, c.currency, plan);
      WhatAnAcceptedCloseLeaves(b, c, hash, plan, swept);
    }
  }

  // ---- what that comes to ----------------------------------------------

  /** The positions a sweep takes, added up. */
  function Added(swept: seq<SweptPosition>): int
  {
    if swept == [] then 0 else Added(swept[..|swept| - 1]) + swept[|swept| - 1].positionMinor
  }

  /** What the sweep does to one account's position. */
  lemma {:induction false} TheSweepShifts(swept: seq<SweptPosition>, destination: nat, account: nat)
    requires forall i, j :: 0 <= i < j < |swept| ==> swept[i].accountId < swept[j].accountId
    requires forall i :: 0 <= i < |swept| ==> swept[i].accountId != destination
    ensures var shift := MovedBySweep(swept, destination, account, Debit) - MovedBySweep(swept, destination, account, Credit);
            && (account == destination ==> shift == Added(swept))
            && (forall i :: 0 <= i < |swept| && swept[i].accountId == account ==> shift == -swept[i].positionMinor)
            && (account != destination && (forall i :: 0 <= i < |swept| ==> swept[i].accountId != account) ==> shift == 0)
    decreases |swept|
  {
    if swept != [] {
      TheSweepShifts(swept[..|swept| - 1], destination, account);
    }
  }

  lemma {:induction false} SweptEntriesTotal(entries: seq<Entry>, swept: seq<SweptPosition>, currency: Text, destination: nat, account: nat, direction: Direction)
    requires LegsIn(entries) == SweepLegs(swept, currency, destination)
    ensures Entered(entries, account, currency, direction) == MovedBySweep(swept, destination, account, direction)
  {
    LegsTotalWhatIsEntered(entries, account, currency, direction);
    TheSweepTotals(swept, currency, destination, account, direction);
  }

  lemma TheLegsAreTheSweeps(entries: seq<Entry>, swept: seq<SweptPosition>, currency: Text, destination: nat)
    requires AreTheSweeps(entries, swept, currency, destination)
    ensures LegsIn(entries) == SweepLegs(swept, currency, destination)
  {
    var legs := SweepLegs(swept, currency, destination);
    forall i | 0 <= i < |legs| ensures LegsIn(entries)[i] == legs[i] {
      var k := if i < |swept| then i else i - |swept|;
      assert AreOneSweeps(entries[k].leg, entries[|swept| + k].leg, swept[k], currency, destination);
    }
  }

  /** After a close every revenue and expense account but the destination stands at zero at
      the period's end, on the journal and in the checkpoint; the destination has gained what
      they held; and every other account stands where it did. */
  lemma AClosedPeriodIsSwept(b: Book, c: ClosePeriod, destination: nat, swept: seq<SweptPosition>, after: Book, account: nat)
    requires IsItsSweep(b, c, destination, swept) && IsStored(b, c, destination, swept, after)
    ensures var endsAt := b.periods[c.periodCode].endsAt;
            var before, now := PositionAt(b.txns, endsAt, account, c.currency), PositionAt(after.txns, endsAt, account, c.currency);
            && now == (if account == destination then before + Added(swept) else if IsSweptCategory(b, account) then 0 else before)
            && var checkpoint := after.closes[(c.periodCode, c.currency)].checkpoint;
               account in checkpoint ==> checkpoint[account].input - checkpoint[account].output == now
  {
    var endsAt, t := b.periods[c.periodCode].endsAt, after.txns[|b.txns|];
    assert after.txns == b.txns + [t] && after.txns[..|b.txns|] == b.txns;
    TheLegsAreTheSweeps(t.entries, swept, c.currency, destination);
    SweptEntriesTotal(t.entries, swept, c.currency, destination, account, Debit);
    SweptEntriesTotal(t.entries, swept, c.currency, destination, account, Credit);
    TheSweepShifts(swept, destination, account);
    if i :| 0 <= i < |swept| && swept[i].accountId == account {
      assert IsSwept(b, endsAt, c.currency, destination, account);
    } else {
      assert !IsSwept(b, endsAt, c.currency, destination, account);
    }
  }

  /** The sweep's own entries touch nobody else. */
  lemma TheSweepTouchesNobodyElse(b: Book, c: ClosePeriod, destination: nat, swept: seq<SweptPosition>, after: Book, k: nat)
    requires IsItsSweep(b, c, destination, swept) && IsStored(b, c, destination, swept, after) && k < |after.txns[|b.txns|].entries|
    ensures var account := after.txns[|b.txns|].entries[k].leg.account;
            account == destination || (account in b.accounts && b.accounts[account].triple.category in {Revenue, Expense})
  {
    var t, i := after.txns[|b.txns|], if k < |swept| then k else k - |swept|;
    assert IsSwept(b, b.periods[c.periodCode].endsAt, c.currency, destination, swept[i].accountId);
    assert AreOneSweeps(t.entries[i].leg, t.entries[|swept| + i].leg, swept[i], c.currency, destination);
  }
}
