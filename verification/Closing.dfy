/** Closing a period: the sweep, the close record, the checkpoint, and the reader
    that answers a position from the checkpoint and two tails. */
module Closing {
  import opened Wrappers
  import opened Bytes
  import opened Domain
  import opened Accounts
  import opened Periods
  import opened Postings
  import opened KeyOrder
  import opened Port
  import opened Book

  // ---- positions -------------------------------------------------------

  function Net(legs: seq<Leg>, row: Key): int
  {
    Total(legs, row, Debit) - Total(legs, row, Credit)
  }

  // ---- the sweep -------------------------------------------------------

  datatype ClosePlan = ClosePlan(startsAt: Instant, endsAt: Instant, retainedEarnings: nat, closesAt: Instant)

  predicate IsTemporary(accounts: map<nat, Account>, account: nat)
  {
    account in accounts && accounts[account].triple.category.Temporary()
  }

  /** Every temporary account but the destination holding a position at the cursor. */
  function Sweepable(b: Book, currency: Text, plan: ClosePlan): set<Key>
  {
    var legs := LegsWhere(b.txns, Admitted(plan.endsAt, b.nextXact));
    set row | row in KeysOf(legs) && row.currency == currency && IsTemporary(b.accounts, row.account)
              && row.account != plan.retainedEarnings && Net(legs, row) != 0
  }

  function SweptPositions(b: Book, currency: Text, plan: ClosePlan): (swept: seq<SweptPosition>)
  {
    var order := InKeyOrder(Sweepable(b, currency, plan));
    var legs := LegsWhere(b.txns, Admitted(plan.endsAt, b.nextXact));
    seq(|order|, i requires 0 <= i < |order| => SweptPosition(order[i].account, Net(legs, order[i])))
  }

  function Magnitude(position: int): nat
  {
    if position < 0 then -position else position
  }

  /** The leg that moves a position out of its account. */
  function OutLeg(p: SweptPosition, currency: Text): Leg
  {
    Leg(p.accountId, currency, if p.positionMinor > 0 then Credit else Debit, Magnitude(p.positionMinor))
  }

  /** The leg that moves it into retained earnings. */
  function InLeg(p: SweptPosition, currency: Text, retainedEarnings: nat): Leg
  {
    Leg(retainedEarnings, currency, if p.positionMinor > 0 then Debit else Credit, Magnitude(p.positionMinor))
  }

  function OutLegs(swept: seq<SweptPosition>, currency: Text): (legs: seq<Leg>)
    ensures |legs| == |swept|
  {
    seq(|swept|, i requires 0 <= i < |swept| => OutLeg(swept[i], currency))
  }

  function InLegs(swept: seq<SweptPosition>, currency: Text, retainedEarnings: nat): (legs: seq<Leg>)
    ensures |legs| == |swept|
  {
    seq(|swept|, i requires 0 <= i < |swept| => InLeg(swept[i], currency, retainedEarnings))
  }

  function SweepLegs(swept: seq<SweptPosition>, currency: Text, retainedEarnings: nat): seq<Leg>
  {
    OutLegs(swept, currency) + InLegs(swept, currency, retainedEarnings)
  }

  // ---- the two closing statements --------------------------------------

  datatype ClosedPeriod =
    | Closed(eventId: nat, transactionId: nat, computedAtXid: nat, swept: seq<SweptPosition>)
    | AlreadyClosed

  /** The period's bounds and where the sweep lands: read before anything is claimed. */
  datatype PeriodCloseContext = PeriodCloseContext(startsAt: Instant, endsAt: Instant, retainedEarnings: Option<nat>)

  function EarningsNature(currency: Text): Nature
  {
    Nature(House, None, Ascii("retained_earnings"), currency)
  }

  function RetainedEarnings(register: map<Nature, nat>, currency: Text): Option<nat>
  {
    if EarningsNature(currency) in register then Some(register[EarningsNature(currency)]) else None
  }

  function CloseContext(b: Book, c: ClosePeriod): Option<PeriodCloseContext>
  {
    if c.periodCode in b.periods then
      var period := b.periods[c.periodCode];
      Some(PeriodCloseContext(period.startsAt, period.endsAt, RetainedEarnings(b.register, c.currency)))
    else None
  }

  function CloseShape(plan: ClosePlan): Shape
  {
    Shape(PeriodClose, TransactionStatus.Posted, plan.closesAt, None, None)
  }

  /** Claim the derived key, write the closing transaction and its sweep, and the
      close record naming it: steps one to three, in one statement. */
  function ClaimAndClosePeriod(b: Book, c: ClosePeriod, hash: Text, plan: ClosePlan): Statement<Option<ClosedPeriod>>
  {
    if c.DerivedKey() in b.events then Answered(None, b)
    else if (c.periodCode, c.currency) in b.closes then
      Answered(Some(AlreadyClosed), b.(events := b.events[c.DerivedKey() := Event(b.nextId, hash)]))
    else
      var swept := SweptPositions(b, c.currency, plan);
      var recorded := Record(b, c.DerivedKey(), hash, CloseShape(plan), SweepLegs(swept, c.currency, plan.retainedEarnings));
      if !Fits(recorded.balances) || plan.closesAt < plan.startsAt then Failed
      else
        var close := Close(plan.endsAt, b.nextId + 1, b.nextXact, map[]);
        Answered(Some(Closed(b.nextId, b.nextId + 1, b.nextXact, swept)),
                 recorded.(closes := b.closes[(c.periodCode, c.currency) := close]))
  }

  /** One row per account with a posted entry the bound admits. */
  function Checkpoint(txns: seq<Txn>, currency: Text, endsAt: Instant, computedAt: nat, closeTxn: nat): map<nat, Checkpointed>
  {
    var legs := LegsWhere(txns, InCheckpoint(endsAt, computedAt, closeTxn));
    map row | row in KeysOf(legs) && row.currency == currency ::
      row.account := Checkpointed(Total(legs, Key(row.account, currency), Debit), Total(legs, Key(row.account, currency), Credit))
  }

  /** Step four, a statement of its own: it aggregates the entries step two wrote. */
  function CheckpointTheClose(b: Book, c: ClosePeriod, plan: ClosePlan, transactionId: nat, computedAt: nat): Book
  {
    if (c.periodCode, c.currency) !in b.closes then b else
    var rows := Checkpoint(b.txns, c.currency, plan.endsAt, computedAt, transactionId);
    b.(closes := b.closes[(c.periodCode, c.currency) := b.closes[(c.periodCode, c.currency)].(checkpoint := rows)])
  }

  function CheckpointOn(checkpoint: map<nat, Checkpointed>, account: nat): Checkpointed
  {
    if account in checkpoint then checkpoint[account] else Checkpointed(0, 0)
  }

  lemma CheckpointHoldsTheTotals(txns: seq<Txn>, currency: Text, endsAt: Instant, computedAt: nat, closeTxn: nat, account: nat)
    ensures var legs := LegsWhere(txns, InCheckpoint(endsAt, computedAt, closeTxn));
            CheckpointOn(Checkpoint(txns, currency, endsAt, computedAt, closeTxn), account)
            == Checkpointed(Total(legs, Key(account, currency), Debit), Total(legs, Key(account, currency), Credit))
  {
    var legs := LegsWhere(txns, InCheckpoint(endsAt, computedAt, closeTxn));
    var row := Key(account, currency);
    if row !in KeysOf(legs) {
      UntouchedKeysHaveNothing(legs, row);
    }
  }

  // ---- splitting a total by who admits it ------------------------------

  /** A total over a disjoint union is the sum of the totals over its parts. */
  lemma {:induction false} TotalsSplit(txns: seq<Txn>, whole: Bound, one: Bound, other: Bound, row: Key, direction: Direction)
    requires forall t :: t in txns ==> whole.Admits(t) == (one.Admits(t) || other.Admits(t)) && !(one.Admits(t) && other.Admits(t))
    ensures Total(LegsWhere(txns, whole), row, direction)
         == Total(LegsWhere(txns, one), row, direction) + Total(LegsWhere(txns, other), row, direction)
    decreases |txns|
  {
    if txns != [] {
      var n := |txns| - 1;
      var last := txns[n];
      var entries := LegsIn(last.entries);
      TotalsSplit(txns[..n], whole, one, other, row, direction);
      TotalConcat(LegsWhere(txns[..n], whole), if whole.Admits(last) then entries else [], row, direction);
      TotalConcat(LegsWhere(txns[..n], one), if one.Admits(last) then entries else [], row, direction);
      TotalConcat(LegsWhere(txns[..n], other), if other.Admits(last) then entries else [], row, direction);
    }
  }

  lemma {:induction false} SameAdmissions(txns: seq<Txn>, one: Bound, other: Bound)
    requires forall t :: t in txns ==> one.Admits(t) == other.Admits(t)
    ensures LegsWhere(txns, one) == LegsWhere(txns, other)
    decreases |txns|
  {
    if txns != [] {
      SameAdmissions(txns[..|txns| - 1], one, other);
    }
  }

  lemma {:induction false} LegsWhereConcat(a: seq<Txn>, b: seq<Txn>, bound: Bound)
    ensures LegsWhere(a + b, bound) == LegsWhere(a, bound) + LegsWhere(b, bound)
    decreases |b|
  {
    if b == [] {
      assert a + b == a;
    } else {
      var front, last := b[..|b| - 1], b[|b| - 1];
      var added := if bound.Admits(last) then LegsIn(last.entries) else [];
      LegsWhereConcat(a, front, bound);
      assert (a + b)[..|a + b| - 1] == a + front;
      assert LegsWhere(a + b, bound) == LegsWhere(a + front, bound) + added;
      assert (LegsWhere(a, bound) + LegsWhere(front, bound)) + added == LegsWhere(a, bound) + (LegsWhere(front, bound) + added);
    }
  }

  /** Checkpoint, tail A and tail B are disjoint, and together they are exactly
      what aggregating from inception admits: for any cursor the whole close is
      below, and any as-of at or after the period's end. */
  lemma CheckpointAndTailsAreTheWhole(txns: seq<Txn>, endsAt: Instant, computedAt: nat, closeTxn: nat, asOf: Instant, cursor: nat,
                                      row: Key, direction: Direction)
    requires endsAt <= asOf && computedAt <= cursor
    requires forall t :: t in txns && t.id == closeTxn ==> t.xactId < cursor
    ensures Total(LegsWhere(txns, Admitted(asOf, cursor)), row, direction)
         == Total(LegsWhere(txns, InCheckpoint(endsAt, computedAt, closeTxn)), row, direction)
            + Total(LegsWhere(txns, InTailA(endsAt, asOf, cursor)), row, direction)
            + Total(LegsWhere(txns, InTailB(endsAt, computedAt, closeTxn, cursor)), row, direction)
  {
    var inside := Admitted(endsAt, cursor);
    TotalsSplit(txns, Admitted(asOf, cursor), inside, InTailA(endsAt, asOf, cursor), row, direction);
    TotalsSplit(txns, inside, InCheckpoint(endsAt, computedAt, closeTxn), InTailB(endsAt, computedAt, closeTxn, cursor), row, direction);
  }

  // ---- what the sweep does to a position -------------------------------

  lemma NetConcat(a: seq<Leg>, b: seq<Leg>, row: Key)
    ensures Net(a + b, row) == Net(a, row) + Net(b, row)
  {
    TotalConcat(a, b, row, Debit);
    TotalConcat(a, b, row, Credit);
  }

  function SweptTotal(swept: seq<SweptPosition>): int
  {
    if swept == [] then 0 else SweptTotal(swept[..|swept| - 1]) + swept[|swept| - 1].positionMinor
  }

  function SweptFrom(swept: seq<SweptPosition>, account: nat): int
  {
    if swept == [] then 0 else
    SweptFrom(swept[..|swept| - 1], account) + if swept[|swept| - 1].accountId == account then swept[|swept| - 1].positionMinor else 0
  }

  lemma {:induction false} OutLegsMoveThePositionsOut(swept: seq<SweptPosition>, currency: Text, account: nat)
    ensures Net(OutLegs(swept, currency), Key(account, currency)) == -SweptFrom(swept, account)
    decreases |swept|
  {
    if swept != [] {
      var n := |swept| - 1;
      OutLegsMoveThePositionsOut(swept[..n], currency, account);
      assert OutLegs(swept, currency)[..n] == OutLegs(swept[..n], currency);
    }
  }

  lemma {:induction false} InLegsMoveTheTotalIn(swept: seq<SweptPosition>, currency: Text, retainedEarnings: nat, account: nat)
    ensures Net(InLegs(swept, currency, retainedEarnings), Key(account, currency))
         == if account == retainedEarnings then SweptTotal(swept) else 0
    decreases |swept|
  {
    if swept != [] {
      var n := |swept| - 1;
      InLegsMoveTheTotalIn(swept[..n], currency, retainedEarnings, account);
      assert InLegs(swept, currency, retainedEarnings)[..n] == InLegs(swept[..n], currency, retainedEarnings);
    }
  }

  /** The sweep takes each position out of its account, and their total into
      retained earnings. */
  lemma TheSweepMoves(swept: seq<SweptPosition>, currency: Text, retainedEarnings: nat, account: nat)
    ensures Net(SweepLegs(swept, currency, retainedEarnings), Key(account, currency))
         == (if account == retainedEarnings then SweptTotal(swept) else 0) - SweptFrom(swept, account)
  {
    NetConcat(OutLegs(swept, currency), InLegs(swept, currency, retainedEarnings), Key(account, currency));
    OutLegsMoveThePositionsOut(swept, currency, account);
    InLegsMoveTheTotalIn(swept, currency, retainedEarnings, account);
  }

  lemma {:induction false} TheSweepBalances(swept: seq<SweptPosition>, currency: Text, retainedEarnings: nat)
    ensures Balanced(SweepLegs(swept, currency, retainedEarnings))
    decreases |swept|
  {
    forall c ensures CurrencyTotal(SweepLegs(swept, currency, retainedEarnings), c, Debit) == CurrencyTotal(SweepLegs(swept, currency, retainedEarnings), c, Credit) {
      var outs, ins := OutLegs(swept, currency), InLegs(swept, currency, retainedEarnings);
      CurrencyTotalConcat(outs, ins, c, Debit);
      CurrencyTotalConcat(outs, ins, c, Credit);
      OutsMatchIns(swept, currency, retainedEarnings, c, Debit);
      OutsMatchIns(swept, currency, retainedEarnings, c, Credit);
    }
  }

  lemma {:induction false} OutsMatchIns(swept: seq<SweptPosition>, currency: Text, retainedEarnings: nat, c: Text, direction: Direction)
    ensures CurrencyTotal(OutLegs(swept, currency), c, direction)
         == CurrencyTotal(InLegs(swept, currency, retainedEarnings), c, direction.Flipped())
    decreases |swept|
  {
    if swept != [] {
      var n := |swept| - 1;
      OutsMatchIns(swept[..n], currency, retainedEarnings, c, direction);
      assert OutLegs(swept, currency)[..n] == OutLegs(swept[..n], currency);
      assert InLegs(swept, currency, retainedEarnings)[..n] == InLegs(swept[..n], currency, retainedEarnings);
    }
  }
}
