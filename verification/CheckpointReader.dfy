/** The reader that answers a position from a period's checkpoint and two tails:
    exact against the whole journal, and exactly when it would not be. */
module CheckpointReader {
  import opened Wrappers
  import opened Bytes
  import opened Domain
  import opened Postings
  import opened KeyOrder
  import opened Book
  import opened Closing
  import opened BookInvariants

  /** One account's gross debits and credits among the legs a bound admits. */
  function Gross(txns: seq<Txn>, bound: Bound, row: Key): Checkpointed
  {
    Checkpointed(Total(LegsWhere(txns, bound), row, Debit), Total(LegsWhere(txns, bound), row, Credit))
  }

  function Plus(a: Checkpointed, b: Checkpointed): Checkpointed
  {
    Checkpointed(a.input + b.input, a.output + b.output)
  }

  /** The position the report should answer: the journal aggregated from inception. */
  function FromInception(txns: seq<Txn>, row: Key, asOf: Instant, cursor: nat): Checkpointed
  {
    Gross(txns, Admitted(asOf, cursor), row)
  }

  /** `checkpoint_position`, anchored at one close. */
  function FromCheckpoint(txns: seq<Txn>, close: Close, row: Key, asOf: Instant, cursor: nat): Checkpointed
  {
    Plus(CheckpointOn(close.checkpoint, row.account),
         Plus(Gross(txns, InTailA(close.endsAt, asOf, cursor), row),
              Gross(txns, InTailB(close.endsAt, close.computedAtXid, close.transactionId, cursor), row)))
  }

  /** The two guards of `checkpoint_anchor`: the period had ended, and the whole
      close, its own transaction included, is visible at the cursor. */
  ghost predicate MayAnchor(txns: seq<Txn>, close: Close, asOf: Instant, cursor: nat)
  {
    && close.endsAt <= asOf
    && close.computedAtXid <= cursor
    && forall t :: t in txns && t.id == close.transactionId ==> t.xactId < cursor
  }

  lemma PlusBySides(whole: Checkpointed, one: Checkpointed, two: Checkpointed, three: Checkpointed)
    requires whole.input == one.input + two.input + three.input
    requires whole.output == one.output + two.output + three.output
    ensures whole == Plus(one, Plus(two, three)) == Plus(Plus(one, two), three)
  {
  }

  lemma ThreeTermsAreTheWhole(txns: seq<Txn>, close: Close, row: Key, asOf: Instant, cursor: nat)
    requires MayAnchor(txns, close, asOf, cursor)
    ensures FromInception(txns, row, asOf, cursor)
         == Plus(Gross(txns, InCheckpoint(close.endsAt, close.computedAtXid, close.transactionId), row),
                 Plus(Gross(txns, InTailA(close.endsAt, asOf, cursor), row),
                      Gross(txns, InTailB(close.endsAt, close.computedAtXid, close.transactionId, cursor), row)))
  {
    var whole := FromInception(txns, row, asOf, cursor);
    var checkpoint := Gross(txns, InCheckpoint(close.endsAt, close.computedAtXid, close.transactionId), row);
    var tailA := Gross(txns, InTailA(close.endsAt, asOf, cursor), row);
    var tailB := Gross(txns, InTailB(close.endsAt, close.computedAtXid, close.transactionId, cursor), row);
    CheckpointAndTailsAreTheWhole(txns, close.endsAt, close.computedAtXid, close.transactionId, asOf, cursor, row, Debit);
    CheckpointAndTailsAreTheWhole(txns, close.endsAt, close.computedAtXid, close.transactionId, asOf, cursor, row, Credit);
    assert whole.input == checkpoint.input + tailA.input + tailB.input;
    assert whole.output == checkpoint.output + tailA.output + tailB.output;
    PlusBySides(whole, checkpoint, tailA, tailB);
  }

  /** In every valid book, whichever close anchors the report, the reader answers
      what aggregating from inception answers: late arrivals inside the period and
      entries after it included, nothing counted twice. */
  lemma TheReaderIsExact(b: Book, name: (Text, Text), account: nat, asOf: Instant, cursor: nat)
    requires ClosesAreExact(b) && name in b.closes
    requires MayAnchor(b.txns, b.closes[name], asOf, cursor)
    ensures FromCheckpoint(b.txns, b.closes[name], Key(account, name.1), asOf, cursor)
         == FromInception(b.txns, Key(account, name.1), asOf, cursor)
  {
    var close := b.closes[name];
    assert CloseIsExact(b, name.1, close);
    ThreeTermsAreTheWhole(b.txns, close, Key(account, name.1), asOf, cursor);
    assert CheckpointOn(close.checkpoint, account)
      == Gross(b.txns, InCheckpoint(close.endsAt, close.computedAtXid, close.transactionId), Key(account, name.1));
  }

  /** Any cursor above the close's own commit admits the whole close. */
  lemma AnyLaterCursorMayAnchor(b: Book, name: (Text, Text), asOf: Instant, cursor: nat)
    requires Valid(b) && name in b.closes
    requires b.closes[name].endsAt <= asOf && b.closes[name].computedAtXid < cursor
    ensures MayAnchor(b.txns, b.closes[name], asOf, cursor)
  {
    var close := b.closes[name];
    assert CloseIsExact(b, name.1, close);
    var i :| 0 <= i < |b.txns| && IsTheCloseOf(b.txns[i], close);
    forall t | t in b.txns && t.id == close.transactionId ensures t.xactId < cursor {
      var j :| 0 <= j < |b.txns| && b.txns[j] == t;
      assert i == j;
    }
  }

  // ---- where the order of the four steps matters -----------------------

  /** Checkpointing before the sweep would zero the temporary accounts if and only
      if there was nothing to sweep. */
  lemma CheckpointingFirstLosesTheSweep(b: Book, currency: Text, plan: ClosePlan, close: Close)
    requires TxnIdsAreFresh(b.txns, b.nextId, b.nextXact)
    requires forall i :: 0 <= i < |b.txns| ==> b.txns[i].xactId < b.nextXact
    requires close.checkpoint == Checkpoint(b.txns, currency, plan.endsAt, b.nextXact, b.nextId + 1)
    ensures TemporariesAreZeroed(b.accounts, Some(plan.retainedEarnings), close) <==> SweptPositions(b, currency, plan) == []
  {
    var order := InKeyOrder(Sweepable(b, currency, plan));
    InKeyOrderListsEveryKey(Sweepable(b, currency, plan));
    if order != [] {
      assert order[0] in order && order[0] == Key(order[0].account, currency);
      CheckpointedFirst(b, currency, plan, close, order[0].account);
    } else {
      forall account: nat | IsTemporary(b.accounts, account) && account != plan.retainedEarnings
        ensures CheckpointOn(close.checkpoint, account).input == CheckpointOn(close.checkpoint, account).output {
        CheckpointedFirst(b, currency, plan, close, account);
        NothingToSweep(b, currency, plan, account);
      }
    }
  }

  /** Computed first, a stored row is the position before the close. */
  lemma CheckpointedFirst(b: Book, currency: Text, plan: ClosePlan, close: Close, account: nat)
    requires TxnIdsAreFresh(b.txns, b.nextId, b.nextXact)
    requires forall i :: 0 <= i < |b.txns| ==> b.txns[i].xactId < b.nextXact
    requires close.checkpoint == Checkpoint(b.txns, currency, plan.endsAt, b.nextXact, b.nextId + 1)
    ensures CheckpointOn(close.checkpoint, account).input - CheckpointOn(close.checkpoint, account).output
         == Net(LegsWhere(b.txns, Admitted(plan.endsAt, b.nextXact)), Key(account, currency))
  {
    SameAdmissions(b.txns, InCheckpoint(plan.endsAt, b.nextXact, b.nextId + 1), Admitted(plan.endsAt, b.nextXact));
    CheckpointHoldsTheTotals(b.txns, currency, plan.endsAt, b.nextXact, b.nextId + 1, account);
  }

  lemma NothingToSweep(b: Book, currency: Text, plan: ClosePlan, account: nat)
    requires IsTemporary(b.accounts, account) && account != plan.retainedEarnings
    requires Key(account, currency) !in Sweepable(b, currency, plan)
    ensures Net(LegsWhere(b.txns, Admitted(plan.endsAt, b.nextXact)), Key(account, currency)) == 0
  {
    var legs := LegsWhere(b.txns, Admitted(plan.endsAt, b.nextXact));
    if Key(account, currency) !in KeysOf(legs) {
      UntouchedKeysHaveNothing(legs, Key(account, currency));
    }
  }

  // ---- writers still in flight when the close ran ----------------------

  /** What the checkpoint missed: posted, dated inside, below the close's cursor, and
      committed only after the checkpoint was taken. */
  function Missed(late: seq<Txn>, close: Close): seq<Leg>
  {
    LegsWhere(late, InCheckpoint(close.endsAt, close.computedAtXid, close.transactionId))
  }

  function MissedOn(late: seq<Txn>, close: Close, row: Key): Checkpointed
  {
    Checkpointed(Total(Missed(late, close), row, Debit), Total(Missed(late, close), row, Credit))
  }

  /** A checkpoint taken over one journal and read over a longer one falls short of
      inception by exactly what it missed. */
  lemma TheReaderFallsShortByWhatWasMissed(early: seq<Txn>, late: seq<Txn>, currency: Text, close: Close, account: nat, asOf: Instant, cursor: nat)
    requires CheckpointIsExact(early, currency, close) && MayAnchor(early + late, close, asOf, cursor)
    ensures FromInception(early + late, Key(account, currency), asOf, cursor)
         == Plus(FromCheckpoint(early + late, close, Key(account, currency), asOf, cursor), MissedOn(late, close, Key(account, currency)))
  {
    var row, txns := Key(account, currency), early + late;
    var bound := InCheckpoint(close.endsAt, close.computedAtXid, close.transactionId);
    var tails := Plus(Gross(txns, InTailA(close.endsAt, asOf, cursor), row),
                      Gross(txns, InTailB(close.endsAt, close.computedAtXid, close.transactionId, cursor), row));
    ThreeTermsAreTheWhole(txns, close, row, asOf, cursor);
    LegsWhereConcat(early, late, bound);
    TotalConcat(LegsWhere(early, bound), Missed(late, close), row, Debit);
    TotalConcat(LegsWhere(early, bound), Missed(late, close), row, Credit);
    assert CheckpointOn(close.checkpoint, account) == Gross(early, bound, row);
    SumsRegroup(Gross(txns, bound, row), Gross(early, bound, row), MissedOn(late, close, row), tails);
  }

  lemma SumsRegroup(whole: Checkpointed, early: Checkpointed, missed: Checkpointed, tails: Checkpointed)
    requires whole.input == early.input + missed.input && whole.output == early.output + missed.output
    ensures Plus(whole, tails) == Plus(Plus(early, tails), missed)
  {
  }

  lemma AddsNothing(position: Checkpointed, more: Checkpointed)
    ensures Plus(position, more) == position <==> more == Checkpointed(0, 0)
  {
  }

  /** Positive legs on a row total more than nothing on one of its sides. */
  lemma {:induction false} ALegMovesItsRow(legs: seq<Leg>, row: Key)
    requires AllPositive(legs) && row in KeysOf(legs)
    ensures Total(legs, row, Debit) > 0 || Total(legs, row, Credit) > 0
    decreases |legs|
  {
    var n := |legs| - 1;
    TotalsAreNotNegative(legs[..n], row, Debit);
    TotalsAreNotNegative(legs[..n], row, Credit);
    if legs[n].Row() != row {
      var i :| 0 <= i < |legs| && legs[i].Row() == row;
      assert legs[..n][i].Row() == row;
      ALegMovesItsRow(legs[..n], row);
    }
  }
}
