/** One reachable book, and one drain of two postings, on which a batch answers a
    member otherwise than a post of its own would. */
module TwoPaths {
  import opened Wrappers
  import opened Bytes
  import opened Domain
  import opened Accounts
  import opened Postings
  import opened Book
  import opened BookInvariants
  import opened Writer
  import opened WriterInvariants
  import opened BatchRefinement
  import opened Runs

  const USD: Text := [85, 83, 68]
  const TRIPLE := ChartTriple(Asset, true, Unscoped)
  const DEPLOYMENT := Deployment(map[[65] := TRIPLE, [66] := TRIPLE], {})

  /** A house account of the type, and under the key, that one letter names. */
  function Opening(letter: byte): OpenAccount
  {
    OpenAccount([97], [letter], [letter], House, None, USD, None, None)
  }

  lemma TheOpeningIsWellFormed(letter: byte)
    requires letter == 65 || letter == 66
    ensures Opening(letter).WellFormed()
  {
    assert 97 in Opening(letter).tenantId && letter in Opening(letter).purpose;
  }

  function Transfer(letter: byte, source: Uuid, destination: Uuid, amount: Int64): PostTransaction
  {
    PostTransaction([97], [letter], Some(OffsetDateTime(0, 0)), TransactionStatus.Posted, None, None, [Posting(source, destination, amount, USD)])
  }

  function LegsOfTransfer(source: Uuid, destination: Uuid, amount: Int64): seq<Leg>
  {
    [Leg(source, USD, Credit, amount), Leg(destination, USD, Debit, amount)]
  }

  lemma OneLegMoves(leg: Leg, row: Key)
    ensures DeltaOf([leg], row)
         == if leg.Row() == row then Delta(if leg.direction == Debit then leg.amountMinor else 0, if leg.direction == Credit then leg.amountMinor else 0, 1)
            else Delta(0, 0, 0)
  {
    assert [leg][..0] == [] && Total([], row, Debit) == 0 == Total([], row, Credit) && Count([], row) == 0;
    assert Total([leg], row, leg.direction) == if leg.Row() == row then leg.amountMinor else 0;
  }

  lemma ATransferMoves(source: Uuid, destination: Uuid, amount: Int64, row: Key)
    requires source != destination
    ensures DeltaOf(LegsOfTransfer(source, destination, amount), row)
         == if row == Key(source, USD) then Delta(0, amount, 1) else if row == Key(destination, USD) then Delta(amount, 0, 1) else Delta(0, 0, 0)
  {
    var legs := LegsOfTransfer(source, destination, amount);
    assert legs == [legs[0]] + [legs[1]];
    DeltasAreAdditive([legs[0]], [legs[1]], row);
    OneLegMoves(legs[0], row);
    OneLegMoves(legs[1], row);
  }

  lemma TheTransferIsWellFormed(letter: byte, source: Uuid, destination: Uuid, amount: Int64)
    requires letter != 0 && source != destination && amount > 0
    ensures var c := Transfer(letter, source, destination, amount);
            c.WellFormed() && c.Plain() && LegsOf(c.postings) == LegsOfTransfer(source, destination, amount)
  {
    var c := Transfer(letter, source, destination, amount);
    assert 97 in c.tenantId && c.postings[0].WellFormed();
    assert c.postings[..0] == [];
    assert LegsOf(c.postings) == LegsOfPosting(c.postings[0]);
  }

  lemma TheTransferPlans(letter: byte, source: Uuid, destination: Uuid, amount: Int64)
    requires letter != 0 && source != destination && amount > 0
    ensures Transfer(letter, source, destination, amount).WellFormed() && !PlanFails(PlanFor(Transfer(letter, source, destination, amount)))
  {
    TheTransferIsWellFormed(letter, source, destination, amount);
    forall row, direction ensures Total(LegsOfTransfer(source, destination, amount), row, direction) < I64_LIMIT {
      ATransferMoves(source, destination, amount, row);
      assert DeltaOf(LegsOfTransfer(source, destination, amount), row).input == Total(LegsOfTransfer(source, destination, amount), row, Debit);
      assert direction == Debit || direction == Credit;
    }
  }

  // ---- a book with one row at its brink --------------------------------

  /** Two accounts, and nothing posted yet. */
  ghost predicate HasTwoAccounts(b: Book)
  {
    && b.accounts.Keys == {1, 3} && b.accounts[1].nature.currency == USD && b.accounts[3].nature.currency == USD
    && b.balances == map[] && b.txns == [] && b.events.Keys == {[65], [66]} && b.nextId == 4
  }

  lemma ARegistrationsFields(b: Book, c: OpenAccount, hash: Text, triple: ChartTriple) returns (after: Book)
    requires c.purpose in DEPLOYMENT.chart && DEPLOYMENT.chart[c.purpose] == triple && CanBeOpened(DEPLOYMENT, b, c)
    ensures after == OpenOutcome(DEPLOYMENT, b, c, hash).book
    ensures after.accounts == b.accounts[b.nextId + 1 := Account(NatureOf(c), triple)]
    ensures after.register == b.register[NatureOf(c) := b.nextId + 1]
    ensures after.events.Keys == b.events.Keys + {c.idempotencyKey}
    ensures after.balances == b.balances && after.txns == b.txns && after.nextId == b.nextId + 2
  {
    AnOpeningUnderAHash(DEPLOYMENT, b, c, hash);
    after := OpenOutcome(DEPLOYMENT, b, c, hash).book;
  }

  lemma AnAccountOpens(b: Book, c: OpenAccount) returns (after: Book)
    requires c.WellFormed() && c.purpose in DEPLOYMENT.chart && CanBeOpened(DEPLOYMENT, b, c)
    ensures after == OpenOutcome(DEPLOYMENT, b, c, CanonicalOpen(c)).book
    ensures after.accounts == b.accounts[b.nextId + 1 := Account(NatureOf(c), DEPLOYMENT.chart[c.purpose])]
    ensures after.register == b.register[NatureOf(c) := b.nextId + 1]
    ensures after.events.Keys == b.events.Keys + {c.idempotencyKey}
    ensures after.balances == b.balances && after.txns == b.txns && after.nextId == b.nextId + 2
  {
    after := ARegistrationsFields(b, c, CanonicalOpen(c), DEPLOYMENT.chart[c.purpose]);
  }

  lemma TheHouseMayOpen(b: Book, letter: byte)
    requires (letter == 65 || letter == 66) && [letter] !in b.events && NatureOf(Opening(letter)) !in b.register
    ensures Opening(letter).purpose in DEPLOYMENT.chart && CanBeOpened(DEPLOYMENT, b, Opening(letter))
  {
  }

  ghost predicate HasOneAccount(b: Book)
  {
    && b.accounts == map[1 := Account(NatureOf(Opening(65)), TRIPLE)] && b.register == map[NatureOf(Opening(65)) := 1]
    && b.events.Keys == {[65]} && b.balances == map[] && b.txns == [] && b.nextId == 2
  }

  lemma TheFirstAccountOpens() returns (b: Book)
    ensures b == OpenOutcome(DEPLOYMENT, EMPTY_BOOK, Opening(65), CanonicalOpen(Opening(65))).book && HasOneAccount(b)
  {
    TheOpeningIsWellFormed(65);
    TheHouseMayOpen(EMPTY_BOOK, 65);
    b := AnAccountOpens(EMPTY_BOOK, Opening(65));
  }

  lemma TheNaturesDiffer()
    ensures NatureOf(Opening(65)) != NatureOf(Opening(66))
    ensures NatureOf(Opening(65)).currency == USD == NatureOf(Opening(66)).currency
  {
    assert Opening(65).purpose[0] != Opening(66).purpose[0];
  }

  lemma TheSecondAccountOpens(one: Book) returns (b: Book)
    requires HasOneAccount(one)
    ensures b == OpenOutcome(DEPLOYMENT, one, Opening(66), CanonicalOpen(Opening(66))).book && HasTwoAccounts(b)
  {
    TheOpeningIsWellFormed(66);
    TheNaturesDiffer();
    TheHouseMayOpen(one, 66);
    b := AnAccountOpens(one, Opening(66));
  }

  // ---- one balance at its brink ----------------------------------------

  const BRINK: Int64 := I64_LIMIT - 1

  /** Account 1 holds all a balance can, received from account 3. */
  ghost predicate IsAtTheBrink(b: Book)
  {
    && b.accounts.Keys == {1, 3} && b.accounts[1].nature.currency == USD && b.accounts[3].nature.currency == USD
    && b.balances == map[Key(1, USD) := Balance(BRINK, 0, 1), Key(3, USD) := Balance(0, BRINK, 1)]
    && b.events.Keys == {[65], [66], [67]}
  }

  function Credited(before: Balance, amount: int): Balance { Balance(before.input, before.output + amount, before.lastSeq + 1) }

  function Debited(before: Balance, amount: int): Balance { Balance(before.input + amount, before.output, before.lastSeq + 1) }

  lemma ATransferUpserts(balances: map<Key, Balance>, source: Uuid, destination: Uuid, amount: Int64)
    requires source != destination
    ensures var from, to := Key(source, USD), Key(destination, USD);
            Upserted(balances, LegsOfTransfer(source, destination, amount), TransactionStatus.Posted)
            == balances[from := Credited(BalanceOn(balances, from), amount)][to := Debited(BalanceOn(balances, to), amount)]
  {
    var legs, from, to := LegsOfTransfer(source, destination, amount), Key(source, USD), Key(destination, USD);
    var after := Upserted(balances, legs, TransactionStatus.Posted);
    var meant := balances[from := Credited(BalanceOn(balances, from), amount)][to := Debited(BalanceOn(balances, to), amount)];
    assert legs[0].Row() in KeysOf(legs) && legs[1].Row() in KeysOf(legs);
    assert after.Keys == meant.Keys;
    forall row | row in after ensures after[row] == meant[row] {
      UpsertOnOneRow(balances, legs, TransactionStatus.Posted, row);
      ATransferMoves(source, destination, amount, row);
      assert BalanceOn(after, row) == after[row];
    }
  }

  lemma TheBrinkBalances()
    ensures Upserted(map[], LegsOfTransfer(3, 1, BRINK), TransactionStatus.Posted)
         == map[Key(1, USD) := Balance(BRINK, 0, 1), Key(3, USD) := Balance(0, BRINK, 1)]
  {
    ATransferUpserts(map[], 3, 1, BRINK);
  }

  lemma EveryoneIsKnown(b: Book, source: Uuid, destination: Uuid, amount: Int64)
    requires b.accounts.Keys == {1, 3} && b.accounts[1].nature.currency == USD && b.accounts[3].nature.currency == USD
    ensures AllKnown(b.accounts, LegsOfTransfer(source, destination, amount)) <==> source in {1, 3} && destination in {1, 3}
  {
    var legs := LegsOfTransfer(source, destination, amount);
    assert legs[0].Row() == Key(source, USD) && legs[1].Row() == Key(destination, USD);
  }

  lemma TheBrinkIsReached(b: Book) returns (after: Book)
    requires HasTwoAccounts(b)
    ensures Transfer(67, 3, 1, BRINK).WellFormed() && after == PostOutcome(b, PlanFor(Transfer(67, 3, 1, BRINK))).book
    ensures IsAtTheBrink(after)
  {
    var c := Transfer(67, 3, 1, BRINK);
    TheTransferIsWellFormed(67, 3, 1, BRINK);
    TheTransferPlans(67, 3, 1, BRINK);
    EveryoneIsKnown(b, 3, 1, BRINK);
    TheBrinkBalances();
    after := APlainTransferIsRecorded(b, c, LegsOfTransfer(3, 1, BRINK));
  }

  lemma APlainTransferIsRecorded(b: Book, c: PostTransaction, legs: seq<Leg>) returns (after: Book)
    requires c.WellFormed() && c.Plain() && !PlanFails(PlanFor(c)) && legs == LegsOf(c.postings)
    requires c.idempotencyKey !in b.events && AllKnown(b.accounts, legs) && Fits(Upserted(b.balances, legs, TransactionStatus.Posted))
    ensures after == PostOutcome(b, PlanFor(c)).book
    ensures after.accounts == b.accounts && after.balances == Upserted(b.balances, legs, TransactionStatus.Posted)
    ensures after.events.Keys == b.events.Keys + {c.idempotencyKey}
  {
    var p := PlanFor(c);
    after := PostOutcome(b, p).book;
    APlainPlanIsRecorded(b, p, legs, after);
  }

  lemma APlainPlanIsRecorded(b: Book, p: Planned, legs: seq<Leg>, after: Book)
    requires p.command.Plain() && !PlanFails(p) && legs == p.Legs() && after == PostOutcome(b, p).book
    requires p.Key() !in b.events && AllKnown(b.accounts, legs) && Fits(Upserted(b.balances, legs, TransactionStatus.Posted))
    ensures after.accounts == b.accounts && after.balances == Upserted(b.balances, legs, TransactionStatus.Posted)
    ensures after.events.Keys == b.events.Keys + {p.Key()}
  {
    AnAdmissibleMemberIsRecorded(b, b, p);
  }

  lemma AnOpeningsOp(ops: seq<Op>, c: OpenAccount, before: Book, after: Book) returns (more: seq<Op>)
    requires (forall o :: o in ops ==> o.WellFormed()) && c.WellFormed()
    requires before == Run(DEPLOYMENT, ops) && after == OpenOutcome(DEPLOYMENT, before, c, CanonicalOpen(c)).book
    ensures |more| == |ops| + 1 && forall o :: o in more ==> o.WellFormed() && (o in ops || o == Op.Open(c))
    ensures after == Run(DEPLOYMENT, more)
  {
    OneMoreOp(ops, Op.Open(c), before, after);
    more := ops + [Op.Open(c)];
  }

  lemma APostingsOp(ops: seq<Op>, c: PostTransaction, before: Book, after: Book)
    requires (forall o :: o in ops ==> o.WellFormed()) && c.WellFormed()
    requires before == Run(DEPLOYMENT, ops) && after == PostOutcome(before, PlanFor(c)).book
    ensures (forall o :: o in ops + [Op.Post(c)] ==> o.WellFormed()) && after == Run(DEPLOYMENT, ops + [Op.Post(c)])
  {
    OneMoreOp(ops, Op.Post(c), before, after);
  }

  /** Openings of this one tenant's. */
  predicate AreItsOpenings(ops: seq<Op>)
  {
    forall op :: op in ops ==> op.WellFormed() && op.Open? && op.open.tenantId == [97]
  }

  lemma OneAccountIsReachable() returns (ops: seq<Op>, one: Book)
    ensures |ops| == 1 && AreItsOpenings(ops) && one == Run(DEPLOYMENT, ops) && HasOneAccount(one)
  {
    TheOpeningIsWellFormed(65);
    one := TheFirstAccountOpens();
    ops := AnOpeningsOp([], Opening(65), EMPTY_BOOK, one);
  }

  lemma TwoAccountsAreReachable() returns (ops: seq<Op>, b: Book)
    ensures |ops| == 2 && AreItsOpenings(ops) && b == Run(DEPLOYMENT, ops) && HasTwoAccounts(b)
  {
    var one;
    ops, one := OneAccountIsReachable();
    TheOpeningIsWellFormed(66);
    b := TheSecondAccountOpens(one);
    ops := AnOpeningsOp(ops, Opening(66), one, b);
  }

  /** A book at the brink is reached by two openings and a posting. */
  lemma TheBrinkIsReachable() returns (ops: seq<Op>, b: Book)
    ensures (forall op :: op in ops ==> op.WellFormed()) && b == Run(DEPLOYMENT, ops) && Valid(b) && IsAtTheBrink(b)
  {
    var two;
    ops, two := TwoAccountsAreReachable();
    b := TheBrinkIsReached(two);
    APostingsOp(ops, Transfer(67, 3, 1, BRINK), two, b);
    ops := ops + [Op.Post(Transfer(67, 3, 1, BRINK))];
    EveryReachableBookIsValid(DEPLOYMENT, ops);
  }

  lemma OneMoreOp(ops: seq<Op>, op: Op, before: Book, after: Book)
    requires (forall o :: o in ops ==> o.WellFormed()) && op.WellFormed()
    requires before == Run(DEPLOYMENT, ops) && after == After(DEPLOYMENT, before, op)
    ensures (forall o :: o in ops + [op] ==> o.WellFormed()) && after == Run(DEPLOYMENT, ops + [op])
  {
    assert (ops + [op])[..|ops|] == ops;
  }

  // ---- the drain the two paths answer apart ----------------------------

  /** One unit from an account nobody opened, to the account at its brink. */
  function Stray(): PostTransaction { Transfer(68, 99, 1, 1) }

  /** And one unit back. */
  function Plain(): PostTransaction { Transfer(69, 1, 3, 1) }

  lemma TheStraysKnownLegs(b: Book)
    requires IsAtTheBrink(b)
    ensures KnownLegs(b.accounts, LegsOfTransfer(99, 1, 1)) == [Leg(1, USD, Debit, 1)]
    ensures FirstUnknown(b.accounts, LegsOfTransfer(99, 1, 1)) == Some(Key(99, USD))
  {
    var legs := LegsOfTransfer(99, 1, 1);
    assert legs[..1] == [legs[0]] && legs[..1][..0] == [] && legs == [legs[0]] + [legs[1]];
    assert !IsKnown(b.accounts, legs[0].Row()) && IsKnown(b.accounts, legs[1].Row());
    assert KnownLegs(b.accounts, legs[..1]) == [];
    assert [] + [legs[1]] == [legs[1]];
    var missing := MissingRows(b.accounts, legs);
    assert legs[0].Row() in KeysOf(legs);
    assert missing == {Key(99, USD)};
  }

  lemma TheStrayOverflowsAlone(b: Book, balances: map<Key, Balance>)
    requires IsAtTheBrink(b) && BalanceOn(balances, Key(1, USD)).input == BRINK
    ensures !Fits(Upserted(balances, [Leg(1, USD, Debit, 1)], TransactionStatus.Posted))
  {
    var leg := Leg(1, USD, Debit, 1);
    var after := Upserted(balances, [leg], TransactionStatus.Posted);
    UpsertOnOneRow(balances, [leg], TransactionStatus.Posted, Key(1, USD));
    OneLegMoves(leg, Key(1, USD));
    assert [leg][0].Row() == Key(1, USD) && Key(1, USD) in KeysOf([leg]);
    assert Key(1, USD) in after && BalanceOn(after, Key(1, USD)).input == I64_LIMIT;
  }

  lemma TheDrainIsADrain()
    ensures Stray().WellFormed() && Plain().WellFormed()
    ensures var commands := [PlanFor(Stray()), PlanFor(Plain())];
            && IsADrain(commands) && Survivors(commands) == commands
            && commands[0].Legs() == LegsOfTransfer(99, 1, 1) && commands[1].Legs() == LegsOfTransfer(1, 3, 1)
  {
    TheTransferIsWellFormed(68, 99, 1, 1);
    TheTransferIsWellFormed(69, 1, 3, 1);
    TheTransferPlans(68, 99, 1, 1);
    TheTransferPlans(69, 1, 3, 1);
    var stray, plain := PlanFor(Stray()), PlanFor(Plain());
    assert stray.Key()[0] != plain.Key()[0];
    TwoSurvive(stray, plain);
  }

  lemma TwoSurvive(one: Planned, two: Planned)
    requires !PlanFails(one) && !PlanFails(two)
    ensures Survivors([one, two]) == [one, two]
  {
    assert [one, two][..1] == [one] && [one][..0] == [];
    assert Survivors([]) + [one] == [one] && [one] + [two] == [one, two];
  }

  lemma OnlyTheSecondProceeds(b: Book, one: Planned, two: Planned)
    requires !Proceeds(b, one) && Proceeds(b, two)
    ensures Proceeding(b, [one, two]) == [two] && Proceeding(b, [one, two][..0]) == []
    ensures MemberLegs([two]) == two.Legs() && MemberLegs([]) == []
  {
    assert [one, two][..1] == [one] && [one][..0] == [] && [two][..0] == [];
    assert Proceeding(b, [one]) == [] && [] + [two] == [two];
    assert [] + two.Legs() == two.Legs();
  }

  lemma TheTotalsStillFit(b: Book)
    requires IsAtTheBrink(b)
    ensures Fits(Upserted(b.balances, LegsOfTransfer(1, 3, 1), TransactionStatus.Posted))
  {
    ATransferUpserts(b.balances, 1, 3, 1);
  }

  lemma TheStrayFailsAlone(b: Book, stray: Planned, plain: Planned)
    requires IsAtTheBrink(b) && stray.Legs() == LegsOfTransfer(99, 1, 1) && stray.Key() !in b.events
    requires stray.command.status.Posted?
    ensures FailsAlone(b, [stray, plain], 0)
  {
    EveryoneIsKnown(b, 99, 1, 1);
    TheStraysKnownLegs(b);
    assert [stray, plain][..0] == [] && Proceeding(b, []) == [] && MemberLegs([]) == [];
    UpsertOnOneRow(b.balances, [], TransactionStatus.Posted, Key(1, USD));
    assert DeltaOf([], Key(1, USD)) == Delta(0, 0, 0);
    TheStrayOverflowsAlone(b, BalancesBefore(b, [stray, plain], 0));
  }

  lemma TheDrainIsAnswered(b: Book, stray: Planned, plain: Planned)
    requires IsAtTheBrink(b) && MayShare([stray, plain])
    requires stray.Legs() == LegsOfTransfer(99, 1, 1) && plain.Legs() == LegsOfTransfer(1, 3, 1) && plain.Key() !in b.events
    ensures ClaimAndAppendBatch(b, [stray, plain]).Answered? && IsAdmissible(b, plain) && !IsAdmissible(b, stray)
  {
    EveryoneIsKnown(b, 99, 1, 1);
    EveryoneIsKnown(b, 1, 3, 1);
    OnlyTheSecondProceeds(b, stray, plain);
    TheTotalsStillFit(b);
    TheSharedStatementFailsExactlyOnOverflow(b, [stray, plain]);
  }

  lemma TheStrayIsAnsweredApart(b: Book, stray: Planned, plain: Planned)
    requires FailsAlone(b, [stray, plain], 0) && IsAdmissible(b, plain) && !PlanFails(stray) && Survivors([stray, plain]) == [stray, plain]
    ensures AnsweredApart(b, [stray, plain], 0) && !AnsweredApart(b, [stray, plain], 1)
  {
    assert [stray, plain][..0] == [] && Survivors([]) == [];
  }

  /** On that drain the stray posting hears the name of its unknown account in the
      batch and a storage failure alone; its batch-mate is answered alike by both. */
  lemma TheTwoPathsPart(b: Book)
    requires IsAtTheBrink(b)
    ensures Stray().WellFormed() && Plain().WellFormed()
    ensures var commands := [PlanFor(Stray()), PlanFor(Plain())];
            && IsADrain(commands) && AnsweredApart(b, commands, 0) && !AnsweredApart(b, commands, 1)
            && ClaimAndAppendBatch(b, Survivors(commands)).Answered?
  {
    TheDrainIsADrain();
    TheKeysAreFree(b);
    var stray, plain := PlanFor(Stray()), PlanFor(Plain());
    TwoThatMayShare(stray, plain);
    TheStrayFailsAlone(b, stray, plain);
    TheDrainIsAnswered(b, stray, plain);
    TheStrayIsAnsweredApart(b, stray, plain);
  }

  lemma TwoThatMayShare(one: Planned, two: Planned)
    requires IsADrain([one, two]) && Survivors([one, two]) == [one, two]
    ensures MayShare([one, two]) && !PlanFails(one)
  {
    SurvivorsMayShare([one, two]);
    assert one in [one, two];
  }

  lemma TheKeysAreFree(b: Book)
    requires IsAtTheBrink(b)
    ensures Stray().idempotencyKey !in b.events && Plain().idempotencyKey !in b.events
  {
    assert Stray().idempotencyKey[0] == 68 && Plain().idempotencyKey[0] == 69;
  }
}
