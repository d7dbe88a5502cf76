/** Every operation of the writer leaves a valid book, and says what it wrote. */
module WriterInvariants {
  import opened Wrappers
  import opened Bytes
  import opened Domain
  import opened Accounts
  import opened Periods
  import opened Postings
  import opened KeyOrder
  import opened Port
  import opened Book
  import opened BookInvariants
  import opened Writer
  import Order

  // ---- looking transactions up -----------------------------------------

  lemma {:induction false} FindTxnFinds(txns: seq<Txn>, id: nat)
    ensures FindTxn(txns, id).Some? ==> exists j :: 0 <= j < |txns| && txns[j] == FindTxn(txns, id).value && txns[j].id == id
    ensures FindTxn(txns, id).None? ==> forall j :: 0 <= j < |txns| ==> txns[j].id != id
    decreases |txns|
  {
    if txns != [] && txns[|txns| - 1].id != id {
      var front := txns[..|txns| - 1];
      FindTxnFinds(front, id);
      if FindTxn(txns, id).Some? {
        var j :| 0 <= j < |front| && front[j] == FindTxn(txns, id).value && front[j].id == id;
        assert txns[j] == front[j];
      } else {
        forall j | 0 <= j < |txns| ensures txns[j].id != id {
          if j < |front| {
            assert txns[j] == front[j];
          }
        }
      }
    }
  }

  /** A transaction's entries are entries of the journal. */
  lemma {:induction false} EntriesBelongToTheJournal(txns: seq<Txn>, j: nat, k: nat)
    requires j < |txns| && k < |txns[j].entries|
    ensures exists i :: 0 <= i < |AllEntries(txns)| && AllEntries(txns)[i] == txns[j].entries[k]
    decreases |txns|
  {
    var n := |txns| - 1;
    if j == n {
      assert AllEntries(txns)[|AllEntries(txns[..n])| + k] == txns[n].entries[k];
    } else {
      EntriesBelongToTheJournal(txns[..n], j, k);
      var i :| 0 <= i < |AllEntries(txns[..n])| && AllEntries(txns[..n])[i] == txns[j].entries[k];
      assert AllEntries(txns)[i] == txns[j].entries[k];
    }
  }

  // ---- what an accepted posting brings ---------------------------------

  lemma {:induction false} KnownLegsAreAll(accounts: map<nat, Account>, legs: seq<Leg>)
    requires AllKnown(accounts, legs)
    ensures KnownLegs(accounts, legs) == legs
    decreases |legs|
  {
    if legs != [] {
      var n := |legs| - 1;
      KnownLegsAreAll(accounts, legs[..n]);
      assert IsKnown(accounts, legs[n].Row());
      assert legs == legs[..n] + [legs[n]];
    }
  }

  /** A mirror's accounts exist by construction. */
  lemma AMirrorIsSound(b: Book, j: nat)
    requires ValidStaged(b) && j < |b.txns|
    ensures var mirror := Mirrored(LegsIn(b.txns[j].entries));
            AllKnown(b.accounts, mirror) && AllPositive(mirror) && Balanced(mirror)
  {
    var legs := LegsIn(b.txns[j].entries);
    forall k | 0 <= k < |legs| ensures IsKnown(b.accounts, legs[k].Row()) && 0 < legs[k].amountMinor < I64_LIMIT {
      EntriesBelongToTheJournal(b.txns, j, k);
      var i :| 0 <= i < |AllEntries(b.txns)| && AllEntries(b.txns)[i] == b.txns[j].entries[k];
      assert AllLegs(b.txns)[i] == legs[k];
    }
    MirrorBalances(legs);
  }

  /** The gate passed, so the named target is one transaction that may take it. */
  lemma TheGatePassesTargets(b: Book, c: PostTransaction)
    requires ValidStaged(b) && c.WellFormed() && Gate(b, c).None?
    ensures MaySupersede(b.txns, ShapeOf(b, c), StatementLegs(b, c))
  {
    if c.resolvesId.Some? {
      FindTxnFinds(b.txns, c.resolvesId.value);
      var j :| 0 <= j < |b.txns| && b.txns[j] == TargetOf(b, c).value && b.txns[j].id == c.resolvesId.value;
    } else if c.reversesId.Some? {
      FindTxnFinds(b.txns, c.reversesId.value);
      var j :| 0 <= j < |b.txns| && b.txns[j] == TargetOf(b, c).value && b.txns[j].id == c.reversesId.value;
    }
  }

  /** An accepted posting's legs, whoever derived them. */
  lemma StatementLegsAreSound(b: Book, c: PostTransaction)
    requires ValidStaged(b) && c.WellFormed() && Gate(b, c).None?
    ensures AllPositive(StatementLegs(b, c)) && Balanced(StatementLegs(b, c))
    ensures c.reversesId.Some? ==> AllKnown(b.accounts, StatementLegs(b, c))
  {
    if c.reversesId.None? {
      LegsOfPostingsArePositive(c.postings);
      LegsOfPostingsBalance(c.postings);
    } else {
      FindTxnFinds(b.txns, c.reversesId.value);
      var j :| 0 <= j < |b.txns| && b.txns[j] == TargetOf(b, c).value && b.txns[j].id == c.reversesId.value;
      AMirrorIsSound(b, j);
    }
  }

  /** The book after one accepted posting. */
  function Written(b: Book, p: Planned): Book
  {
    Record(b, p.Key(), p.hash, ShapeOf(b, p.command), StatementLegs(b, p.command))
  }

  /** The key is free, the target may take it, every account is known, and the
      totals fit. */
  ghost predicate CanBeWritten(b: Book, p: Planned)
  {
    && p.Key() !in b.events
    && Gate(b, p.command).None?
    && AllKnown(b.accounts, StatementLegs(b, p.command))
    && Fits(Written(b, p).balances)
  }

  lemma AnAcceptablePostIsRecordable(b: Book, p: Planned)
    requires ValidStaged(b) && p.command.WellFormed() && TaggedBy(p.hash, POST_LETTER) && CanBeWritten(b, p)
    ensures Recordable(b, p.Key(), p.hash, ShapeOf(b, p.command), StatementLegs(b, p.command))
  {
    StatementLegsAreSound(b, p.command);
    TheGatePassesTargets(b, p.command);
  }

  // ---- the refusal names the least unknown account ---------------------

  lemma {:induction false} FirstMissingIsTheFirst(upserts: seq<BalanceUpsert>)
    ensures FirstMissing(upserts).None? <==> forall i :: 0 <= i < |upserts| ==> upserts[i].lastSeq.Some?
    ensures FirstMissing(upserts).Some? ==>
              exists i :: 0 <= i < |upserts| && upserts[i].lastSeq.None? && upserts[i].row == FirstMissing(upserts).value
                          && forall j :: 0 <= j < i ==> upserts[j].lastSeq.Some?
    decreases |upserts|
  {
    if upserts != [] {
      FirstMissingIsTheFirst(upserts[1..]);
      if upserts[0].lastSeq.None? {
        assert upserts[0].row == FirstMissing(upserts).value;
      } else if FirstMissing(upserts).Some? {
        var rest := upserts[1..];
        var i :| 0 <= i < |rest| && rest[i].lastSeq.None? && rest[i].row == FirstMissing(upserts).value
                 && forall j :: 0 <= j < i ==> rest[j].lastSeq.Some?;
        assert upserts[i + 1].row == FirstMissing(upserts).value;
        forall j | 0 <= j < i + 1 ensures upserts[j].lastSeq.Some? {
          if j > 0 {
            assert rest[j - 1].lastSeq.Some?;
          }
        }
      } else {
        forall i | 0 <= i < |upserts| ensures upserts[i].lastSeq.Some? {
          if i > 0 {
            assert upserts[1..][i - 1].lastSeq.Some?;
          }
        }
      }
    }
  }

  /** The upserts come back in account order, so the first without a counter is
      the least unknown account. */
  lemma TheRefusalNamesTheLeastUnknownAccount(b: Book, balances: map<Key, Balance>, legs: seq<Leg>)
    ensures FirstMissing(UpsertsFor(b, balances, legs)) == FirstUnknown(b.accounts, legs)
  {
    var order, upserts := InKeyOrder(KeysOf(legs)), UpsertsFor(b, balances, legs);
    InKeyOrderListsEveryKey(KeysOf(legs));
    FirstMissingIsTheFirst(upserts);
    NothingMissingMeansAllKnown(b.accounts, legs);
    if FirstMissing(upserts).Some? {
      var i :| 0 <= i < |upserts| && upserts[i].lastSeq.None? && upserts[i].row == FirstMissing(upserts).value
               && forall j :: 0 <= j < i ==> upserts[j].lastSeq.Some?;
      forall j | 0 <= j < i ensures IsKnown(b.accounts, order[j]) {
        assert upserts[j].lastSeq.Some?;
      }
      InKeyOrderAscends(KeysOf(legs));
      TheFirstOutOfPlaceIsLeast(b, order, i, MissingRows(b.accounts, legs));
      LeastIsUnique(order[i], FirstUnknown(b.accounts, legs).value, MissingRows(b.accounts, legs));
    } else {
      forall k | 0 <= k < |order| ensures IsKnown(b.accounts, order[k]) {
        assert upserts[k].lastSeq.Some?;
      }
    }
  }

  lemma TheFirstOutOfPlaceIsLeast(b: Book, order: seq<Key>, i: nat, missing: set<Key>)
    requires i < |order| && Order.Ascending(Ranks(order)) && !IsKnown(b.accounts, order[i])
    requires forall j :: 0 <= j < i ==> IsKnown(b.accounts, order[j])
    requires forall row :: row in missing <==> row in order && !IsKnown(b.accounts, row)
    ensures IsLeast(order[i], missing)
  {
    forall other | other in missing && other != order[i] ensures Precedes(order[i], other) {
      var k :| 0 <= k < |order| && order[k] == other;
      assert Ranks(order)[i] == order[i].Rank() && Ranks(order)[k] == other.Rank();
    }
  }

  // ---- posting ---------------------------------------------------------

  /** With every account known, the statement upserts and numbers every leg. */
  lemma EveryLegIsUpserted(b: Book, p: Planned)
    requires p.Key() !in b.events && AllKnown(b.accounts, StatementLegs(b, p.command))
    ensures ClaimAndAppend(b, p) == AfterTheUpserts(b, p.command, Written(b, p))
  {
    KnownLegsAreAll(b.accounts, StatementLegs(b, p.command));
  }

  /** Past the gate, with totals that fit, it appends. */
  lemma TheStatementAppends(b: Book, c: PostTransaction, recorded: Book)
    requires Gate(b, c).None? && Fits(recorded.balances)
    ensures AfterTheUpserts(b, c, recorded)
         == Answered(Some(Claimed.Appended(b.nextId, b.nextId + 1, UpsertsFor(b, recorded.balances, StatementLegs(b, c)))), recorded)
  {
  }

  lemma AnAcceptedPostIsRecordedWhole(b: Book, p: Planned)
    requires !PlanFails(p) && CanBeWritten(b, p)
    ensures PostOutcome(b, p) == Outcome(Fresh(b.nextId), Committed(b, Written(b, p)))
  {
    EveryLegIsUpserted(b, p);
    TheStatementAppends(b, p.command, Written(b, p));
    TheRefusalNamesTheLeastUnknownAccount(b, Written(b, p).balances, StatementLegs(b, p.command));
  }

  /** The gate answers only what the command's own pointer can be refused for. */
  lemma ARefusedSupersessionHasAName(b: Book, c: PostTransaction)
    requires Gate(b, c).Some?
    ensures !Named(Gate(b, c).value, c).Internal? && !Named(Gate(b, c).value, c).Storage?
  {
  }

  /** What the statement answers when it may not append. */
  lemma TheStatementRefuses(b: Book, p: Planned)
    requires p.Key() !in b.events && !CanBeWritten(b, p)
    ensures var claimed := ClaimAndAppend(b, p);
            || claimed.Failed?
            || (Gate(b, p.command).Some? && claimed.answer == Some(SupersessionRefused(Gate(b, p.command).value)))
            || (Gate(b, p.command).None? && !AllKnown(b.accounts, StatementLegs(b, p.command)) && claimed.answer.Some? && claimed.answer.value.Appended?
                && exists balances :: claimed.answer.value.upserts == UpsertsFor(b, balances, StatementLegs(b, p.command)))
  {
    if AllKnown(b.accounts, StatementLegs(b, p.command)) {
      EveryLegIsUpserted(b, p);
    }
  }

  lemma ARefusedPostWritesNothing(b: Book, p: Planned)
    requires !PlanFails(p) && p.Key() !in b.events && !CanBeWritten(b, p)
    requires Gate(b, p.command).None? && p.command.reversesId.Some? ==> AllKnown(b.accounts, StatementLegs(b, p.command))
    ensures PostOutcome(b, p).answer.Err? && PostOutcome(b, p).book == b
    ensures !PostOutcome(b, p).answer.error.Internal?
  {
    TheStatementRefuses(b, p);
    var claimed := ClaimAndAppend(b, p);
    if Gate(b, p.command).Some? {
      ARefusedSupersessionHasAName(b, p.command);
    } else if claimed.Answered? {
      var balances :| claimed.answer.value.upserts == UpsertsFor(b, balances, StatementLegs(b, p.command));
      TheRefusalNamesTheLeastUnknownAccount(b, balances, StatementLegs(b, p.command));
    }
  }

  /** Whether the legs on accounts that do exist leave every balance in range: the
      statement upserts them before it can answer for the one that does not. */
  ghost predicate KnownLegsFit(accounts: map<nat, Account>, balances: map<Key, Balance>, p: Planned)
  {
    Fits(Upserted(balances, KnownLegs(accounts, p.Legs()), p.command.status))
  }

  /** A posting over an unknown account, its key free: refused under the least such
      account's name, except exactly when the rest of its legs overflow a balance,
      which fails the statement first. */
  lemma AnUnknownAccountIsRefused(b: Book, p: Planned)
    requires !PlanFails(p) && p.Key() !in b.events && p.command.reversesId.None?
    requires Gate(b, p.command).None? && !AllKnown(b.accounts, p.Legs())
    ensures PostOutcome(b, p)
         == Outcome(Err(if KnownLegsFit(b.accounts, b.balances, p) then WriteError.AccountUnknown(FirstUnknown(b.accounts, p.Legs()).value)
                        else WriteError.Storage), b)
  {
    var recorded := Record(b, p.Key(), p.hash, ShapeOf(b, p.command), KnownLegs(b.accounts, p.Legs()));
    assert ClaimAndAppend(b, p) == AfterTheUpserts(b, p.command, recorded);
    assert KnownLegsFit(b.accounts, b.balances, p) <==> Fits(recorded.balances);
    if Fits(recorded.balances) {
      TheStatementAppends(b, p.command, recorded);
      TheRefusalNamesTheLeastUnknownAccount(b, recorded.balances, p.Legs());
    }
  }

  predicate IsFreshPost(answer: PostAnswer)
  {
    answer.Ok? && !answer.value.replayed
  }

  /** What a post means, over every valid book: it is accepted exactly when its own
      payload renders, its totals fit, its key is free, its target may take it, its
      accounts exist and the balances hold it; then it is recorded whole. Otherwise
      nothing changes, and the refusal is internal exactly when its payload does not
      render. */
  lemma WhatAPostMeans(b: Book, p: Planned)
    requires ValidStaged(b) && p.command.WellFormed()
    ensures var o := PostOutcome(b, p);
            && (IsFreshPost(o.answer) <==> !PlanFails(p) && CanBeWritten(b, p))
            && (IsFreshPost(o.answer) ==> o == Outcome(Fresh(b.nextId), Committed(b, Written(b, p))))
            && (!IsFreshPost(o.answer) ==> o.book == b)
            && (o.answer == Err(WriteError.Internal) <==> !p.command.PayloadRenders())
  {
    if !PlanFails(p) && p.Key() !in b.events {
      if CanBeWritten(b, p) {
        AnAcceptedPostIsRecordedWhole(b, p);
      } else {
        if Gate(b, p.command).None? {
          StatementLegsAreSound(b, p.command);
        }
        ARefusedPostWritesNothing(b, p);
      }
    }
  }

  lemma PostingKeepsTheBookValid(b: Book, p: Planned)
    requires Valid(b) && p.command.WellFormed() && TaggedBy(p.hash, POST_LETTER)
    ensures Valid(PostOutcome(b, p).book)
  {
    WhatAPostMeans(b, p);
    if IsFreshPost(PostOutcome(b, p).answer) {
      AnAcceptablePostIsRecordable(b, p);
      RecordingKeepsTheBookValid(b, p.Key(), p.hash, ShapeOf(b, p.command), StatementLegs(b, p.command));
      CommittingKeepsTheBookValid(b, Written(b, p));
    }
  }

  // ---- opening an account ----------------------------------------------

  predicate IsFreshOpening(answer: OpenAnswer)
  {
    answer.Ok? && !answer.value.replayed
  }

  ghost predicate CanBeOpened(d: Deployment, b: Book, c: OpenAccount)
  {
    && c.purpose in d.chart && OwnerRule(c, d.chart[c.purpose]).None?
    && c.idempotencyKey !in b.events && NatureOf(c) !in b.register
  }

  /** The book after one accepted opening, uncommitted. */
  function Registered(d: Deployment, b: Book, c: OpenAccount, hash: Text): Book
    requires c.purpose in d.chart
  {
    b.(events := b.events[c.idempotencyKey := Event(b.nextId, hash)],
       accounts := b.accounts[b.nextId + 1 := Account(NatureOf(c), d.chart[c.purpose])],
       register := b.register[NatureOf(c) := b.nextId + 1],
       nextId := b.nextId + 2)
  }

  /** An opening under any hash: fresh exactly when nothing stands in its way. */
  lemma AnOpeningUnderAHash(d: Deployment, b: Book, c: OpenAccount, hash: Text)
    ensures var o := OpenOutcome(d, b, c, hash);
            && (IsFreshOpening(o.answer) <==> CanBeOpened(d, b, c))
            && (IsFreshOpening(o.answer) ==>
                  o == Outcome(Ok(AccountOpened(b.nextId, b.nextId + 1, false)), Committed(b, Registered(d, b, c, hash))))
            && (!IsFreshOpening(o.answer) ==> o.book == b)
            && (o.answer == Err(OpenAccountError.Internal) ==>
                  c.idempotencyKey in b.events && b.events[c.idempotencyKey].hash == hash && NatureOf(c) !in b.register)
  {
  }

  /** What an opening means: accepted exactly when the chart knows its purpose, its
      owner agrees, its key is free and its natural key is free; then the account
      stands in the register under the chart's own triple. A key already held by
      this body always finds its account. */
  lemma WhatAnOpeningMeans(d: Deployment, b: Book, c: OpenAccount)
    requires ClaimsLeadSomewhere(b.events, b.txns, b.register, b.periods) && c.WellFormed()
    ensures var o := OpenOutcome(d, b, c, CanonicalOpen(c));
            && (IsFreshOpening(o.answer) <==> CanBeOpened(d, b, c))
            && (IsFreshOpening(o.answer) ==>
                  o == Outcome(Ok(AccountOpened(b.nextId, b.nextId + 1, false)), Committed(b, Registered(d, b, c, CanonicalOpen(c)))))
            && (!IsFreshOpening(o.answer) ==> o.book == b)
            && o.answer != Err(OpenAccountError.Internal)
  {
    AnOpeningUnderAHash(d, b, c, CanonicalOpen(c));
    if c.idempotencyKey in b.events {
      assert LeadsSomewhere(b.events[c.idempotencyKey], b.txns, b.register, b.periods);
    }
  }

  lemma OpeningKeepsTheBookValid(d: Deployment, b: Book, c: OpenAccount)
    requires Valid(b) && c.WellFormed()
    ensures Valid(OpenOutcome(d, b, c, CanonicalOpen(c)).book)
  {
    var o := OpenOutcome(d, b, c, CanonicalOpen(c));
    WhatAnOpeningMeans(d, b, c);
    if IsFreshOpening(o.answer) {
      RegisteringKeepsTheBookValid(d, b, c);
      CommittingKeepsTheBookValid(b, Registered(d, b, c, CanonicalOpen(c)));
    }
  }

  lemma RegisteringKeepsTheBookValid(d: Deployment, b: Book, c: OpenAccount)
    requires ValidStaged(b) && c.WellFormed() && CanBeOpened(d, b, c)
    ensures ValidStaged(Registered(d, b, c, CanonicalOpen(c)))
  {
    var after := Registered(d, b, c, CanonicalOpen(c));
    RegisteringKeepsTheEntriesSound(d, b, c, CanonicalOpen(c));
    RegisteringKeepsTheClaims(d, b, c);
    RegisteringKeepsTheIds(d, b, c, CanonicalOpen(c));
    forall name | name in b.closes ensures CloseIsExact(after, name.1, b.closes[name]) {
      assert CloseIsExact(b, name.1, b.closes[name]);
      RegisteringKeepsOneClose(d, b, c, CanonicalOpen(c), name.1, b.closes[name]);
    }
  }

  lemma RegisteringKeepsTheIds(d: Deployment, b: Book, c: OpenAccount, hash: Text)
    requires IdsAreFresh(b) && RegisterIsExact(b.accounts, b.register) && CanBeOpened(d, b, c)
    ensures var after := Registered(d, b, c, hash); IdsAreFresh(after) && RegisterIsExact(after.accounts, after.register)
  {
    AClaimKeepsTheEventIds(b.events, b.nextId, c.idempotencyKey, hash, b.nextId + 2);
  }

  lemma RegisteringKeepsTheEntriesSound(d: Deployment, b: Book, c: OpenAccount, hash: Text)
    requires EntriesAreSound(b) && IdsAreFresh(b) && CanBeOpened(d, b, c)
    ensures EntriesAreSound(Registered(d, b, c, hash))
  {
    var legs := AllLegs(b.txns);
    forall i | 0 <= i < |legs| ensures IsKnown(Registered(d, b, c, hash).accounts, legs[i].Row()) {
      assert IsKnown(b.accounts, legs[i].Row());
    }
  }

  lemma RegisteringKeepsTheClaims(d: Deployment, b: Book, c: OpenAccount)
    requires ClaimsLeadSomewhere(b.events, b.txns, b.register, b.periods) && c.WellFormed() && CanBeOpened(d, b, c)
    ensures var after := Registered(d, b, c, CanonicalOpen(c));
            ClaimsLeadSomewhere(after.events, after.txns, after.register, after.periods)
  {
    var after := Registered(d, b, c, CanonicalOpen(c));
    AnOpeningsClaimLeadsToItsAccount(Event(b.nextId, CanonicalOpen(c)), c, after.txns, after.register, after.periods);
    forall key | key in b.events ensures LeadsSomewhere(b.events[key], after.txns, after.register, after.periods) {
      assert LeadsSomewhere(b.events[key], b.txns, b.register, b.periods);
      ALongerRegisterHidesNoClaim(b.events[key], b.txns, b.register, after.register, b.periods);
    }
  }

  lemma AnOpeningsClaimLeadsToItsAccount(claim: Event, c: OpenAccount, txns: seq<Txn>, register: map<Nature, nat>, periods: map<Text, Period>)
    requires c.WellFormed() && claim.hash == CanonicalOpen(c) && NatureOf(c) in register
    ensures LeadsSomewhere(claim, txns, register, periods)
  {
    OpenFormsAreTagged(c);
    forall p: PostTransaction | p.WellFormed() ensures claim.hash != HashOf(p) {
      PostFormsAreTagged(p);
    }
    forall other: OpenAccount | other.WellFormed() && claim.hash == CanonicalOpen(other) ensures NatureOf(other) in register {
      EqualBytesMeanTheSameOpening(c, other);
    }
    forall p: DefinePeriod ensures Some(claim.hash) != CanonicalDefine(p) {
      if CanonicalDefine(p).Some? {
        DefineFormsAreTagged(p);
      }
    }
  }

  lemma ALongerRegisterHidesNoClaim(claim: Event, txns: seq<Txn>, before: map<Nature, nat>, after: map<Nature, nat>, periods: map<Text, Period>)
    requires LeadsSomewhere(claim, txns, before, periods) && before.Keys <= after.Keys
    ensures LeadsSomewhere(claim, txns, after, periods)
  {
  }

  /** A leg an aggregate admits is a leg of the journal. */
  lemma {:induction false} AdmittedLegsBelongToTheJournal(txns: seq<Txn>, bound: Bound)
    ensures KeysOf(LegsWhere(txns, bound)) <= KeysOf(AllLegs(txns))
    decreases |txns|
  {
    if txns != [] {
      var front, last := txns[..|txns| - 1], txns[|txns| - 1];
      AdmittedLegsBelongToTheJournal(front, bound);
      assert txns == front + [last];
      AllEntriesOneMore(front, last);
      LegsWhereOneMore(front, last, bound);
      KeysConcat(AllLegs(front), LegsIn(last.entries));
      KeysConcat(LegsWhere(front, bound), if bound.Admits(last) then LegsIn(last.entries) else []);
    }
  }

  /** An account nobody has posted to has nothing in any aggregate. */
  lemma AnUnknownAccountHasNothing(b: Book, row: Key, bound: Bound)
    requires AllKnown(b.accounts, AllLegs(b.txns)) && row.account !in b.accounts
    ensures Total(LegsWhere(b.txns, bound), row, Debit) == 0 == Total(LegsWhere(b.txns, bound), row, Credit)
  {
    AdmittedLegsBelongToTheJournal(b.txns, bound);
    UntouchedKeysHaveNothing(LegsWhere(b.txns, bound), row);
  }

  lemma RegisteringKeepsOneClose(d: Deployment, b: Book, c: OpenAccount, hash: Text, currency: Text, close: Close)
    requires CloseIsExact(b, currency, close) && CanBeOpened(d, b, c)
    requires EntriesAreSound(b) && IdsAreFresh(b)
    ensures CloseIsExact(Registered(d, b, c, hash), currency, close)
  {
    AnUnknownAccountHasNothing(b, Key(b.nextId + 1, currency), InCheckpoint(close.endsAt, close.computedAtXid, close.transactionId));
    assert CheckpointIsExact(b.txns, currency, close);
  }

  // ---- defining a period -----------------------------------------------

  predicate IsFreshDefinition(answer: DefineAnswer)
  {
    answer.Ok? && !answer.value.replayed
  }

  ghost predicate CanBeDefined(d: Deployment, b: Book, c: DefinePeriod)
  {
    && CanonicalDefine(c).Some? && c.PayloadRenders()
    && c.idempotencyKey !in b.events && c.tz in d.zones && c.code !in b.periods && !OverlapsAnother(b, PeriodOf(c))
  }

  function Defining(b: Book, c: DefinePeriod, hash: Text): Book
  {
    b.(events := b.events[c.idempotencyKey := Event(b.nextId, hash)],
       periods := b.periods[c.code := PeriodOf(c)],
       nextId := b.nextId + 1)
  }

  /** What a definition means. Its internal refusal is reached by exactly the
      definitions that cannot be hashed or cannot be rendered as the caller wrote
      them: a claim held by this body always finds its period. */
  lemma WhatADefinitionMeans(d: Deployment, b: Book, c: DefinePeriod)
    requires ClaimsLeadSomewhere(b.events, b.txns, b.register, b.periods) && c.WellFormed()
    ensures var o := DefineOutcome(d, b, c, CanonicalDefine(c));
            && (IsFreshDefinition(o.answer) <==> CanBeDefined(d, b, c))
            && (IsFreshDefinition(o.answer) ==>
                  o == Outcome(Ok(PeriodDefined(b.nextId, PeriodOf(c), false)), Committed(b, Defining(b, c, CanonicalDefine(c).value))))
            && (!IsFreshDefinition(o.answer) ==> o.book == b)
            && (o.answer == Err(DefinePeriodError.Internal) <==> c.startsAt.utc < YEAR_0 || !c.PayloadRenders())
  {
    HashingADefinitionFailsExactlyBeforeYearZero(c);
    if c.idempotencyKey in b.events {
      assert LeadsSomewhere(b.events[c.idempotencyKey], b.txns, b.register, b.periods);
    }
  }

  lemma DefiningKeepsTheBookValid(d: Deployment, b: Book, c: DefinePeriod)
    requires Valid(b) && c.WellFormed()
    ensures Valid(DefineOutcome(d, b, c, CanonicalDefine(c)).book)
  {
    var o := DefineOutcome(d, b, c, CanonicalDefine(c));
    WhatADefinitionMeans(d, b, c);
    if IsFreshDefinition(o.answer) {
      var after := Defining(b, c, CanonicalDefine(c).value);
      DefiningKeepsTheRest(b, c, CanonicalDefine(c).value);
      DefiningKeepsTheCloses(b, c, CanonicalDefine(c).value);
      DefiningKeepsTheClaims(d, b, c);
      DefiningKeepsThePeriodsSound(b, c);
      CommittingKeepsTheBookValid(b, after);
    }
  }

  lemma DefiningKeepsTheRest(b: Book, c: DefinePeriod, hash: Text)
    requires EntriesAreSound(b) && IdsAreFresh(b) && c.idempotencyKey !in b.events
    ensures EntriesAreSound(Defining(b, c, hash)) && IdsAreFresh(Defining(b, c, hash))
  {
    AClaimKeepsTheEventIds(b.events, b.nextId, c.idempotencyKey, hash, b.nextId + 1);
  }

  lemma DefiningKeepsTheCloses(b: Book, c: DefinePeriod, hash: Text)
    requires ClosesAreExact(b)
    ensures ClosesAreExact(Defining(b, c, hash))
  {
    forall name | name in b.closes ensures CloseIsExact(Defining(b, c, hash), name.1, b.closes[name]) {
      assert CloseIsExact(b, name.1, b.closes[name]);
    }
  }

  lemma DefiningKeepsThePeriodsSound(b: Book, c: DefinePeriod)
    requires PeriodsAreSound(b.periods) && c.WellFormed() && CanonicalDefine(c).Some?
    requires c.code !in b.periods && !OverlapsAnother(b, PeriodOf(c))
    ensures PeriodsAreSound(b.periods[c.code := PeriodOf(c)])
  {
    forall code | code in b.periods ensures !Overlap(b.periods[code], PeriodOf(c)) && !Overlap(PeriodOf(c), b.periods[code]) {
    }
  }

  lemma DefiningKeepsTheClaims(d: Deployment, b: Book, c: DefinePeriod)
    requires ClaimsLeadSomewhere(b.events, b.txns, b.register, b.periods) && c.WellFormed() && CanBeDefined(d, b, c)
    ensures var after := Defining(b, c, CanonicalDefine(c).value);
            ClaimsLeadSomewhere(after.events, after.txns, after.register, after.periods)
  {
    var after := Defining(b, c, CanonicalDefine(c).value);
    ADefinitionsClaimLeadsToItsPeriod(Event(b.nextId, CanonicalDefine(c).value), c, after.txns, after.register, after.periods);
    forall key | key in b.events ensures LeadsSomewhere(b.events[key], after.txns, after.register, after.periods) {
      assert LeadsSomewhere(b.events[key], b.txns, b.register, b.periods);
      AnotherPeriodHidesNoClaim(b.events[key], b.txns, b.register, b.periods, c.code, PeriodOf(c));
    }
  }

  lemma ADefinitionsClaimLeadsToItsPeriod(claim: Event, c: DefinePeriod, txns: seq<Txn>, register: map<Nature, nat>, periods: map<Text, Period>)
    requires c.WellFormed() && Some(claim.hash) == CanonicalDefine(c) && c.code in periods && periods[c.code] == PeriodOf(c)
    ensures LeadsSomewhere(claim, txns, register, periods)
  {
    DefineFormsAreTagged(c);
    forall p: PostTransaction | p.WellFormed() ensures claim.hash != HashOf(p) {
      PostFormsAreTagged(p);
    }
    forall p: OpenAccount ensures claim.hash != CanonicalOpen(p) {
      OpenFormsAreTagged(p);
    }
    forall other: DefinePeriod | other.WellFormed() && Some(claim.hash) == CanonicalDefine(other) ensures PeriodOf(other) == PeriodOf(c) {
      EqualBytesMeanTheSameDefinition(c, other);
    }
  }

  lemma AnotherPeriodHidesNoClaim(claim: Event, txns: seq<Txn>, register: map<Nature, nat>, periods: map<Text, Period>, code: Text, period: Period)
    requires LeadsSomewhere(claim, txns, register, periods) && code !in periods
    ensures LeadsSomewhere(claim, txns, register, periods[code := period])
  {
  }
}
