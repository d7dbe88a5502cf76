/** What a shared statement does, in full: when it fails whole, what each member is
    answered, and everything the recorded ones store. */
module BatchInFull {
  import opened Wrappers
  import opened Bytes
  import opened Domain
  import opened Postings
  import opened Port
  import opened Book
  import opened BookInvariants
  import opened Writer
  import opened BatchRefinement
  import Runs
  import opened InFull
  import opened PostingInFull

  // ---- who goes in -----------------------------------------------------

  /** Its key is free, and every account it names exists. */
  ghost predicate GoesIn(b: Book, c: PostTransaction)
  {
    c.idempotencyKey !in b.events && !exists account: nat, currency :: IsMissing(b, c, account, currency)
  }

  /** The places of the members before one that go in. */
  ghost function GoingBefore(b: Book, commands: seq<PostTransaction>, m: nat): set<nat>
    requires m <= |commands|
  {
    set i: nat | i < m && GoesIn(b, commands[i])
  }

  /** What the members that go in add to one side of one row. */
  ghost function AddedTogether(b: Book, commands: seq<PostTransaction>, account: nat, currency: Text, direction: Direction): int
  {
    if commands == [] then 0 else
    var n := |commands| - 1;
    var c := commands[n];
    AddedTogether(b, commands[..n], account, currency, direction)
      + if !GoesIn(b, c) then 0 else if direction == Debit then PutIn(c.postings, account, currency) else TakenOut(c.postings, account, currency)
  }

  /** A member that is not a plain posted posting, a key a member that goes in shares with
      another, or a row that cannot hold the totals. */
  ghost predicate FailsWhole(b: Book, commands: seq<PostTransaction>)
  {
    || (exists i :: 0 <= i < |commands|
          && (commands[i].resolvesId.Some? || commands[i].reversesId.Some? || commands[i].status != TransactionStatus.Posted))
    || (exists i, j :: 0 <= i < |commands| && 0 <= j < |commands| && i != j && GoesIn(b, commands[i])
          && commands[i].idempotencyKey == commands[j].idempotencyKey)
    || (exists account: nat, currency :: CannotHoldTheTotals(b, commands, account, currency))
  }

  ghost predicate CannotHoldTheTotals(b: Book, commands: seq<PostTransaction>, account: nat, currency: Text)
  {
    || InputOf(b.balances, account, currency) + AddedTogether(b, commands, account, currency, Debit) >= TOO_LARGE
    || OutputOf(b.balances, account, currency) + AddedTogether(b, commands, account, currency, Credit) >= TOO_LARGE
  }

  /** The answer to one member of a statement that did not fail. */
  ghost predicate IsAMembersAnswer(b: Book, commands: seq<PostTransaction>, m: nat, answer: PostAnswer)
    requires m < |commands|
  {
    var c := commands[m];
    if c.idempotencyKey in b.events then IsTheHeldKeysAnswer(b, c, answer)
    else if exists account: nat, currency :: IsMissing(b, c, account, currency) then
      answer.Err? && answer.error.AccountUnknown? && IsTheMissingAccount(b, c, answer.error.row)
    else
      var place := 2 * |GoingBefore(b, commands, m)|;
      answer == Ok(Port.Posted(b.nextId + place, Some(b.nextId + place + 1), false))
  }

  /** The transaction one member that goes in stores. */
  ghost predicate IsAMembersTransaction(b: Book, commands: seq<PostTransaction>, m: nat, t: Txn)
    requires m < |commands|
  {
    var c, place := commands[m], 2 * |GoingBefore(b, commands, m)|;
    && t.id == b.nextId + place + 1 && t.eventId == b.nextId + place && t.xactId == b.nextXact
    && t.kind == OrdinaryPosting && t.status == TransactionStatus.Posted && t.resolvesId.None? && t.reversesId.None?
    && c.effectiveAt.Some? && t.effectiveAt == c.effectiveAt.value.utc
    && AreThePostings(t.entries, c.postings)
  }

  // ---- the gate is these conditions ------------------------------------

  lemma AdmissibleMeansNobodyIsMissing(b: Book, p: Planned)
    requires p.command.reversesId.None?
    ensures IsAdmissible(b, p) <==> !exists account: nat, currency :: IsMissing(b, p.command, account, currency)
    ensures Proceeds(b, p) <==> GoesIn(b, p.command)
  {
    TheUnknownIsTheMissing(b, p.command);
  }

  ghost predicate AreTheirPlans(members: seq<Planned>, commands: seq<PostTransaction>)
  {
    && |members| == |commands|
    && forall i :: 0 <= i < |members| ==> members[i].command == commands[i] && commands[i].reversesId.None?
  }

  lemma OneMoreMayGoIn(b: Book, commands: seq<PostTransaction>, n: nat)
    requires n < |commands|
    ensures |GoingBefore(b, commands, n + 1)| == |GoingBefore(b, commands, n)| + if GoesIn(b, commands[n]) then 1 else 0
    ensures GoingBefore(b, commands[..n], n) == GoingBefore(b, commands, n)
  {
    var before := GoingBefore(b, commands, n);
    if GoesIn(b, commands[n]) {
      assert GoingBefore(b, commands, n + 1) == before + {n};
    } else {
      assert GoingBefore(b, commands, n + 1) == before;
    }
  }

  lemma {:induction false} GoingIsProceeding(b: Book, members: seq<Planned>, commands: seq<PostTransaction>)
    requires AreTheirPlans(members, commands)
    ensures |Proceeding(b, members)| == |GoingBefore(b, commands, |commands|)|
    decreases |members|
  {
    if members == [] {
      assert GoingBefore(b, commands, 0) == {};
    } else {
      var n := |members| - 1;
      GoingIsProceeding(b, members[..n], commands[..n]);
      AdmissibleMeansNobodyIsMissing(b, members[n]);
      OneMoreMayGoIn(b, commands, n);
      OneMoreProceeds(b, members);
    }
  }

  lemma ItsPlaceIsItsRank(b: Book, members: seq<Planned>, commands: seq<PostTransaction>, m: nat)
    requires AreTheirPlans(members, commands) && m < |members|
    ensures |Proceeding(b, members[..m])| == |GoingBefore(b, commands, m)|
  {
    GoingIsProceeding(b, members[..m], commands[..m]);
    assert GoingBefore(b, commands[..m], m) == GoingBefore(b, commands, m);
  }

  lemma {:induction false} TheirLegsTotal(b: Book, members: seq<Planned>, commands: seq<PostTransaction>, account: nat, currency: Text, direction: Direction)
    requires AreTheirPlans(members, commands)
    ensures Total(MemberLegs(Proceeding(b, members)), Key(account, currency), direction) == AddedTogether(b, commands, account, currency, direction)
    decreases |members|
  {
    if members != [] {
      var n := |members| - 1;
      TheirLegsTotal(b, members[..n], commands[..n], account, currency, direction);
      AdmissibleMeansNobodyIsMissing(b, members[n]);
      OneMoreProceeds(b, members);
      if Proceeds(b, members[n]) {
        OneMoreTotals(Proceeding(b, members[..n]), members[n], account, currency, direction);
      }
    }
  }

  lemma OneMoreTotals(front: seq<Planned>, p: Planned, account: nat, currency: Text, direction: Direction)
    ensures Total(MemberLegs(front + [p]), Key(account, currency), direction)
         == Total(MemberLegs(front), Key(account, currency), direction)
            + if direction == Debit then PutIn(p.command.postings, account, currency) else TakenOut(p.command.postings, account, currency)
  {
    OneMoresLegs(front, p);
    TotalConcat(MemberLegs(front), p.Legs(), Key(account, currency), direction);
    LegsTotalWhatPostingsMove(p.command.postings, account, currency);
    assert direction == Debit || direction == Credit;
  }

  lemma OneMoresLegs(members: seq<Planned>, p: Planned)
    ensures MemberLegs(members + [p]) == MemberLegs(members) + p.Legs()
  {
    assert (members + [p])[..|members|] == members;
  }

  /** One row after the shared upserts. */
  lemma TheRowTogether(b: Book, members: seq<Planned>, commands: seq<PostTransaction>, account: nat, currency: Text)
    requires AreTheirPlans(members, commands)
    ensures var after := Upserted(b.balances, MemberLegs(Proceeding(b, members)), TransactionStatus.Posted);
            && InputOf(after, account, currency) == InputOf(b.balances, account, currency) + AddedTogether(b, commands, account, currency, Debit)
            && OutputOf(after, account, currency) == OutputOf(b.balances, account, currency) + AddedTogether(b, commands, account, currency, Credit)
            && BalanceOn(after, Key(account, currency)).input == InputOf(after, account, currency)
            && BalanceOn(after, Key(account, currency)).output == OutputOf(after, account, currency)
  {
    var legs := MemberLegs(Proceeding(b, members));
    UpsertOnOneRow(b.balances, legs, TransactionStatus.Posted, Key(account, currency));
    TheRowHolds(b.balances, account, currency);
    TheRowHolds(Upserted(b.balances, legs, TransactionStatus.Posted), account, currency);
    TheirLegsTotal(b, members, commands, account, currency, Debit);
    TheirLegsTotal(b, members, commands, account, currency, Credit);
  }

  lemma WhetherTheTotalsCanBeHeld(b: Book, members: seq<Planned>, commands: seq<PostTransaction>)
    requires AreTheirPlans(members, commands)
    ensures Fits(Upserted(b.balances, MemberLegs(Proceeding(b, members)), TransactionStatus.Posted))
            <==> !exists account: nat, currency :: CannotHoldTheTotals(b, commands, account, currency)
  {
    var after := Upserted(b.balances, MemberLegs(Proceeding(b, members)), TransactionStatus.Posted);
    if account: nat, currency :| CannotHoldTheTotals(b, commands, account, currency) {
      TheRowTogether(b, members, commands, account, currency);
      assert BalanceOn(after, Key(account, currency)).input >= I64_LIMIT || BalanceOn(after, Key(account, currency)).output >= I64_LIMIT;
    } else {
      forall row | row in after ensures BalanceOn(after, row).input < I64_LIMIT && BalanceOn(after, row).output < I64_LIMIT {
        TheRowTogether(b, members, commands, row.account, row.currency);
        assert !CannotHoldTheTotals(b, commands, row.account, row.currency);
      }
    }
  }

  lemma WhetherItFailsWhole(b: Book, members: seq<Planned>, commands: seq<PostTransaction>)
    requires |members| == |commands| && forall i :: 0 <= i < |members| ==> members[i].command == commands[i]
    ensures ClaimAndAppendBatch(b, members).Failed? <==> FailsWhole(b, commands)
  {
    if forall i :: 0 <= i < |members| ==> members[i].command.Plain() {
      WhetherTheTotalsCanBeHeld(b, members, commands);
      forall i | 0 <= i < |members| ensures Proceeds(b, members[i]) <==> GoesIn(b, commands[i]) {
        AdmissibleMeansNobodyIsMissing(b, members[i]);
      }
      WhetherAClaimIsShared(b, members, commands);
    }
  }

  lemma WhetherAClaimIsShared(b: Book, members: seq<Planned>, commands: seq<PostTransaction>)
    requires AreTheirPlans(members, commands) && forall i :: 0 <= i < |members| ==> (Proceeds(b, members[i]) <==> GoesIn(b, commands[i]))
    ensures AClaimIsShared(b, members)
            <==> exists i, j :: 0 <= i < |commands| && 0 <= j < |commands| && i != j && GoesIn(b, commands[i])
                                && commands[i].idempotencyKey == commands[j].idempotencyKey
  {
    if i, j :| 0 <= i < |commands| && 0 <= j < |commands| && i != j && GoesIn(b, commands[i]) && commands[i].idempotencyKey == commands[j].idempotencyKey {
      assert Proceeds(b, members[i]) && members[i].Key() == members[j].Key();
    }
    if AClaimIsShared(b, members) {
      var i, j :| 0 <= i < |members| && 0 <= j < |members| && i != j && Proceeds(b, members[i]) && members[i].Key() == members[j].Key();
      assert GoesIn(b, commands[i]) && commands[i].idempotencyKey == commands[j].idempotencyKey;
    }
  }

  // ---- what they are answered ------------------------------------------

  lemma {:induction false} FreeKeysAreClaimed(events: map<Text, Event>, firstId: nat, members: seq<Planned>, key: Text)
    requires key in events && forall p :: p in members ==> p.Key() != key
    ensures key in ClaimedBy(events, firstId, members) && ClaimedBy(events, firstId, members)[key] == events[key]
    decreases |members|
  {
    if members != [] {
      FreeKeysAreClaimed(events, firstId, members[..|members| - 1], key);
      assert members[|members| - 1] in members;
    }
  }

  lemma TheirBookExtends(b: Book, proceeding: seq<Planned>)
    requires forall p :: p in proceeding ==> p.Key() !in b.events
    ensures Extends(b, BatchWritten(b, proceeding))
  {
    forall key | key in b.events
      ensures key in BatchWritten(b, proceeding).events && BatchWritten(b, proceeding).events[key] == b.events[key] {
      FreeKeysAreClaimed(b.events, b.nextId, proceeding, key);
    }
  }

  lemma AHeldMembersAnswer(b: Book, commands: seq<PostTransaction>, m: nat, p: Planned)
    requires ValidStaged(b) && m < |commands| && commands[m].WellFormed() && p == PlanFor(commands[m])
    requires p.Key() in b.events && !PlanFails(p)
    ensures IsAMembersAnswer(b, commands, m, Replayed(StoredResult(b, p)))
  {
    AHeldKeysAnswer(b, commands[m]);
    assert PostOutcome(b, p).answer == Replayed(StoredResult(b, p));
  }

  lemma WhatAMemberIsOwed(b: Book, members: seq<Planned>, m: nat)
    requires m < |members|
    ensures Owed(b, members, m)
         == if members[m].Key() in b.events then Replayed(StoredResult(b, members[m]))
            else if IsAdmissible(b, members[m]) then Fresh(b.nextId + 2 * |Proceeding(b, members[..m])|)
            else Err(WriteError.AccountUnknown(FirstUnknown(b.accounts, members[m].Legs()).value))
  {
  }

  lemma AMembersAnswer(b: Book, members: seq<Planned>, commands: seq<PostTransaction>, m: nat)
    requires ValidStaged(b) && AreTheirPlans(members, commands) && m < |members|
    requires commands[m].WellFormed() && members[m] == PlanFor(commands[m]) && !PlanFails(members[m])
    ensures IsAMembersAnswer(b, commands, m, Owed(b, members, m))
  {
    WhatAMemberIsOwed(b, members, m);
    if commands[m].idempotencyKey in b.events {
      AHeldMembersAnswer(b, commands, m, members[m]);
    } else {
      AFreeMembersAnswer(b, members, commands, m, Owed(b, members, m));
    }
  }

  lemma AFreeMembersAnswer(b: Book, members: seq<Planned>, commands: seq<PostTransaction>, m: nat, answer: PostAnswer)
    requires AreTheirPlans(members, commands) && m < |members| && commands[m].idempotencyKey !in b.events
    requires answer == if IsAdmissible(b, members[m]) then Fresh(b.nextId + 2 * |Proceeding(b, members[..m])|)
                       else Err(WriteError.AccountUnknown(FirstUnknown(b.accounts, members[m].Legs()).value))
    ensures IsAMembersAnswer(b, commands, m, answer)
  {
    TheUnknownIsTheMissing(b, commands[m]);
    ItsPlaceIsItsRank(b, members, commands, m);
  }

  /** Commands none of which its own plan refuses. */
  ghost predicate AllPlan(commands: seq<PostTransaction>)
  {
    forall c :: c in commands ==> c.WellFormed() && !(c.effectiveAt.Some? && !HasAText(c.effectiveAt.value)) && !ASideIsTooLarge(c.postings)
  }

  lemma TheirPlansPass(commands: seq<PostTransaction>)
    requires AllPlan(commands)
    ensures forall c :: c in commands ==> c.WellFormed()
    ensures forall i :: 0 <= i < |commands| ==> PlannedAll(commands)[i] == PlanFor(commands[i]) && !PlanFails(PlannedAll(commands)[i])
  {
    forall i | 0 <= i < |commands| ensures PlannedAll(commands)[i] == PlanFor(commands[i]) && !PlanFails(PlannedAll(commands)[i]) {
      assert commands[i] in commands;
      PlansFailOnTheseConditions(commands[i]);
    }
  }

  lemma AStatementThatFails(b: Book, members: seq<Planned>)
    requires ClaimAndAppendBatch(b, members).Failed?
    ensures var o := AppendedTogether(b, members);
            o.book == b && |o.answer| == |members| && forall m :: 0 <= m < |members| ==> o.answer[m] == Err(WriteError.Storage)
  {
  }

  lemma AMemberHears(b: Book, members: seq<Planned>, commands: seq<PostTransaction>, m: nat)
    requires ValidStaged(b) && AreTheirPlans(members, commands) && m < |members| && !ClaimAndAppendBatch(b, members).Failed?
    requires commands[m].WellFormed() && members[m] == PlanFor(commands[m]) && !PlanFails(members[m])
    ensures |AppendedTogether(b, members).answer| == |members| && IsAMembersAnswer(b, commands, m, AppendedTogether(b, members).answer[m])
  {
    ProceedingAreMembers(b, members);
    TheirBookExtends(b, Proceeding(b, members));
    AMembersAnswerIsOwed(b, members, BatchWritten(b, Proceeding(b, members)), m);
    AMembersAnswer(b, members, commands, m);
  }

  /** Whatever the valid book, a shared statement fails whole exactly on these conditions,
      and then every member hears storage and nothing changes; otherwise each member has
      its own answer. */
  lemma ABatchIsAnsweredInFull(b: Book, commands: seq<PostTransaction>)
    requires ValidStaged(b) && AllPlan(commands)
    ensures (forall c :: c in commands ==> c.WellFormed())
    ensures var o := AppendedTogether(b, PlannedAll(commands));
            if FailsWhole(b, commands) then o.book == b && forall m :: 0 <= m < |commands| ==> o.answer[m] == Err(WriteError.Storage)
            else forall m :: 0 <= m < |commands| ==> IsAMembersAnswer(b, commands, m, o.answer[m])
  {
    TheirPlansPass(commands);
    var members := PlannedAll(commands);
    WhetherItFailsWhole(b, members, commands);
    if FailsWhole(b, commands) {
      AStatementThatFails(b, members);
    } else {
      forall m | 0 <= m < |commands| ensures IsAMembersAnswer(b, commands, m, AppendedTogether(b, members).answer[m]) {
        AMemberHears(b, members, commands, m);
      }
    }
  }

  // ---- what they store -------------------------------------------------

  lemma {:induction false} AtItsRank(b: Book, members: seq<Planned>, m: nat)
    requires m < |members| && Proceeds(b, members[m])
    ensures |Proceeding(b, members[..m])| < |Proceeding(b, members)| && Proceeding(b, members)[|Proceeding(b, members[..m])|] == members[m]
    decreases |members|
  {
    var n := |members| - 1;
    if m < n {
      assert members[..n][..m] == members[..m];
      AtItsRank(b, members[..n], m);
    }
  }

  /** The entries the statement wrote, in order. */
  ghost function NewEntries(before: Book, after: Book): seq<Entry>
    requires before.txns <= after.txns
  {
    AllEntries(after.txns[|before.txns|..])
  }

  lemma OneMoresEntries(txns: seq<Txn>, n: nat)
    requires n < |txns|
    ensures AllEntries(txns[..n + 1]) == AllEntries(txns[..n]) + txns[n].entries
  {
    assert txns[..n + 1][..n] == txns[..n];
  }

  lemma OneMoreStretch(txns: seq<Txn>, entries: seq<Entry>, n: nat, start: nat, length: nat)
    requires n < |txns| && start + length <= |entries|
    requires AllEntries(txns[..n]) == entries[..start] && txns[n].entries == entries[start..start + length]
    ensures AllEntries(txns[..n + 1]) == entries[..start + length]
  {
    OneMoresEntries(txns, n);
    assert entries[..start] + entries[start..start + length] == entries[..start + length];
  }

  /** One member's stretch of the numbering begins where the members before it end. */
  lemma ItsStretch(b: Book, proceeding: seq<Planned>, n: nat)
    requires n < |proceeding|
    ensures var start, length, entries := |MemberLegs(proceeding[..n])|, |proceeding[n].Legs()|, Numbered(b.balances, MemberLegs(proceeding));
            && |entries| == |MemberLegs(proceeding)| && start + length <= |entries| && |MemberLegs(proceeding[..n + 1])| == start + length
            && MemberTxns(b, proceeding)[n].entries == entries[start..start + length]
  {
    StartsWithin(proceeding, n);
    assert proceeding[..n + 1] == proceeding[..n] + [proceeding[n]];
    OneMoresLegs(proceeding[..n], proceeding[n]);
  }

  /** Transactions whose entries are one stretch after another of a numbering. */
  ghost predicate AreStretches(txns: seq<Txn>, entries: seq<Entry>, starts: seq<nat>)
  {
    |starts| == |txns| + 1 && starts[0] == 0 && forall n :: 0 <= n < |txns| ==> IsItsStretch(txns, entries, starts, n)
  }

  ghost predicate IsItsStretch(txns: seq<Txn>, entries: seq<Entry>, starts: seq<nat>, n: nat)
    requires n < |txns| && |starts| == |txns| + 1
  {
    starts[n] <= starts[n + 1] <= |entries| && txns[n].entries == entries[starts[n]..starts[n + 1]]
  }

  lemma {:induction false} StretchesAreOneNumbering(txns: seq<Txn>, entries: seq<Entry>, starts: seq<nat>, k: nat)
    requires AreStretches(txns, entries, starts) && k <= |txns|
    ensures starts[k] <= |entries| && AllEntries(txns[..k]) == entries[..starts[k]]
    decreases k
  {
    if k > 0 {
      StretchesAreOneNumbering(txns, entries, starts, k - 1);
      assert IsItsStretch(txns, entries, starts, k - 1);
      OneMoreStretch(txns, entries, k - 1, starts[k - 1], starts[k] - starts[k - 1]);
    }
  }

  lemma TheNewEntries(b: Book, proceeding: seq<Planned>)
    ensures AllEntries(MemberTxns(b, proceeding)) == Numbered(b.balances, MemberLegs(proceeding))
  {
    var txns, entries := MemberTxns(b, proceeding), Numbered(b.balances, MemberLegs(proceeding));
    var starts: seq<nat> := seq(|proceeding| + 1, n requires 0 <= n <= |proceeding| => |MemberLegs(proceeding[..n])|);
    forall n | 0 <= n < |txns| ensures IsItsStretch(txns, entries, starts, n) {
      ItsStretch(b, proceeding, n);
    }
    StretchesAreOneNumbering(txns, entries, starts, |txns|);
    assert proceeding[..|proceeding|] == proceeding && txns[..|txns|] == txns;
  }

  lemma {:induction false} ItsOwnLegs(b: Book, proceeding: seq<Planned>, m: nat)
    requires m < |proceeding|
    ensures LegsIn(MemberEntries(b, proceeding, m)) == proceeding[m].Legs()
  {
    forall i | 0 <= i < |proceeding[m].Legs()| ensures MemberEntries(b, proceeding, m)[i].leg == proceeding[m].Legs()[i] {
      MemberEntriesInTurn(b, proceeding, m, i);
    }
  }

  /** The claims of the members that went in, and the claims there were. */
  ghost predicate HasClaimed(b: Book, commands: seq<PostTransaction>, after: Book, m: nat)
    requires m < |commands|
  {
    var c := commands[m];
    && c.idempotencyKey in after.events && CanonicalPost(c).Some?
    && after.events[c.idempotencyKey] == Event(b.nextId + 2 * |GoingBefore(b, commands, m)|, CanonicalPost(c).value)
  }

  ghost predicate TheRestStands(b: Book, after: Book)
  {
    && after.accounts == b.accounts && after.register == b.register && after.periods == b.periods && after.closes == b.closes
    && (forall key :: key in b.events ==> key in after.events && after.events[key] == b.events[key])
  }

  /** Every member that goes in, stored; every row moved by their totals; every new entry
      numbered on, member after member; and nothing else changed. */
  ghost predicate AreStored(b: Book, commands: seq<PostTransaction>, after: Book)
  {
    && b.txns <= after.txns && |after.txns| == |b.txns| + |GoingBefore(b, commands, |commands|)|
    && (forall m :: 0 <= m < |commands| && GoesIn(b, commands[m]) ==>
          && |GoingBefore(b, commands, m)| < |GoingBefore(b, commands, |commands|)|
          && IsAMembersTransaction(b, commands, m, after.txns[|b.txns| + |GoingBefore(b, commands, m)|])
          && HasClaimed(b, commands, after, m))
    && AreNumberedFrom(NewEntries(b, after), b.balances)
    && (forall account: nat, currency ::
          && InputOf(after.balances, account, currency) == InputOf(b.balances, account, currency) + AddedTogether(b, commands, account, currency, Debit)
          && OutputOf(after.balances, account, currency) == OutputOf(b.balances, account, currency) + AddedTogether(b, commands, account, currency, Credit))
    && TheRestStands(b, after)
  }

  lemma {:induction false} ItsClaim(events: map<Text, Event>, firstId: nat, members: seq<Planned>, m: nat)
    requires DistinctKeys(members) && m < |members|
    ensures members[m].Key() in ClaimedBy(events, firstId, members)
    ensures ClaimedBy(events, firstId, members)[members[m].Key()] == Event(firstId + 2 * m, members[m].hash)
    decreases |members|
  {
    var n := |members| - 1;
    if m < n {
      ItsClaim(events, firstId, members[..n], m);
    }
  }

  lemma AMemberIsStored(b: Book, members: seq<Planned>, commands: seq<PostTransaction>, m: nat, after: Book)
    requires AreTheirPlans(members, commands) && m < |members| && GoesIn(b, commands[m])
    requires members[m].command.Plain() && commands[m].WellFormed() && members[m] == PlanFor(commands[m])
    requires after == BatchWritten(b, Proceeding(b, members)) && DistinctKeys(Proceeding(b, members))
    ensures |GoingBefore(b, commands, m)| < |GoingBefore(b, commands, |commands|)| == |Proceeding(b, members)|
    ensures IsAMembersTransaction(b, commands, m, after.txns[|b.txns| + |GoingBefore(b, commands, m)|])
    ensures HasClaimed(b, commands, after, m)
  {
    var proceeding, place := Proceeding(b, members), |GoingBefore(b, commands, m)|;
    AdmissibleMeansNobodyIsMissing(b, members[m]);
    AtItsRank(b, members, m);
    ItsPlaceIsItsRank(b, members, commands, m);
    GoingIsProceeding(b, members, commands);
    ItsClaim(b.events, b.nextId, proceeding, place);
    assert after.txns[|b.txns| + place] == MemberTxn(b, proceeding, place);
    ItsOwnLegs(b, proceeding, place);
    LegsOfPostingsAreThePostings(MemberEntries(b, proceeding, place), commands[m].postings);
  }

  lemma TheirEntriesAndRows(b: Book, members: seq<Planned>, commands: seq<PostTransaction>, after: Book)
    requires AreTheirPlans(members, commands) && after.txns == b.txns + MemberTxns(b, Proceeding(b, members))
    requires after.balances == Upserted(b.balances, MemberLegs(Proceeding(b, members)), TransactionStatus.Posted)
    ensures AreNumberedFrom(NewEntries(b, after), b.balances)
    ensures forall account: nat, currency ::
              && InputOf(after.balances, account, currency) == InputOf(b.balances, account, currency) + AddedTogether(b, commands, account, currency, Debit)
              && OutputOf(after.balances, account, currency) == OutputOf(b.balances, account, currency) + AddedTogether(b, commands, account, currency, Credit)
  {
    assert after.txns[|b.txns|..] == MemberTxns(b, Proceeding(b, members));
    TheNewEntries(b, Proceeding(b, members));
    NumberedIsNumberedFrom(b.balances, MemberLegs(Proceeding(b, members)));
    forall account: nat, currency
      ensures InputOf(after.balances, account, currency) == InputOf(b.balances, account, currency) + AddedTogether(b, commands, account, currency, Debit)
      ensures OutputOf(after.balances, account, currency) == OutputOf(b.balances, account, currency) + AddedTogether(b, commands, account, currency, Credit) {
      TheRowTogether(b, members, commands, account, currency);
    }
  }

  lemma TheyAreStored(b: Book, members: seq<Planned>, commands: seq<PostTransaction>, after: Book)
    requires AreTheirPlans(members, commands) && after == BatchWritten(b, Proceeding(b, members)) && DistinctKeys(Proceeding(b, members))
    requires forall m :: 0 <= m < |members| ==> members[m].command.Plain() && commands[m].WellFormed() && members[m] == PlanFor(commands[m])
    ensures AreStored(b, commands, after)
  {
    ProceedingAreMembers(b, members);
    TheirBookExtends(b, Proceeding(b, members));
    GoingIsProceeding(b, members, commands);
    TheirEntriesAndRows(b, members, commands, after);
    forall m | 0 <= m < |commands| && GoesIn(b, commands[m])
      ensures |GoingBefore(b, commands, m)| < |GoingBefore(b, commands, |commands|)|
      ensures IsAMembersTransaction(b, commands, m, after.txns[|b.txns| + |GoingBefore(b, commands, m)|])
      ensures HasClaimed(b, commands, after, m) {
      AMemberIsStored(b, members, commands, m, after);
    }
  }

  lemma CommittingStoresThem(b: Book, commands: seq<PostTransaction>, after: Book)
    requires AreStored(b, commands, after)
    ensures AreStored(b, commands, Committed(b, after))
  {
  }

  /** A shared statement that does not fail stores every member that goes in, under its own
      date, its own postings and the next ids in turn; its numbering runs on through them
      all, every row moves by their totals, and nothing else changes. */
  lemma ABatchIsStoredInFull(b: Book, commands: seq<PostTransaction>)
    requires ValidStaged(b) && AllPlan(commands) && !FailsWhole(b, commands)
    ensures forall c :: c in commands ==> c.WellFormed()
    ensures AreStored(b, commands, AppendedTogether(b, PlannedAll(commands)).book)
  {
    TheirPlansPass(commands);
    var members := PlannedAll(commands);
    var after := BatchWritten(b, Proceeding(b, members));
    WhetherItFailsWhole(b, members, commands);
    Runs.ProceedingAreDistinct(b, members);
    forall m | 0 <= m < |members| ensures members[m].command.Plain() && commands[m].WellFormed() && members[m] == PlanFor(commands[m]) {
      assert commands[m] in commands;
    }
    TheyAreStored(b, members, commands, after);
    CommittingStoresThem(b, commands, after);
  }
}
