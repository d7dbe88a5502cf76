/** Idempotency over whole runs, across all four operations: one key, one claim, one
    result, whoever asks again and whatever ran in between. */
module Idempotency {
  import opened Wrappers
  import opened Bytes
  import opened Accounts
  import opened Periods
  import opened Postings
  import opened Port
  import opened Book
  import opened Closing
  import opened BookInvariants
  import opened Writer
  import opened WriterInvariants
  import opened BatchRefinement
  import opened CloseExactness
  import opened Runs

  // ---- accepted answers ------------------------------------------------

  /** What an accepted operation is remembered for. */
  datatype Effect =
    | Wrote(transactionId: Option<nat>)
    | Registered(nature: Nature, accountId: nat)
    | Defined(period: Period)
    | ClosedBooks(name: (Text, Text), closeTransactionId: nat)

  /** An accepted answer: the key it was asked under, the body's hash, and what it
      named. */
  datatype Accepted = Accepted(key: Text, hash: Text, eventId: nat, effect: Effect, replayed: bool)

  ghost predicate AcceptsPost(p: Planned, answer: PostAnswer, a: Accepted)
  {
    answer.Ok? && a == Accepted(p.Key(), p.hash, answer.value.eventId, Wrote(answer.value.transactionId), answer.value.replayed)
  }

  ghost predicate AcceptsOpening(c: OpenAccount, answer: OpenAnswer, a: Accepted)
  {
    answer.Ok? && a == Accepted(c.idempotencyKey, CanonicalOpen(c), answer.value.eventId,
                                Registered(NatureOf(c), answer.value.accountId), answer.value.replayed)
  }

  ghost predicate AcceptsDefinition(c: DefinePeriod, answer: DefineAnswer, a: Accepted)
  {
    answer.Ok? && CanonicalDefine(c).Some?
    && a == Accepted(c.idempotencyKey, CanonicalDefine(c).value, answer.value.eventId, Effect.Defined(answer.value.period), answer.value.replayed)
  }

  ghost predicate AcceptsClose(c: ClosePeriod, answer: CloseAnswer, a: Accepted)
  {
    answer.Ok? && a == Accepted(c.DerivedKey(), CanonicalClose(c), answer.value.eventId,
                                ClosedBooks((c.periodCode, c.currency), answer.value.transactionId), false)
  }

  /** The call gives this accepted answer, to the caller at this position of it. */
  ghost predicate Accepts(d: Deployment, b: Book, op: Op, m: nat, a: Accepted)
    requires op.WellFormed()
  {
    match op
    case Post(c) => m == 0 && AcceptsPost(PlanFor(c), PostOutcome(b, PlanFor(c)).answer, a)
    case Batch(cs) => m < |cs| && AcceptsPost(PlannedAll(cs)[m], BatchOutcome(b, PlannedAll(cs)).answer[m], a)
    case Open(c) => m == 0 && AcceptsOpening(c, OpenOutcome(d, b, c, CanonicalOpen(c)).answer, a)
    case Define(c) => m == 0 && AcceptsDefinition(c, DefineOutcome(d, b, c, CanonicalDefine(c)).answer, a)
    case Close(c) => m == 0 && AcceptsClose(c, CloseOutcome(b, c, CanonicalClose(c)).answer, a)
  }

  // ---- what a book remembers -------------------------------------------

  /** The book holds the claim, and the claim leads to what the answer named. */
  ghost predicate Remembers(b: Book, a: Accepted)
  {
    && a.key in b.events && b.events[a.key] == Event(a.eventId, a.hash)
    && match a.effect
       case Wrote(transactionId) => TxnOfEvent(b.txns, a.eventId) == transactionId
       case Registered(nature, accountId) => nature in b.register && b.register[nature] == accountId
       case Defined(period) => period.code in b.periods && b.periods[period.code] == period
       case ClosedBooks(name, transactionId) => name.0 in b.periods && name in b.closes && b.closes[name].transactionId == transactionId
  }

  /** The answer names what its own body names. */
  ghost predicate SpeaksForItsBody(a: Accepted)
  {
    match a.effect
    case Wrote(_) => TaggedBy(a.hash, POST_LETTER)
    case Registered(nature, _) => exists c: OpenAccount :: c.WellFormed() && a.hash == CanonicalOpen(c) && nature == NatureOf(c)
    case Defined(period) => exists c: DefinePeriod :: c.WellFormed() && Some(a.hash) == CanonicalDefine(c) && period == PeriodOf(c)
    case ClosedBooks(name, _) => exists c: ClosePeriod :: c.WellFormed() && a.hash == CanonicalClose(c) && name == (c.periodCode, c.currency)
  }

  /** Two answers one book remembers, under one key, are one answer but for whether
      each was a replay. */
  lemma OneBookRemembersOneAnswerPerKey(b: Book, a: Accepted, again: Accepted)
    requires Remembers(b, a) && Remembers(b, again) && a.key == again.key
    requires SpeaksForItsBody(a) && SpeaksForItsBody(again)
    ensures again == a.(replayed := again.replayed)
  {
    SameBodySameEffect(a, again);
  }

  /** The kind of an effect shows in the letter its hash is tagged by. */
  lemma EffectsAreTagged(a: Accepted)
    requires SpeaksForItsBody(a)
    ensures TaggedBy(a.hash, match a.effect
                             case Wrote(_) => POST_LETTER
                             case Registered(_, _) => ACCOUNT_LETTER
                             case Defined(_) => PERIOD_LETTER
                             case ClosedBooks(_, _) => CLOSE_LETTER)
  {
    match a.effect
    case Wrote(_) =>
    case Registered(nature, _) =>
      var c: OpenAccount :| c.WellFormed() && a.hash == CanonicalOpen(c) && nature == NatureOf(c);
      OpenFormsAreTagged(c);
    case Defined(period) =>
      var c: DefinePeriod :| c.WellFormed() && Some(a.hash) == CanonicalDefine(c) && period == PeriodOf(c);
      DefineFormsAreTagged(c);
    case ClosedBooks(name, _) =>
      var c: ClosePeriod :| c.WellFormed() && a.hash == CanonicalClose(c) && name == (c.periodCode, c.currency);
      CloseFormsAreTagged(c);
  }

  /** One body names one row. */
  lemma SameBodySameEffect(a: Accepted, again: Accepted)
    requires SpeaksForItsBody(a) && SpeaksForItsBody(again) && a.hash == again.hash
    ensures a.effect.Wrote? == again.effect.Wrote? && a.effect.Registered? == again.effect.Registered?
    ensures a.effect.Defined? == again.effect.Defined? && a.effect.ClosedBooks? == again.effect.ClosedBooks?
    ensures a.effect.Registered? ==> a.effect.nature == again.effect.nature
    ensures a.effect.Defined? ==> a.effect.period == again.effect.period
    ensures a.effect.ClosedBooks? ==> a.effect.name == again.effect.name
  {
    EffectsAreTagged(a);
    EffectsAreTagged(again);
    if a.effect.Registered? {
      var c: OpenAccount :| c.WellFormed() && a.hash == CanonicalOpen(c) && a.effect.nature == NatureOf(c);
      var e: OpenAccount :| e.WellFormed() && again.hash == CanonicalOpen(e) && again.effect.nature == NatureOf(e);
      EqualBytesMeanTheSameOpening(c, e);
    } else if a.effect.Defined? {
      var c: DefinePeriod :| c.WellFormed() && Some(a.hash) == CanonicalDefine(c) && a.effect.period == PeriodOf(c);
      var e: DefinePeriod :| e.WellFormed() && Some(again.hash) == CanonicalDefine(e) && again.effect.period == PeriodOf(e);
      EqualBytesMeanTheSameDefinition(c, e);
    } else if a.effect.ClosedBooks? {
      var c: ClosePeriod :| c.WellFormed() && a.hash == CanonicalClose(c) && a.effect.name == (c.periodCode, c.currency);
      var e: ClosePeriod :| e.WellFormed() && again.hash == CanonicalClose(e) && again.effect.name == (e.periodCode, e.currency);
      EqualBytesMeanTheSameClose(c, e);
    }
  }

  // ---- books only grow -------------------------------------------------

  /** Nothing a book remembers is ever changed by what runs after it. */
  ghost predicate Grows(before: Book, after: Book)
  {
    && Extends(before, after)
    && (forall n :: n in before.register ==> n in after.register && after.register[n] == before.register[n])
    && (forall code :: code in before.periods ==> code in after.periods && after.periods[code] == before.periods[code])
    && (forall name :: name in before.closes ==> name in after.closes && after.closes[name] == before.closes[name])
  }

  lemma GrowthIsTransitive(a: Book, b: Book, c: Book)
    requires Grows(a, b) && Grows(b, c)
    ensures Grows(a, c)
  {
    forall i | |a.txns| <= i < |c.txns| ensures c.txns[i].eventId >= a.nextId {
      if i < |b.txns| {
        assert c.txns[i] == b.txns[i];
      }
    }
  }

  lemma MemoryStands(before: Book, after: Book, a: Accepted)
    requires EventIdsAreFresh(before.events, before.nextId) && Grows(before, after) && Remembers(before, a)
    ensures Remembers(after, a)
  {
    if a.effect.Wrote? {
      var more := after.txns[|before.txns|..];
      assert after.txns == before.txns + more;
      forall i | 0 <= i < |more| ensures more[i].eventId != a.eventId {
        assert more[i] == after.txns[|before.txns| + i];
      }
      LaterTransactionsHideNoEvent(before.txns, more, a.eventId);
    }
  }

  lemma PastTheCommitGrows(before: Book, staged: Book)
    requires Grows(before, staged)
    ensures Grows(before, Committed(before, staged))
  {
  }

  // ---- posting ---------------------------------------------------------

  lemma RecordingGrows(b: Book, key: Text, hash: Text, shape: Shape, legs: seq<Leg>)
    requires key !in b.events
    ensures Grows(b, PastTheCommit(Record(b, key, hash, shape, legs)))
  {
    RecordingExtends(b, b, key, hash, shape, legs);
  }

  lemma PostingGrows(b: Book, p: Planned)
    requires ValidStaged(b) && p.command.WellFormed()
    ensures Grows(b, PostOutcome(b, p).book)
  {
    WhatAPostMeans(b, p);
    if IsFreshPost(PostOutcome(b, p).answer) {
      RecordingGrows(b, p.Key(), p.hash, ShapeOf(b, p.command), StatementLegs(b, p.command));
    }
  }

  lemma AReplayIsRemembered(b: Book, p: Planned, a: Accepted)
    requires AcceptsPost(p, Replayed(StoredResult(b, p)), a)
    ensures Remembers(b, a) && a.replayed
  {
  }

  lemma ARecordIsRemembered(b: Book, p: Planned, a: Accepted)
    requires AcceptsPost(p, Fresh(b.nextId), a)
    ensures Remembers(PastTheCommit(Written(b, p)), a)
  {
    assert Written(b, p).txns[..|b.txns|] == b.txns;
  }

  lemma APostIsRemembered(b: Book, p: Planned, a: Accepted)
    requires ValidStaged(b) && IsPlanned(p) && AcceptsPost(p, PostOutcome(b, p).answer, a)
    ensures Remembers(PostOutcome(b, p).book, a) && SpeaksForItsBody(a)
    ensures !a.replayed ==> a.key !in b.events
  {
    if p.Key() in b.events {
      AReplayIsRemembered(b, p, a);
    } else {
      WhatAPostMeans(b, p);
      AFreshAnswerIsRecorded(b, p, PostOutcome(b, p));
      ARecordIsRemembered(b, p, a);
    }
  }

  /** A free key is never answered by a replay. */
  lemma AFreshAnswerIsRecorded(b: Book, p: Planned, o: Outcome<PostAnswer>)
    requires o == PostOutcome(b, p) && p.Key() !in b.events && o.answer.Ok?
    requires IsFreshPost(o.answer) ==> o == Outcome(Fresh(b.nextId), Committed(b, Written(b, p)))
    ensures o == Outcome(Fresh(b.nextId), PastTheCommit(Written(b, p)))
  {
  }

  // ---- posting a batch -------------------------------------------------

  lemma {:induction false} RecordingInTurnExtends(b: Book, members: seq<Planned>)
    requires AllProceed(b, members) && DistinctKeys(members)
    ensures Extends(b, RecordedInTurn(b, members))
    ensures RecordedInTurn(b, members).register == b.register && RecordedInTurn(b, members).periods == b.periods
    ensures RecordedInTurn(b, members).closes == b.closes
    decreases |members|
  {
    if members != [] {
      var n := |members| - 1;
      var p := members[n];
      assert p in members;
      RecordingInTurnExtends(b, members[..n]);
      RecordingInTurnClaimsTheirKeys(b, members[..n]);
      RecordingExtends(b, RecordedInTurn(b, members[..n]), p.Key(), p.hash, ShapeOf(b, p.command), p.Legs());
    }
  }

  /** Each member's claim leads to its own transaction. */
  lemma {:induction false} EachMemberIsRemembered(b: Book, members: seq<Planned>, r: nat, a: Accepted)
    requires AllProceed(b, members) && DistinctKeys(members) && r < |members|
    requires AcceptsPost(members[r], Fresh(b.nextId + 2 * r), a)
    ensures Remembers(RecordedInTurn(b, members), a)
    decreases |members|
  {
    var n := |members| - 1;
    var front, p := members[..n], members[n];
    var before := RecordedInTurn(b, front);
    assert before.txns == RecordedInTurn(b, members).txns[..|before.txns|];
    RecordingInTurnClaimsTheirKeys(b, front);
    if r < n {
      EachMemberIsRemembered(b, front, r, a);
    }
  }

  lemma {:induction false} AMembersPlaceAmongTheProceeding(b: Book, members: seq<Planned>, m: nat)
    requires m < |members| && Proceeds(b, members[m])
    ensures |Proceeding(b, members[..m])| < |Proceeding(b, members)|
    ensures Proceeding(b, members)[|Proceeding(b, members[..m])|] == members[m]
    decreases |members|
  {
    var n := |members| - 1;
    if m < n {
      assert members[..n][..m] == members[..m];
      AMembersPlaceAmongTheProceeding(b, members[..n], m);
    }
  }

  /** What a shared statement that did not fail wrote. */
  lemma TheSharedStatementsBook(b: Book, members: seq<Planned>)
    requires ClaimAndAppendBatch(b, members).Answered?
    ensures var proceeding := Proceeding(b, members);
            && ClaimAndAppendBatch(b, members).staged == RecordedInTurn(b, proceeding)
            && AllProceed(b, proceeding) && DistinctKeys(proceeding)
  {
    var proceeding := Proceeding(b, members);
    ProceedingAreMembers(b, members);
    ProceedingAreDistinct(b, members);
    forall p | p in proceeding ensures p.command.Plain() {
      var i :| 0 <= i < |members| && members[i] == p;
    }
    TheSharedStatementRecordsInTurn(b, proceeding);
  }

  lemma PostingTogetherGrows(b: Book, members: seq<Planned>)
    ensures Grows(b, AppendedTogether(b, members).book)
  {
    if ClaimAndAppendBatch(b, members).Answered? {
      TheSharedStatementsBook(b, members);
      RecordingInTurnExtends(b, Proceeding(b, members));
      PastTheCommitGrows(b, ClaimAndAppendBatch(b, members).staged);
    }
  }

  lemma AProceedingMembersAnswer(b: Book, members: seq<Planned>, m: nat, staged: Book)
    requires m < |members| && Proceeds(b, members[m])
    ensures MemberAnswer(staged, members[m], OutcomeFor(b, members, m)) == Fresh(b.nextId + 2 * |Proceeding(b, members[..m])|)
  {
  }

  lemma APlacedMemberIsRemembered(b: Book, proceeding: seq<Planned>, rank: nat, p: Planned, staged: Book, a: Accepted)
    requires rank < |proceeding| && proceeding[rank] == p && AllProceed(b, proceeding) && DistinctKeys(proceeding)
    requires staged == RecordedInTurn(b, proceeding) && AcceptsPost(p, Fresh(b.nextId + 2 * rank), a)
    ensures Remembers(staged, a) && !a.replayed
  {
    EachMemberIsRemembered(b, proceeding, rank, a);
  }

  lemma AProceedingMemberIsRemembered(b: Book, members: seq<Planned>, m: nat, staged: Book, a: Accepted)
    requires m < |members| && Proceeds(b, members[m]) && AllProceed(b, Proceeding(b, members)) && DistinctKeys(Proceeding(b, members))
    requires staged == RecordedInTurn(b, Proceeding(b, members))
    requires AcceptsPost(members[m], Fresh(b.nextId + 2 * |Proceeding(b, members[..m])|), a)
    ensures Remembers(staged, a) && !a.replayed
  {
    AMembersPlaceAmongTheProceeding(b, members, m);
    APlacedMemberIsRemembered(b, Proceeding(b, members), |Proceeding(b, members[..m])|, members[m], staged, a);
  }

  lemma AHeldMemberIsRemembered(b: Book, members: seq<Planned>, m: nat, staged: Book, a: Accepted)
    requires m < |members| && members[m].Key() in b.events
    requires AcceptsPost(members[m], MemberAnswer(staged, members[m], OutcomeFor(b, members, m)), a)
    ensures Remembers(staged, a) && a.replayed
  {
    AReplayIsRemembered(staged, members[m], a);
  }

  lemma AMemberIsRemembered(b: Book, members: seq<Planned>, m: nat, a: Accepted)
    requires ClaimAndAppendBatch(b, members).Answered? && m < |members| && IsPlanned(members[m])
    requires AcceptsPost(members[m], MemberAnswer(ClaimAndAppendBatch(b, members).staged, members[m], OutcomeFor(b, members, m)), a)
    ensures Remembers(ClaimAndAppendBatch(b, members).staged, a) && SpeaksForItsBody(a)
    ensures !a.replayed ==> a.key !in b.events
  {
    var staged := ClaimAndAppendBatch(b, members).staged;
    TheSharedStatementsBook(b, members);
    if members[m].Key() in b.events {
      AHeldMemberIsRemembered(b, members, m, staged, a);
    } else if IsAdmissible(b, members[m]) {
      AProceedingMembersAnswer(b, members, m, staged);
      AProceedingMemberIsRemembered(b, members, m, staged, a);
    }
  }

  lemma CommittingForgetsNothing(b: Book, staged: Book, a: Accepted)
    requires Remembers(staged, a)
    ensures Remembers(Committed(b, staged), a)
  {
  }

  lemma BatchingGrows(b: Book, commands: seq<Planned>)
    requires ValidStaged(b) && AllPlanned(commands)
    ensures Grows(b, BatchOutcome(b, commands).book)
  {
    var survivors := Survivors(commands);
    SurvivorsAreCommands(commands);
    if |survivors| == 1 {
      assert survivors[0] in survivors;
      PostingGrows(b, survivors[0]);
    } else if |survivors| > 1 {
      PostingTogetherGrows(b, survivors);
    }
  }

  lemma ABatchedPostIsRemembered(b: Book, commands: seq<Planned>, i: nat, a: Accepted)
    requires ValidStaged(b) && AllPlanned(commands) && i < |commands|
    requires AcceptsPost(commands[i], BatchOutcome(b, commands).answer[i], a)
    ensures Remembers(BatchOutcome(b, commands).book, a) && SpeaksForItsBody(a)
    ensures !a.replayed ==> a.key !in b.events
  {
    var survivors := Survivors(commands);
    SurvivorsBefore(commands);
    assert commands[i] in commands;
    var m := Rank(commands, i);
    if |survivors| == 1 {
      APostIsRemembered(b, survivors[0], a);
    } else {
      AMemberIsRemembered(b, survivors, m, a);
      CommittingForgetsNothing(b, ClaimAndAppendBatch(b, survivors).staged, a);
    }
  }

  lemma {:induction false} SurvivorsOnlyGrow(commands: seq<Planned>, m: nat, n: nat)
    requires m <= n <= |commands|
    ensures Rank(commands, m) <= Rank(commands, n)
    decreases n
  {
    if m < n {
      SurvivorsOnlyGrow(commands, m, n - 1);
      assert commands[..n][..n - 1] == commands[..n - 1];
    }
  }

  lemma RanksAreApart(commands: seq<Planned>, m: nat, n: nat)
    requires m < |commands| && n < |commands| && m != n && !PlanFails(commands[m]) && !PlanFails(commands[n])
    ensures Rank(commands, m) != Rank(commands, n)
  {
    if m < n {
      assert commands[..m + 1][..m] == commands[..m];
      SurvivorsOnlyGrow(commands, m + 1, n);
    } else {
      assert commands[..n + 1][..n] == commands[..n];
      SurvivorsOnlyGrow(commands, n + 1, m);
    }
  }

  /** A key two members share is claimed by neither: the statement fails whole. */
  lemma ASharedFreeKeyFailsTheStatement(b: Book, members: seq<Planned>, m: nat, n: nat, a: Accepted)
    requires m < |members| && n < |members| && m != n && members[m].Key() == members[n].Key() && members[n].Key() !in b.events
    requires ClaimAndAppendBatch(b, members).Answered?
    ensures !AcceptsPost(members[n], MemberAnswer(ClaimAndAppendBatch(b, members).staged, members[n], OutcomeFor(b, members, n)), a)
  {
    assert !AClaimIsShared(b, members);
    assert !Proceeds(b, members[n]);
  }

  /** Two accepted answers of one batch under one key are both replays. */
  lemma InOneBatchNobodyIsFreshTwice(b: Book, commands: seq<Planned>, m: nat, n: nat, a: Accepted, again: Accepted)
    requires ValidStaged(b) && AllPlanned(commands) && m < |commands| && n < |commands| && m != n
    requires AcceptsPost(commands[m], BatchOutcome(b, commands).answer[m], a)
    requires AcceptsPost(commands[n], BatchOutcome(b, commands).answer[n], again)
    requires a.key == again.key
    ensures again.replayed
  {
    ABatchedPostIsRemembered(b, commands, n, again);
    SurvivorsBefore(commands);
    RanksAreApart(commands, m, n);
    var survivors := Survivors(commands);
    if !again.replayed {
      ASharedFreeKeyFailsTheStatement(b, survivors, Rank(commands, m), Rank(commands, n), again);
    }
  }

  // ---- opening, defining, closing --------------------------------------

  lemma OpeningGrows(d: Deployment, b: Book, c: OpenAccount)
    requires ValidStaged(b) && c.WellFormed()
    ensures Grows(b, OpenOutcome(d, b, c, CanonicalOpen(c)).book)
  {
    AnOpeningUnderAHash(d, b, c, CanonicalOpen(c));
    if CanBeOpened(d, b, c) {
      RegisteredBooksGrow(d, b, c, CanonicalOpen(c));
    }
  }

  lemma RegisteredBooksGrow(d: Deployment, b: Book, c: OpenAccount, hash: Text)
    requires CanBeOpened(d, b, c)
    ensures Grows(b, Committed(b, WriterInvariants.Registered(d, b, c, hash)))
  {
  }

  lemma AnOpeningIsRemembered(d: Deployment, b: Book, c: OpenAccount, a: Accepted)
    requires ValidStaged(b) && c.WellFormed() && AcceptsOpening(c, OpenOutcome(d, b, c, CanonicalOpen(c)).answer, a)
    ensures Remembers(OpenOutcome(d, b, c, CanonicalOpen(c)).book, a) && SpeaksForItsBody(a)
    ensures !a.replayed ==> a.key !in b.events
  {
    WhatAnOpeningMeans(d, b, c);
  }

  lemma DefiningGrows(d: Deployment, b: Book, c: DefinePeriod)
    requires ValidStaged(b) && c.WellFormed()
    ensures Grows(b, DefineOutcome(d, b, c, CanonicalDefine(c)).book)
  {
    WhatADefinitionMeans(d, b, c);
    if CanBeDefined(d, b, c) {
      DefinedBooksGrow(d, b, c, CanonicalDefine(c).value);
    }
  }

  lemma DefinedBooksGrow(d: Deployment, b: Book, c: DefinePeriod, hash: Text)
    requires CanBeDefined(d, b, c)
    ensures Grows(b, Committed(b, Defining(b, c, hash)))
  {
  }

  lemma ADefinitionIsRemembered(d: Deployment, b: Book, c: DefinePeriod, a: Accepted)
    requires ValidStaged(b) && c.WellFormed() && AcceptsDefinition(c, DefineOutcome(d, b, c, CanonicalDefine(c)).answer, a)
    ensures Remembers(DefineOutcome(d, b, c, CanonicalDefine(c)).book, a) && SpeaksForItsBody(a)
    ensures !a.replayed ==> a.key !in b.events
  {
    WhatADefinitionMeans(d, b, c);
    if c.idempotencyKey in b.events {
      assert LeadsSomewhere(b.events[c.idempotencyKey], b.txns, b.register, b.periods);
    }
  }

  lemma ClosingGrows(b: Book, c: ClosePeriod)
    requires PeriodsAreSound(b.periods)
    ensures Grows(b, CloseOutcome(b, c, CanonicalClose(c)).book)
  {
    var hash := CanonicalClose(c);
    WhatACloseMeans(b, c, hash);
    if CanBeClosed(b, c, hash) {
      var plan := PlanOf(CloseContext(b, c).value);
      AnAcceptedCloseIsRecordedWhole(b, c, hash);
      ClosedBooksGrow(b, c, hash, plan);
    }
  }

  lemma ClosedBooksGrow(b: Book, c: ClosePeriod, hash: Text, plan: ClosePlan)
    requires c.DerivedKey() !in b.events && (c.periodCode, c.currency) !in b.closes
    ensures Grows(b, Committed(b, ClosedBook(b, c, hash, plan)))
  {
    var swept := SweepOf(b, c, hash, plan, SweptPositions(b, c.currency, plan));
    RecordingGrows(b, c.DerivedKey(), hash, CloseShape(plan), SweepLegs(SweptPositions(b, c.currency, plan), c.currency, plan.retainedEarnings));
    ANewCloseGrows(b, swept, (c.periodCode, c.currency), StoredClose(b, c, plan, swept.txns));
  }

  lemma ANewCloseGrows(b: Book, staged: Book, name: (Text, Text), close: Close)
    requires Grows(b, PastTheCommit(staged)) && name !in b.closes && staged.closes == b.closes
    ensures Grows(b, Committed(b, staged.(closes := b.closes[name := close])))
  {
  }

  lemma ACloseIsRemembered(b: Book, c: ClosePeriod, a: Accepted)
    requires PeriodsAreSound(b.periods) && c.WellFormed() && AcceptsClose(c, CloseOutcome(b, c, CanonicalClose(c)).answer, a)
    ensures Remembers(CloseOutcome(b, c, CanonicalClose(c)).book, a) && SpeaksForItsBody(a)
    ensures a.key !in b.events
  {
    WhatACloseMeans(b, c, CanonicalClose(c));
    AnAcceptedCloseIsRecordedWhole(b, c, CanonicalClose(c));
  }

  // ---- every call ------------------------------------------------------

  lemma EveryCallGrows(d: Deployment, b: Book, op: Op)
    requires Valid(b) && op.WellFormed()
    ensures Grows(b, After(d, b, op))
  {
    match op
    case Post(c) => PostingGrows(b, PlanFor(c));
    case Batch(cs) =>
      PlansAreTagged(cs);
      BatchingGrows(b, PlannedAll(cs));
    case Open(c) => OpeningGrows(d, b, c);
    case Define(c) => DefiningGrows(d, b, c);
    case Close(c) => ClosingGrows(b, c);
  }

  /** Every accepted answer is remembered by the book it left, and a first writer's
      key was free before it. */
  lemma EveryAcceptedAnswerIsRemembered(d: Deployment, b: Book, op: Op, m: nat, a: Accepted)
    requires Valid(b) && op.WellFormed() && Accepts(d, b, op, m, a)
    ensures Remembers(After(d, b, op), a) && SpeaksForItsBody(a)
    ensures !a.replayed ==> a.key !in b.events
  {
    match op
    case Post(c) =>
      PostFormsAreTagged(c);
      APostIsRemembered(b, PlanFor(c), a);
    case Batch(cs) =>
      PlansAreTagged(cs);
      ABatchedPostIsRemembered(b, PlannedAll(cs), m, a);
    case Open(c) => AnOpeningIsRemembered(d, b, c, a);
    case Define(c) => ADefinitionIsRemembered(d, b, c, a);
    case Close(c) => ACloseIsRemembered(b, c, a);
  }

  // ---- whole runs ------------------------------------------------------

  ghost predicate WellFormedRun(ops: seq<Op>)
  {
    forall op :: op in ops ==> op.WellFormed()
  }

  /** Call `i` of the run gives this accepted answer, to the caller at position `m`. */
  ghost predicate AcceptedAt(d: Deployment, ops: seq<Op>, i: nat, m: nat, a: Accepted)
    requires WellFormedRun(ops) && i < |ops|
  {
    Accepts(d, Run(d, ops[..i]), ops[i], m, a)
  }

  lemma OneMoreCallGrows(d: Deployment, ops: seq<Op>)
    requires WellFormedRun(ops) && ops != []
    ensures Grows(Run(d, ops[..|ops| - 1]), Run(d, ops))
  {
    assert ops[|ops| - 1] in ops;
    EveryReachableBookIsValid(d, ops[..|ops| - 1]);
    EveryCallGrows(d, Run(d, ops[..|ops| - 1]), ops[|ops| - 1]);
  }

  lemma {:induction false} RunsOnlyGrow(d: Deployment, ops: seq<Op>, i: nat)
    requires WellFormedRun(ops) && i <= |ops|
    ensures Grows(Run(d, ops[..i]), Run(d, ops))
    decreases |ops|
  {
    if i == |ops| {
      assert ops[..i] == ops;
    } else {
      var front := ops[..|ops| - 1];
      assert front[..i] == ops[..i];
      RunsOnlyGrow(d, front, i);
      OneMoreCallGrows(d, ops);
      GrowthIsTransitive(Run(d, ops[..i]), Run(d, front), Run(d, ops));
    }
  }

  /** What these proofs take from a reachable book. */
  lemma EveryReachableBookIsSound(d: Deployment, ops: seq<Op>)
    requires WellFormedRun(ops)
    ensures var b := Run(d, ops); EventIdsAreFresh(b.events, b.nextId) && PeriodsAreSound(b.periods) && ClosesAreExact(b)
  {
    EveryReachableBookIsValid(d, ops);
  }

  lemma AnAnswerIsRememberedAtOnce(d: Deployment, ops: seq<Op>, i: nat, m: nat, a: Accepted)
    requires WellFormedRun(ops) && i < |ops| && AcceptedAt(d, ops, i, m, a)
    ensures Remembers(Run(d, ops[..i + 1]), a) && SpeaksForItsBody(a)
    ensures !a.replayed ==> a.key !in Run(d, ops[..i]).events
  {
    assert ops[..i + 1][..i] == ops[..i];
    assert ops[i] in ops;
    EveryReachableBookIsValid(d, ops[..i]);
    EveryAcceptedAnswerIsRemembered(d, Run(d, ops[..i]), ops[i], m, a);
  }

  lemma WhatIsRememberedStaysRemembered(d: Deployment, ops: seq<Op>, i: nat, a: Accepted)
    requires WellFormedRun(ops) && i <= |ops| && Remembers(Run(d, ops[..i]), a)
    ensures Remembers(Run(d, ops), a)
  {
    RunsOnlyGrow(d, ops, i);
    EveryReachableBookIsSound(d, ops[..i]);
    MemoryStands(Run(d, ops[..i]), Run(d, ops), a);
  }

  lemma RememberedFromThenOn(d: Deployment, ops: seq<Op>, i: nat, k: nat, a: Accepted)
    requires WellFormedRun(ops) && i <= k <= |ops| && Remembers(Run(d, ops[..i]), a)
    ensures Remembers(Run(d, ops[..k]), a)
  {
    var run := ops[..k];
    assert run[..i] == ops[..i];
    WhatIsRememberedStaysRemembered(d, run, i, a);
  }

  lemma AnAnswerIsRememberedEverAfter(d: Deployment, ops: seq<Op>, i: nat, m: nat, k: nat, a: Accepted)
    requires WellFormedRun(ops) && i < k <= |ops| && AcceptedAt(d, ops, i, m, a)
    ensures Remembers(Run(d, ops[..k]), a)
  {
    AnAnswerIsRememberedAtOnce(d, ops, i, m, a);
    RememberedFromThenOn(d, ops, i + 1, k, a);
  }

  lemma InOneCallNobodyIsFreshTwice(d: Deployment, b: Book, op: Op, m: nat, n: nat, a: Accepted, again: Accepted)
    requires Valid(b) && op.WellFormed() && m != n && a.key == again.key
    requires Accepts(d, b, op, m, a) && Accepts(d, b, op, n, again)
    ensures again.replayed
  {
    var cs := op.commands;
    PlansAreTagged(cs);
    InOneBatchNobodyIsFreshTwice(b, PlannedAll(cs), m, n, a, again);
  }

  /** Over any run, whatever mix of operations it is: all accepted answers for one
      key name one body, one event and one effect. Of any two, at whatever calls and
      whatever positions of one batch, the later is a replay, and two of one batch
      both are. */
  lemma OneKeyOneClaim(d: Deployment, ops: seq<Op>, i: nat, m: nat, j: nat, n: nat, a: Accepted, again: Accepted)
    requires WellFormedRun(ops) && i <= j < |ops|
    requires AcceptedAt(d, ops, i, m, a) && AcceptedAt(d, ops, j, n, again) && a.key == again.key
    ensures again == a.(replayed := again.replayed)
    ensures i < j || m != n ==> again.replayed
    ensures i == j && m != n ==> a.replayed
  {
    AnAnswerIsRememberedEverAfter(d, ops, i, m, j + 1, a);
    AnAnswerIsRememberedEverAfter(d, ops, j, n, j + 1, again);
    AnAnswerIsRememberedAtOnce(d, ops, i, m, a);
    AnAnswerIsRememberedAtOnce(d, ops, j, n, again);
    OneBookRemembersOneAnswerPerKey(Run(d, ops[..j + 1]), a, again);
    if i < j {
      AnAnswerIsRememberedEverAfter(d, ops, i, m, j, a);
    } else if m != n {
      EveryReachableBookIsValid(d, ops[..i]);
      assert ops[i] in ops;
      InOneCallNobodyIsFreshTwice(d, Run(d, ops[..i]), ops[i], m, n, a, again);
      InOneCallNobodyIsFreshTwice(d, Run(d, ops[..i]), ops[i], n, m, again, a);
    }
  }

  /** A held key is never accepted for another body, by any operation. */
  lemma ADifferentBodyIsRefused(d: Deployment, ops: seq<Op>, i: nat, m: nat, j: nat, n: nat, a: Accepted, again: Accepted)
    requires WellFormedRun(ops) && i <= j < |ops|
    requires AcceptedAt(d, ops, i, m, a) && again.key == a.key && again.hash != a.hash
    ensures !AcceptedAt(d, ops, j, n, again)
  {
    if AcceptedAt(d, ops, j, n, again) {
      OneKeyOneClaim(d, ops, i, m, j, n, a, again);
    }
  }

  /** A close is never replayed: once one is accepted, the same close is refused as
      already closed for the rest of the run, and writes nothing. */
  lemma ARepeatedCloseIsRefused(d: Deployment, ops: seq<Op>, i: nat, k: nat, c: ClosePeriod, a: Accepted)
    requires WellFormedRun(ops) && i < k <= |ops|
    requires ops[i] == Op.Close(c) && AcceptedAt(d, ops, i, 0, a)
    ensures CloseOutcome(Run(d, ops[..k]), c, CanonicalClose(c))
         == Outcome(Err(PeriodAlreadyClosed(c.periodCode, c.currency)), Run(d, ops[..k]))
  {
    var b := Run(d, ops[..k]);
    AnAnswerIsRememberedEverAfter(d, ops, i, 0, k, a);
    EveryReachableBookIsSound(d, ops[..k]);
    AHeldCloseIsRefused(b, c, a);
  }

  lemma AHeldCloseIsRefused(b: Book, c: ClosePeriod, a: Accepted)
    requires PeriodsAreSound(b.periods) && ClosesAreExact(b) && Remembers(b, a)
    requires a.key == c.DerivedKey() && a.hash == CanonicalClose(c) && a.effect.ClosedBooks? && a.effect.name == (c.periodCode, c.currency)
    ensures CloseOutcome(b, c, CanonicalClose(c)) == Outcome(Err(PeriodAlreadyClosed(c.periodCode, c.currency)), b)
  {
    assert CloseIsExact(b, c.currency, b.closes[(c.periodCode, c.currency)]);
  }

  // ---- refusals and replays write nothing ------------------------------

  ghost predicate NobodyIsFresh(answers: seq<PostAnswer>)
  {
    forall m :: 0 <= m < |answers| ==> !IsFreshPost(answers[m])
  }

  /** Some caller of this call is a first writer. */
  ghost predicate HasAFirstWriter(d: Deployment, b: Book, op: Op)
    requires op.WellFormed()
  {
    match op
    case Post(c) => IsFreshPost(PostOutcome(b, PlanFor(c)).answer)
    case Batch(cs) => !NobodyIsFresh(BatchOutcome(b, PlannedAll(cs)).answer)
    case Open(c) => IsFreshOpening(OpenOutcome(d, b, c, CanonicalOpen(c)).answer)
    case Define(c) => IsFreshDefinition(DefineOutcome(d, b, c, CanonicalDefine(c)).answer)
    case Close(c) => CloseOutcome(b, c, CanonicalClose(c)).answer.Ok?
  }

  /** Every survivor is some command, at its rank. */
  lemma {:induction false} ASurvivorIsACommand(commands: seq<Planned>, m: nat) returns (i: nat)
    requires m < |Survivors(commands)|
    ensures i < |commands| && !PlanFails(commands[i]) && Rank(commands, i) == m && Survivors(commands)[m] == commands[i]
    decreases |commands|
  {
    var n := |commands| - 1;
    if m < |Survivors(commands[..n])| {
      i := ASurvivorIsACommand(commands[..n], m);
      assert commands[..n][..i] == commands[..i];
    } else {
      i := n;
    }
  }

  lemma {:induction false} NobodyProceeds(b: Book, members: seq<Planned>)
    requires forall p :: p in members ==> !Proceeds(b, p)
    ensures Proceeding(b, members) == []
    decreases |members|
  {
    if members != [] {
      assert members[|members| - 1] in members;
      NobodyProceeds(b, members[..|members| - 1]);
    }
  }

  lemma AnIdleSharedStatementWritesNothing(b: Book, members: seq<Planned>)
    requires NobodyIsFresh(AppendedTogether(b, members).answer)
    ensures AppendedTogether(b, members).book == b
  {
    if ClaimAndAppendBatch(b, members).Answered? {
      forall p | p in members ensures !Proceeds(b, p) {
        var m :| 0 <= m < |members| && members[m] == p;
        AMemberWhoProceedsIsFresh(b, members, m);
      }
      NobodyProceeds(b, members);
      NoMembersWriteNothing(b);
    }
  }

  lemma AMemberWhoProceedsIsFresh(b: Book, members: seq<Planned>, m: nat)
    requires m < |members| && ClaimAndAppendBatch(b, members).Answered?
    ensures Proceeds(b, members[m]) ==> IsFreshPost(AppendedTogether(b, members).answer[m])
  {
    if Proceeds(b, members[m]) {
      AProceedingMembersAnswer(b, members, m, ClaimAndAppendBatch(b, members).staged);
    }
  }

  lemma AnIdleMembersOutcomeWritesNothing(b: Book, members: seq<Planned>)
    requires ValidStaged(b) && AllPlanned(members) && NobodyIsFresh(MembersOutcome(b, members).answer)
    ensures MembersOutcome(b, members).book == b
  {
    if |members| == 1 {
      assert members[0] in members;
      WhatAPostMeans(b, members[0]);
      assert MembersOutcome(b, members).answer[0] == PostOutcome(b, members[0]).answer;
    } else if |members| > 1 {
      assert MembersOutcome(b, members) == AppendedTogether(b, members);
      AnIdleSharedStatementWritesNothing(b, members);
    }
  }

  lemma IdleMembersBehindAnIdleBatch(commands: seq<Planned>, answered: seq<PostAnswer>)
    requires |answered| == |Survivors(commands)| && NobodyIsFresh(InArrivalOrder(commands, answered))
    ensures NobodyIsFresh(answered)
  {
    forall m | 0 <= m < |answered| ensures !IsFreshPost(answered[m]) {
      var i := ASurvivorIsACommand(commands, m);
      assert InArrivalOrder(commands, answered)[i] == answered[m];
    }
  }

  lemma AnIdleBatchWritesNothing(b: Book, commands: seq<Planned>)
    requires ValidStaged(b) && AllPlanned(commands) && NobodyIsFresh(BatchOutcome(b, commands).answer)
    ensures BatchOutcome(b, commands).book == b
  {
    SurvivorsAreCommands(commands);
    IdleMembersBehindAnIdleBatch(commands, MembersOutcome(b, Survivors(commands)).answer);
    AnIdleMembersOutcomeWritesNothing(b, Survivors(commands));
  }

  /** Only a first writer writes: a call whose every answer is a refusal or a replay
      leaves the committed book exactly as it was. */
  lemma OnlyAFirstWriterWrites(d: Deployment, b: Book, op: Op)
    requires Valid(b) && op.WellFormed() && !HasAFirstWriter(d, b, op)
    ensures After(d, b, op) == b
  {
    match op
    case Post(c) => WhatAPostMeans(b, PlanFor(c));
    case Batch(cs) =>
      PlansAreTagged(cs);
      AnIdleBatchWritesNothing(b, PlannedAll(cs));
    case Open(c) => WhatAnOpeningMeans(d, b, c);
    case Define(c) => WhatADefinitionMeans(d, b, c);
    case Close(c) => WhatACloseMeans(b, c, CanonicalClose(c));
  }
}
