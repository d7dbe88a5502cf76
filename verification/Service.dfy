/** The writer service: the bracket around every operation, step by step. Each method
    is proved against what its operation means over the tenant's book. */
module Service {
  import opened Wrappers
  import opened Bytes
  import opened Domain
  import opened Accounts
  import opened Periods
  import opened Postings
  import opened Port
  import opened Book
  import opened Closing
  import opened Writer
  import opened Storage
  import opened Stores
  import opened Answers
  import KeyOrder
  import Plans = Book
  import OpeningBytes = Accounts
  import ClosingStatements = Closing

  // ---- the pure work ---------------------------------------------------

  /** `plan_for`: the hash, the payload and the planned append, computed before any
      statement. */
  method PlanTheCommand(c: PostTransaction) returns (r: Result<(Planned, Append), WriteError>)
    requires c.WellFormed()
    ensures !c.PayloadRenders() ==> r == Err(WriteError.Internal)
    ensures c.PayloadRenders() && Overflows(LegsOf(c.postings)) ==> r == Err(WriteError.Overflow)
    ensures c.PayloadRenders() && !Overflows(LegsOf(c.postings)) ==>
              r.Ok? && r.value.0 == PlanFor(c) && IsPlanFor(r.value.1, c.postings, c.status)
  {
    var bytes := Domain.CanonicalBytes(c);
    if !c.PayloadRenders() {
      return Err(WriteError.Internal);
    }
    var append := PlanAppend(c.postings, c.status);
    if append.Err? {
      return Err(WriteError.Overflow);
    }
    return Ok((Planned(c, bytes.value), append.value));
  }

  /** The first upsert that handed no counter back. */
  method FindMissing(upserts: seq<BalanceUpsert>) returns (missing: Option<Postings.Key>)
    ensures missing == FirstMissing(upserts)
  {
    var i := 0;
    while i < |upserts|
      invariant 0 <= i <= |upserts|
      invariant FirstMissing(upserts) == FirstMissing(upserts[i..])
    {
      if upserts[i].lastSeq.None? {
        return Some(upserts[i].row);
      }
      i := i + 1;
    }
    return None;
  }

  /** What a first writer hears, once its statement answered. */
  function WholeOrRefused(eventId: nat, transactionId: nat, upserts: seq<BalanceUpsert>, deltas: nat): PostAnswer
  {
    if |upserts| != deltas then Err(WriteError.Internal)
    else if FirstMissing(upserts).Some? then Err(WriteError.AccountUnknown(FirstMissing(upserts).value))
    else Ok(Port.Posted(eventId, Some(transactionId), false))
  }

  /** One upsert per delta, found or not: the counts never disagree. */
  lemma EveryDeltaIsAnswered(b: Book, c: PostTransaction, append: Append)
    requires IsPlanFor(append, c.postings, c.status)
    ensures forall balances :: |UpsertsFor(b, balances, LegsOf(c.postings))| == |append.deltas|
  {
    KeyOrder.InKeyOrderListsEveryKey(KeysOf(LegsOf(c.postings)));
  }

  lemma OneMorePlan(planned: seq<Plan>, all: seq<Planned>, plan: Plan)
    requires |planned| < |all| && ArePlansOf(planned, all[..|planned|]) && IsPlanOf(plan, all[|planned|])
    ensures ArePlansOf(planned + [plan], all[..|planned| + 1])
  {
  }

  /** Every command's own plan: its hash and its append, or its own refusal. */
  method PlanEach(commands: seq<PostTransaction>) returns (planned: seq<Plan>)
    requires forall c :: c in commands ==> c.WellFormed()
    ensures ArePlansOf(planned, PlannedAll(commands))
  {
    planned := [];
    ghost var all := PlannedAll(commands);
    for i := 0 to |commands|
      invariant ArePlansOf(planned, all[..i])
    {
      assert commands[i] in commands;
      var plan := PlanOrRefusal(commands[i]);
      OneMorePlan(planned, all, plan);
      planned := planned + [plan];
    }
    assert all[..|commands|] == all;
  }

  method PlanOrRefusal(c: PostTransaction) returns (plan: Plan)
    requires c.WellFormed()
    ensures IsPlanOf(plan, PlanFor(c))
  {
    var r := PlanTheCommand(c);
    plan := if r.Err? then Err(r.error) else Ok(r.value.0);
  }

  // ---- what a call leaves ----------------------------------------------

  /** One tenant's book is left as meant, or as it was if storage failed; nobody
      else's changes. */
  ghost predicate Leaves(before: Store, after: Store, tenant: Text, book: Book, failed: bool)
  {
    && (forall other :: other != tenant ==> BookOf(after, other) == BookOf(before, other))
    && (BookOf(after, tenant) == book || (failed && BookOf(after, tenant) == BookOf(before, tenant)))
  }

  // ---- what a batch leaves ---------------------------------------------

  /** Every tenant's book is left as meant, or all of them as they were if storage failed. */
  ghost predicate LeavesAll(before: Store, after: Store, meant: Store, failed: bool)
  {
    SameBooks(after, meant) || (failed && SameBooks(after, before))
  }

  /** What every survivor hears when the batch fails as a whole. */
  ghost function WholeBatchFails(commands: seq<Planned>): seq<PostAnswer>
  {
    InArrivalOrder(commands, StorageForEach(|Survivors(commands)|))
  }

  /** A batch answers what it means, and leaves what it means; or storage failed every
      member that reached it, and then the store is either one. */
  ghost predicate SettlesTheBatch(before: Store, after: Store, commands: seq<Planned>, answers: seq<PostAnswer>)
  {
    var meant := BatchAcross(before, commands);
    || (answers == meant.answer && LeavesAll(before, after, meant.store, false))
    || (answers == WholeBatchFails(commands) && LeavesAll(before, after, meant.store, true))
  }

  /** The same, for the members that survived their plans. */
  ghost predicate SettlesTheMembers(before: Store, after: Store, members: seq<Planned>, answered: seq<PostAnswer>)
  {
    var meant := MembersAcross(before, members);
    || (answered == meant.answer && LeavesAll(before, after, meant.store, false))
    || (answered == StorageForEach(|members|) && LeavesAll(before, after, meant.store, true))
  }

  /** For one tenant's batch: that tenant's book moves as its batch means, and nobody
      else's changes. */
  lemma ATenantsBatchSettles(before: Store, after: Store, tenant: Text, commands: seq<Planned>, answers: seq<PostAnswer>)
    requires SettlesTheBatch(before, after, commands, answers) && forall p :: p in commands ==> p.command.tenantId == tenant
    ensures var meant := BatchOutcome(BookOf(before, tenant), commands);
            || (answers == meant.answer && Leaves(before, after, tenant, meant.book, false))
            || (answers == WholeBatchFails(commands) && Leaves(before, after, tenant, meant.book, true))
  {
    OneTenantsBatch(before, tenant, commands);
  }

  lemma SettledMembersSettleTheBatch(before: Store, after: Store, commands: seq<Planned>, answered: seq<PostAnswer>, answers: seq<PostAnswer>)
    requires SettlesTheMembers(before, after, Survivors(commands), answered)
    requires |answered| == |Survivors(commands)| && answers == InArrivalOrder(commands, answered)
    ensures SettlesTheBatch(before, after, commands, answers)
  {
  }

  /** One member is posted alone. */
  lemma OneMemberSettles(before: Store, after: Store, p: Planned, answer: PostAnswer)
    requires var meant := PostOutcome(BookOf(before, p.command.tenantId), p);
             && (answer == meant.answer || answer == Err(WriteError.Storage))
             && Leaves(before, after, p.command.tenantId, meant.book, answer == Err(WriteError.Storage))
    ensures SettlesTheMembers(before, after, [p], [answer])
  {
    assert StorageForEach(1) == [Err(WriteError.Storage)];
    ALeavingIsOfAll(before, after, p.command.tenantId, PostOutcome(BookOf(before, p.command.tenantId), p).book, answer == Err(WriteError.Storage));
  }

  lemma ALeavingIsOfAll(before: Store, after: Store, tenant: Text, book: Book, failed: bool)
    requires Leaves(before, after, tenant, book, failed)
    ensures LeavesAll(before, after, before[tenant := book], failed)
  {
    if BookOf(after, tenant) == book {
      assert SameBooks(after, before[tenant := book]);
    } else {
      assert SameBooks(after, before);
    }
  }

  lemma TogetherSettles(before: Store, after: Store, members: seq<Planned>, answered: seq<PostAnswer>)
    requires |members| >= 2
    requires var meant := AppendedAcross(before, members);
             || (answered == meant.answer && LeavesAll(before, after, meant.store, false))
             || (answered == StorageForEach(|members|) && LeavesAll(before, after, meant.store, true))
    ensures SettlesTheMembers(before, after, members, answered)
  {
    assert MembersAcross(before, members) == AppendedAcross(before, members);
  }

  lemma OneSurvivesOrNone(p: Planned)
    ensures Survivors([p]) == if PlanFails(p) then [] else [p]
  {
    assert [p][..0] == [];
  }

  /** A batch of one is a single post. */
  lemma OnePostSettles(before: Store, after: Store, p: Planned, answer: PostAnswer)
    requires var meant := PostOutcome(BookOf(before, p.command.tenantId), p);
             && (answer == meant.answer || answer == Err(WriteError.Storage))
             && Leaves(before, after, p.command.tenantId, meant.book, answer == Err(WriteError.Storage))
    requires PlanFails(p) ==> answer == Err(PlanRefusal(p))
    ensures SettlesTheBatch(before, after, [p], [answer])
  {
    OneSurvivesOrNone(p);
    var answered := if PlanFails(p) then [] else [answer];
    if !PlanFails(p) {
      OneMemberSettles(before, after, p, answer);
    } else {
      ARefusedPlanLeavesAll(before, after, p, answer);
    }
    OneInOrder(p, answered);
    SettledMembersSettleTheBatch(before, after, [p], answered, [answer]);
  }

  lemma ARefusedPlanLeavesAll(before: Store, after: Store, p: Planned, answer: PostAnswer)
    requires PlanFails(p) && answer == Err(PlanRefusal(p))
    requires Leaves(before, after, p.command.tenantId, PostOutcome(BookOf(before, p.command.tenantId), p).book, answer == Err(WriteError.Storage))
    ensures SettlesTheMembers(before, after, [], [])
  {
    assert SameBooks(after, before);
  }

  lemma OneInOrder(p: Planned, answered: seq<PostAnswer>)
    requires |answered| == if PlanFails(p) then 0 else 1
    ensures |Survivors([p])| == |answered|
    ensures InArrivalOrder([p], answered) == [if PlanFails(p) then Err(PlanRefusal(p)) else answered[0]]
  {
    OneSurvivesOrNone(p);
  }

  lemma SurvivorsArePlanned(commands: seq<PostTransaction>)
    requires forall c :: c in commands ==> c.WellFormed()
    ensures forall p :: p in Survivors(PlannedAll(commands)) ==>
              p.command in commands && p.command.WellFormed() && p == PlanFor(p.command) && !PlanFails(p)
  {
    SurvivorsAreCommands(PlannedAll(commands));
    forall p | p in PlannedAll(commands) ensures p.command in commands && p.command.WellFormed() && p == PlanFor(p.command) {
      var i :| 0 <= i < |commands| && PlannedAll(commands)[i] == p;
      assert commands[i] in commands;
    }
  }

  lemma NobodySettles(store: Store)
    ensures SettlesTheBatch(store, store, PlannedAll([]), [])
  {
    assert PlannedAll([]) == [];
  }

  /** A statement that answered, and what it means. */
  lemma WhatTheBatchMeans(store: Store, members: seq<Planned>, outcomes: seq<MemberOutcome>, writes: Store)
    requires var claimed := ClaimAndAppendAcross(store, members); claimed.StoreAnswered? && outcomes == claimed.answer && writes == map[] + claimed.writes
    ensures |outcomes| == |members| && writes.Keys == TenantsOf(members)
    ensures AppendedAcross(store, members) == StoreOutcome(AnswersAcross(writes, members, outcomes), CommittedAll(store, writes))
  {
    NothingMore(ClaimAndAppendAcross(store, members).writes);
    AnAnsweredStatement(store, members, outcomes, writes);
  }

  lemma NothingMore(writes: Store)
    ensures map[] + writes == writes
  {
  }

  /** So a member's own book, as the bracket sees it, is the one it wrote. */
  lemma WhatWasWrittenIsSeen(committed: Store, writes: Store, members: seq<Planned>, outcomes: seq<MemberOutcome>)
    requires TenantsOf(members) <= writes.Keys && |members| == |outcomes|
    ensures AnswersAcross(committed + writes, members, outcomes) == AnswersAcross(writes, members, outcomes)
  {
    forall m | 0 <= m < |members|
      ensures BookOf(committed + writes, members[m].command.tenantId) == BookOf(writes, members[m].command.tenantId) {
      assert members[m] in members && members[m].command.tenantId in TenantsOf(members);
    }
  }

  /** What steps one to three wrote, on its way to step four. */
  datatype ClosedSoFar = ClosedSoFar(eventId: nat, transactionId: nat, computedAtXid: nat, swept: seq<SweptPosition>)

  class LedgerService {
    const repository: Repository

    constructor (repository: Repository)
      ensures this.repository == repository
    {
      this.repository := repository;
    }

    /** Close the bracket over one tenant's staged book. */
    method CommitTheBracket(tenant: Text, ghost staged: Book) returns (ok: bool)
      requires repository.bracket == Staging(map[tenant := staged])
      modifies repository
      ensures repository.bracket == NoBracket
      ensures Leaves(old(repository.committed), repository.committed, tenant,
                     Committed(BookOf(old(repository.committed), tenant), staged), !ok)
    {
      var r := repository.Commit();
      ok := r.Ok?;
    }

    /** Abandon it: nothing was written. */
    method RollBackTheBracket() returns (ok: bool)
      requires repository.bracket.Staging?
      modifies repository
      ensures repository.bracket == NoBracket && repository.committed == old(repository.committed)
    {
      var r := repository.Rollback();
      ok := r.Ok?;
    }

    // ---- posting -------------------------------------------------------

    /** Post atomically, or return the stored result. */
    method Post(c: PostTransaction) returns (answer: PostAnswer)
      requires c.WellFormed() && repository.bracket == NoBracket
      modifies repository
      ensures repository.bracket == NoBracket
      ensures PlanFails(PlanFor(c)) ==> answer == Err(PlanRefusal(PlanFor(c)))
      ensures var meant := PostOutcome(BookOf(old(repository.committed), c.tenantId), PlanFor(c));
              && (answer == meant.answer || answer == Err(WriteError.Storage))
              && Leaves(old(repository.committed), repository.committed, c.tenantId, meant.book, answer == Err(WriteError.Storage))
    {
      var planned := PlanTheCommand(c);
      if planned.Err? {
        return Err(planned.error);
      }
      var p, append := planned.value.0, planned.value.1;
      var begun := repository.Begin();
      if begun.Err? {
        return Err(WriteError.Storage);
      }
      ghost var b := repository.Sees(c.tenantId);
      var claimed := repository.ClaimAndAppend(c, p.hash, append);
      if claimed.Err? {
        return Err(WriteError.Storage);
      }
      answer := AnswerTheClaim(p, append, claimed.value, Plans.ClaimAndAppend(b, p).staged);
    }

    /** What the statement answered decides how the bracket closes. */
    method AnswerTheClaim(p: Planned, append: Append, claimed: Option<Claimed>, ghost staged: Book) returns (answer: PostAnswer)
      requires IsPlanFor(append, p.command.postings, p.command.status)
      requires repository.bracket == Staging(map[p.command.tenantId := staged])
      requires Plans.ClaimAndAppend(BookOf(repository.committed, p.command.tenantId), p) == Answered(claimed, staged)
      modifies repository
      ensures repository.bracket == NoBracket
      ensures var b := BookOf(old(repository.committed), p.command.tenantId);
              var meant := AfterTheClaim(b, p, Answered(claimed, staged));
              && (answer == meant.answer || answer == Err(WriteError.Storage))
              && Leaves(old(repository.committed), repository.committed, p.command.tenantId, meant.book, answer == Err(WriteError.Storage))
    {
      match claimed {
        case Some(Appended(eventId, transactionId, upserts)) =>
          if p.command.reversesId.Some? {
            answer := CommitDerivedReversal(p.command.tenantId, staged, eventId, transactionId);
          } else {
            EveryDeltaIsAnswered(BookOf(repository.committed, p.command.tenantId), p.command, append);
            answer := CommitOrRefuseUnknownAccount(p.command.tenantId, staged, eventId, transactionId, upserts, append.deltas);
          }
        case Some(SupersessionRefused(refusal)) =>
          answer := RefuseUnsupersedableTarget(p.command, refusal);
        case None =>
          answer := ReplayOrRefuse(p);
      }
    }

    /** The first writer's second half: a counter short is an answer nobody can read,
        a missing one is an unknown account, and otherwise everything commits. */
    method CommitOrRefuseUnknownAccount(tenant: Text, ghost staged: Book, eventId: nat, transactionId: nat,
                                        upserts: seq<BalanceUpsert>, deltas: map<Postings.Key, Delta>)
      returns (answer: PostAnswer)
      requires repository.bracket == Staging(map[tenant := staged])
      modifies repository
      ensures repository.bracket == NoBracket
      ensures answer == Err(WriteError.Storage) || answer == WholeOrRefused(eventId, transactionId, upserts, |deltas|)
      ensures var before := BookOf(old(repository.committed), tenant);
              Leaves(old(repository.committed), repository.committed, tenant,
                     if WholeOrRefused(eventId, transactionId, upserts, |deltas|).Ok? then Committed(before, staged) else before,
                     answer == Err(WriteError.Storage))
    {
      if |upserts| != |deltas| {
        var rolledBack := RollBackTheBracket();
        return Err(if rolledBack then WriteError.Internal else WriteError.Storage);
      }
      var missing := FindMissing(upserts);
      if missing.Some? {
        var rolledBack := RollBackTheBracket();
        return Err(if rolledBack then WriteError.AccountUnknown(missing.value) else WriteError.Storage);
      }
      var committed := CommitTheBracket(tenant, staged);
      return if committed then Ok(Port.Posted(eventId, Some(transactionId), false)) else Err(WriteError.Storage);
    }

    /** The reversal's second half: the statement derived the whole outcome. */
    method CommitDerivedReversal(tenant: Text, ghost staged: Book, eventId: nat, transactionId: nat) returns (answer: PostAnswer)
      requires repository.bracket == Staging(map[tenant := staged])
      modifies repository
      ensures repository.bracket == NoBracket
      ensures answer == Err(WriteError.Storage) || answer == Ok(Port.Posted(eventId, Some(transactionId), false))
      ensures Leaves(old(repository.committed), repository.committed, tenant,
                     Committed(BookOf(old(repository.committed), tenant), staged), answer == Err(WriteError.Storage))
    {
      var committed := CommitTheBracket(tenant, staged);
      return if committed then Ok(Port.Posted(eventId, Some(transactionId), false)) else Err(WriteError.Storage);
    }

    /** Roll back first, so the claim and the locks are gone; then name the target. */
    method RefuseUnsupersedableTarget(c: PostTransaction, refusal: SupersedeRefusal) returns (answer: PostAnswer)
      requires repository.bracket.Staging?
      modifies repository
      ensures repository.bracket == NoBracket && repository.committed == old(repository.committed)
      ensures answer == Err(Named(refusal, c)) || answer == Err(WriteError.Storage)
    {
      var rolledBack := RollBackTheBracket();
      return Err(if rolledBack then Named(refusal, c) else WriteError.Storage);
    }

    /** The key was already claimed: answer what its first writer stored, or refuse
        the reuse. Either way this only read. */
    method ReplayOrRefuse(p: Planned) returns (answer: PostAnswer)
      requires repository.bracket.Staging?
      modifies repository
      ensures repository.bracket == NoBracket && repository.committed == old(repository.committed)
      ensures answer == Replayed(Plans.StoredResult(old(repository.Sees(p.command.tenantId)), p)) || answer == Err(WriteError.Storage)
    {
      var stored := repository.StoredResult(p);
      if stored.Err? {
        return Err(WriteError.Storage);
      }
      var rolledBack := RollBackTheBracket();
      return if rolledBack then Replayed(stored.value) else Err(WriteError.Storage);
    }

    // ---- posting a batch -----------------------------------------------

    /** Post independent commands, of any tenants, and answer each on its own. */
    method PostBatch(commands: seq<PostTransaction>) returns (answers: seq<PostAnswer>)
      requires repository.bracket == NoBracket
      requires forall c :: c in commands ==> c.WellFormed()
      modifies repository
      ensures repository.bracket == NoBracket
      ensures SettlesTheBatch(old(repository.committed), repository.committed, PlannedAll(commands), answers)
    {
      if |commands| == 0 {
        answers := [];
        NobodySettles(repository.committed);
      } else if |commands| == 1 {
        assert commands[0] in commands;
        var answer := Post(commands[0]);
        answers := [answer];
        assert PlannedAll(commands) == [PlanFor(commands[0])];
        OnePostSettles(old(repository.committed), repository.committed, PlanFor(commands[0]), answer);
      } else {
        answers := PostTogether(commands);
      }
    }

    method PostTogether(commands: seq<PostTransaction>) returns (answers: seq<PostAnswer>)
      requires repository.bracket == NoBracket
      requires forall c :: c in commands ==> c.WellFormed()
      modifies repository
      ensures repository.bracket == NoBracket
      ensures SettlesTheBatch(old(repository.committed), repository.committed, PlannedAll(commands), answers)
    {
      var planned := PlanEach(commands);
      var members := MembersOf(planned, PlannedAll(commands));
      SurvivorsArePlanned(commands);
      var answered := PostTheMembers(members);
      answers := AnswersInArrivalOrder(planned, answered);
      TheTwoOrdersAreOne(planned, PlannedAll(commands), answered, answers);
      SettledMembersSettleTheBatch(old(repository.committed), repository.committed, PlannedAll(commands), answered, answers);
    }

    /** None left to ask about, one that takes the single statement, or a batch that
        shares one. */
    method PostTheMembers(members: seq<Planned>) returns (answered: seq<PostAnswer>)
      requires repository.bracket == NoBracket
      requires forall p :: p in members ==> p.command.WellFormed() && p == PlanFor(p.command)
      modifies repository
      ensures repository.bracket == NoBracket && |answered| == |members|
      ensures SettlesTheMembers(old(repository.committed), repository.committed, members, answered)
    {
      if |members| == 0 {
        return [];
      }
      if |members| == 1 {
        assert members[0] in members && members == [members[0]];
        var answer := Post(members[0].command);
        OneMemberSettles(old(repository.committed), repository.committed, members[0], answer);
        return [answer];
      }
      var together := AppendTheBatch(members);
      answered := if together.Ok? then together.value else seq(|members|, m => Err(together.error));
      assert together.Err? ==> answered == StorageForEach(|members|);
      TogetherSettles(old(repository.committed), repository.committed, members, answered);
    }

    /** The bracket, for as many members: one statement, at most one replay lookup,
        one commit. */
    method AppendTheBatch(members: seq<Planned>) returns (r: Result<seq<PostAnswer>, WriteError>)
      requires repository.bracket == NoBracket
      modifies repository
      ensures repository.bracket == NoBracket
      ensures var meant := AppendedAcross(old(repository.committed), members);
              && (r == Ok(meant.answer) || r == Err(WriteError.Storage))
              && LeavesAll(old(repository.committed), repository.committed, meant.store, r.Err?)
    {
      var begun := repository.Begin();
      if begun.Err? {
        return Err(WriteError.Storage);
      }
      ghost var before := repository.committed;
      assert repository.Seen() == before;
      var outcomes := repository.ClaimAndAppendBatch(members);
      if outcomes.Err? {
        return Err(WriteError.Storage);
      }
      ghost var writes := repository.bracket.writes;
      WhatTheBatchMeans(before, members, outcomes.value, writes);
      r := AnswerTheBatch(members, outcomes.value, writes);
    }

    /** The counts are checked before anything is read by position: an answer nobody
        can read never becomes a book. */
    method AnswerTheBatch(members: seq<Planned>, outcomes: seq<MemberOutcome>, ghost writes: Store)
      returns (r: Result<seq<PostAnswer>, WriteError>)
      requires repository.bracket == Staging(writes) && TenantsOf(members) <= writes.Keys
      modifies repository
      ensures repository.bracket == NoBracket
      ensures r == Err(WriteError.Storage)
              || r == if |outcomes| != |members| then Err(WriteError.Internal) else Ok(AnswersAcross(writes, members, outcomes))
      ensures var before := old(repository.committed);
              LeavesAll(before, repository.committed, if |outcomes| != |members| then before else CommittedAll(before, writes), r.Err?)
    {
      if |outcomes| != |members| {
        var rolledBack := RollBackTheBracket();
        return Err(if rolledBack then WriteError.Internal else WriteError.Storage);
      }
      var replaying := MembersReplayingAnEarlierWrite(members, outcomes);
      ghost var seen := repository.Seen();
      var replayed := ReplayedResultsFor(replaying);
      if replayed.Err? {
        return Err(WriteError.Storage);
      }
      var answers := CommitTheBatch(writes, outcomes, replayed.value, |replaying|);
      if answers.Ok? {
        MembersTakeTheirOwnAnswers(seen, members, outcomes, answers.value);
        WhatWasWrittenIsSeen(old(repository.committed), writes, members, outcomes);
      }
      r := answers;
    }

    /** The replay lookup, once for the whole batch, and not at all when no member
        needs it. */
    method ReplayedResultsFor(replaying: seq<Planned>) returns (r: Result<seq<Stored>, StorageError>)
      requires repository.bracket.Staging?
      modifies repository`bracket
      ensures r.Ok? ==> r.value == StoredResults(old(repository.Seen()), replaying) && repository.bracket == old(repository.bracket)
      ensures r.Err? ==> repository.bracket == NoBracket
    {
      if |replaying| == 0 {
        return Ok([]);
      }
      r := repository.StoredResultBatch(replaying);
    }

    method CommitTheBatch(ghost writes: Store, outcomes: seq<MemberOutcome>, replayed: seq<Stored>, asked: nat)
      returns (r: Result<seq<PostAnswer>, WriteError>)
      requires repository.bracket == Staging(writes)
      modifies repository
      ensures repository.bracket == NoBracket
      ensures r.Ok? ==> |replayed| == asked && |r.value| == |outcomes|
      ensures r.Ok? ==> forall m :: 0 <= m < |outcomes| ==> r.value[m] == AnswerFor(outcomes, replayed, m)
      ensures r.Err? ==> r.error == WriteError.Storage || (r.error == WriteError.Internal && |replayed| != asked)
      ensures var before := old(repository.committed);
              LeavesAll(before, repository.committed, if |replayed| != asked then before else CommittedAll(before, writes), r.Err?)
    {
      if |replayed| != asked {
        var rolledBack := RollBackTheBracket();
        return Err(if rolledBack then WriteError.Internal else WriteError.Storage);
      }
      var committed := repository.Commit();
      if committed.Err? {
        return Err(WriteError.Storage);
      }
      var answers := AnswersForMembers(outcomes, replayed);
      return Ok(answers);
    }

    // ---- opening an account --------------------------------------------

    /** The chart first, then the owner rules, then the claim: a refusal before the
        claim leaves the caller's key untouched. */
    method OpenAccount(c: OpenAccount) returns (answer: OpenAnswer)
      requires c.WellFormed() && repository.bracket == NoBracket
      modifies repository
      ensures repository.bracket == NoBracket
      ensures var meant := OpenOutcome(repository.deployment, BookOf(old(repository.committed), c.tenantId), c, CanonicalOpen(c));
              && (answer == meant.answer || answer == Err(OpenAccountError.Storage))
              && Leaves(old(repository.committed), repository.committed, c.tenantId, meant.book, answer == Err(OpenAccountError.Storage))
    {
      var hash := OpeningBytes.CanonicalBytes(c);
      var begun := repository.Begin();
      if begun.Err? {
        return Err(OpenAccountError.Storage);
      }
      var triple := repository.ChartTripleForPurpose(c.purpose);
      if triple.Err? {
        return Err(OpenAccountError.Storage);
      }
      if triple.value.None? {
        answer := RefuseTheOpening(AccountTypeUnknown(c.purpose));
        return;
      }
      var rule := OwnerRule(c, triple.value.value);
      if rule.Some? {
        answer := RefuseTheOpening(rule.value);
        return;
      }
      ghost var b := repository.Sees(c.tenantId);
      var claimed := repository.ClaimAndOpenAccount(c, hash, triple.value.value);
      if claimed.Err? {
        return Err(OpenAccountError.Storage);
      }
      match claimed.value {
        case Some(Opened(eventId, accountId)) =>
          var committed := CommitTheBracket(c.tenantId, ClaimAndOpenAccount(b, c, hash, triple.value.value).staged);
          answer := if committed then Ok(AccountOpened(eventId, accountId, false)) else Err(OpenAccountError.Storage);
        case Some(AlreadyExists) =>
          answer := RefuseTheOpening(AccountExists(c.purpose, c.currency));
        case None =>
          var stored := repository.StoredAccount(c, hash);
          if stored.Err? {
            return Err(OpenAccountError.Storage);
          }
          var rolledBack := RollBackTheBracket();
          answer := if rolledBack then ReplayedOpening(stored.value) else Err(OpenAccountError.Storage);
      }
    }

    method RefuseTheOpening(refusal: OpenAccountError) returns (answer: OpenAnswer)
      requires repository.bracket.Staging?
      modifies repository
      ensures repository.bracket == NoBracket && repository.committed == old(repository.committed)
      ensures answer == Err(refusal) || answer == Err(OpenAccountError.Storage)
    {
      var rolledBack := RollBackTheBracket();
      return Err(if rolledBack then refusal else OpenAccountError.Storage);
    }

    // ---- the period ----------------------------------------------------

    /** No pre-flight step: the claim runs, and the constraint is named. */
    method DefinePeriod(c: DefinePeriod) returns (answer: DefineAnswer)
      requires c.WellFormed() && repository.bracket == NoBracket
      modifies repository
      ensures repository.bracket == NoBracket
      ensures var meant := DefineOutcome(repository.deployment, BookOf(old(repository.committed), c.tenantId), c, CanonicalDefine(c));
              && (answer == meant.answer || answer == Err(DefinePeriodError.Storage))
              && Leaves(old(repository.committed), repository.committed, c.tenantId, meant.book, answer == Err(DefinePeriodError.Storage))
    {
      var bytes := DefinitionBytes(c);
      if bytes.None? || !c.PayloadRenders() {
        return Err(DefinePeriodError.Internal);
      }
      var begun := repository.Begin();
      if begun.Err? {
        return Err(DefinePeriodError.Storage);
      }
      ghost var b := repository.Sees(c.tenantId);
      var claimed := repository.ClaimAndDefinePeriod(c, bytes.value);
      if claimed.Err? {
        return Err(DefinePeriodError.Storage);
      }
      match claimed.value {
        case Some(Defined(eventId, period)) =>
          var committed := CommitTheBracket(c.tenantId, ClaimAndDefinePeriod(repository.deployment, b, c, bytes.value).staged);
          answer := if committed then Ok(PeriodDefined(eventId, period, false)) else Err(DefinePeriodError.Storage);
        case Some(Exists) =>
          answer := RefuseTheDefinition(PeriodExists(c.code));
        case Some(Overlaps) =>
          answer := RefuseTheDefinition(PeriodOverlaps(c.code));
        case Some(ZoneUnknown) =>
          answer := RefuseTheDefinition(PeriodZoneUnknown(c.tz));
        case None =>
          var stored := repository.StoredPeriod(c, bytes.value);
          if stored.Err? {
            return Err(DefinePeriodError.Storage);
          }
          var rolledBack := RollBackTheBracket();
          answer := if rolledBack then ReplayedDefinition(stored.value) else Err(DefinePeriodError.Storage);
      }
    }

    method RefuseTheDefinition(refusal: DefinePeriodError) returns (answer: DefineAnswer)
      requires repository.bracket.Staging?
      modifies repository
      ensures repository.bracket == NoBracket && repository.committed == old(repository.committed)
      ensures answer == Err(refusal) || answer == Err(DefinePeriodError.Storage)
    {
      var rolledBack := RollBackTheBracket();
      return Err(if rolledBack then refusal else DefinePeriodError.Storage);
    }

    /** Four steps in the order the decision spells out: the claim, the sweep and the
        close record in one statement, then the checkpoint in another, then commit.
        The two reads that can refuse come before the claim. */
    method ClosePeriod(c: ClosePeriod) returns (answer: CloseAnswer)
      requires repository.bracket == NoBracket
      modifies repository
      ensures repository.bracket == NoBracket
      ensures var meant := CloseOutcome(BookOf(old(repository.committed), c.tenantId), c, CanonicalClose(c));
              && (answer == meant.answer || answer == Err(ClosePeriodError.Storage))
              && Leaves(old(repository.committed), repository.committed, c.tenantId, meant.book, answer == Err(ClosePeriodError.Storage))
    {
      var hash := CloseBytes(c);
      var begun := repository.Begin();
      if begun.Err? {
        return Err(ClosePeriodError.Storage);
      }
      var context := repository.PeriodCloseContext(c);
      if context.Err? {
        return Err(ClosePeriodError.Storage);
      }
      if context.value.None? {
        answer := RefuseTheClose(PeriodUnknown(c.periodCode));
        return;
      }
      if context.value.value.retainedEarnings.None? {
        answer := RefuseTheClose(RetainedEarningsUnknown(c.currency));
        return;
      }
      if TheLastInstantInside(context.value.value.endsAt).None? {
        answer := RefuseTheClose(ClosePeriodError.Internal);
        return;
      }
      answer := ClaimTheClose(c, hash, PlanOf(context.value.value));
    }

    method ClaimTheClose(c: ClosePeriod, hash: Text, plan: ClosePlan) returns (answer: CloseAnswer)
      requires repository.bracket == Staging(map[])
      modifies repository
      ensures repository.bracket == NoBracket
      ensures var b := BookOf(old(repository.committed), c.tenantId);
              var meant := AfterTheClose(b, c, hash, plan, ClosingStatements.ClaimAndClosePeriod(b, c, hash, plan));
              && (answer == meant.answer || answer == Err(ClosePeriodError.Storage))
              && Leaves(old(repository.committed), repository.committed, c.tenantId, meant.book, answer == Err(ClosePeriodError.Storage))
    {
      ghost var b := repository.Sees(c.tenantId);
      var claimed := repository.ClaimAndClosePeriod(c, hash, plan);
      if claimed.Err? {
        return Err(ClosePeriodError.Storage);
      }
      match claimed.value {
        case Some(Closed(eventId, transactionId, computedAtXid, swept)) =>
          answer := CheckpointAndCommitTheClose(c, plan, ClosedSoFar(eventId, transactionId, computedAtXid, swept),
                                                ClosingStatements.ClaimAndClosePeriod(b, c, hash, plan).staged);
        case Some(AlreadyClosed) =>
          answer := RefuseTheClose(PeriodAlreadyClosed(c.periodCode, c.currency));
        case None =>
          answer := RefuseTheRepeatedClose(c, hash);
      }
    }

    /** Step four runs here, after the statement that wrote the closing entries and
        before the bracket closes. */
    method CheckpointAndCommitTheClose(c: ClosePeriod, plan: ClosePlan, closed: ClosedSoFar, ghost staged: Book) returns (answer: CloseAnswer)
      requires repository.bracket == Staging(map[c.tenantId := staged])
      requires (c.periodCode, c.currency) in staged.closes
      modifies repository
      ensures repository.bracket == NoBracket
      ensures var checkpointed := CheckpointTheClose(staged, c, plan, closed.transactionId, closed.computedAtXid);
              && (answer == Err(ClosePeriodError.Storage)
                  || answer == Ok(PeriodClosed(closed.eventId, closed.transactionId, plan.closesAt, closed.computedAtXid, closed.swept,
                                               |checkpointed.closes[(c.periodCode, c.currency)].checkpoint|)))
              && Leaves(old(repository.committed), repository.committed, c.tenantId,
                        Committed(BookOf(old(repository.committed), c.tenantId), checkpointed), answer == Err(ClosePeriodError.Storage))
    {
      var rows := repository.CheckpointTheClose(c, plan, closed.transactionId, closed.computedAtXid);
      if rows.Err? {
        return Err(ClosePeriodError.Storage);
      }
      ghost var checkpointed := CheckpointTheClose(staged, c, plan, closed.transactionId, closed.computedAtXid);
      assert map[c.tenantId := staged][c.tenantId := checkpointed] == map[c.tenantId := checkpointed];
      var committed := CommitTheBracket(c.tenantId, checkpointed);
      return if committed
        then Ok(PeriodClosed(closed.eventId, closed.transactionId, plan.closesAt, closed.computedAtXid, closed.swept, rows.value))
        else Err(ClosePeriodError.Storage);
    }

    method RefuseTheClose(refusal: ClosePeriodError) returns (answer: CloseAnswer)
      requires repository.bracket.Staging?
      modifies repository
      ensures repository.bracket == NoBracket && repository.committed == old(repository.committed)
      ensures answer == Err(refusal) || answer == Err(ClosePeriodError.Storage)
    {
      var rolledBack := RollBackTheBracket();
      return Err(if rolledBack then refusal else ClosePeriodError.Storage);
    }

    /** The derived key is held: this very close, run again, or some other body's. */
    method RefuseTheRepeatedClose(c: ClosePeriod, hash: Text) returns (answer: CloseAnswer)
      requires repository.bracket.Staging?
      modifies repository
      ensures repository.bracket == NoBracket && repository.committed == old(repository.committed)
      ensures answer == RepeatedClose(HeldByThisClose(old(repository.Sees(c.tenantId)), c, hash), c) || answer == Err(ClosePeriodError.Storage)
    {
      var held := repository.StoredClose(c, hash);
      if held.Err? {
        return Err(ClosePeriodError.Storage);
      }
      var rolledBack := RollBackTheBracket();
      return if rolledBack then RepeatedClose(held.value, c) else Err(ClosePeriodError.Storage);
    }
  }
}
