/** Runs in which storage may fail under any call, before its commit or after it, and
    the caller cannot tell which. */
module FaultyRuns {
  import opened Wrappers
  import opened Accounts
  import opened Periods
  import opened Port
  import opened Book
  import opened BookInvariants
  import opened BatchRefinement
  import opened Writer
  import opened Runs
  import opened Idempotency

  /** What became of one call: it was served; or storage failed it, leaving the book
      as it was, or with everything the call meant already durable. */
  datatype Fate = Served | LostBefore | LostAfter

  /** The book one call leaves under its fate. */
  ghost function UnderFate(d: Deployment, b: Book, op: Op, fate: Fate): Book
    requires op.WellFormed()
  {
    if fate.LostBefore? then b else After(d, b, op)
  }

  ghost predicate IsFaultyRun(ops: seq<Op>, fates: seq<Fate>)
  {
    WellFormedRun(ops) && |fates| == |ops|
  }

  /** The committed book after the calls, whatever became of each. */
  ghost function FaultyRun(d: Deployment, ops: seq<Op>, fates: seq<Fate>): Book
    requires IsFaultyRun(ops, fates)
  {
    if ops == [] then EMPTY_BOOK else
    var n := |ops| - 1;
    UnderFate(d, FaultyRun(d, ops[..n], fates[..n]), ops[n], fates[n])
  }

  /** The calls whose work is in the book. */
  function Landed(ops: seq<Op>, fates: seq<Fate>): (landed: seq<Op>)
    requires |fates| == |ops|
  {
    if ops == [] then [] else
    var n := |ops| - 1;
    Landed(ops[..n], fates[..n]) + if fates[n].LostBefore? then [] else [ops[n]]
  }

  lemma {:induction false} LandedCallsAreCalls(ops: seq<Op>, fates: seq<Fate>)
    requires IsFaultyRun(ops, fates)
    ensures WellFormedRun(Landed(ops, fates))
    decreases |ops|
  {
    if ops != [] {
      var n := |ops| - 1;
      assert ops[n] in ops;
      LandedCallsAreCalls(ops[..n], fates[..n]);
    }
  }

  lemma OneMoreLanded(landed: seq<Op>, op: Op, d: Deployment)
    requires WellFormedRun(landed + [op])
    ensures WellFormedRun(landed) && op.WellFormed() && Run(d, landed + [op]) == After(d, Run(d, landed), op)
  {
    forall o | o in landed ensures o in landed + [op] {
    }
    assert op in landed + [op] && (landed + [op])[..|landed|] == landed;
  }

  /** A faulty run leaves what the calls that landed would, with no fault at all. */
  lemma {:induction false} AFaultyRunIsARunOfWhatLanded(d: Deployment, ops: seq<Op>, fates: seq<Fate>)
    requires IsFaultyRun(ops, fates)
    ensures WellFormedRun(Landed(ops, fates)) && FaultyRun(d, ops, fates) == Run(d, Landed(ops, fates))
    decreases |ops|
  {
    LandedCallsAreCalls(ops, fates);
    if ops != [] {
      var n := |ops| - 1;
      AFaultyRunIsARunOfWhatLanded(d, ops[..n], fates[..n]);
      if fates[n].LostBefore? {
        assert Landed(ops, fates) == Landed(ops[..n], fates[..n]);
      } else {
        OneMoreLanded(Landed(ops[..n], fates[..n]), ops[n], d);
      }
    }
  }

  /** Where nothing failed, everything landed. */
  lemma ServedCallsLand(d: Deployment, ops: seq<Op>, fates: seq<Fate>)
    requires IsFaultyRun(ops, fates) && forall fate :: fate in fates ==> fate.Served?
    ensures Landed(ops, fates) == ops && FaultyRun(d, ops, fates) == Run(d, ops)
  {
    EverythingLands(ops, fates);
    AFaultyRunIsARunOfWhatLanded(d, ops, fates);
  }

  lemma {:induction false} EverythingLands(ops: seq<Op>, fates: seq<Fate>)
    requires |fates| == |ops| && forall fate :: fate in fates ==> fate.Served?
    ensures Landed(ops, fates) == ops
    decreases |ops|
  {
    if ops != [] {
      var n := |ops| - 1;
      EverythingLands(ops[..n], fates[..n]);
      assert ops == ops[..n] + [ops[n]] && fates[n] in fates;
    }
  }

  /** Every invariant survives every faulty run. */
  lemma EveryFaultyRunIsValid(d: Deployment, ops: seq<Op>, fates: seq<Fate>)
    requires IsFaultyRun(ops, fates)
    ensures Valid(FaultyRun(d, ops, fates))
  {
    AFaultyRunIsARunOfWhatLanded(d, ops, fates);
    EveryReachableBookIsValid(d, Landed(ops, fates));
  }

  // ---- answers in a faulty run -----------------------------------------

  /** Where a call that landed stands among those that did. */
  function Place(ops: seq<Op>, fates: seq<Fate>, i: nat): nat
    requires |fates| == |ops| && i <= |ops|
  {
    |Landed(ops[..i], fates[..i])|
  }

  lemma {:induction false} LandedStandsAtItsPlace(ops: seq<Op>, fates: seq<Fate>, i: nat)
    requires |fates| == |ops| && i < |ops| && !fates[i].LostBefore?
    ensures Place(ops, fates, i) < |Landed(ops, fates)|
    ensures Landed(ops, fates)[Place(ops, fates, i)] == ops[i]
    ensures Landed(ops, fates)[..Place(ops, fates, i)] == Landed(ops[..i], fates[..i])
    decreases |ops|
  {
    var n := |ops| - 1;
    if i < n {
      assert ops[..n][..i] == ops[..i] && fates[..n][..i] == fates[..i];
      LandedStandsAtItsPlace(ops[..n], fates[..n], i);
    }
  }

  lemma PlacesAscend(ops: seq<Op>, fates: seq<Fate>, i: nat, j: nat)
    requires |fates| == |ops| && i < j <= |ops| && !fates[i].LostBefore?
    ensures Place(ops, fates, i) < Place(ops, fates, j)
  {
    assert ops[..j][..i] == ops[..i] && fates[..j][..i] == fates[..i];
    LandedStandsAtItsPlace(ops[..j], fates[..j], i);
  }

  /** The work of call `i` is in the book, and this is what its caller at position `m`
      was told, or would have been had the answer not been lost. */
  ghost predicate LandedAs(d: Deployment, ops: seq<Op>, fates: seq<Fate>, i: nat, m: nat, a: Accepted)
    requires IsFaultyRun(ops, fates) && i < |ops|
  {
    !fates[i].LostBefore? && IsFaultyRun(ops[..i], fates[..i]) && Accepts(d, FaultyRun(d, ops[..i], fates[..i]), ops[i], m, a)
  }

  lemma WhatLandedIsAccepted(d: Deployment, ops: seq<Op>, fates: seq<Fate>, i: nat, m: nat, a: Accepted)
    requires IsFaultyRun(ops, fates) && i < |ops| && LandedAs(d, ops, fates, i, m, a)
    ensures WellFormedRun(Landed(ops, fates)) && Place(ops, fates, i) < |Landed(ops, fates)|
    ensures AcceptedAt(d, Landed(ops, fates), Place(ops, fates, i), m, a)
  {
    LandedCallsAreCalls(ops, fates);
    LandedStandsAtItsPlace(ops, fates, i);
    AFaultyRunIsARunOfWhatLanded(d, ops[..i], fates[..i]);
  }

  /** One key, one claim, whatever storage does: of any two accepted answers for one
      key, heard or lost, at whatever calls and positions, both name one event and one
      effect, and the later is a replay. So the retry of a call whose commit failed
      after becoming durable is answered with what that call wrote. */
  lemma OneKeyOneClaimUnderFaults(d: Deployment, ops: seq<Op>, fates: seq<Fate>, i: nat, m: nat, j: nat, n: nat, a: Accepted, again: Accepted)
    requires IsFaultyRun(ops, fates) && i <= j < |ops|
    requires LandedAs(d, ops, fates, i, m, a) && LandedAs(d, ops, fates, j, n, again) && a.key == again.key
    ensures again == a.(replayed := again.replayed)
    ensures i < j || m != n ==> again.replayed
  {
    WhatLandedIsAccepted(d, ops, fates, i, m, a);
    WhatLandedIsAccepted(d, ops, fates, j, n, again);
    if i < j {
      PlacesAscend(ops, fates, i, j);
    }
    OneKeyOneClaim(d, Landed(ops, fates), Place(ops, fates, i), m, Place(ops, fates, j), n, a, again);
  }

  // ---- retries ---------------------------------------------------------

  lemma RememberedInTheEnd(d: Deployment, ops: seq<Op>, fates: seq<Fate>, i: nat, m: nat, a: Accepted)
    requires IsFaultyRun(ops, fates) && i < |ops| && LandedAs(d, ops, fates, i, m, a)
    ensures Remembers(FaultyRun(d, ops, fates), a)
  {
    var landed, place := Landed(ops, fates), Place(ops, fates, i);
    WhatLandedIsAccepted(d, ops, fates, i, m, a);
    AFaultyRunIsARunOfWhatLanded(d, ops, fates);
    AnAnswerIsRememberedEverAfter(d, landed, place, m, |landed|, a);
    assert landed[..|landed|] == landed;
  }

  /** What landed is remembered, heard or lost, by every later book of the run. */
  lemma WhatLandedIsRemembered(d: Deployment, ops: seq<Op>, fates: seq<Fate>, i: nat, k: nat, m: nat, a: Accepted)
    requires IsFaultyRun(ops, fates) && i < k <= |ops| && LandedAs(d, ops, fates, i, m, a)
    ensures IsFaultyRun(ops[..k], fates[..k]) && ops[i].WellFormed()
    ensures Remembers(FaultyRun(d, ops[..k], fates[..k]), a)
    ensures LandedAs(d, ops[..k], fates[..k], i, m, a)
  {
    assert ops[i] in ops;
    var earlier, kept := ops[..k], fates[..k];
    assert earlier[..i] == ops[..i] && kept[..i] == fates[..i];
    RememberedInTheEnd(d, earlier, kept, i, m, a);
  }

  /** Asked again, the call names what it wrote before, and writes nothing. A close is
      not replayed: it is refused as closed. */
  ghost predicate IsAnsweredAsBefore(d: Deployment, b: Book, op: Op, a: Accepted)
    requires op.WellFormed() && !op.Batch?
  {
    match op
    case Post(c) =>
      a.effect.Wrote? && PostOutcome(b, PlanFor(c)) == Outcome(Ok(Port.Posted(a.eventId, a.effect.transactionId, true)), b)
    case Open(c) =>
      a.effect.Registered? && OpenOutcome(d, b, c, CanonicalOpen(c)) == Outcome(Ok(AccountOpened(a.eventId, a.effect.accountId, true)), b)
    case Define(c) =>
      a.effect.Defined? && DefineOutcome(d, b, c, CanonicalDefine(c)) == Outcome(Ok(PeriodDefined(a.eventId, a.effect.period, true)), b)
    case Close(c) =>
      CloseOutcome(b, c, CanonicalClose(c)) == Outcome(Err(PeriodAlreadyClosed(c.periodCode, c.currency)), b)
    case Batch(_) => false
  }

  lemma AHeldPostReplays(b: Book, p: Planned, a: Accepted)
    requires Remembers(b, a) && a.key == p.Key() && a.hash == p.hash && a.effect.Wrote? && !PlanFails(p)
    ensures PostOutcome(b, p) == Outcome(Ok(Port.Posted(a.eventId, a.effect.transactionId, true)), b)
  {
  }

  lemma AHeldOpeningReplays(d: Deployment, before: Book, b: Book, c: OpenAccount, a: Accepted)
    requires AcceptsOpening(c, OpenOutcome(d, before, c, CanonicalOpen(c)).answer, a) && Remembers(b, a)
    ensures OpenOutcome(d, b, c, CanonicalOpen(c)) == Outcome(Ok(AccountOpened(a.eventId, a.effect.accountId, true)), b)
  {
  }

  lemma AHeldDefinitionReplays(d: Deployment, before: Book, b: Book, c: DefinePeriod, a: Accepted)
    requires ClaimsLeadSomewhere(before.events, before.txns, before.register, before.periods) && c.WellFormed()
    requires AcceptsDefinition(c, DefineOutcome(d, before, c, CanonicalDefine(c)).answer, a) && Remembers(b, a)
    requires PeriodsAreSound(before.periods)
    ensures DefineOutcome(d, b, c, CanonicalDefine(c)) == Outcome(Ok(PeriodDefined(a.eventId, a.effect.period, true)), b)
  {
  }

  /** A call that landed, its answer heard or lost, never writes again: whenever it is
      retried it is answered with what it wrote, and the book stays as it is. */
  lemma ARetriedCallWritesNothing(d: Deployment, ops: seq<Op>, fates: seq<Fate>, i: nat, k: nat, a: Accepted)
    requires IsFaultyRun(ops, fates) && i < k <= |ops| && LandedAs(d, ops, fates, i, 0, a) && !ops[i].Batch?
    ensures IsFaultyRun(ops[..k], fates[..k]) && ops[i].WellFormed()
    ensures IsAnsweredAsBefore(d, FaultyRun(d, ops[..k], fates[..k]), ops[i], a)
  {
    WhatLandedIsRemembered(d, ops, fates, i, k, 0, a);
    EveryFaultyRunIsValid(d, ops[..i], fates[..i]);
    var before, b := FaultyRun(d, ops[..i], fates[..i]), FaultyRun(d, ops[..k], fates[..k]);
    match ops[i]
    case Post(c) => AHeldPostReplays(b, PlanFor(c), a);
    case Open(c) => AHeldOpeningReplays(d, before, b, c, a);
    case Define(c) => AHeldDefinitionReplays(d, before, b, c, a);
    case Close(c) => ARetriedCloseIsRefused(d, ops[..k], fates[..k], i, c, a);
  }

  lemma ARetriedCloseIsRefused(d: Deployment, ops: seq<Op>, fates: seq<Fate>, i: nat, c: ClosePeriod, a: Accepted)
    requires IsFaultyRun(ops, fates) && i < |ops| && ops[i] == Op.Close(c) && LandedAs(d, ops, fates, i, 0, a)
    ensures CloseOutcome(FaultyRun(d, ops, fates), c, CanonicalClose(c))
         == Outcome(Err(PeriodAlreadyClosed(c.periodCode, c.currency)), FaultyRun(d, ops, fates))
  {
    var landed, place := Landed(ops, fates), Place(ops, fates, i);
    WhatLandedIsAccepted(d, ops, fates, i, 0, a);
    LandedStandsAtItsPlace(ops, fates, i);
    AFaultyRunIsARunOfWhatLanded(d, ops, fates);
    ARepeatedCloseIsRefused(d, landed, place, |landed|, c, a);
    assert landed[..|landed|] == landed;
  }

  // ---- a retried batch -------------------------------------------------

  /** The replays a batch of held commands is answered with. */
  ghost function AllReplayed(held: seq<Accepted>): (answers: seq<PostAnswer>)
    ensures |answers| == |held|
  {
    seq(|held|, m requires 0 <= m < |held| =>
      Ok(Port.Posted(held[m].eventId, if held[m].effect.Wrote? then held[m].effect.transactionId else None, true)))
  }

  /** Each command is remembered for its own body. */
  ghost predicate AreHeld(b: Book, commands: seq<Planned>, held: seq<Accepted>)
  {
    |held| == |commands| && forall m :: 0 <= m < |commands| ==> IsHeld(b, commands[m], held[m])
  }

  ghost predicate IsHeld(b: Book, p: Planned, a: Accepted)
  {
    Remembers(b, a) && a.key == p.Key() && a.hash == p.hash && a.effect.Wrote? && !PlanFails(p)
  }

  lemma {:induction false} EverybodySurvives(commands: seq<Planned>)
    requires forall p :: p in commands ==> !PlanFails(p)
    ensures Survivors(commands) == commands
    decreases |commands|
  {
    if commands != [] {
      EverybodySurvives(commands[..|commands| - 1]);
    }
  }

  lemma {:induction false} NobodyProceeds(b: Book, members: seq<Planned>)
    requires forall p :: p in members ==> p.Key() in b.events
    ensures Proceeding(b, members) == []
    decreases |members|
  {
    if members != [] {
      NobodyProceeds(b, members[..|members| - 1]);
    }
  }

  lemma HeldKeysFailNothing(b: Book, members: seq<Planned>)
    requires ValidStaged(b) && AllPlain(members) && forall p :: p in members ==> p.Key() in b.events
    ensures ClaimAndAppendBatch(b, members).Answered? && ClaimAndAppendBatch(b, members).staged == b
    ensures forall m :: 0 <= m < |members| ==> ClaimAndAppendBatch(b, members).answer[m] == OutcomeFor(b, members, m)
  {
    NobodyProceeds(b, members);
    NoMembersWriteNothing(b);
    assert !AClaimIsShared(b, members) && Fits(b.balances);
  }

  lemma AHeldMemberReplays(b: Book, members: seq<Planned>, m: nat, a: Accepted)
    requires m < |members| && IsHeld(b, members[m], a)
    ensures MemberAnswer(b, members[m], OutcomeFor(b, members, m)) == Ok(Port.Posted(a.eventId, a.effect.transactionId, true))
  {
  }

  lemma HeldMembersReplay(b: Book, members: seq<Planned>, held: seq<Accepted>)
    requires ValidStaged(b) && AreHeld(b, members, held) && AllPlain(members)
    ensures AppendedTogether(b, members) == Outcome(AllReplayed(held), b)
  {
    forall p | p in members ensures p.Key() in b.events {
      var m :| 0 <= m < |members| && members[m] == p;
      assert IsHeld(b, members[m], held[m]);
    }
    HeldKeysFailNothing(b, members);
    forall m | 0 <= m < |members| ensures AppendedTogether(b, members).answer[m] == AllReplayed(held)[m] {
      assert IsHeld(b, members[m], held[m]);
      AHeldMemberReplays(b, members, m, held[m]);
    }
    assert AppendedTogether(b, members).answer == AllReplayed(held);
  }

  lemma EachTakesItsOwn(commands: seq<Planned>, answers: seq<PostAnswer>)
    requires (forall p :: p in commands ==> !PlanFails(p)) && |answers| == |commands|
    ensures Survivors(commands) == commands && InArrivalOrder(commands, answers) == answers
  {
    EverybodySurvives(commands);
    forall i | 0 <= i < |commands| ensures Rank(commands, i) == i {
      EverybodySurvives(commands[..i]);
    }
  }

  lemma HeldCommandsSurvive(b: Book, commands: seq<Planned>, held: seq<Accepted>)
    requires AreHeld(b, commands, held)
    ensures forall p :: p in commands ==> !PlanFails(p)
  {
    forall p | p in commands ensures !PlanFails(p) {
      var m :| 0 <= m < |commands| && commands[m] == p;
      assert IsHeld(b, commands[m], held[m]);
    }
  }

  lemma OneHeldCommandReplays(b: Book, p: Planned, a: Accepted)
    requires IsHeld(b, p, a)
    ensures MembersOutcome(b, [p]) == Outcome(AllReplayed([a]), b)
  {
    AHeldPostReplays(b, p, a);
    assert AllReplayed([a]) == [Ok(Port.Posted(a.eventId, a.effect.transactionId, true))];
  }

  lemma HeldSurvivorsReplay(b: Book, members: seq<Planned>, held: seq<Accepted>)
    requires ValidStaged(b) && AreHeld(b, members, held) && (|members| >= 2 ==> AllPlain(members))
    ensures MembersOutcome(b, members) == Outcome(AllReplayed(held), b)
  {
    if |members| == 1 {
      assert IsHeld(b, members[0], held[0]);
      OneHeldCommandReplays(b, members[0], held[0]);
      assert members == [members[0]] && held == [held[0]];
    } else if |members| >= 2 {
      HeldMembersReplay(b, members, held);
    }
  }

  lemma HeldCommandsReplay(b: Book, commands: seq<Planned>, held: seq<Accepted>)
    requires ValidStaged(b) && AreHeld(b, commands, held) && (|commands| >= 2 ==> AllPlain(commands))
    ensures BatchOutcome(b, commands) == Outcome(AllReplayed(held), b)
  {
    HeldCommandsSurvive(b, commands, held);
    EachTakesItsOwn(commands, AllReplayed(held));
    HeldSurvivorsReplay(b, commands, held);
  }

  /** A batch with an accepted answer in it is one post, or a statement of plain ones. */
  lemma AcceptedMembersArePlain(b: Book, commands: seq<Planned>)
    requires |commands| >= 2 && forall m :: 0 <= m < |commands| ==> BatchOutcome(b, commands).answer[m].Ok?
    ensures AllPlain(commands) && forall p :: p in commands ==> !PlanFails(p)
  {
    forall p | p in commands ensures !PlanFails(p) {
      var m :| 0 <= m < |commands| && commands[m] == p;
      assert BatchOutcome(b, commands).answer[m].Ok?;
    }
    EachTakesItsOwn(commands, MembersOutcome(b, commands).answer);
    assert BatchOutcome(b, commands).answer[0].Ok?;
    assert ClaimAndAppendBatch(b, commands).Answered?;
  }

  /** Every member of the batch landed accepted, whatever the caller heard. */
  ghost predicate AllLanded(d: Deployment, ops: seq<Op>, fates: seq<Fate>, i: nat, held: seq<Accepted>)
    requires IsFaultyRun(ops, fates) && i < |ops| && ops[i].Batch?
  {
    |held| == |ops[i].commands| && forall m :: 0 <= m < |held| ==> LandedAs(d, ops, fates, i, m, held[m])
  }

  lemma LandedMembersAreHeld(d: Deployment, ops: seq<Op>, fates: seq<Fate>, i: nat, k: nat, held: seq<Accepted>)
    requires IsFaultyRun(ops, fates) && i < k <= |ops| && ops[i].Batch? && AllLanded(d, ops, fates, i, held)
    ensures ops[i].WellFormed() && IsFaultyRun(ops[..k], fates[..k])
    ensures AreHeld(FaultyRun(d, ops[..k], fates[..k]), PlannedAll(ops[i].commands), held)
    ensures |held| >= 2 ==> AllPlain(PlannedAll(ops[i].commands))
  {
    assert ops[i] in ops;
    var before, commands := FaultyRun(d, ops[..i], fates[..i]), PlannedAll(ops[i].commands);
    forall m | 0 <= m < |held| ensures IsHeld(FaultyRun(d, ops[..k], fates[..k]), commands[m], held[m])
                               ensures BatchOutcome(before, commands).answer[m].Ok? {
      assert LandedAs(d, ops, fates, i, m, held[m]);
      WhatLandedIsRemembered(d, ops, fates, i, k, m, held[m]);
    }
    if |held| >= 2 {
      AcceptedMembersArePlain(before, commands);
    }
  }

  /** A batch that landed is, whenever it is retried, answered member by member with what
      each wrote, and the book stays as it is. */
  lemma ARetriedBatchWritesNothing(d: Deployment, ops: seq<Op>, fates: seq<Fate>, i: nat, k: nat, held: seq<Accepted>)
    requires IsFaultyRun(ops, fates) && i < k <= |ops| && ops[i].Batch? && AllLanded(d, ops, fates, i, held)
    ensures ops[i].WellFormed() && IsFaultyRun(ops[..k], fates[..k])
    ensures var b := FaultyRun(d, ops[..k], fates[..k]);
            BatchOutcome(b, PlannedAll(ops[i].commands)) == Outcome(AllReplayed(held), b)
  {
    LandedMembersAreHeld(d, ops, fates, i, k, held);
    EveryFaultyRunIsValid(d, ops[..k], fates[..k]);
    HeldCommandsReplay(FaultyRun(d, ops[..k], fates[..k]), PlannedAll(ops[i].commands), held);
  }
}
