/** The accumulator over the books: what its callers are told, and what every tenant's
    book then holds. */
module Callers {
  import opened Wrappers
  import opened Bytes
  import opened Domain
  import opened Port
  import opened Book
  import opened BookInvariants
  import opened Writer
  import opened Runs
  import opened Idempotency
  import opened FaultyRuns
  import opened Stores
  import opened Service
  import opened Fates
  import opened Queue
  import opened Dispatchers
  import opened Deliveries

  // ---- the books beside the pool ---------------------------------------

  /** What one step does to a tenant's book: the commands a batch carries for it, or a
      call of its own. */
  function DoneBy(p: Pool, step: Step, tenant: Text): seq<Op>
  {
    if step.PostAndAnswer? && IsPosting(p, step.dispatcher) then
      var own := CommandsFrom(CommandsOf(p.dispatchers[step.dispatcher].batch), tenant);
      if own == [] then [] else [Op.Batch(own)]
    else if step.Elsewhere? && step.tenant == tenant then [step.op]
    else []
  }

  /** A tenant's calls: those before the run, then those the run has made, batched and
      otherwise, as they interleaved. */
  function DoneFor(earlier: seq<Op>, states: seq<Pool>, steps: seq<Step>, k: nat, tenant: Text): seq<Op>
    requires k <= |steps| && k <= |states|
  {
    if k == 0 then earlier else DoneFor(earlier, states, steps, k - 1, tenant) + DoneBy(states[k - 1], steps[k - 1], tenant)
  }

  lemma NothingPostedIsNothing(d: Deployment, b: Book)
    ensures After(d, b, Op.Batch([])) == b
  {
    assert PlannedAll([]) == [];
  }

  lemma OnlyPostingAnswers(policy: Policy, p: Pool, step: Step)
    requires Enabled(policy, p, step) && !step.PostAndAnswer?
    ensures Next(policy, p, step).answered == p.answered
    ensures !step.Elsewhere? ==> Next(policy, p, step).store == p.store
  {
    match step
    case PushBack(_, _) =>
    case Notify(_) =>
    case DrainQueue(_, _) =>
    case GoToSleep(_) =>
    case Elsewhere(_, _, _, _) =>
  }

  /** One posting moves a tenant's book by some fate of what it posts for it. */
  lemma APostingIsAFate(d: Deployment, before: Store, after: Store, batch: seq<Submission>, answers: seq<PostAnswer>, tenant: Text, own: seq<PostTransaction>)
    returns (fate: Fate)
    requires AllWellFormed(batch) && MaySettle(before, after, batch, answers) && own == CommandsFrom(CommandsOf(batch), tenant)
    ensures Op.Batch(own).WellFormed() && BookOf(after, tenant) == UnderFate(d, BookOf(before, tenant), Op.Batch(own), fate)
    ensures own == [] ==> BookOf(after, tenant) == BookOf(before, tenant)
  {
    CommandsAreWellFormed(batch);
    fate := EveryTenantOfABatchHasAFate(d, before, after, CommandsOf(batch), answers, tenant);
    if own == [] {
      NothingPostedIsNothing(d, BookOf(before, tenant));
    }
  }

  /** So does a call from elsewhere, and it moves no other tenant's. */
  lemma ACallElsewhereIsAFate(policy: Policy, before: Store, after: Store, tenant: Text, op: Op, failed: bool) returns (fate: Fate)
    requires op.WellFormed() && MayLeave(policy, before, tenant, op, failed, after)
    ensures BookOf(after, tenant) == UnderFate(policy.deployment, BookOf(before, tenant), op, fate)
    ensures forall other :: other != tenant ==> BookOf(after, other) == BookOf(before, other)
  {
    assert Leaves(before, after, tenant, After(policy.deployment, BookOf(before, tenant), op), failed);
    fate := EveryCallHasAFate(policy.deployment, before, after, tenant, op, failed);
  }

  /** And so does one step of the pool, or beside it. */
  lemma AStepIsAFate(policy: Policy, p: Pool, step: Step, tenant: Text) returns (fates: seq<Fate>)
    requires Enabled(policy, p, step)
    ensures |fates| == |DoneBy(p, step, tenant)| <= 1
    ensures forall op :: op in DoneBy(p, step, tenant) ==> op.WellFormed()
    ensures BookOf(Next(policy, p, step).store, tenant)
         == if fates == [] then BookOf(p.store, tenant)
            else UnderFate(policy.deployment, BookOf(p.store, tenant), DoneBy(p, step, tenant)[0], fates[0])
  {
    fates := [];
    if step.PostAndAnswer? {
      var batch := p.dispatchers[step.dispatcher].batch;
      var own := CommandsFrom(CommandsOf(batch), tenant);
      var fate := APostingIsAFate(policy.deployment, p.store, step.store, batch, step.answers, tenant, own);
      if own != [] {
        fates := [fate];
      }
    } else if step.Elsewhere? {
      var fate := ACallElsewhereIsAFate(policy, p.store, step.store, step.tenant, step.op, step.failed);
      if step.tenant == tenant {
        fates := [fate];
      }
    } else {
      OnlyPostingAnswers(policy, p, step);
    }
  }

  /** The book is what a faulty run leaves: these calls, under these fates. */
  ghost predicate IsLeftBy(d: Deployment, b: Book, ops: seq<Op>, fates: seq<Fate>)
  {
    IsFaultyRun(ops, fates) && b == FaultyRun(d, ops, fates)
  }

  lemma OneMoreFate(d: Deployment, b: Book, ops: seq<Op>, fates: seq<Fate>, op: Op, fate: Fate)
    requires IsLeftBy(d, b, ops, fates) && op.WellFormed()
    ensures IsLeftBy(d, UnderFate(d, b, op, fate), ops + [op], fates + [fate])
  {
    assert (ops + [op])[..|ops|] == ops && (fates + [fate])[..|ops|] == fates;
  }

  lemma AStepMore(policy: Policy, p: Pool, q: Pool, step: Step, tenant: Text, ops: seq<Op>, fates: seq<Fate>) returns (more: seq<Fate>)
    requires Enabled(policy, p, step) && q == Next(policy, p, step) && IsLeftBy(policy.deployment, BookOf(p.store, tenant), ops, fates)
    ensures IsLeftBy(policy.deployment, BookOf(q.store, tenant), ops + DoneBy(p, step, tenant), fates + more)
  {
    var done := DoneBy(p, step, tenant);
    more := AStepIsAFate(policy, p, step, tenant);
    if more == [] {
      assert ops + done == ops && fates + more == fates;
    } else {
      OneMoreFate(policy.deployment, BookOf(p.store, tenant), ops, fates, done[0], more[0]);
      assert done == [done[0]] && more == [more[0]];
    }
  }

  /** In every reachable pool, whatever storage did, every tenant's book is what a faulty
      run leaves: whatever came before the pool, then the batches posted for the tenant
      and its calls from elsewhere, in the order they interleaved. */
  lemma {:induction false} EveryTenantsBookIsAFaultyRun(policy: Policy, dispatchers: nat, states: seq<Pool>, steps: seq<Step>, k: nat, tenant: Text,
                                                        earlier: seq<Op>, fated: seq<Fate>)
    returns (fates: seq<Fate>)
    requires IsARun(policy, dispatchers, states, steps) && k < |states|
    requires IsLeftBy(policy.deployment, BookOf(states[0].store, tenant), earlier, fated)
    ensures fated <= fates && IsLeftBy(policy.deployment, BookOf(states[k].store, tenant), DoneFor(earlier, states, steps, k, tenant), fates)
    decreases k
  {
    if k == 0 {
      fates := fated;
    } else {
      var so := EveryTenantsBookIsAFaultyRun(policy, dispatchers, states, steps, k - 1, tenant, earlier, fated);
      var more := AStepMore(policy, states[k - 1], states[k], steps[k - 1], tenant, DoneFor(earlier, states, steps, k - 1, tenant), so);
      fates := so + more;
    }
  }

  // ---- and every faulty run is some pool's -----------------------------

  /** Any call of its own is a step, whatever becomes of it. */
  lemma AnyFateMayBefallIt(policy: Policy, p: Pool, tenant: Text, op: Op, fate: Fate) returns (step: Step)
    requires IsOf(op, tenant) && op.WellFormed()
    ensures Enabled(policy, p, step) && DoneBy(p, step, tenant) == [op] && Next(policy, p, step) == p.(store := Next(policy, p, step).store)
    ensures BookOf(Next(policy, p, step).store, tenant) == UnderFate(policy.deployment, BookOf(p.store, tenant), op, fate)
  {
    var store := EveryFateMayBe(policy.deployment, p.store, tenant, op, fate);
    step := Elsewhere(tenant, op, !fate.Served?, store);
  }

  /** A call is one tenant's exactly when everything in it names that tenant. */
  lemma WhoseCallItIs(op: Op, tenant: Text)
    ensures op.Post? ==> (IsOf(op, tenant) <==> op.post.tenantId == tenant)
    ensures op.Batch? ==> (IsOf(op, tenant) <==> forall c :: c in op.commands ==> c.tenantId == tenant)
    ensures op.Open? ==> (IsOf(op, tenant) <==> op.open.tenantId == tenant)
    ensures op.Define? ==> (IsOf(op, tenant) <==> op.define.tenantId == tenant)
    ensures op.Close? ==> (IsOf(op, tenant) <==> op.close.tenantId == tenant)
  {
  }

  lemma {:induction false} LaterStepsChangeNothingDone(states: seq<Pool>, steps: seq<Step>, q: Pool, step: Step, k: nat, tenant: Text)
    requires k <= |steps| < |states|
    ensures DoneFor([], states + [q], steps + [step], k, tenant) == DoneFor([], states, steps, k, tenant)
    decreases k
  {
    if k > 0 {
      LaterStepsChangeNothingDone(states, steps, q, step, k - 1, tenant);
    }
  }

  lemma OneCallMore(policy: Policy, dispatchers: nat, states: seq<Pool>, steps: seq<Step>, tenant: Text, op: Op, fate: Fate)
    returns (q: Pool, step: Step)
    requires IsARun(policy, dispatchers, states, steps) && IsOf(op, tenant) && op.WellFormed()
    ensures IsARun(policy, dispatchers, states + [q], steps + [step])
    ensures DoneFor([], states + [q], steps + [step], |steps| + 1, tenant) == DoneFor([], states, steps, |steps|, tenant) + [op]
    ensures q == states[|steps|].(store := q.store)
    ensures BookOf(q.store, tenant) == UnderFate(policy.deployment, BookOf(states[|steps|].store, tenant), op, fate)
  {
    var p := states[|steps|];
    step := AnyFateMayBefallIt(policy, p, tenant, op, fate);
    q := Next(policy, p, step);
    ARunGoesOn(policy, dispatchers, states, steps, step, q);
    LaterStepsChangeNothingDone(states, steps, q, step, |steps|, tenant);
  }

  /** A pool over empty books that has made these calls, and left this book. */
  ghost predicate HasMade(policy: Policy, dispatchers: nat, tenant: Text, ops: seq<Op>, left: Book, states: seq<Pool>, steps: seq<Step>)
  {
    && IsARun(policy, dispatchers, states, steps) && states[0].store == map[]
    && DoneFor([], states, steps, |steps|, tenant) == ops && BookOf(states[|steps|].store, tenant) == left
    && states[|steps|] == Started(dispatchers, states[|steps|].store)
  }

  lemma OneCallMoreIsMade(policy: Policy, dispatchers: nat, tenant: Text, front: seq<Op>, left: Book, states: seq<Pool>, steps: seq<Step>, op: Op, fate: Fate)
    returns (q: Pool, step: Step)
    requires HasMade(policy, dispatchers, tenant, front, left, states, steps) && IsOf(op, tenant) && op.WellFormed()
    ensures HasMade(policy, dispatchers, tenant, front + [op], UnderFate(policy.deployment, left, op, fate), states + [q], steps + [step])
  {
    q, step := OneCallMore(policy, dispatchers, states, steps, tenant, op, fate);
    assert (states + [q])[0] == states[0] && (states + [q])[|steps + [step]|] == q;
  }

  lemma NothingIsMade(policy: Policy, dispatchers: nat, tenant: Text)
    ensures HasMade(policy, dispatchers, tenant, [], EMPTY_BOOK, [Started(dispatchers, map[])], [])
  {
  }

  lemma TheLastCallOfAFaultyRun(d: Deployment, ops: seq<Op>, fates: seq<Fate>, n: nat)
    requires IsFaultyRun(ops, fates) && |ops| == n + 1
    ensures IsFaultyRun(ops[..n], fates[..n]) && ops[n].WellFormed() && ops[n] in ops
    ensures FaultyRun(d, ops, fates) == UnderFate(d, FaultyRun(d, ops[..n], fates[..n]), ops[n], fates[n])
  {
  }

  /** Nothing is left out: whatever calls of a tenant, under whatever fates, some run of a
      pool over empty books makes them and leaves what they leave. */
  lemma {:induction false} EveryFaultyRunIsAPools(policy: Policy, dispatchers: nat, tenant: Text, ops: seq<Op>, fates: seq<Fate>)
    returns (states: seq<Pool>, steps: seq<Step>)
    requires IsFaultyRun(ops, fates) && forall op :: op in ops ==> IsOf(op, tenant)
    ensures HasMade(policy, dispatchers, tenant, ops, FaultyRun(policy.deployment, ops, fates), states, steps)
    decreases |ops|
  {
    if ops == [] {
      states, steps := [Started(dispatchers, map[])], [];
      NothingIsMade(policy, dispatchers, tenant);
    } else {
      var n := |ops| - 1;
      TheLastCallOfAFaultyRun(policy.deployment, ops, fates, n);
      var left := FaultyRun(policy.deployment, ops[..n], fates[..n]);
      states, steps := EveryFaultyRunIsAPools(policy, dispatchers, tenant, ops[..n], fates[..n]);
      var q, step := OneCallMoreIsMade(policy, dispatchers, tenant, ops[..n], left, states, steps, ops[n], fates[n]);
      states, steps := states + [q], steps + [step];
      assert ops == ops[..n] + [ops[n]];
    }
  }

  ghost predicate BooksAreValid(store: Store)
  {
    forall tenant :: Valid(BookOf(store, tenant))
  }

  lemma AStepKeepsTheBookValid(policy: Policy, p: Pool, step: Step, tenant: Text)
    requires Enabled(policy, p, step) && Valid(BookOf(p.store, tenant))
    ensures Valid(BookOf(Next(policy, p, step).store, tenant))
  {
    var fates := AStepIsAFate(policy, p, step, tenant);
    if fates != [] {
      EveryCallKeepsTheBookValid(policy.deployment, BookOf(p.store, tenant), DoneBy(p, step, tenant)[0]);
    }
  }

  /** Valid books stay valid, every tenant's, in every reachable pool. */
  lemma {:induction false} EveryTenantsBookIsValid(policy: Policy, dispatchers: nat, states: seq<Pool>, steps: seq<Step>, k: nat)
    requires IsARun(policy, dispatchers, states, steps) && k < |states| && BooksAreValid(states[0].store)
    ensures BooksAreValid(states[k].store)
    decreases k
  {
    if k > 0 {
      EveryTenantsBookIsValid(policy, dispatchers, states, steps, k - 1);
      var after := states[k].store;
      forall tenant ensures Valid(BookOf(after, tenant)) {
        AStepKeepsTheBookValid(policy, states[k - 1], steps[k - 1], tenant);
      }
    }
  }

  // ---- what callers are told -------------------------------------------

  /** One tenant's submissions, and at least one. */
  ghost predicate IsOneTenants(batch: seq<Submission>)
  {
    batch != [] && forall s :: s in batch ==> s.command.tenantId == batch[0].command.tenantId
  }

  ghost predicate FlightsAreOneTenants(dispatchers: seq<Phase>)
  {
    forall i :: 0 <= i < |dispatchers| && dispatchers[i].Posting? ==> IsOneTenants(dispatchers[i].batch)
  }

  lemma ADrainIsOneTenants(waiting: seq<Submission>, ceiling: nat)
    requires Drained(waiting, ceiling).batch != []
    ensures IsOneTenants(Drained(waiting, ceiling).batch)
  {
    var batch := Drained(waiting, ceiling).batch;
    if waiting != [] {
      OneDrainIsExact(waiting, ceiling);
    }
    forall s | s in batch ensures s.command.tenantId == batch[0].command.tenantId {
      var i :| 0 <= i < |batch| && batch[i] == s;
    }
  }

  lemma OneFlightMore(dispatchers: seq<Phase>, i: nat, phase: Phase)
    requires FlightsAreOneTenants(dispatchers) && i < |dispatchers| && (phase.Posting? ==> IsOneTenants(phase.batch))
    ensures FlightsAreOneTenants(dispatchers[i := phase])
  {
  }

  lemma FlightsStayOneTenants(policy: Policy, p: Pool, step: Step)
    requires FlightsAreOneTenants(p.dispatchers) && Enabled(policy, p, step)
    ensures FlightsAreOneTenants(Next(policy, p, step).dispatchers)
  {
    match step
    case PushBack(_, _) =>
    case Notify(wakes) => WakingFliesNobody(p.(aboutToNotify := p.aboutToNotify - 1), wakes);
    case DrainQueue(i, wakes) => ADrainFliesOneTenants(policy, p, i, wakes);
    case GoToSleep(i) => OneFlightMore(p.dispatchers, i, if p.permit then AboutToDrain else Asleep);
    case PostAndAnswer(i, _, _) => OneFlightMore(p.dispatchers, i, AboutToDrain);
    case Elsewhere(_, _, _, _) =>
  }

  lemma WakingFliesNobody(p: Pool, wakes: Option<nat>)
    requires FlightsAreOneTenants(p.dispatchers)
    ensures FlightsAreOneTenants(Woken(p, wakes).dispatchers)
  {
    if wakes.Some? && wakes.value < |p.dispatchers| {
      OneFlightMore(p.dispatchers, wakes.value, AboutToDrain);
    }
  }

  lemma ADrainFliesOneTenants(policy: Policy, p: Pool, i: nat, wakes: Option<nat>)
    requires FlightsAreOneTenants(p.dispatchers) && Enabled(policy, p, DrainQueue(i, wakes))
    ensures FlightsAreOneTenants(Next(policy, p, DrainQueue(i, wakes)).dispatchers)
  {
    var batch := Drained(p.waiting, policy.ceiling).batch;
    if batch != [] {
      ADrainIsOneTenants(p.waiting, policy.ceiling);
    }
    OneFlightMore(p.dispatchers, i, if batch == [] then CommittedToSleep else Phase.Posting(batch));
    WakingFliesNobody(AfterTheDrain(policy, p, i), wakes);
  }

  /** A caller told of success: its key, its body, and what it was told. */
  ghost function Told(x: Delivery): Accepted
    requires x.command.WellFormed() && x.answer.Ok?
  {
    Accepted(x.command.idempotencyKey, PlanFor(x.command).hash, x.answer.value.eventId, Wrote(x.answer.value.transactionId), x.answer.value.replayed)
  }

  ghost predicate IsRemembered(store: Store, x: Delivery)
  {
    x.command.WellFormed() && (x.answer.Ok? ==> Remembers(BookOf(store, x.command.tenantId), Told(x)))
  }

  /** Two callers of one tenant, under one key, both told of success. */
  predicate AskedTheSame(x: Delivery, y: Delivery)
  {
    x.answer.Ok? && y.answer.Ok? && x.command.tenantId == y.command.tenantId && x.command.idempotencyKey == y.command.idempotencyKey
  }

  ghost predicate OneIsAReplay(x: Delivery, y: Delivery)
  {
    AskedTheSame(x, y) ==> x.answer.value.replayed || y.answer.value.replayed
  }

  ghost predicate TellsTheTruth(p: Pool)
  {
    && (forall ticket :: ticket in p.answered ==> IsRemembered(p.store, p.answered[ticket]))
    && (forall x, y :: x in p.answered && y in p.answered && x != y ==> OneIsAReplay(p.answered[x], p.answered[y]))
  }

  // ---- one batch -------------------------------------------------------

  /** A whole failure tells nobody of success. */
  lemma AFailedBatchTellsNobody(commands: seq<Planned>, m: nat)
    requires m < |commands|
    ensures WholeBatchFails(commands)[m].Err?
  {
    SurvivorsBefore(commands);
  }

  lemma TheirCommandsAreOneTenants(batch: seq<Submission>)
    requires IsOneTenants(batch) && AllWellFormed(batch)
    ensures forall c :: c in CommandsOf(batch) ==> c.WellFormed()
    ensures forall p :: p in PlannedAll(CommandsOf(batch)) ==> p.command.tenantId == batch[0].command.tenantId
  {
    CommandsAreWellFormed(batch);
    forall p | p in PlannedAll(CommandsOf(batch)) ensures p.command.tenantId == batch[0].command.tenantId {
      var i :| 0 <= i < |batch| && PlannedAll(CommandsOf(batch))[i] == p;
      assert batch[i] in batch;
    }
  }

  lemma WhatTheBatchTold(before: Store, after: Store, tenant: Text, plans: seq<Planned>, answers: seq<PostAnswer>, m: nat)
    requires SettlesTheBatch(before, after, plans, answers) && (forall p :: p in plans ==> p.command.tenantId == tenant)
    requires m < |plans| == |answers| && answers[m].Ok?
    ensures var meant := BatchOutcome(BookOf(before, tenant), plans);
            BookOf(after, tenant) == meant.book && answers[m] == meant.answer[m]
  {
    ATenantsBatchSettles(before, after, tenant, plans, answers);
    AFailedBatchTellsNobody(plans, m);
  }

  lemma ItsPlan(batch: seq<Submission>, m: nat)
    requires AllWellFormed(batch) && m < |batch|
    ensures (forall c :: c in CommandsOf(batch) ==> c.WellFormed()) && batch[m].command.WellFormed()
    ensures PlannedAll(CommandsOf(batch))[m] == PlanFor(batch[m].command)
  {
    assert batch[m] in batch;
    CommandsAreWellFormed(batch);
  }

  lemma AcceptedOfItsBatch(d: Deployment, b: Book, commands: seq<PostTransaction>, m: nat, x: Delivery)
    requires Op.Batch(commands).WellFormed() && m < |commands| && x.command == commands[m] && x.answer.Ok?
    requires x.answer == BatchOutcome(b, PlannedAll(commands)).answer[m]
    ensures x.command.WellFormed() && Accepts(d, b, Op.Batch(commands), m, Told(x))
  {
    assert commands[m] in commands;
    assert PlannedAll(commands)[m] == PlanFor(commands[m]);
  }

  /** A caller told of success was told what its batch means, and the book is the one the
      batch means. */
  lemma WhoIsToldIsAccepted(d: Deployment, before: Store, after: Store, batch: seq<Submission>, answers: seq<PostAnswer>, m: nat)
    requires IsOneTenants(batch) && AllWellFormed(batch) && MaySettle(before, after, batch, answers) && m < |batch| && answers[m].Ok?
    ensures Op.Batch(CommandsOf(batch)).WellFormed() && batch[m].command.WellFormed()
    ensures var b := BookOf(before, batch[0].command.tenantId);
            && BookOf(after, batch[0].command.tenantId) == After(d, b, Op.Batch(CommandsOf(batch)))
            && Accepts(d, b, Op.Batch(CommandsOf(batch)), m, Told(Delivery(batch[m].command, answers[m])))
  {
    var tenant, commands := batch[0].command.tenantId, CommandsOf(batch);
    TheirCommandsAreOneTenants(batch);
    ItsPlan(batch, m);
    WhatTheBatchTold(before, after, tenant, PlannedAll(commands), answers, m);
    AcceptedOfItsBatch(d, BookOf(before, tenant), commands, m, Delivery(batch[m].command, answers[m]));
  }

  /** What it was told is remembered; told first, its key was free before. */
  lemma WhoIsToldIsRemembered(d: Deployment, before: Store, after: Store, batch: seq<Submission>, answers: seq<PostAnswer>, m: nat)
    requires IsOneTenants(batch) && AllWellFormed(batch) && MaySettle(before, after, batch, answers) && m < |batch|
    requires Valid(BookOf(before, batch[0].command.tenantId))
    ensures IsRemembered(after, Delivery(batch[m].command, answers[m])) && batch[m].command.tenantId == batch[0].command.tenantId
    ensures answers[m].Ok? && !answers[m].value.replayed ==> batch[m].command.idempotencyKey !in BookOf(before, batch[0].command.tenantId).events
  {
    assert batch[m] in batch;
    if answers[m].Ok? {
      var a := Told(Delivery(batch[m].command, answers[m]));
      WhoIsToldIsAccepted(d, before, after, batch, answers, m);
      EveryAcceptedAnswerIsRemembered(d, BookOf(before, batch[0].command.tenantId), Op.Batch(CommandsOf(batch)), m, a);
    }
  }

  lemma TwoOfOneBatch(d: Deployment, before: Store, after: Store, batch: seq<Submission>, answers: seq<PostAnswer>, m: nat, n: nat)
    requires IsOneTenants(batch) && AllWellFormed(batch) && MaySettle(before, after, batch, answers) && m < |batch| && n < |batch| && m != n
    requires Valid(BookOf(before, batch[0].command.tenantId))
    ensures OneIsAReplay(Delivery(batch[m].command, answers[m]), Delivery(batch[n].command, answers[n]))
  {
    var x, y := Delivery(batch[m].command, answers[m]), Delivery(batch[n].command, answers[n]);
    if AskedTheSame(x, y) {
      WhoIsToldIsAccepted(d, before, after, batch, answers, m);
      WhoIsToldIsAccepted(d, before, after, batch, answers, n);
      InOneCallNobodyIsFreshTwice(d, BookOf(before, batch[0].command.tenantId), Op.Batch(CommandsOf(batch)), m, n, Told(x), Told(y));
    }
  }

  /** What was told before stays remembered, whatever a call does. */
  lemma ACallForgetsNothing(d: Deployment, before: Store, after: Store, x: Delivery, op: Op, fate: Fate)
    requires IsRemembered(before, x) && Valid(BookOf(before, x.command.tenantId)) && op.WellFormed()
    requires BookOf(after, x.command.tenantId) == UnderFate(d, BookOf(before, x.command.tenantId), op, fate)
    ensures IsRemembered(after, x)
  {
    if x.answer.Ok? && !fate.LostBefore? {
      EveryCallGrows(d, BookOf(before, x.command.tenantId), op);
      MemoryStands(BookOf(before, x.command.tenantId), BookOf(after, x.command.tenantId), Told(x));
    }
  }

  lemma TheTruthStandsElsewhere(policy: Policy, before: Store, after: Store, tenant: Text, op: Op, failed: bool, x: Delivery)
    requires op.WellFormed() && MayLeave(policy, before, tenant, op, failed, after)
    requires IsRemembered(before, x) && Valid(BookOf(before, x.command.tenantId))
    ensures IsRemembered(after, x)
  {
    var fate := ACallElsewhereIsAFate(policy, before, after, tenant, op, failed);
    if x.command.tenantId == tenant {
      ACallForgetsNothing(policy.deployment, before, after, x, op, fate);
    }
  }

  lemma TheTruthStands(d: Deployment, before: Store, after: Store, batch: seq<Submission>, answers: seq<PostAnswer>, x: Delivery)
    requires AllWellFormed(batch) && MaySettle(before, after, batch, answers) && IsRemembered(before, x)
    requires Valid(BookOf(before, x.command.tenantId))
    ensures IsRemembered(after, x)
  {
    var tenant := x.command.tenantId;
    CommandsAreWellFormed(batch);
    var fate := EveryTenantOfABatchHasAFate(d, before, after, CommandsOf(batch), answers, tenant);
    ACallForgetsNothing(d, before, after, x, Op.Batch(CommandsFrom(CommandsOf(batch), tenant)), fate);
  }

  // ---- every reachable pool --------------------------------------------

  /** Where an answer comes from: an earlier step, or this step's batch. */
  ghost predicate IsOfTheBatch(q: map<nat, Delivery>, batch: seq<Submission>, answers: seq<PostAnswer>, ticket: nat, m: nat)
    requires |answers| == |batch|
  {
    ticket in q && m < |batch| && batch[m].ticket == ticket && q[ticket] == Delivery(batch[m].command, answers[m])
  }

  lemma OldOrNew(p: Pool, i: nat, answers: seq<PostAnswer>, ticket: nat) returns (m: nat)
    requires Conserved(p) && i < |p.dispatchers| && p.dispatchers[i].Posting? && |answers| == |p.dispatchers[i].batch|
    requires ticket in Delivered(p.answered, p.dispatchers[i].batch, answers)
    ensures var q := Delivered(p.answered, p.dispatchers[i].batch, answers);
            if ticket in p.answered then q[ticket] == p.answered[ticket] else IsOfTheBatch(q, p.dispatchers[i].batch, answers, ticket, m)
  {
    var batch := p.dispatchers[i].batch;
    assert FlightIsSound(BatchOf(p.dispatchers[i]), p.waiting, p.submitted, p.answered);
    EachCallerHearsItsOwnAnswer(p.answered, batch, answers);
    m := 0;
    if ticket !in p.answered {
      m :| 0 <= m < |batch| && batch[m].ticket == ticket;
    }
  }

  lemma OneAnswerIsRemembered(d: Deployment, p: Pool, i: nat, answers: seq<PostAnswer>, after: Store, ticket: nat)
    requires Conserved(p) && TellsTheTruth(p) && BooksAreValid(p.store) && IsPosting(p, i) && IsOneTenants(p.dispatchers[i].batch)
    requires AllWellFormed(p.dispatchers[i].batch) && MaySettle(p.store, after, p.dispatchers[i].batch, answers)
    requires ticket in Delivered(p.answered, p.dispatchers[i].batch, answers)
    ensures IsRemembered(after, Delivered(p.answered, p.dispatchers[i].batch, answers)[ticket])
  {
    var batch := p.dispatchers[i].batch;
    var m := OldOrNew(p, i, answers, ticket);
    if ticket in p.answered {
      TheTruthStands(d, p.store, after, batch, answers, p.answered[ticket]);
    } else {
      WhoIsToldIsRemembered(d, p.store, after, batch, answers, m);
    }
  }

  /** An answer from before, and one of the batch. */
  lemma AnOldOneAndANewOne(d: Deployment, before: Store, after: Store, batch: seq<Submission>, answers: seq<PostAnswer>, x: Delivery, m: nat)
    requires IsOneTenants(batch) && AllWellFormed(batch) && MaySettle(before, after, batch, answers) && m < |batch|
    requires Valid(BookOf(before, batch[0].command.tenantId)) && IsRemembered(before, x)
    ensures OneIsAReplay(x, Delivery(batch[m].command, answers[m]))
  {
    WhoIsToldIsRemembered(d, before, after, batch, answers, m);
  }

  lemma TwoAnswers(d: Deployment, p: Pool, i: nat, answers: seq<PostAnswer>, after: Store, x: nat, y: nat)
    requires Conserved(p) && TellsTheTruth(p) && BooksAreValid(p.store) && IsPosting(p, i) && IsOneTenants(p.dispatchers[i].batch)
    requires AllWellFormed(p.dispatchers[i].batch) && MaySettle(p.store, after, p.dispatchers[i].batch, answers) && x != y
    requires x in Delivered(p.answered, p.dispatchers[i].batch, answers) && y in Delivered(p.answered, p.dispatchers[i].batch, answers)
    ensures OneIsAReplay(Delivered(p.answered, p.dispatchers[i].batch, answers)[x], Delivered(p.answered, p.dispatchers[i].batch, answers)[y])
  {
    var batch := p.dispatchers[i].batch;
    var m := OldOrNew(p, i, answers, x);
    var n := OldOrNew(p, i, answers, y);
    if x in p.answered && y !in p.answered {
      AnOldOneAndANewOne(d, p.store, after, batch, answers, p.answered[x], n);
    } else if x !in p.answered && y in p.answered {
      AnOldOneAndANewOne(d, p.store, after, batch, answers, p.answered[y], m);
    } else if x !in p.answered {
      TwoOfOneBatch(d, p.store, after, batch, answers, m, n);
    }
  }

  lemma PostingTellsTheTruth(policy: Policy, p: Pool, i: nat, answers: seq<PostAnswer>, after: Store)
    requires Conserved(p) && TellsTheTruth(p) && BooksAreValid(p.store) && FlightsAreOneTenants(p.dispatchers)
    requires Enabled(policy, p, PostAndAnswer(i, answers, after))
    ensures TellsTheTruth(Next(policy, p, PostAndAnswer(i, answers, after)))
  {
    var q := Next(policy, p, PostAndAnswer(i, answers, after));
    forall ticket | ticket in q.answered ensures IsRemembered(q.store, q.answered[ticket]) {
      OneAnswerIsRemembered(policy.deployment, p, i, answers, after, ticket);
    }
    forall x, y | x in q.answered && y in q.answered && x != y ensures OneIsAReplay(q.answered[x], q.answered[y]) {
      TwoAnswers(policy.deployment, p, i, answers, after, x, y);
    }
  }

  lemma ACallElsewhereTellsTheTruth(policy: Policy, p: Pool, step: Step)
    requires TellsTheTruth(p) && BooksAreValid(p.store) && Enabled(policy, p, step) && step.Elsewhere?
    ensures TellsTheTruth(Next(policy, p, step))
  {
    var q := Next(policy, p, step);
    forall ticket | ticket in p.answered ensures IsRemembered(q.store, p.answered[ticket]) {
      TheTruthStandsElsewhere(policy, p.store, step.store, step.tenant, step.op, step.failed, p.answered[ticket]);
    }
  }

  lemma EveryStepTellsTheTruth(policy: Policy, p: Pool, step: Step)
    requires Conserved(p) && TellsTheTruth(p) && BooksAreValid(p.store) && FlightsAreOneTenants(p.dispatchers) && Enabled(policy, p, step)
    ensures TellsTheTruth(Next(policy, p, step))
  {
    if step.PostAndAnswer? {
      PostingTellsTheTruth(policy, p, step.dispatcher, step.answers, step.store);
    } else {
      OnlyPostingAnswers(policy, p, step);
      if step.Elsewhere? {
        ACallElsewhereTellsTheTruth(policy, p, step);
      }
    }
  }

  lemma {:induction false} EveryReachablePoolTellsTheTruth(policy: Policy, dispatchers: nat, states: seq<Pool>, steps: seq<Step>, k: nat)
    requires IsARun(policy, dispatchers, states, steps) && k < |states| && BooksAreValid(states[0].store)
    ensures TellsTheTruth(states[k]) && FlightsAreOneTenants(states[k].dispatchers)
    decreases k
  {
    if k > 0 {
      EveryReachablePoolTellsTheTruth(policy, dispatchers, states, steps, k - 1);
      EveryReachablePoolConserves(policy, dispatchers, states, steps, k - 1);
      EveryTenantsBookIsValid(policy, dispatchers, states, steps, k - 1);
      EveryStepTellsTheTruth(policy, states[k - 1], steps[k - 1]);
      FlightsStayOneTenants(policy, states[k - 1], steps[k - 1]);
    }
  }

  /** One key, one claim, for the callers themselves: of any two told of success under one
      tenant's key, at whatever time and through whatever batches, faults and calls from
      elsewhere, both were told one event and one transaction for one body, and one of
      them of a replay. */
  lemma CallersHearOneClaim(policy: Policy, dispatchers: nat, states: seq<Pool>, steps: seq<Step>, k: nat, x: nat, y: nat)
    requires IsARun(policy, dispatchers, states, steps) && k < |states| && BooksAreValid(states[0].store)
    requires x in states[k].answered && y in states[k].answered && x != y && AskedTheSame(states[k].answered[x], states[k].answered[y])
    ensures var one, other := states[k].answered[x], states[k].answered[y];
            && one.command.WellFormed() && other.command.WellFormed()
            && SameRequest(one.command, other.command)
            && one.answer.value.eventId == other.answer.value.eventId && one.answer.value.transactionId == other.answer.value.transactionId
            && (one.answer.value.replayed || other.answer.value.replayed)
  {
    var one, other := states[k].answered[x], states[k].answered[y];
    EveryReachablePoolTellsTheTruth(policy, dispatchers, states, steps, k);
    assert IsRemembered(states[k].store, one) && IsRemembered(states[k].store, other);
    assert OneIsAReplay(one, other);
    EqualBytesMeanTheSameRequest(one.command, other.command);
  }
}
