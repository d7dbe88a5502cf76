/** The dispatcher pool over the queue, as interleaved steps: a push releases its lock
    before it notifies, a dispatcher decides to sleep before it does, and `Notify`
    keeps one permit when nobody is there to wake. */
module Dispatchers {
  import opened Wrappers
  import opened Bytes
  import opened Domain
  import opened Port
  import opened Runs
  import opened Queue
  import Book
  import Stores
  import Service

  /** Where one dispatcher stands in its loop. */
  datatype Phase =
    | AboutToDrain
    /** Its drain came back empty; it has not registered as a waiter yet. */
    | CommittedToSleep
    | Asleep
    | Posting(batch: seq<Submission>)

  /** An answer delivered: the command it answers, and what it says. */
  datatype Delivery = Delivery(command: PostTransaction, answer: PostAnswer)

  datatype Pool = Pool(
    waiting: seq<Submission>,
    dispatchers: seq<Phase>,
    permit: bool,
    /** Pushers that have released the lock and not notified yet. */
    aboutToNotify: nat,
    submitted: map<nat, PostTransaction>,
    answered: map<nat, Delivery>,
    store: Stores.Store)

  /** How the pool is built: the most members one statement may carry, whether a drain
      that leaves work behind wakes the next dispatcher itself, and what the ledger beside
      it is deployed with. */
  datatype Policy = Policy(ceiling: nat, baton: bool, deployment: Book.Deployment)

  datatype Step =
    | PushBack(ticket: nat, command: PostTransaction)
    | Notify(wakes: Option<nat>)
    | DrainQueue(dispatcher: nat, wakes: Option<nat>)
    | GoToSleep(dispatcher: nat)
    | PostAndAnswer(dispatcher: nat, answers: seq<PostAnswer>, store: Stores.Store)
    /** A call of one tenant's that goes past the queue: an opening, a definition or a
        close on its own request's task, or anything another process does. */
    | Elsewhere(tenant: Text, op: Op, failed: bool, store: Stores.Store)

  /** A pool started over whatever the books already hold. */
  function Started(dispatchers: nat, store: Stores.Store): Pool
  {
    Pool([], seq(dispatchers, i => AboutToDrain), false, 0, map[], map[], store)
  }

  // ---- notify_one ------------------------------------------------------

  predicate NobodyIsAsleep(dispatchers: seq<Phase>)
  {
    forall i :: 0 <= i < |dispatchers| ==> !dispatchers[i].Asleep?
  }

  /** `notify_one` wakes a sleeper if there is one. */
  predicate MayWake(dispatchers: seq<Phase>, wakes: Option<nat>)
  {
    if wakes.Some? then wakes.value < |dispatchers| && dispatchers[wakes.value].Asleep? else NobodyIsAsleep(dispatchers)
  }

  /** And stores the permit if there is none. */
  function Woken(p: Pool, wakes: Option<nat>): Pool
  {
    if wakes.Some? && wakes.value < |p.dispatchers| then p.(dispatchers := p.dispatchers[wakes.value := AboutToDrain])
    else p.(permit := true)
  }

  // ---- the steps -------------------------------------------------------

  predicate IsPosting(p: Pool, i: nat)
  {
    i < |p.dispatchers| && p.dispatchers[i].Posting?
  }

  function Became(p: Pool, i: nat, phase: Phase): Pool
    requires i < |p.dispatchers|
  {
    p.(dispatchers := p.dispatchers[i := phase])
  }

  /** The pool as a drain by dispatcher `i` leaves it, before any baton. */
  function AfterTheDrain(policy: Policy, p: Pool, i: nat): Pool
    requires i < |p.dispatchers|
  {
    var d := Drained(p.waiting, policy.ceiling);
    Became(p, i, if d.batch == [] then CommittedToSleep else Phase.Posting(d.batch)).(waiting := d.left)
  }

  /** A drain that took somebody and left somebody hands the baton on. */
  predicate HandsTheBatonOn(policy: Policy, p: Pool)
  {
    policy.baton && Drained(p.waiting, policy.ceiling).batch != [] && Drained(p.waiting, policy.ceiling).left != []
  }

  ghost predicate Enabled(policy: Policy, p: Pool, step: Step)
  {
    match step
    case PushBack(ticket, command) => ticket !in p.submitted && command.WellFormed()
    case Notify(wakes) => p.aboutToNotify > 0 && MayWake(p.dispatchers, wakes)
    case DrainQueue(i, wakes) =>
      && i < |p.dispatchers| && p.dispatchers[i].AboutToDrain?
      && (HandsTheBatonOn(policy, p) ==> MayWake(AfterTheDrain(policy, p, i).dispatchers, wakes))
    case GoToSleep(i) => i < |p.dispatchers| && p.dispatchers[i].CommittedToSleep?
    case PostAndAnswer(i, answers, store) =>
      IsPosting(p, i) && AllWellFormed(p.dispatchers[i].batch) && MaySettle(p.store, store, p.dispatchers[i].batch, answers)
    case Elsewhere(tenant, op, failed, store) =>
      IsOf(op, tenant) && op.WellFormed() && MayLeave(policy, p.store, tenant, op, failed, store)
  }

  /** The tenant a call's commands name. */
  predicate IsOf(op: Op, tenant: Text)
  {
    match op
    case Post(c) => c.tenantId == tenant
    case Batch(cs) => forall c :: c in cs ==> c.tenantId == tenant
    case Open(c) => c.tenantId == tenant
    case Define(c) => c.tenantId == tenant
    case Close(c) => c.tenantId == tenant
  }

  /** What a call of its own may leave: what it means, or a storage failure. */
  ghost predicate MayLeave(policy: Policy, before: Stores.Store, tenant: Text, op: Op, failed: bool, after: Stores.Store)
    requires op.WellFormed()
  {
    forall meant :: meant == After(policy.deployment, Stores.BookOf(before, tenant), op) ==> Service.Leaves(before, after, tenant, meant, failed)
  }

  predicate AllWellFormed(batch: seq<Submission>)
  {
    forall s :: s in batch ==> s.command.WellFormed()
  }

  ghost function Next(policy: Policy, p: Pool, step: Step): Pool
    requires Enabled(policy, p, step)
  {
    match step
    case PushBack(ticket, command) =>
      p.(waiting := p.waiting + [Submission(ticket, command)],
         aboutToNotify := p.aboutToNotify + 1,
         submitted := p.submitted[ticket := command])
    case Notify(wakes) => Woken(p.(aboutToNotify := p.aboutToNotify - 1), wakes)
    case DrainQueue(i, wakes) =>
      if HandsTheBatonOn(policy, p) then Woken(AfterTheDrain(policy, p, i), wakes) else AfterTheDrain(policy, p, i)
    case GoToSleep(i) =>
      if p.permit then Became(p, i, AboutToDrain).(permit := false) else Became(p, i, Asleep)
    case PostAndAnswer(i, answers, store) =>
      Became(p, i, AboutToDrain).(answered := Delivered(p.answered, p.dispatchers[i].batch, answers), store := store)
    case Elsewhere(_, _, _, store) => p.(store := store)
  }

  /** What posting a batch may answer and leave: what it means, or a storage failure. */
  ghost predicate MaySettle(before: Stores.Store, after: Stores.Store, batch: seq<Submission>, answers: seq<PostAnswer>)
    requires AllWellFormed(batch)
  {
    CommandsAreWellFormed(batch);
    && |answers| == |batch|
    && Service.SettlesTheBatch(before, after, Book.PlannedAll(CommandsOf(batch)), answers)
  }

  lemma SomethingSettles(before: Stores.Store, batch: seq<Submission>) returns (answers: seq<PostAnswer>, after: Stores.Store)
    requires AllWellFormed(batch)
    ensures MaySettle(before, after, batch, answers)
  {
    CommandsAreWellFormed(batch);
    var meant := Stores.BatchAcross(before, Book.PlannedAll(CommandsOf(batch)));
    answers, after := meant.answer, meant.store;
    assert Service.LeavesAll(before, after, meant.store, false);
  }

  lemma CommandsAreWellFormed(batch: seq<Submission>)
    requires AllWellFormed(batch)
    ensures forall c :: c in CommandsOf(batch) ==> c.WellFormed()
  {
    forall c | c in CommandsOf(batch) ensures c.WellFormed() {
      var i :| 0 <= i < |batch| && CommandsOf(batch)[i] == c;
      assert batch[i] in batch;
    }
  }

  /** Each caller's own answer, down its own channel. */
  function Delivered(answered: map<nat, Delivery>, batch: seq<Submission>, answers: seq<PostAnswer>): map<nat, Delivery>
    requires |answers| == |batch|
  {
    if batch == [] then answered else
    var n := |batch| - 1;
    Delivered(answered, batch[..n], answers[..n])[batch[n].ticket := Delivery(batch[n].command, answers[n])]
  }

  // ---- no wake-up is lost ----------------------------------------------

  predicate SomebodyWillDrain(dispatchers: seq<Phase>)
  {
    exists i :: 0 <= i < |dispatchers| && dispatchers[i].AboutToDrain?
  }

  predicate SomebodyIsPosting(dispatchers: seq<Phase>)
  {
    exists i :: 0 <= i < |dispatchers| && dispatchers[i].Posting?
  }

  /** A stored permit and a sleeper never coexist. */
  predicate PermitMeansAwake(p: Pool)
  {
    p.permit ==> NobodyIsAsleep(p.dispatchers)
  }

  /** Queued work never coexists with a pool that is all asleep or about to be, no
      permit, and nobody about to notify. */
  predicate WorkIsNeverStranded(p: Pool)
  {
    p.waiting != [] ==>
      SomebodyWillDrain(p.dispatchers) || SomebodyIsPosting(p.dispatchers) || p.aboutToNotify > 0 || p.permit
  }

  /** The baton's stronger form: queued work need not wait for a batch to commit. */
  predicate WorkIsAboutToBeTaken(p: Pool)
  {
    p.waiting != [] ==> SomebodyWillDrain(p.dispatchers) || p.aboutToNotify > 0 || p.permit
  }

  predicate Awake(policy: Policy, p: Pool)
  {
    PermitMeansAwake(p) && WorkIsNeverStranded(p) && (policy.baton ==> WorkIsAboutToBeTaken(p))
  }

  lemma TheBecome(ds: seq<Phase>, i: nat, phase: Phase)
    requires i < |ds|
    ensures var after := ds[i := phase];
            && (phase.AboutToDrain? ==> SomebodyWillDrain(after))
            && (phase.Posting? ==> SomebodyIsPosting(after))
            && (SomebodyWillDrain(ds) && !ds[i].AboutToDrain? ==> SomebodyWillDrain(after))
            && (SomebodyIsPosting(ds) && !ds[i].Posting? ==> SomebodyIsPosting(after))
            && (NobodyIsAsleep(ds) && !phase.Asleep? ==> NobodyIsAsleep(after))
  {
    var after := ds[i := phase];
    assert after[i] == phase;
    if SomebodyWillDrain(ds) && !ds[i].AboutToDrain? {
      var j :| 0 <= j < |ds| && ds[j].AboutToDrain?;
      assert after[j].AboutToDrain?;
    }
    if SomebodyIsPosting(ds) && !ds[i].Posting? {
      var j :| 0 <= j < |ds| && ds[j].Posting?;
      assert after[j].Posting?;
    }
  }

  /** Notifying leaves either a dispatcher about to drain or a permit. */
  lemma NotifyingKeepsThePoolAwake(p: Pool, wakes: Option<nat>)
    requires MayWake(p.dispatchers, wakes) && PermitMeansAwake(p)
    ensures PermitMeansAwake(Woken(p, wakes)) && WorkIsAboutToBeTaken(Woken(p, wakes)) && WorkIsNeverStranded(Woken(p, wakes))
  {
    if wakes.Some? {
      TheBecome(p.dispatchers, wakes.value, AboutToDrain);
    }
  }

  /** Every step, in every interleaving, keeps the pool awake. */
  lemma EveryStepKeepsThePoolAwake(policy: Policy, p: Pool, step: Step)
    requires Awake(policy, p) && Enabled(policy, p, step)
    ensures Awake(policy, Next(policy, p, step))
  {
    match step
    case PushBack(ticket, command) =>
    case Notify(wakes) => NotifyingKeepsThePoolAwake(p.(aboutToNotify := p.aboutToNotify - 1), wakes);
    case DrainQueue(i, wakes) => DrainingKeepsThePoolAwake(policy, p, i, wakes);
    case GoToSleep(i) => TheBecome(p.dispatchers, i, if p.permit then AboutToDrain else Asleep);
    case PostAndAnswer(i, _, _) => TheBecome(p.dispatchers, i, AboutToDrain);
    case Elsewhere(_, _, _, _) =>
  }

  lemma DrainingKeepsThePoolAwake(policy: Policy, p: Pool, i: nat, wakes: Option<nat>)
    requires Awake(policy, p) && Enabled(policy, p, DrainQueue(i, wakes))
    ensures Awake(policy, Next(policy, p, DrainQueue(i, wakes)))
  {
    var d := Drained(p.waiting, policy.ceiling);
    TheBecome(p.dispatchers, i, if d.batch == [] then CommittedToSleep else Phase.Posting(d.batch));
    if p.waiting != [] {
      OneDrainIsExact(p.waiting, policy.ceiling);
    }
    if HandsTheBatonOn(policy, p) {
      NotifyingKeepsThePoolAwake(AfterTheDrain(policy, p, i), wakes);
    }
  }

  // ---- runs ------------------------------------------------------------

  /** A run of the pool: every state follows from the one before by an enabled step. */
  ghost predicate IsARun(policy: Policy, dispatchers: nat, states: seq<Pool>, steps: seq<Step>)
  {
    && |states| == |steps| + 1
    && states[0] == Started(dispatchers, states[0].store)
    && forall k :: 0 <= k < |steps| ==> Enabled(policy, states[k], steps[k]) && states[k + 1] == Next(policy, states[k], steps[k])
  }

  lemma {:induction false} EveryReachablePoolIsAwake(policy: Policy, dispatchers: nat, states: seq<Pool>, steps: seq<Step>, k: nat)
    requires IsARun(policy, dispatchers, states, steps) && k < |states|
    ensures Awake(policy, states[k])
    decreases k
  {
    if k > 0 {
      EveryReachablePoolIsAwake(policy, dispatchers, states, steps, k - 1);
      EveryStepKeepsThePoolAwake(policy, states[k - 1], steps[k - 1]);
    }
  }

  /** In every interleaving, a non-empty queue never coexists with every dispatcher
      asleep or committed to sleeping, no stored permit and no pusher about to
      notify. */
  lemma NoWakeUpIsEverLost(policy: Policy, dispatchers: nat, states: seq<Pool>, steps: seq<Step>, k: nat)
    requires IsARun(policy, dispatchers, states, steps) && k < |states| && states[k].waiting != []
    requires forall i :: 0 <= i < |states[k].dispatchers| ==> states[k].dispatchers[i].Asleep? || states[k].dispatchers[i].CommittedToSleep?
    ensures states[k].aboutToNotify > 0 || states[k].permit
  {
    EveryReachablePoolIsAwake(policy, dispatchers, states, steps, k);
  }

  /** With the baton, queued work is about to be taken: some dispatcher is about to
      drain, a push is about to notify, or a permit is stored and nobody is asleep. */
  lemma WithTheBatonWorkIsAboutToBeTaken(policy: Policy, dispatchers: nat, states: seq<Pool>, steps: seq<Step>, k: nat)
    requires policy.baton && IsARun(policy, dispatchers, states, steps) && k < |states| && states[k].waiting != []
    ensures || SomebodyWillDrain(states[k].dispatchers) || states[k].aboutToNotify > 0
            || (states[k].permit && NobodyIsAsleep(states[k].dispatchers))
  {
    EveryReachablePoolIsAwake(policy, dispatchers, states, steps, k);
  }

  lemma AStepKeepsThePoolsSize(policy: Policy, p: Pool, step: Step)
    requires Enabled(policy, p, step)
    ensures |Next(policy, p, step).dispatchers| == |p.dispatchers|
  {
  }

  lemma {:induction false} ThePoolKeepsItsSize(policy: Policy, dispatchers: nat, states: seq<Pool>, steps: seq<Step>, k: nat)
    requires IsARun(policy, dispatchers, states, steps) && k < |states|
    ensures |states[k].dispatchers| == dispatchers
    decreases k
  {
    if k > 0 {
      ThePoolKeepsItsSize(policy, dispatchers, states, steps, k - 1);
      AStepKeepsThePoolsSize(policy, states[k - 1], steps[k - 1]);
    }
  }

  /** A step that serves the queue rather than adding to it. */
  ghost predicate Serves(policy: Policy, p: Pool, step: Step)
  {
    !step.PushBack? && !step.Elsewhere? && Enabled(policy, p, step)
  }

  lemma ADrainIsAlwaysOpen(policy: Policy, p: Pool, i: nat) returns (step: Step)
    requires i < |p.dispatchers| && p.dispatchers[i].AboutToDrain?
    ensures Serves(policy, p, step)
  {
    var ds := AfterTheDrain(policy, p, i).dispatchers;
    if NobodyIsAsleep(ds) {
      step := DrainQueue(i, None);
    } else {
      var j :| 0 <= j < |ds| && ds[j].Asleep?;
      step := DrainQueue(i, Some(j));
    }
  }

  lemma ANotifyIsAlwaysOpen(policy: Policy, p: Pool) returns (step: Step)
    requires p.aboutToNotify > 0
    ensures Serves(policy, p, step)
  {
    if NobodyIsAsleep(p.dispatchers) {
      step := Notify(None);
    } else {
      var j :| 0 <= j < |p.dispatchers| && p.dispatchers[j].Asleep?;
      step := Notify(Some(j));
    }
  }

  /** And so queued work never gets stuck: while some is waiting, a pool of at least
      one dispatcher can always take a step towards it. */
  lemma WorkNeverGetsStuck(policy: Policy, p: Pool) returns (step: Step)
    requires Awake(policy, p) && p.waiting != [] && |p.dispatchers| > 0
    requires forall i :: 0 <= i < |p.dispatchers| && p.dispatchers[i].Posting? ==> AllWellFormed(p.dispatchers[i].batch)
    ensures Serves(policy, p, step)
  {
    if SomebodyWillDrain(p.dispatchers) {
      var i :| 0 <= i < |p.dispatchers| && p.dispatchers[i].AboutToDrain?;
      step := ADrainIsAlwaysOpen(policy, p, i);
    } else if SomebodyIsPosting(p.dispatchers) {
      var i :| 0 <= i < |p.dispatchers| && p.dispatchers[i].Posting?;
      var answers, store := SomethingSettles(p.store, p.dispatchers[i].batch);
      step := PostAndAnswer(i, answers, store);
    } else if p.aboutToNotify > 0 {
      step := ANotifyIsAlwaysOpen(policy, p);
    } else {
      assert p.permit && p.dispatchers[0].CommittedToSleep?;
      step := GoToSleep(0);
    }
  }

  // ---- without the baton -----------------------------------------------

  const NO_BATON := Policy(25, false, Book.Deployment(map[], {}))

  function TwoDispatchers(waiting: seq<Submission>, first: Phase, second: Phase, permit: bool, aboutToNotify: nat, submitted: map<nat, PostTransaction>): Pool
  {
    Pool(waiting, [first, second], permit, aboutToNotify, submitted, map[], map[])
  }

  /** Both dispatchers find nothing, and decide to sleep. */
  lemma BothDecideToSleep()
    ensures var s0, s1 := Started(2, map[]), TwoDispatchers([], CommittedToSleep, AboutToDrain, false, 0, map[]);
            var s2 := TwoDispatchers([], CommittedToSleep, CommittedToSleep, false, 0, map[]);
            && Enabled(NO_BATON, s0, DrainQueue(0, None)) && Next(NO_BATON, s0, DrainQueue(0, None)) == s1
            && Enabled(NO_BATON, s1, DrainQueue(1, None)) && Next(NO_BATON, s1, DrainQueue(1, None)) == s2
  {
    assert Started(2, map[]).dispatchers[0 := CommittedToSleep] == [CommittedToSleep, AboutToDrain];
    assert [CommittedToSleep, AboutToDrain][1 := CommittedToSleep] == [CommittedToSleep, CommittedToSleep];
  }

  /** A push while nobody is asleep yet leaves at most one permit behind it. */
  lemma APushLeavesOnePermit(waiting: seq<Submission>, permit: bool, submitted: map<nat, PostTransaction>, s: Submission)
    requires s.ticket !in submitted && s.command.WellFormed()
    ensures var before := TwoDispatchers(waiting, CommittedToSleep, CommittedToSleep, permit, 0, submitted);
            var pushed := TwoDispatchers(waiting + [s], CommittedToSleep, CommittedToSleep, permit, 1, submitted[s.ticket := s.command]);
            var notified := TwoDispatchers(waiting + [s], CommittedToSleep, CommittedToSleep, true, 0, submitted[s.ticket := s.command]);
            && Enabled(NO_BATON, before, PushBack(s.ticket, s.command)) && Next(NO_BATON, before, PushBack(s.ticket, s.command)) == pushed
            && Enabled(NO_BATON, pushed, Notify(None)) && Next(NO_BATON, pushed, Notify(None)) == notified
  {
  }

  /** One dispatcher takes the permit, and the other sleeps. */
  lemma OneTakesThePermit(waiting: seq<Submission>, submitted: map<nat, PostTransaction>)
    ensures var before := TwoDispatchers(waiting, CommittedToSleep, CommittedToSleep, true, 0, submitted);
            var taken := TwoDispatchers(waiting, AboutToDrain, CommittedToSleep, false, 0, submitted);
            var slept := TwoDispatchers(waiting, AboutToDrain, Asleep, false, 0, submitted);
            && Enabled(NO_BATON, before, GoToSleep(0)) && Next(NO_BATON, before, GoToSleep(0)) == taken
            && Enabled(NO_BATON, taken, GoToSleep(1)) && Next(NO_BATON, taken, GoToSleep(1)) == slept
  {
    assert [CommittedToSleep, CommittedToSleep][0 := AboutToDrain] == [AboutToDrain, CommittedToSleep];
    assert [AboutToDrain, CommittedToSleep][1 := Asleep] == [AboutToDrain, Asleep];
  }

  lemma TheDrainLeavesTheOtherTenant(a: Submission, g: Submission, submitted: map<nat, PostTransaction>)
    requires a.command.tenantId != g.command.tenantId
    ensures var before := TwoDispatchers([a, g], AboutToDrain, Asleep, false, 0, submitted);
            && Enabled(NO_BATON, before, DrainQueue(0, None))
            && Next(NO_BATON, before, DrainQueue(0, None)) == TwoDispatchers([g], Phase.Posting([a]), Asleep, false, 0, submitted)
  {
    TwoTenantsNeverShare(a, g);
    assert [AboutToDrain, Asleep][0 := Phase.Posting([a])] == [Phase.Posting([a]), Asleep];
  }

  lemma TwoTenantsNeverShare(a: Submission, g: Submission)
    requires a.command.tenantId != g.command.tenantId
    ensures Drained([a, g], 25) == Drain([a], [g])
  {
    assert [a, g][1..] == [g] && [g][1..] == [] && [] + [g] == [g] == [g] + [];
    assert Scan([a], [g], [], a.command.tenantId, 25) == Drain([a], [g]);
    assert Scan([a], [], [g], a.command.tenantId, 25) == Scan([a], [] + [g], [g][1..], a.command.tenantId, 25);
  }

  lemma ARunGoesOn(policy: Policy, dispatchers: nat, states: seq<Pool>, steps: seq<Step>, step: Step, next: Pool)
    requires IsARun(policy, dispatchers, states, steps)
    requires Enabled(policy, states[|steps|], step) && Next(policy, states[|steps|], step) == next
    ensures IsARun(policy, dispatchers, states + [next], steps + [step])
  {
  }

  /** Both decide to sleep, and one caller's push leaves a permit. */
  lemma TheFirstCallerArrives(a: Submission) returns (states: seq<Pool>, steps: seq<Step>)
    requires a.command.WellFormed()
    ensures IsARun(NO_BATON, 2, states, steps)
    ensures states[|steps|] == TwoDispatchers([a], CommittedToSleep, CommittedToSleep, true, 0, map[][a.ticket := a.command])
  {
    BothDecideToSleep();
    APushLeavesOnePermit([], false, map[], a);
    assert [] + [a] == [a];
    states, steps := [Started(2, map[])], [];
    ARunGoesOn(NO_BATON, 2, states, steps, DrainQueue(0, None), TwoDispatchers([], CommittedToSleep, AboutToDrain, false, 0, map[]));
    states, steps := states + [TwoDispatchers([], CommittedToSleep, AboutToDrain, false, 0, map[])], steps + [DrainQueue(0, None)];
    ARunGoesOn(NO_BATON, 2, states, steps, DrainQueue(1, None), TwoDispatchers([], CommittedToSleep, CommittedToSleep, false, 0, map[]));
    states, steps := states + [TwoDispatchers([], CommittedToSleep, CommittedToSleep, false, 0, map[])], steps + [DrainQueue(1, None)];
    states, steps := AnotherCallerArrives([], false, map[], a, states, steps);
  }

  /** Another caller pushes and notifies: the permit is still one. */
  lemma AnotherCallerArrives(waiting: seq<Submission>, permit: bool, submitted: map<nat, PostTransaction>, s: Submission,
                             before: seq<Pool>, done: seq<Step>) returns (states: seq<Pool>, steps: seq<Step>)
    requires s.ticket !in submitted && s.command.WellFormed() && IsARun(NO_BATON, 2, before, done)
    requires before[|done|] == TwoDispatchers(waiting, CommittedToSleep, CommittedToSleep, permit, 0, submitted)
    ensures IsARun(NO_BATON, 2, states, steps)
    ensures states[|steps|] == TwoDispatchers(waiting + [s], CommittedToSleep, CommittedToSleep, true, 0, submitted[s.ticket := s.command])
  {
    var pushed := TwoDispatchers(waiting + [s], CommittedToSleep, CommittedToSleep, permit, 1, submitted[s.ticket := s.command]);
    var notified := TwoDispatchers(waiting + [s], CommittedToSleep, CommittedToSleep, true, 0, submitted[s.ticket := s.command]);
    APushLeavesOnePermit(waiting, permit, submitted, s);
    ARunGoesOn(NO_BATON, 2, before, done, PushBack(s.ticket, s.command), pushed);
    ARunGoesOn(NO_BATON, 2, before + [pushed], done + [PushBack(s.ticket, s.command)], Notify(None), notified);
    states, steps := before + [pushed] + [notified], done + [PushBack(s.ticket, s.command)] + [Notify(None)];
  }

  /** One takes the permit and drains one tenant, and the other sleeps. */
  lemma OneTenantIsTaken(a: Submission, g: Submission, submitted: map<nat, PostTransaction>, before: seq<Pool>, done: seq<Step>)
    returns (states: seq<Pool>, steps: seq<Step>)
    requires a.command.tenantId != g.command.tenantId && IsARun(NO_BATON, 2, before, done)
    requires before[|done|] == TwoDispatchers([a, g], CommittedToSleep, CommittedToSleep, true, 0, submitted)
    ensures IsARun(NO_BATON, 2, states, steps)
    ensures states[|steps|] == TwoDispatchers([g], Phase.Posting([a]), Asleep, false, 0, submitted)
  {
    var taken := TwoDispatchers([a, g], AboutToDrain, CommittedToSleep, false, 0, submitted);
    var slept := TwoDispatchers([a, g], AboutToDrain, Asleep, false, 0, submitted);
    var drained := TwoDispatchers([g], Phase.Posting([a]), Asleep, false, 0, submitted);
    OneTakesThePermit([a, g], submitted);
    TheDrainLeavesTheOtherTenant(a, g, submitted);
    ARunGoesOn(NO_BATON, 2, before, done, GoToSleep(0), taken);
    ARunGoesOn(NO_BATON, 2, before + [taken], done + [GoToSleep(0)], GoToSleep(1), slept);
    ARunGoesOn(NO_BATON, 2, before + [taken] + [slept], done + [GoToSleep(0)] + [GoToSleep(1)], DrainQueue(0, None), drained);
    states := before + [taken] + [slept] + [drained];
    steps := done + [GoToSleep(0)] + [GoToSleep(1)] + [DrainQueue(0, None)];
  }

  /** Two pushes while nobody is asleep leave one permit between them; without the
      baton the second tenant then waits behind the first one's commit while a
      dispatcher sleeps. */
  lemma WithoutTheBatonWorkWaitsBesideASleeper(acme: PostTransaction, globex: PostTransaction)
    returns (states: seq<Pool>, steps: seq<Step>)
    requires acme.WellFormed() && globex.WellFormed() && acme.tenantId != globex.tenantId
    ensures IsARun(NO_BATON, 2, states, steps)
    ensures var last := states[|steps|];
            && last.waiting != [] && last.aboutToNotify == 0 && !last.permit && |last.dispatchers| == 2
            && !SomebodyWillDrain(last.dispatchers) && last.dispatchers[1].Asleep?
  {
    var a, g := Submission(0, acme), Submission(1, globex);
    assert [a] + [g] == [a, g];
    var early, first := TheFirstCallerArrives(a);
    var later, second := AnotherCallerArrives([a], true, map[][0 := acme], g, early, first);
    states, steps := OneTenantIsTaken(a, g, map[][0 := acme][1 := globex], later, second);
  }
}
