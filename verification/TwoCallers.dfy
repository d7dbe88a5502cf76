/** One run of a pool beside its ledger: two accounts are opened, one caller's posting is
    recorded, and a second caller under the same key hears the first one's answer. */
module TwoCallers {
  import opened Wrappers
  import opened Bytes
  import opened Domain
  import opened Port
  import opened Postings
  import opened Book
  import opened BookInvariants
  import opened Writer
  import opened BatchRefinement
  import opened Runs
  import opened Idempotency
  import opened FaultyRuns
  import opened Stores
  import opened Service
  import opened Queue
  import opened Dispatchers
  import opened Callers
  import opened TwoPaths

  const TENANT: Text := [97]
  const POLICY := Policy(25, true, DEPLOYMENT)

  /** One dispatcher, about to drain an empty queue. */
  function Idle(aboutToNotify: nat, submitted: map<nat, PostTransaction>, answered: map<nat, Delivery>, store: Store): Pool
  {
    Pool([], [AboutToDrain], false, aboutToNotify, submitted, answered, store)
  }

  // ---- one caller is served --------------------------------------------

  lemma ItsDrain(s: Submission)
    ensures Drained([s], POLICY.ceiling) == Drain([s], [])
  {
    assert [s][1..] == [];
  }

  lemma ACallerPushes(p: Pool, s: Submission)
    requires p.waiting == [] && p.dispatchers == [AboutToDrain] && s.ticket !in p.submitted && s.command.WellFormed()
    ensures Enabled(POLICY, p, PushBack(s.ticket, s.command))
    ensures Next(POLICY, p, PushBack(s.ticket, s.command))
         == p.(waiting := [s], aboutToNotify := p.aboutToNotify + 1, submitted := p.submitted[s.ticket := s.command])
  {
    assert [] + [s] == [s];
  }

  lemma ItIsDrained(p: Pool, s: Submission)
    requires p.waiting == [s] && p.dispatchers == [AboutToDrain]
    ensures Enabled(POLICY, p, DrainQueue(0, None))
    ensures Next(POLICY, p, DrainQueue(0, None)) == p.(waiting := [], dispatchers := [Phase.Posting([s])])
  {
    ItsDrain(s);
    assert p.dispatchers[0 := Phase.Posting([s])] == [Phase.Posting([s])];
  }

  lemma ItIsAnswered(p: Pool, s: Submission, answer: PostAnswer, after: Store)
    requires p.dispatchers == [Phase.Posting([s])] && AllWellFormed([s]) && MaySettle(p.store, after, [s], [answer])
    ensures Enabled(POLICY, p, PostAndAnswer(0, [answer], after))
    ensures Next(POLICY, p, PostAndAnswer(0, [answer], after))
         == p.(dispatchers := [AboutToDrain], answered := p.answered[s.ticket := Delivery(s.command, answer)], store := after)
  {
    assert p.dispatchers[0 := AboutToDrain] == [AboutToDrain];
    assert [s][..0] == [] && [answer][..0] == [];
    assert Delivered(p.answered, [s], [answer]) == Delivered(p.answered, [], [])[s.ticket := Delivery(s.command, answer)];
  }

  lemma ACallerIsServed(before: seq<Pool>, done: seq<Step>, n: nat, submitted: map<nat, PostTransaction>, answered: map<nat, Delivery>,
                        store: Store, s: Submission, answer: PostAnswer, after: Store)
    returns (states: seq<Pool>, steps: seq<Step>)
    requires IsARun(POLICY, 1, before, done) && before[|done|] == Idle(n, submitted, answered, store)
    requires s.ticket !in submitted && s.command.WellFormed() && MaySettle(store, after, [s], [answer])
    ensures IsARun(POLICY, 1, states, steps) && states[0] == before[0]
    ensures states[|steps|]
         == Idle(n + 1, submitted[s.ticket := s.command], answered[s.ticket := Delivery(s.command, answer)], after)
  {
    var p0 := before[|done|];
    var p1 := p0.(waiting := [s], aboutToNotify := n + 1, submitted := submitted[s.ticket := s.command]);
    var p2 := p1.(waiting := [], dispatchers := [Phase.Posting([s])]);
    var p3 := p2.(dispatchers := [AboutToDrain], answered := answered[s.ticket := Delivery(s.command, answer)], store := after);
    ACallerPushes(p0, s);
    ItIsDrained(p1, s);
    ItIsAnswered(p2, s, answer, after);
    ARunGoesOn(POLICY, 1, before, done, PushBack(s.ticket, s.command), p1);
    states, steps := before + [p1], done + [PushBack(s.ticket, s.command)];
    ARunGoesOn(POLICY, 1, states, steps, DrainQueue(0, None), p2);
    states, steps := states + [p2], steps + [DrainQueue(0, None)];
    ARunGoesOn(POLICY, 1, states, steps, PostAndAnswer(0, [answer], after), p3);
    states, steps := states + [p3], steps + [PostAndAnswer(0, [answer], after)];
  }

  /** A command posted alone settles as its posting means. */
  lemma APostSettles(store: Store, s: Submission, meant: Outcome<PostAnswer>)
    requires s.command.WellFormed() && !PlanFails(PlanFor(s.command))
    requires meant == PostOutcome(BookOf(store, s.command.tenantId), PlanFor(s.command)) && meant.answer != Err(WriteError.Storage)
    ensures AllWellFormed([s]) && MaySettle(store, store[s.command.tenantId := meant.book], [s], [meant.answer])
  {
    var p, after := PlanFor(s.command), store[s.command.tenantId := meant.book];
    CommandsAreWellFormed([s]);
    assert PlannedAll(CommandsOf([s])) == [p];
    EachTakesItsOwn([p], [meant.answer]);
    OneMemberSettles(store, after, p, meant.answer);
    SettledMembersSettleTheBatch(store, after, [p], [meant.answer], [meant.answer]);
  }

  // ---- what the two hear -----------------------------------------------

  /** All that a balance can hold, from one account to the other. */
  function Request(): PostTransaction { Transfer(67, 3, 1, BRINK) }

  lemma TheRequestPlans()
    ensures Request().WellFormed() && Request().Plain() && !PlanFails(PlanFor(Request()))
    ensures PlanFor(Request()).Legs() == LegsOfTransfer(3, 1, BRINK) && Request().tenantId == TENANT
  {
    TheTransferIsWellFormed(67, 3, 1, BRINK);
    TheTransferPlans(67, 3, 1, BRINK);
  }

  lemma TheRequestMayBeRecorded(b: Book)
    requires HasTwoAccounts(b)
    ensures Request().idempotencyKey !in b.events && AllKnown(b.accounts, LegsOfTransfer(3, 1, BRINK))
    ensures Fits(Upserted(b.balances, LegsOfTransfer(3, 1, BRINK), TransactionStatus.Posted))
  {
    EveryoneIsKnown(b, 3, 1, BRINK);
    TheBrinkBalances();
    assert Request().idempotencyKey[0] == 67;
  }

  lemma ItsPlanIsRecorded(b: Book, p: Planned, legs: seq<Leg>, meant: Outcome<PostAnswer>)
    requires p.command.Plain() && !PlanFails(p) && legs == p.Legs() && meant == PostOutcome(b, p)
    requires p.Key() !in b.events && AllKnown(b.accounts, legs) && Fits(Upserted(b.balances, legs, TransactionStatus.Posted))
    ensures meant.answer.Ok? && !meant.answer.value.replayed
  {
    AnAdmissibleMemberIsRecorded(b, b, p);
  }

  /** Asked again, a recorded command is answered as before. */
  lemma ItReplays(b: Book, c: PostTransaction, p: Planned, meant: Outcome<PostAnswer>)
    requires Valid(b) && c.WellFormed() && p == PlanFor(c) && !PlanFails(p) && meant == PostOutcome(b, p) && meant.answer.Ok?
    ensures PostOutcome(meant.book, p)
         == Outcome(Ok(Port.Posted(meant.answer.value.eventId, meant.answer.value.transactionId, true)), meant.book)
  {
    var a := Accepted(p.Key(), p.hash, meant.answer.value.eventId, Wrote(meant.answer.value.transactionId), meant.answer.value.replayed);
    EveryAcceptedAnswerIsRemembered(DEPLOYMENT, b, Op.Post(c), 0, a);
    AHeldPostReplays(meant.book, p, a);
  }

  /** Over a book with the two accounts, the request is recorded once and then replayed. */
  lemma WhatTheTwoHear(b: Book, p: Planned) returns (first: Outcome<PostAnswer>, second: Outcome<PostAnswer>)
    requires HasTwoAccounts(b) && Valid(b) && p == PlanFor(Request())
    ensures Request().WellFormed() && !PlanFails(p) && first == PostOutcome(b, p) && second == PostOutcome(first.book, p)
    ensures first.answer.Ok? && !first.answer.value.replayed && second.answer.Ok? && second.answer.value.replayed
  {
    TheRequestPlans();
    TheRequestMayBeRecorded(b);
    first := PostOutcome(b, p);
    ItsPlanIsRecorded(b, p, LegsOfTransfer(3, 1, BRINK), first);
    ItReplays(b, Request(), p, first);
    second := PostOutcome(first.book, p);
  }

  // ---- the run ---------------------------------------------------------

  lemma TheOpenings() returns (ops: seq<Op>, fates: seq<Fate>, b: Book)
    ensures IsFaultyRun(ops, fates) && FaultyRun(DEPLOYMENT, ops, fates) == b && HasTwoAccounts(b) && Valid(b)
    ensures forall op :: op in ops ==> IsOf(op, TENANT)
  {
    ops, b := TwoAccountsAreReachable();
    fates := [Served, Served];
    EveryReachableBookIsValid(DEPLOYMENT, ops);
    ServedCallsLand(DEPLOYMENT, ops, fates);
  }

  /** Beside an idle pool, two accounts are opened. */
  lemma TheAccountsAreOpened() returns (states: seq<Pool>, steps: seq<Step>, store: Store)
    ensures IsARun(POLICY, 1, states, steps) && states[0].store == map[]
    ensures states[|steps|] == Idle(0, map[], map[], store)
    ensures HasTwoAccounts(BookOf(store, TENANT)) && Valid(BookOf(store, TENANT))
  {
    var ops, fates, b := TheOpenings();
    states, steps := EveryFaultyRunIsAPools(POLICY, 1, TENANT, ops, fates);
    store := states[|steps|].store;
    OneDispatcherStarts(store);
  }

  lemma OneDispatcherStarts(store: Store)
    ensures Started(1, store) == Idle(0, map[], map[], store)
  {
    assert Started(1, store).dispatchers == [AboutToDrain];
  }

  /** One more caller's command is posted alone, and it is told what that means. */
  lemma AnotherCallerIsTold(before: seq<Pool>, done: seq<Step>, n: nat, submitted: map<nat, PostTransaction>, answered: map<nat, Delivery>,
                            store: Store, s: Submission, p: Planned, meant: Outcome<PostAnswer>)
    returns (states: seq<Pool>, steps: seq<Step>)
    requires IsARun(POLICY, 1, before, done) && before[|done|] == Idle(n, submitted, answered, store)
    requires s.ticket !in submitted && s.command.WellFormed() && p == PlanFor(s.command) && !PlanFails(p)
    requires meant == PostOutcome(BookOf(store, s.command.tenantId), p) && meant.answer.Ok?
    ensures IsARun(POLICY, 1, states, steps) && states[0] == before[0]
    ensures states[|steps|] == Idle(n + 1, submitted[s.ticket := s.command], answered[s.ticket := Delivery(s.command, meant.answer)],
                                    store[s.command.tenantId := meant.book])
  {
    APostSettles(store, s, meant);
    states, steps := ACallerIsServed(before, done, n, submitted, answered, store, s, meant.answer, store[s.command.tenantId := meant.book]);
  }

  lemma TheyAreServed(before: seq<Pool>, done: seq<Step>, store: Store, c: PostTransaction, p: Planned,
                      first: Outcome<PostAnswer>, second: Outcome<PostAnswer>)
    returns (states: seq<Pool>, steps: seq<Step>)
    requires IsARun(POLICY, 1, before, done) && before[|done|] == Idle(0, map[], map[], store)
    requires c.WellFormed() && p == PlanFor(c) && !PlanFails(p)
    requires first == PostOutcome(BookOf(store, c.tenantId), p) && first.answer.Ok?
    requires second == PostOutcome(first.book, p) && second.answer.Ok?
    ensures IsARun(POLICY, 1, states, steps) && states[0] == before[0]
    ensures states[|steps|].answered == map[1 := Delivery(c, first.answer), 2 := Delivery(c, second.answer)]
  {
    var early, so := AnotherCallerIsTold(before, done, 0, map[], map[], store, Submission(1, c), p, first);
    states, steps := AnotherCallerIsTold(early, so, 1, map[][1 := c], map[][1 := Delivery(c, first.answer)],
                                         store[c.tenantId := first.book], Submission(2, c), p, second);
  }

  /** Two callers under one key are both told of success in some run, the first of a fresh
      one and the second of its replay: what is said of callers is said of somebody. */
  lemma TheSecondCallerHearsTheFirst() returns (states: seq<Pool>, steps: seq<Step>)
    ensures IsARun(POLICY, 1, states, steps) && BooksAreValid(states[0].store)
    ensures var told := states[|steps|].answered;
            && 1 in told && 2 in told && AskedTheSame(told[1], told[2])
            && !told[1].answer.value.replayed && told[2].answer.value.replayed
  {
    var before, done, store := TheAccountsAreOpened();
    TheRequestPlans();
    var first, second := WhatTheTwoHear(BookOf(store, TENANT), PlanFor(Request()));
    states, steps := TheyAreServed(before, done, store, Request(), PlanFor(Request()), first, second);
    EmptyBooksAreValid();
  }

  lemma EmptyBooksAreValid()
    ensures BooksAreValid(map[])
  {
    TheEmptyBookIsValid();
  }
}
