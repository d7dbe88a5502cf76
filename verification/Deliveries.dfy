/** Over any run of the pool every submission is queued, in flight or answered, in
    exactly one place, and answered once, with its own command's answer. */
module Deliveries {
  import opened Wrappers
  import opened Domain
  import opened Port
  import opened Queue
  import opened Dispatchers
  import Book
  import Storage
  import Stores
  import opened Service

  predicate Holds(xs: seq<Submission>, ticket: nat)
  {
    exists k :: 0 <= k < |xs| && xs[k].ticket == ticket
  }

  function BatchOf(phase: Phase): seq<Submission>
  {
    if phase.Posting? then phase.batch else []
  }

  predicate IsInFlight(dispatchers: seq<Phase>, ticket: nat)
  {
    exists i :: 0 <= i < |dispatchers| && Holds(BatchOf(dispatchers[i]), ticket)
  }

  predicate IsSubmitted(submitted: map<nat, PostTransaction>, s: Submission)
  {
    s.ticket in submitted && submitted[s.ticket] == s.command
  }

  /** The queue, and what it holds of what was submitted. */
  ghost predicate QueueIsSound(waiting: seq<Submission>, submitted: map<nat, PostTransaction>, answered: map<nat, Delivery>)
  {
    && DistinctTickets(waiting)
    && (forall s :: s in waiting ==> IsSubmitted(submitted, s))
    && (forall ticket :: ticket in answered ==> !Holds(waiting, ticket))
  }

  /** One batch in flight. */
  ghost predicate FlightIsSound(batch: seq<Submission>, waiting: seq<Submission>, submitted: map<nat, PostTransaction>, answered: map<nat, Delivery>)
  {
    && DistinctTickets(batch)
    && (forall s :: s in batch ==> IsSubmitted(submitted, s))
    && (forall ticket :: ticket in answered ==> !Holds(batch, ticket))
    && (forall ticket: nat :: Holds(batch, ticket) ==> !Holds(waiting, ticket))
  }

  ghost predicate FlightsAreSound(p: Pool)
  {
    && (forall i :: 0 <= i < |p.dispatchers| ==> FlightIsSound(BatchOf(p.dispatchers[i]), p.waiting, p.submitted, p.answered))
    && (forall i, j, ticket: nat :: 0 <= i < |p.dispatchers| && 0 <= j < |p.dispatchers| && i != j && Holds(BatchOf(p.dispatchers[i]), ticket)
          ==> !Holds(BatchOf(p.dispatchers[j]), ticket))
  }

  ghost predicate NobodyIsLost(p: Pool)
  {
    forall ticket :: ticket in p.submitted ==>
      ticket in p.answered || Holds(p.waiting, ticket) || IsInFlight(p.dispatchers, ticket)
  }

  ghost predicate Conserved(p: Pool)
  {
    && QueueIsSound(p.waiting, p.submitted, p.answered)
    && FlightsAreSound(p)
    && NobodyIsLost(p)
    && (forall ticket :: ticket in p.answered ==> ticket in p.submitted && p.answered[ticket].command == p.submitted[ticket])
    && (forall ticket :: ticket in p.submitted ==> p.submitted[ticket].WellFormed())
  }

  // ---- steps that move nobody ------------------------------------------

  ghost predicate SameFlights(before: seq<Phase>, after: seq<Phase>)
  {
    |before| == |after| && forall i :: 0 <= i < |before| ==> BatchOf(before[i]) == BatchOf(after[i])
  }

  lemma MovingNobodyConserves(p: Pool, q: Pool)
    requires Conserved(p) && SameFlights(p.dispatchers, q.dispatchers)
    requires q.waiting == p.waiting && q.submitted == p.submitted && q.answered == p.answered
    ensures Conserved(q)
  {
    forall ticket | IsInFlight(p.dispatchers, ticket) ensures IsInFlight(q.dispatchers, ticket) {
      var i :| 0 <= i < |p.dispatchers| && Holds(BatchOf(p.dispatchers[i]), ticket);
      assert Holds(BatchOf(q.dispatchers[i]), ticket);
    }
  }

  // ---- pushing ---------------------------------------------------------

  lemma PushingConserves(p: Pool, s: Submission)
    requires Conserved(p) && s.ticket !in p.submitted && s.command.WellFormed()
    ensures Conserved(p.(waiting := p.waiting + [s], aboutToNotify := p.aboutToNotify + 1, submitted := p.submitted[s.ticket := s.command]))
  {
    var q := p.(waiting := p.waiting + [s], aboutToNotify := p.aboutToNotify + 1, submitted := p.submitted[s.ticket := s.command]);
    TheQueueAfterAPush(p, s);
    forall i | 0 <= i < |p.dispatchers| ensures FlightIsSound(BatchOf(p.dispatchers[i]), q.waiting, q.submitted, q.answered) {
      AFlightIgnoresAPush(BatchOf(p.dispatchers[i]), p, s);
    }
    HoldsOneMore(p.waiting, s);
    assert NobodyIsLost(q);
  }

  lemma TheQueueAfterAPush(p: Pool, s: Submission)
    requires QueueIsSound(p.waiting, p.submitted, p.answered) && s.ticket !in p.submitted && s.ticket !in p.answered
    ensures QueueIsSound(p.waiting + [s], p.submitted[s.ticket := s.command], p.answered)
  {
    HoldsOneMore(p.waiting, s);
    forall k | 0 <= k < |p.waiting| ensures p.waiting[k].ticket != s.ticket {
      assert IsSubmitted(p.submitted, p.waiting[k]);
    }
  }

  lemma HoldsOneMore(xs: seq<Submission>, s: Submission)
    ensures forall ticket: nat :: Holds(xs + [s], ticket) <==> Holds(xs, ticket) || s.ticket == ticket
  {
    forall ticket: nat | Holds(xs, ticket) || s.ticket == ticket ensures Holds(xs + [s], ticket) {
      if Holds(xs, ticket) {
        var k :| 0 <= k < |xs| && xs[k].ticket == ticket;
        assert (xs + [s])[k] == xs[k];
      } else {
        assert (xs + [s])[|xs|] == s;
      }
    }
  }

  lemma AFlightIgnoresAPush(batch: seq<Submission>, p: Pool, s: Submission)
    requires FlightIsSound(batch, p.waiting, p.submitted, p.answered) && s.ticket !in p.submitted
    ensures FlightIsSound(batch, p.waiting + [s], p.submitted[s.ticket := s.command], p.answered)
  {
    HoldsOneMore(p.waiting, s);
    forall x | x in batch ensures x.ticket != s.ticket {
      assert IsSubmitted(p.submitted, x);
    }
  }

  // ---- draining --------------------------------------------------------

  /** A split shares the tickets out, each to one side. */
  lemma {:induction false} ASplitSharesTheTicketsOut(queue: seq<Submission>, batch: seq<Submission>, left: seq<Submission>)
    requires Splits(queue, batch, left) && DistinctTickets(queue)
    ensures DistinctTickets(batch) && DistinctTickets(left)
    ensures forall ticket: nat :: Holds(batch, ticket) ==> !Holds(left, ticket)
    decreases |queue|
  {
    if queue != [] {
      forall i, j | 0 <= i < j < |queue| - 1 ensures queue[1..][i].ticket != queue[1..][j].ticket {
      }
      if batch != [] && batch[0] == queue[0] && Splits(queue[1..], batch[1..], left) {
        ASplitSharesTheTicketsOut(queue[1..], batch[1..], left);
        TheHeadIsNowhereElse(queue, batch[1..], left);
        PuttingTheHeadBack(queue[0], batch, left);
      } else {
        ASplitSharesTheTicketsOut(queue[1..], batch, left[1..]);
        TheHeadIsNowhereElse(queue, batch, left[1..]);
        PuttingTheHeadBack(queue[0], left, batch);
      }
    }
  }

  lemma TheHeadIsNowhereElse(queue: seq<Submission>, batch: seq<Submission>, left: seq<Submission>)
    requires queue != [] && DistinctTickets(queue) && Splits(queue[1..], batch, left)
    ensures !Holds(batch, queue[0].ticket) && !Holds(left, queue[0].ticket)
  {
    TakenAreWaiting(queue[1..], batch, left);
    forall k | 0 <= k < |batch| ensures batch[k].ticket != queue[0].ticket {
      assert batch[k] in queue[1..];
    }
    forall k | 0 <= k < |left| ensures left[k].ticket != queue[0].ticket {
      assert left[k] in queue[1..];
    }
  }

  lemma PuttingTheHeadBack(head: Submission, whole: seq<Submission>, other: seq<Submission>)
    requires whole != [] && whole[0] == head && DistinctTickets(whole[1..])
    requires !Holds(whole[1..], head.ticket) && !Holds(other, head.ticket)
    requires forall ticket: nat :: Holds(whole[1..], ticket) ==> !Holds(other, ticket)
    ensures DistinctTickets(whole) && forall ticket: nat :: Holds(whole, ticket) ==> !Holds(other, ticket)
  {
    forall i, j | 0 <= i < j < |whole| ensures whole[i].ticket != whole[j].ticket {
      assert whole[j] == whole[1..][j - 1];
      if i > 0 {
        assert whole[i] == whole[1..][i - 1];
      }
    }
    forall ticket: nat | Holds(whole, ticket) ensures !Holds(other, ticket) {
      var k :| 0 <= k < |whole| && whole[k].ticket == ticket;
      if k > 0 {
        assert whole[1..][k - 1].ticket == ticket;
      }
    }
  }

  lemma ASplitHoldsTheSame(queue: seq<Submission>, batch: seq<Submission>, left: seq<Submission>)
    requires Splits(queue, batch, left)
    ensures forall ticket: nat :: Holds(queue, ticket) <==> Holds(batch, ticket) || Holds(left, ticket)
  {
    TakenAreWaiting(queue, batch, left);
    forall ticket: nat ensures Holds(queue, ticket) <==> Holds(batch, ticket) || Holds(left, ticket) {
      if Holds(queue, ticket) {
        var k :| 0 <= k < |queue| && queue[k].ticket == ticket;
        assert queue[k] in batch || queue[k] in left;
      }
      if Holds(batch, ticket) {
        var k :| 0 <= k < |batch| && batch[k].ticket == ticket;
        assert batch[k] in queue;
      }
      if Holds(left, ticket) {
        var k :| 0 <= k < |left| && left[k].ticket == ticket;
        assert left[k] in queue;
      }
    }
  }

  /** What leaving the queue for a dispatcher's hands looks like. */
  ghost predicate TakesOff(p: Pool, q: Pool, i: nat, batch: seq<Submission>)
  {
    && i < |p.dispatchers| == |q.dispatchers| && BatchOf(p.dispatchers[i]) == [] && BatchOf(q.dispatchers[i]) == batch
    && (forall j :: 0 <= j < |p.dispatchers| && j != i ==> BatchOf(q.dispatchers[j]) == BatchOf(p.dispatchers[j]))
    && Splits(p.waiting, batch, q.waiting)
    && q.submitted == p.submitted && q.answered == p.answered
  }

  lemma TheFlightsAfterATakeOff(p: Pool, q: Pool, i: nat, batch: seq<Submission>, j: nat)
    requires Conserved(p) && TakesOff(p, q, i, batch) && j < |q.dispatchers|
    ensures FlightIsSound(BatchOf(q.dispatchers[j]), q.waiting, q.submitted, q.answered)
    ensures j != i ==> forall ticket: nat :: Holds(BatchOf(q.dispatchers[j]), ticket) ==> !Holds(batch, ticket)
  {
    ASplitSharesTheTicketsOut(p.waiting, batch, q.waiting);
    ASplitHoldsTheSame(p.waiting, batch, q.waiting);
    TakenAreWaiting(p.waiting, batch, q.waiting);
    assert FlightIsSound(BatchOf(p.dispatchers[j]), p.waiting, p.submitted, p.answered);
  }

  lemma TakingOffConserves(p: Pool, q: Pool, i: nat, batch: seq<Submission>)
    requires Conserved(p) && TakesOff(p, q, i, batch)
    ensures Conserved(q)
  {
    forall j | 0 <= j < |q.dispatchers|
      ensures FlightIsSound(BatchOf(q.dispatchers[j]), q.waiting, q.submitted, q.answered)
      ensures j != i ==> forall ticket: nat :: Holds(BatchOf(q.dispatchers[j]), ticket) ==> !Holds(batch, ticket) {
      TheFlightsAfterATakeOff(p, q, i, batch, j);
    }
    TheQueueAfterATakeOff(p, q, i, batch);
    NobodyIsLostTakingOff(p, q, i, batch);
  }

  lemma TheQueueAfterATakeOff(p: Pool, q: Pool, i: nat, batch: seq<Submission>)
    requires Conserved(p) && TakesOff(p, q, i, batch)
    ensures QueueIsSound(q.waiting, q.submitted, q.answered)
  {
    ASplitSharesTheTicketsOut(p.waiting, batch, q.waiting);
    ASplitHoldsTheSame(p.waiting, batch, q.waiting);
    TakenAreWaiting(p.waiting, batch, q.waiting);
  }

  lemma NobodyIsLostTakingOff(p: Pool, q: Pool, i: nat, batch: seq<Submission>)
    requires NobodyIsLost(p) && TakesOff(p, q, i, batch)
    ensures NobodyIsLost(q)
  {
    ASplitHoldsTheSame(p.waiting, batch, q.waiting);
    forall ticket | ticket in q.submitted && ticket !in q.answered && !Holds(q.waiting, ticket) ensures IsInFlight(q.dispatchers, ticket) {
      if Holds(p.waiting, ticket) {
        assert Holds(BatchOf(q.dispatchers[i]), ticket);
      } else {
        var j :| 0 <= j < |p.dispatchers| && Holds(BatchOf(p.dispatchers[j]), ticket);
        assert Holds(BatchOf(q.dispatchers[j]), ticket);
      }
    }
  }

  // ---- posting and answering -------------------------------------------

  /** The caller behind a submission has been told what became of its own command. */
  predicate Hears(answered: map<nat, Delivery>, s: Submission, answer: PostAnswer)
  {
    s.ticket in answered && answered[s.ticket] == Delivery(s.command, answer)
  }

  /** A delivery reaches exactly its batch's tickets, each with its own answer. */
  lemma {:induction false} EachCallerHearsItsOwnAnswer(answered: map<nat, Delivery>, batch: seq<Submission>, answers: seq<PostAnswer>)
    requires |answers| == |batch| && DistinctTickets(batch)
    ensures forall ticket: nat :: ticket in Delivered(answered, batch, answers) <==> ticket in answered || Holds(batch, ticket)
    ensures forall k :: 0 <= k < |batch| ==> Hears(Delivered(answered, batch, answers), batch[k], answers[k])
    ensures forall ticket :: ticket in answered && !Holds(batch, ticket) ==> Delivered(answered, batch, answers)[ticket] == answered[ticket]
    decreases |batch|
  {
    if batch != [] {
      var n := |batch| - 1;
      assert batch == batch[..n] + [batch[n]];
      HoldsOneMore(batch[..n], batch[n]);
      EachCallerHearsItsOwnAnswer(answered, batch[..n], answers[..n]);
      assert !Holds(batch[..n], batch[n].ticket);
    }
  }

  ghost predicate Lands(p: Pool, q: Pool, i: nat, answers: seq<PostAnswer>)
  {
    && i < |p.dispatchers| == |q.dispatchers| && BatchOf(q.dispatchers[i]) == []
    && (forall j :: 0 <= j < |p.dispatchers| && j != i ==> BatchOf(q.dispatchers[j]) == BatchOf(p.dispatchers[j]))
    && |answers| == |BatchOf(p.dispatchers[i])|
    && q.answered == Delivered(p.answered, BatchOf(p.dispatchers[i]), answers)
    && q.waiting == p.waiting && q.submitted == p.submitted
  }

  lemma TheOthersAfterALanding(p: Pool, q: Pool, i: nat, answers: seq<PostAnswer>)
    requires Conserved(p) && Lands(p, q, i, answers)
    ensures QueueIsSound(q.waiting, q.submitted, q.answered) && FlightsAreSound(q)
  {
    assert FlightIsSound(BatchOf(p.dispatchers[i]), p.waiting, p.submitted, p.answered);
    EachCallerHearsItsOwnAnswer(p.answered, BatchOf(p.dispatchers[i]), answers);
    forall j | 0 <= j < |q.dispatchers| && j != i
      ensures FlightIsSound(BatchOf(q.dispatchers[j]), q.waiting, q.submitted, q.answered) {
      assert FlightIsSound(BatchOf(p.dispatchers[j]), p.waiting, p.submitted, p.answered);
    }
  }

  lemma NobodyIsLostLanding(p: Pool, q: Pool, i: nat, answers: seq<PostAnswer>)
    requires Conserved(p) && Lands(p, q, i, answers)
    ensures NobodyIsLost(q)
  {
    var batch := BatchOf(p.dispatchers[i]);
    assert FlightIsSound(batch, p.waiting, p.submitted, p.answered);
    EachCallerHearsItsOwnAnswer(p.answered, batch, answers);
    forall ticket | ticket in q.submitted && ticket !in q.answered && !Holds(q.waiting, ticket) ensures IsInFlight(q.dispatchers, ticket) {
      var j :| 0 <= j < |p.dispatchers| && Holds(BatchOf(p.dispatchers[j]), ticket);
      assert Holds(BatchOf(q.dispatchers[j]), ticket);
    }
  }

  lemma TheAnswersAfterALanding(p: Pool, q: Pool, i: nat, answers: seq<PostAnswer>)
    requires Conserved(p) && Lands(p, q, i, answers)
    ensures forall ticket :: ticket in q.answered ==> ticket in q.submitted && q.answered[ticket].command == q.submitted[ticket]
  {
    var batch := BatchOf(p.dispatchers[i]);
    assert FlightIsSound(batch, p.waiting, p.submitted, p.answered);
    EachCallerHearsItsOwnAnswer(p.answered, batch, answers);
    forall ticket | ticket in q.answered ensures ticket in q.submitted && q.answered[ticket].command == q.submitted[ticket] {
      if Holds(batch, ticket) {
        var k :| 0 <= k < |batch| && batch[k].ticket == ticket;
        assert IsSubmitted(p.submitted, batch[k]);
      }
    }
  }

  lemma LandingConserves(p: Pool, q: Pool, i: nat, answers: seq<PostAnswer>)
    requires Conserved(p) && Lands(p, q, i, answers)
    ensures Conserved(q)
  {
    TheOthersAfterALanding(p, q, i, answers);
    NobodyIsLostLanding(p, q, i, answers);
    TheAnswersAfterALanding(p, q, i, answers);
  }

  // ---- every step ------------------------------------------------------

  lemma WakingMovesNobody(p: Pool, wakes: Option<nat>)
    requires Conserved(p) && MayWake(p.dispatchers, wakes)
    ensures Conserved(Woken(p, wakes))
  {
    MovingNobodyConserves(p, Woken(p, wakes));
  }

  lemma ADrainConserves(policy: Policy, p: Pool, i: nat)
    requires Conserved(p) && i < |p.dispatchers| && p.dispatchers[i].AboutToDrain?
    ensures Conserved(AfterTheDrain(policy, p, i))
  {
    if p.waiting != [] {
      OneDrainIsExact(p.waiting, policy.ceiling);
    }
    TakingOffConserves(p, AfterTheDrain(policy, p, i), i, Drained(p.waiting, policy.ceiling).batch);
  }

  lemma ANotificationConserves(p: Pool, wakes: Option<nat>)
    requires Conserved(p) && p.aboutToNotify > 0 && MayWake(p.dispatchers, wakes)
    ensures Conserved(Woken(p.(aboutToNotify := p.aboutToNotify - 1), wakes))
  {
    var q := p.(aboutToNotify := p.aboutToNotify - 1);
    MovingNobodyConserves(p, q);
    WakingMovesNobody(q, wakes);
  }

  lemma ADrainStepConserves(policy: Policy, p: Pool, i: nat, wakes: Option<nat>)
    requires Conserved(p) && Enabled(policy, p, DrainQueue(i, wakes))
    ensures Conserved(Next(policy, p, DrainQueue(i, wakes)))
  {
    ADrainConserves(policy, p, i);
    if HandsTheBatonOn(policy, p) {
      WakingMovesNobody(AfterTheDrain(policy, p, i), wakes);
    }
  }

  lemma GoingToSleepConserves(policy: Policy, p: Pool, i: nat)
    requires Conserved(p) && Enabled(policy, p, GoToSleep(i))
    ensures Conserved(Next(policy, p, GoToSleep(i)))
  {
    MovingNobodyConserves(p, Next(policy, p, GoToSleep(i)));
  }

  lemma PostingConserves(policy: Policy, p: Pool, step: Step)
    requires Conserved(p) && step.PostAndAnswer? && Enabled(policy, p, step)
    ensures Conserved(Next(policy, p, step))
  {
    LandingConserves(p, Next(policy, p, step), step.dispatcher, step.answers);
  }

  lemma APushStepConserves(policy: Policy, p: Pool, ticket: nat, command: PostTransaction)
    requires Conserved(p) && Enabled(policy, p, PushBack(ticket, command))
    ensures Conserved(Next(policy, p, PushBack(ticket, command)))
  {
    PushingConserves(p, Submission(ticket, command));
  }

  lemma ANotificationStepConserves(policy: Policy, p: Pool, wakes: Option<nat>)
    requires Conserved(p) && Enabled(policy, p, Notify(wakes))
    ensures Conserved(Next(policy, p, Notify(wakes)))
  {
    ANotificationConserves(p, wakes);
  }

  lemma EveryStepConserves(policy: Policy, p: Pool, step: Step)
    requires Conserved(p) && Enabled(policy, p, step)
    ensures Conserved(Next(policy, p, step))
  {
    match step
    case PushBack(ticket, command) => APushStepConserves(policy, p, ticket, command);
    case Notify(wakes) => ANotificationStepConserves(policy, p, wakes);
    case DrainQueue(i, wakes) => ADrainStepConserves(policy, p, i, wakes);
    case GoToSleep(i) => GoingToSleepConserves(policy, p, i);
    case PostAndAnswer(_, _, _) => PostingConserves(policy, p, step);
    case Elsewhere(_, _, _, store) => MovingNobodyConserves(p, p.(store := store));
  }

  lemma TheStartConserves(dispatchers: nat, store: Stores.Store)
    ensures Conserved(Started(dispatchers, store))
  {
  }

  lemma {:induction false} EveryReachablePoolConserves(policy: Policy, dispatchers: nat, states: seq<Pool>, steps: seq<Step>, k: nat)
    requires IsARun(policy, dispatchers, states, steps) && k < |states|
    ensures Conserved(states[k])
    decreases k
  {
    if k == 0 {
      TheStartConserves(dispatchers, states[0].store);
    } else {
      EveryReachablePoolConserves(policy, dispatchers, states, steps, k - 1);
      EveryStepConserves(policy, states[k - 1], steps[k - 1]);
    }
  }

  /** Over any run, every submission is in exactly one place: queued, in one
      dispatcher's hands, or answered; and an answer is to its own command. */
  lemma EverySubmissionIsInOnePlace(policy: Policy, dispatchers: nat, states: seq<Pool>, steps: seq<Step>, k: nat, ticket: nat)
    requires IsARun(policy, dispatchers, states, steps) && k < |states| && ticket in states[k].submitted
    ensures var p := states[k];
            && (ticket in p.answered || Holds(p.waiting, ticket) || IsInFlight(p.dispatchers, ticket))
            && !(ticket in p.answered && Holds(p.waiting, ticket))
            && !(ticket in p.answered && IsInFlight(p.dispatchers, ticket))
            && !(Holds(p.waiting, ticket) && IsInFlight(p.dispatchers, ticket))
            && (forall i, j :: 0 <= i < j < |p.dispatchers| && Holds(BatchOf(p.dispatchers[i]), ticket) ==> !Holds(BatchOf(p.dispatchers[j]), ticket))
            && (ticket in p.answered ==> p.answered[ticket].command == p.submitted[ticket])
  {
    var p := states[k];
    EveryReachablePoolConserves(policy, dispatchers, states, steps, k);
    if IsInFlight(p.dispatchers, ticket) {
      var i :| 0 <= i < |p.dispatchers| && Holds(BatchOf(p.dispatchers[i]), ticket);
      assert FlightIsSound(BatchOf(p.dispatchers[i]), p.waiting, p.submitted, p.answered);
    }
  }

  lemma WhatFliesIsWellFormed(p: Pool, i: nat)
    requires Conserved(p) && i < |p.dispatchers| && p.dispatchers[i].Posting?
    ensures AllWellFormed(p.dispatchers[i].batch)
  {
    assert FlightIsSound(BatchOf(p.dispatchers[i]), p.waiting, p.submitted, p.answered);
    forall s | s in p.dispatchers[i].batch ensures s.command.WellFormed() {
      assert IsSubmitted(p.submitted, s);
    }
  }

  /** In every reachable pool with a dispatcher, queued work can be served: some step
      other than a push is open. */
  lemma QueuedWorkCanAlwaysBeServed(policy: Policy, dispatchers: nat, states: seq<Pool>, steps: seq<Step>, k: nat) returns (step: Step)
    requires IsARun(policy, dispatchers, states, steps) && k < |states| && dispatchers > 0 && states[k].waiting != []
    ensures Serves(policy, states[k], step)
  {
    EveryReachablePoolIsAwake(policy, dispatchers, states, steps, k);
    EveryReachablePoolConserves(policy, dispatchers, states, steps, k);
    ThePoolKeepsItsSize(policy, dispatchers, states, steps, k);
    forall i | 0 <= i < |states[k].dispatchers| && states[k].dispatchers[i].Posting? ensures AllWellFormed(states[k].dispatchers[i].batch) {
      WhatFliesIsWellFormed(states[k], i);
    }
    step := WorkNeverGetsStuck(policy, states[k]);
  }

  lemma WhatAStepAnswers(policy: Policy, p: Pool, step: Step)
    requires Enabled(policy, p, step)
    ensures Next(policy, p, step).answered
         == if step.PostAndAnswer? then Delivered(p.answered, p.dispatchers[step.dispatcher].batch, step.answers) else p.answered
  {
    match step
    case PushBack(_, _) =>
    case Notify(_) =>
    case DrainQueue(_, _) =>
    case GoToSleep(_) =>
    case PostAndAnswer(_, _, _) =>
    case Elsewhere(_, _, _, _) =>
  }

  /** An answer once given is never given again. */
  lemma AnAnswerStands(policy: Policy, p: Pool, step: Step, ticket: nat)
    requires Conserved(p) && Enabled(policy, p, step) && ticket in p.answered
    ensures ticket in Next(policy, p, step).answered && Next(policy, p, step).answered[ticket] == p.answered[ticket]
  {
    WhatAStepAnswers(policy, p, step);
    if step.PostAndAnswer? {
      DeliveringKeepsAnswers(p, step.dispatcher, step.answers, ticket);
    }
  }

  lemma DeliveringKeepsAnswers(p: Pool, i: nat, answers: seq<PostAnswer>, ticket: nat)
    requires Conserved(p) && IsPosting(p, i) && |answers| == |p.dispatchers[i].batch| && ticket in p.answered
    ensures ticket in Delivered(p.answered, p.dispatchers[i].batch, answers)
    ensures Delivered(p.answered, p.dispatchers[i].batch, answers)[ticket] == p.answered[ticket]
  {
    assert FlightIsSound(BatchOf(p.dispatchers[i]), p.waiting, p.submitted, p.answered);
    EachCallerHearsItsOwnAnswer(p.answered, p.dispatchers[i].batch, answers);
  }

  /** The answer a caller hears is the one its batch's posting gives at its place. */
  lemma TheAnswerIsTheBatchsOwn(policy: Policy, p: Pool, q: Pool, step: Step, k: nat)
    requires Conserved(p) && step.PostAndAnswer? && Enabled(policy, p, step) && q == Next(policy, p, step)
    requires k < |p.dispatchers[step.dispatcher].batch|
    ensures Hears(q.answered, p.dispatchers[step.dispatcher].batch[k], step.answers[k])
  {
    var batch := p.dispatchers[step.dispatcher].batch;
    assert FlightIsSound(BatchOf(p.dispatchers[step.dispatcher]), p.waiting, p.submitted, p.answered);
    EachCallerHearsItsOwnAnswer(p.answered, batch, step.answers);
  }

  // ---- the turn itself -------------------------------------------------

  /** The tail of a dispatcher's turn: post the batch, then answer each caller on its
      own. What it leaves and says is what the pool's posting step allows. */
  method PostTheBatchAndAnswerItsCallers(writer: LedgerService, batch: seq<Submission>, answered: map<nat, Delivery>)
    returns (told: map<nat, Delivery>, ghost answers: seq<PostAnswer>)
    requires AllWellFormed(batch) && writer.repository.bracket == Storage.NoBracket
    modifies writer.repository
    ensures writer.repository.bracket == Storage.NoBracket
    ensures MaySettle(old(writer.repository.committed), writer.repository.committed, batch, answers)
    ensures told == Delivered(answered, batch, answers)
  {
    var commands, callers := [], [];
    var i := 0;
    while i < |batch|
      invariant 0 <= i <= |batch| && |commands| == |callers| == i
      invariant forall k :: 0 <= k < i ==> commands[k] == batch[k].command && callers[k] == batch[k].ticket
    {
      commands := commands + [batch[i].command];
      callers := callers + [batch[i].ticket];
      i := i + 1;
    }
    assert commands == CommandsOf(batch);
    CommandsAreWellFormed(batch);
    var heard := writer.PostBatch(commands);
    OneAnswerEach(old(writer.repository.committed), writer.repository.committed, Book.PlannedAll(commands), heard);
    answers := heard;
    told := AnswerEach(commands, callers, heard, answered, batch);
  }

  lemma OneAnswerEach(before: Stores.Store, after: Stores.Store, commands: seq<Book.Planned>, answers: seq<PostAnswer>)
    requires SettlesTheBatch(before, after, commands, answers)
    ensures |answers| == |commands|
  {
  }

  /** `answers.into_iter().zip(callers)`, each sent down its own channel. */
  method AnswerEach(commands: seq<PostTransaction>, callers: seq<nat>, answers: seq<PostAnswer>, answered: map<nat, Delivery>,
                    ghost batch: seq<Submission>)
    returns (told: map<nat, Delivery>)
    requires |commands| == |callers| == |answers| == |batch|
    requires forall k :: 0 <= k < |batch| ==> commands[k] == batch[k].command && callers[k] == batch[k].ticket
    ensures told == Delivered(answered, batch, answers)
  {
    told := answered;
    var i := 0;
    while i < |answers|
      invariant 0 <= i <= |answers|
      invariant told == Delivered(answered, batch[..i], answers[..i])
    {
      assert batch[..i + 1][..i] == batch[..i] && answers[..i + 1][..i] == answers[..i];
      told := told[callers[i] := Delivery(commands[i], answers[i])];
      i := i + 1;
    }
    assert batch[..i] == batch && answers[..i] == answers;
  }
}
