/** The other way about: every order of statements, each accepted at its turn, is the order
    some run of brackets commits them in. */
module SerialRuns {
  import opened Wrappers
  import opened Domain
  import opened Postings
  import opened Book
  import opened BookInvariants
  import opened AppendStatement
  import opened WriterInvariants
  import opened Brackets
  import opened SerialOrder

  /** A run of these statements that has come to this state, and committed in this order. */
  ghost predicate EndsIn(book: Book, statements: seq<seq<Planned>>, states: seq<State>, steps: seq<Step>, s: State, order: seq<nat>)
  {
    IsARun(book, statements, states, steps) && states[|steps|] == s && CommitOrder(steps, |steps|) == order
  }

  lemma {:induction false} LaterStepsCommitLater(steps: seq<Step>, step: Step, k: nat)
    requires k <= |steps|
    ensures CommitOrder(steps + [step], k) == CommitOrder(steps, k)
    decreases k
  {
    if k > 0 {
      LaterStepsCommitLater(steps, step, k - 1);
    }
  }

  lemma ARunGoesOn(book: Book, statements: seq<seq<Planned>>, states: seq<State>, steps: seq<Step>, step: Step, t: State)
    requires IsARun(book, statements, states, steps) && Enabled(states[|steps|], step) && t == Next(states[|steps|], step)
    ensures IsARun(book, statements, states + [t], steps + [step])
  {
    var on, more := states + [t], steps + [step];
    forall k | 0 <= k < |more| ensures Enabled(on[k], more[k]) && on[k + 1] == Next(on[k], more[k]) {
      if k < |steps| {
        assert on[k] == states[k] && on[k + 1] == states[k + 1] && more[k] == steps[k];
      }
    }
  }

  lemma OneStepOn(book: Book, statements: seq<seq<Planned>>, states: seq<State>, steps: seq<Step>, s: State, order: seq<nat>, step: Step)
    returns (on: seq<State>, more: seq<Step>)
    requires EndsIn(book, statements, states, steps, s, order) && Enabled(s, step)
    ensures EndsIn(book, statements, on, more, Next(s, step), OrderAfter(order, step))
  {
    ARunGoesOn(book, statements, states, steps, step, Next(s, step));
    on, more := states + [Next(s, step)], steps + [step];
    LaterStepsCommitLater(steps, step, |steps|);
  }

  // ---- one bracket, with nobody beside it ------------------------------

  /** Of all the brackets only this one runs, and its snapshot is the book. */
  ghost predicate RunsAlone(s: State, i: nat)
  {
    && IsRunning(s, i) && Sound(s) && s.brackets[i].seen == s.committed
    && forall j :: 0 <= j < |s.brackets| && j != i ==> !s.brackets[j].phase.Running?
  }

  /** It has got on, and nothing else has changed. */
  ghost predicate GotOn(s: State, t: State, i: nat)
  {
    && i < |s.brackets| && t.committed == s.committed && |t.brackets| == |s.brackets|
    && t.brackets[i].members == s.brackets[i].members
    && forall j :: 0 <= j < |s.brackets| && j != i ==> t.brackets[j] == s.brackets[j]
  }

  lemma ItIsTheOnlyOneToMove(s: State, i: nat, step: Step)
    requires Enabled(s, step) && step.i == i && (step.Ask? || step.TakeTheSlot? || step.MoveARow?)
    ensures GotOn(s, Next(s, step), i) && IsRunning(Next(s, step), i) && Next(s, step).brackets[i].seen == s.brackets[i].seen
  {
    match step
    case Ask(_) =>
    case TakeTheSlot(_) =>
    case MoveARow(_) =>
  }

  lemma AStepOfItsOwn(s: State, i: nat, step: Step)
    requires RunsAlone(s, i) && Enabled(s, step) && step.i == i && (step.Ask? || step.TakeTheSlot? || step.MoveARow?)
    ensures RunsAlone(Next(s, step), i) && GotOn(s, Next(s, step), i)
  {
    EveryStepKeepsItSound(s, step);
    ItIsTheOnlyOneToMove(s, i, step);
  }

  lemma {:induction false} ItAsks(book: Book, statements: seq<seq<Planned>>, states: seq<State>, steps: seq<Step>, s: State, order: seq<nat>, i: nat)
    returns (on: seq<State>, more: seq<Step>, t: State)
    requires EndsIn(book, statements, states, steps, s, order) && RunsAlone(s, i)
    ensures EndsIn(book, statements, on, more, t, order) && RunsAlone(t, i) && GotOn(s, t, i) && t.brackets[i].HasAsked()
    decreases |s.brackets[i].Askers()| - s.brackets[i].asked
  {
    on, more, t := states, steps, s;
    if !s.brackets[i].HasAsked() {
      on, more := OneStepOn(book, statements, states, steps, s, order, Ask(i));
      AStepOfItsOwn(s, i, Ask(i));
      on, more, t := ItAsks(book, statements, on, more, Next(s, Ask(i)), order, i);
    }
  }

  lemma TheNextRowFits(balances: map<Key, Balance>, legs: seq<Leg>, status: TransactionStatus, row: Key)
    requires row in KeysOf(legs) && Fits(Upserted(balances, legs, status))
    ensures BalanceFits(MovedBy(BalanceOn(balances, row), Cached(DeltaOf(legs, row), status)))
  {
    UpsertOnOneRow(balances, legs, status, row);
    assert row in Upserted(balances, legs, status);
  }

  ghost predicate ItsRowsFit(s: State, i: nat)
    requires i < |s.brackets|
  {
    Fits(Upserted(s.committed.balances, s.brackets[i].Legs(), s.brackets[i].Status()))
  }

  lemma ItsNextRowIsOpen(s: State, i: nat)
    requires RunsAlone(s, i) && s.brackets[i].HasAsked() && ItsRowsFit(s, i) && s.brackets[i].taken < |s.brackets[i].Rows()|
    ensures Enabled(s, MoveARow(i))
  {
    TheRowIsOfItsLegs(s.brackets[i]);
    TheNextRowFits(s.committed.balances, s.brackets[i].Legs(), s.brackets[i].Status(), s.brackets[i].Rows()[s.brackets[i].taken]);
  }

  lemma AfterItsNextRow(s: State, i: nat)
    requires RunsAlone(s, i) && Enabled(s, MoveARow(i)) && ItsRowsFit(s, i)
    ensures var t := Next(s, MoveARow(i));
            && RunsAlone(t, i) && GotOn(s, t, i) && ItsRowsFit(t, i) && t.brackets[i].HasAsked() && t.brackets[i].pointed == s.brackets[i].pointed
            && |t.brackets[i].Rows()| - t.brackets[i].taken == |s.brackets[i].Rows()| - s.brackets[i].taken - 1
  {
    AStepOfItsOwn(s, i, MoveARow(i));
  }

  lemma {:induction false} ItMovesItsRows(book: Book, statements: seq<seq<Planned>>, states: seq<State>, steps: seq<Step>, s: State, order: seq<nat>, i: nat)
    returns (on: seq<State>, more: seq<Step>, t: State)
    requires EndsIn(book, statements, states, steps, s, order) && RunsAlone(s, i) && s.brackets[i].HasAsked() && ItsRowsFit(s, i)
    ensures EndsIn(book, statements, on, more, t, order) && RunsAlone(t, i) && GotOn(s, t, i) && t.brackets[i].IsAtItsEnd()
    ensures t.brackets[i].pointed == s.brackets[i].pointed
    decreases |s.brackets[i].Rows()| - s.brackets[i].taken
  {
    on, more, t := states, steps, s;
    assert Stands(s.committed, s.brackets[i]);
    if s.brackets[i].taken < |s.brackets[i].Rows()| {
      ItsNextRowIsOpen(s, i);
      on, more := OneStepOn(book, statements, states, steps, s, order, MoveARow(i));
      AfterItsNextRow(s, i);
      on, more, t := ItMovesItsRows(book, statements, on, more, Next(s, MoveARow(i)), order, i);
    }
  }

  // ---- to its commit ---------------------------------------------------

  /** The slot it needs is open to it, and it takes it. */
  lemma ItTakesItsSlot(book: Book, statements: seq<seq<Planned>>, states: seq<State>, steps: seq<Step>, s: State, order: seq<nat>, i: nat)
    returns (on: seq<State>, more: seq<Step>, t: State)
    requires EndsIn(book, statements, states, steps, s, order) && RunsAlone(s, i) && s.brackets[i].HasAsked()
    requires IsAccepted(s.committed, s.brackets[i].members)
    ensures EndsIn(book, statements, on, more, t, order) && RunsAlone(t, i) && GotOn(s, t, i) && t.brackets[i].HasAsked()
    ensures HasItsSlot(t.brackets[i])
  {
    on, more, t := states, steps, s;
    var b := s.brackets[i];
    if b.IsAlone() && PointerOf(b.members[0].command).Some? && !b.pointed {
      AcceptedItMayTakeItsSlot(s, i);
      on, more := OneStepOn(book, statements, states, steps, s, order, TakeTheSlot(i));
      AStepOfItsOwn(s, i, TakeTheSlot(i));
      t := Next(s, TakeTheSlot(i));
    }
    ItsGatePasses(t, i);
  }

  lemma AcceptedItMayBeWritten(s: State, i: nat)
    requires RunsAlone(s, i) && s.brackets[i].IsAlone() && IsAccepted(s.committed, s.brackets[i].members)
    ensures CanBeWritten(s.committed, s.brackets[i].members[0])
  {
    assert s.brackets[i].members[0] in s.brackets[i].members;
    WhatAPostMeans(s.committed, s.brackets[i].members[0]);
  }

  lemma ItsGatePasses(s: State, i: nat)
    requires RunsAlone(s, i) && IsAccepted(s.committed, s.brackets[i].members)
    ensures s.brackets[i].IsAlone() ==> Gate(s.brackets[i].seen, s.brackets[i].members[0].command).None?
  {
    if s.brackets[i].IsAlone() {
      AcceptedItMayBeWritten(s, i);
    }
  }

  lemma ItHasItsKey(s: State, i: nat)
    requires RunsAlone(s, i) && s.brackets[i].IsAlone() && s.brackets[i].HasAsked() && s.brackets[i].members[0].Key() !in s.committed.events
    ensures s.brackets[i].members[0].Key() in s.brackets[i].won
  {
    assert Stands(s.committed, s.brackets[i]);
    assert s.brackets[i].Askers()[0] == s.brackets[i].members[0];
  }

  lemma APassedGateFoundTheSlotOpen(b: Book, c: PostTransaction)
    requires Gate(b, c).None? && PointerOf(c).Some?
    ensures !IsSuperseded(b.txns, PointerOf(c).value)
  {
  }

  lemma NobodyElseHasTheSlot(s: State, i: nat, pointer: Option<nat>)
    requires RunsAlone(s, i)
    ensures SlotIsFree(s, i, pointer)
  {
  }

  lemma AcceptedItMayTakeItsSlot(s: State, i: nat)
    requires RunsAlone(s, i) && s.brackets[i].HasAsked() && IsAccepted(s.committed, s.brackets[i].members)
    requires s.brackets[i].IsAlone() && PointerOf(s.brackets[i].members[0].command).Some?
    ensures Enabled(s, TakeTheSlot(i))
  {
    AcceptedItMayBeWritten(s, i);
    ItHasItsKey(s, i);
    ItsGatePasses(s, i);
    APassedGateFoundTheSlotOpen(s.committed, s.brackets[i].members[0].command);
    NobodyElseHasTheSlot(s, i, s.brackets[i].Pointer());
  }

  lemma AcceptedItsRowsFit(s: State, i: nat)
    requires RunsAlone(s, i) && s.brackets[i].HasAsked() && IsAccepted(s.committed, s.brackets[i].members)
    ensures ItsRowsFit(s, i)
  {
    var now, b := s.committed, s.brackets[i];
    assert Stands(now, b);
    if b.IsAlone() {
      AcceptedItMayBeWritten(s, i);
      ItHasItsKey(s, i);
      KnownLegsAreAll(now.accounts, StatementLegs(now, b.members[0].command));
    } else {
      TheWinnersProceed(now, b);
    }
  }

  lemma ItBegins(s: State, i: nat)
    requires Sound(s) && i < |s.brackets| && s.brackets[i].phase.NotBegun?
    requires forall j :: 0 <= j < |s.brackets| ==> !s.brackets[j].phase.Running?
    ensures Enabled(s, Begin(i)) && RunsAlone(Next(s, Begin(i)), i) && GotOn(s, Next(s, Begin(i)), i)
  {
    EveryStepKeepsItSound(s, Begin(i));
  }

  /** Nobody runs, and these are the ones that have not begun. */
  ghost predicate AreYetToBegin(s: State, order: seq<nat>)
  {
    && (forall j :: 0 <= j < |s.brackets| ==> !s.brackets[j].phase.Running?)
    && (forall j :: 0 <= j < |s.brackets| && j !in order ==> s.brackets[j].phase.NotBegun?)
  }

  lemma GettingOnGoesOn(s: State, t: State, u: State, i: nat)
    requires GotOn(s, t, i) && GotOn(t, u, i)
    ensures GotOn(s, u, i)
  {
  }

  /** With nobody beside it, an accepted statement's bracket comes to its end. */
  lemma ItComesToItsEnd(book: Book, statements: seq<seq<Planned>>, states: seq<State>, steps: seq<Step>, s: State, order: seq<nat>, i: nat)
    returns (on: seq<State>, more: seq<Step>, t: State)
    requires EndsIn(book, statements, states, steps, s, order) && RunsAlone(s, i) && IsAccepted(s.committed, s.brackets[i].members)
    ensures EndsIn(book, statements, on, more, t, order) && RunsAlone(t, i) && GotOn(s, t, i)
    ensures t.brackets[i].IsAtItsEnd() && HasItsSlot(t.brackets[i])
  {
    var s1, s2;
    on, more, s1 := ItAsks(book, statements, states, steps, s, order, i);
    on, more, s2 := ItTakesItsSlot(book, statements, on, more, s1, order, i);
    GettingOnGoesOn(s, s1, s2, i);
    AcceptedItsRowsFit(s2, i);
    on, more, t := ItMovesItsRows(book, statements, on, more, s2, order, i);
    GettingOnGoesOn(s, s2, t, i);
    ItsGatePasses(t, i);
  }

  lemma ItCommits(s: State, order: seq<nat>, i: nat)
    requires RunsAlone(s, i) && s.brackets[i].IsAtItsEnd() && HasItsSlot(s.brackets[i]) && IsAccepted(s.committed, s.brackets[i].members)
    requires forall j :: 0 <= j < |s.brackets| && j != i && j !in order ==> s.brackets[j].phase.NotBegun?
    ensures Enabled(s, Commit(i)) && AreYetToBegin(Next(s, Commit(i)), order + [i])
  {
    AtItsEndItCommitsExactlyWhenAccepted(s, i);
  }

  /** And so to its commit. */
  lemma ItRunsToItsCommit(book: Book, statements: seq<seq<Planned>>, states: seq<State>, steps: seq<Step>, s: State, order: seq<nat>, i: nat)
    returns (on: seq<State>, more: seq<Step>, t: State)
    requires EndsIn(book, statements, states, steps, s, order) && Sound(s) && AreYetToBegin(s, order)
    requires i < |s.brackets| && i !in order && IsAccepted(s.committed, s.brackets[i].members)
    ensures EndsIn(book, statements, on, more, t, order + [i]) && AreYetToBegin(t, order + [i])
  {
    ItBegins(s, i);
    var begun := Next(s, Begin(i));
    var end;
    on, more := OneStepOn(book, statements, states, steps, s, order, Begin(i));
    on, more, end := ItComesToItsEnd(book, statements, on, more, begun, order, i);
    GettingOnGoesOn(s, begun, end, i);
    ItCommits(end, order, i);
    on, more := OneStepOn(book, statements, on, more, end, order, Commit(i));
    t := Next(end, Commit(i));
  }

  // ---- every order -----------------------------------------------------

  /** Each statement is accepted at its turn. */
  ghost predicate AreAcceptedInTurn(book: Book, statements: seq<seq<Planned>>, order: seq<nat>)
  {
    && IsAnOrder(order, |statements|)
    && forall n :: 0 <= n < |order| ==> IsAnOrder(order[..n], |statements|) && IsAccepted(InTurn(book, statements, order[..n]), statements[order[n]])
  }

  lemma ItsTurn(book: Book, statements: seq<seq<Planned>>, order: seq<nat>, n: nat)
    requires AreAcceptedInTurn(book, statements, order) && n < |order|
    ensures IsAnOrder(order[..n], |statements|) && order[n] < |statements| && order[n] !in order[..n]
    ensures IsAccepted(InTurn(book, statements, order[..n]), statements[order[n]])
  {
  }

  lemma ItIsTheNext(book: Book, statements: seq<seq<Planned>>, s: State, front: seq<nat>, i: nat)
    requires IsInOrder(book, statements, s, front) && i < |statements| && IsAccepted(InTurn(book, statements, front), statements[i])
    ensures Sound(s) && i < |s.brackets| && IsAccepted(s.committed, s.brackets[i].members)
  {
  }

  lemma WhatARunLeaves(book: Book, statements: seq<seq<Planned>>, states: seq<State>, steps: seq<Step>, s: State, order: seq<nat>)
    requires Valid(book) && AreStatements(statements) && EndsIn(book, statements, states, steps, s, order)
    ensures IsInOrder(book, statements, s, order)
  {
    BracketsLeaveWhatTheirOrderLeaves(book, statements, states, steps, |steps|);
  }

  lemma OneMoreCommits(book: Book, statements: seq<seq<Planned>>, states: seq<State>, steps: seq<Step>, s: State, front: seq<nat>, i: nat)
    returns (on: seq<State>, more: seq<Step>, t: State)
    requires EndsIn(book, statements, states, steps, s, front) && IsInOrder(book, statements, s, front) && AreYetToBegin(s, front)
    requires i < |statements| && i !in front && IsAccepted(InTurn(book, statements, front), statements[i])
    ensures EndsIn(book, statements, on, more, t, front + [i]) && AreYetToBegin(t, front + [i])
  {
    ItIsTheNext(book, statements, s, front, i);
    on, more, t := ItRunsToItsCommit(book, statements, states, steps, s, front, i);
  }

  lemma NobodyHasBegun(book: Book, statements: seq<seq<Planned>>)
    ensures EndsIn(book, statements, [Starting(book, statements)], [], Starting(book, statements), [])
    ensures AreYetToBegin(Starting(book, statements), [])
  {
  }

  lemma {:induction false} SomeRunCommitsUpTo(book: Book, statements: seq<seq<Planned>>, order: seq<nat>, n: nat, upTo: seq<nat>)
    returns (states: seq<State>, steps: seq<Step>, s: State)
    requires Valid(book) && AreStatements(statements) && AreAcceptedInTurn(book, statements, order) && n <= |order| && upTo == order[..n]
    ensures EndsIn(book, statements, states, steps, s, upTo) && AreYetToBegin(s, upTo)
    decreases n
  {
    if n == 0 {
      NobodyHasBegun(book, statements);
      states, steps, s := [Starting(book, statements)], [], Starting(book, statements);
    } else {
      var front, i := order[..n - 1], order[n - 1];
      assert upTo == front + [i];
      states, steps, s := SomeRunCommitsUpTo(book, statements, order, n - 1, front);
      WhatARunLeaves(book, statements, states, steps, s, front);
      ItsTurn(book, statements, order, n - 1);
      states, steps, s := OneMoreCommits(book, statements, states, steps, s, front, i);
    }
  }

  /** Any statements, in any order in which each is accepted at its turn: some run of their
      brackets commits exactly these, in exactly this order. */
  lemma EveryOrderIsSomeRuns(book: Book, statements: seq<seq<Planned>>, order: seq<nat>)
    returns (states: seq<State>, steps: seq<Step>, s: State)
    requires Valid(book) && AreStatements(statements) && AreAcceptedInTurn(book, statements, order)
    ensures EndsIn(book, statements, states, steps, s, order) && IsInOrder(book, statements, s, order)
  {
    assert order[..|order|] == order;
    states, steps, s := SomeRunCommitsUpTo(book, statements, order, |order|, order);
    WhatARunLeaves(book, statements, states, steps, s, order);
  }
}
