/** Every run of the writer: any mix of posts, batches, openings, definitions and
    closes, accepted or refused, over one tenant's book. */
module Runs {
  import opened Domain
  import opened Accounts
  import opened Periods
  import opened Postings
  import opened Book
  import opened BookInvariants
  import opened Writer
  import opened WriterInvariants
  import opened BatchRefinement
  import opened CloseExactness

  /** One call of the writer. A batch is whatever commands were handed over. */
  datatype Op =
    | Post(post: PostTransaction)
    | Batch(commands: seq<PostTransaction>)
    | Open(open: OpenAccount)
    | Define(define: DefinePeriod)
    | Close(close: ClosePeriod)
  {
    /** The commands passed their own constructors. */
    predicate WellFormed()
    {
      match this
      case Post(c) => c.WellFormed()
      case Batch(cs) => forall c :: c in cs ==> c.WellFormed()
      case Open(c) => c.WellFormed()
      case Define(c) => c.WellFormed()
      case Close(c) => c.WellFormed()
    }
  }

  /** The committed book after one call. */
  ghost function After(d: Deployment, b: Book, op: Op): Book
    requires op.WellFormed()
  {
    match op
    case Post(c) => PostOutcome(b, PlanFor(c)).book
    case Batch(cs) => BatchOutcome(b, PlannedAll(cs)).book
    case Open(c) => OpenOutcome(d, b, c, CanonicalOpen(c)).book
    case Define(c) => DefineOutcome(d, b, c, CanonicalDefine(c)).book
    case Close(c) => CloseOutcome(b, c, CanonicalClose(c)).book
  }

  ghost function Run(d: Deployment, ops: seq<Op>): Book
    requires forall op :: op in ops ==> op.WellFormed()
  {
    if ops == [] then EMPTY_BOOK else After(d, Run(d, ops[..|ops| - 1]), ops[|ops| - 1])
  }

  // ---- a batch keeps the book valid ------------------------------------

  /** Planned from a command its constructor let through. */
  ghost predicate IsPlanned(p: Planned)
  {
    p.command.WellFormed() && TaggedBy(p.hash, POST_LETTER)
  }

  ghost predicate AllPlanned(members: seq<Planned>)
  {
    forall p :: p in members ==> IsPlanned(p)
  }

  ghost predicate AllProceed(b: Book, members: seq<Planned>)
  {
    forall p :: p in members ==> Proceeds(b, p)
  }

  lemma APlainPostIsRecordable(b: Book, now: Book, p: Planned)
    requires b.accounts == now.accounts && p.Key() !in now.events
    requires IsPlanned(p) && p.command.Plain() && Proceeds(b, p)
    requires Fits(Upserted(now.balances, p.Legs(), TransactionStatus.Posted))
    ensures Recordable(now, p.Key(), p.hash, ShapeOf(b, p.command), p.Legs())
  {
    LegsOfPostingsArePositive(p.command.postings);
    LegsOfPostingsBalance(p.command.postings);
  }

  lemma {:induction false} RecordingInTurnKeepsTheBookValid(b: Book, members: seq<Planned>)
    requires ValidStaged(b) && AllPlain(members) && AllPlanned(members) && AllProceed(b, members) && DistinctKeys(members)
    requires Fits(RecordedInTurn(b, members).balances)
    ensures ValidStaged(RecordedInTurn(b, members))
    decreases |members|
  {
    if members != [] {
      var n := |members| - 1;
      var front, p := members[..n], members[n];
      assert p in members;
      LegsOfPostingsArePositive(p.command.postings);
      FittedAllAlong(RecordedInTurn(b, front).balances, p.Legs(), TransactionStatus.Posted);
      RecordingInTurnKeepsTheBookValid(b, front);
      RecordingInTurnClaimsTheirKeys(b, front);
      APlainPostIsRecordable(b, RecordedInTurn(b, front), p);
      RecordingKeepsTheBookValid(RecordedInTurn(b, front), p.Key(), p.hash, ShapeOf(b, p.command), p.Legs());
    }
  }

  lemma {:induction false} ProceedingAreDistinct(b: Book, members: seq<Planned>)
    requires !AClaimIsShared(b, members)
    ensures DistinctKeys(Proceeding(b, members))
    decreases |members|
  {
    if members != [] {
      var n := |members| - 1;
      var front := members[..n];
      forall i, j | 0 <= i < n && 0 <= j < n && i != j && Proceeds(b, front[i]) ensures front[i].Key() != front[j].Key() {
        assert front[i] == members[i] && front[j] == members[j];
      }
      ProceedingAreDistinct(b, front);
      ProceedingAreMembers(b, front);
      forall p | p in Proceeding(b, front) && Proceeds(b, members[n]) ensures p.Key() != members[n].Key() {
        var i :| 0 <= i < n && front[i] == p;
        assert members[i] == p;
      }
    }
  }

  lemma TheSharedStatementKeepsTheBookValid(b: Book, members: seq<Planned>)
    requires Valid(b) && AllPlanned(members) && ClaimAndAppendBatch(b, members).Answered?
    ensures Valid(AppendedTogether(b, members).book)
  {
    var proceeding := Proceeding(b, members);
    ProceedingAreMembers(b, members);
    ProceedingAreDistinct(b, members);
    forall p | p in proceeding ensures p.command.Plain() && IsPlanned(p) && Proceeds(b, p) {
      var i :| 0 <= i < |members| && members[i] == p;
    }
    TheSharedStatementRecordsInTurn(b, proceeding);
    RecordingInTurnKeepsTheBookValid(b, proceeding);
    CommittingKeepsTheBookValid(b, BatchWritten(b, proceeding));
  }

  lemma BatchingKeepsTheBookValid(b: Book, commands: seq<Planned>)
    requires Valid(b) && AllPlanned(commands)
    ensures Valid(BatchOutcome(b, commands).book)
  {
    var survivors := Survivors(commands);
    SurvivorsAreCommands(commands);
    if |survivors| == 1 {
      assert survivors[0] in survivors;
      PostingKeepsTheBookValid(b, survivors[0]);
    } else if |survivors| > 1 && ClaimAndAppendBatch(b, survivors).Answered? {
      TheSharedStatementKeepsTheBookValid(b, survivors);
    }
  }

  // ---- every reachable book is valid -----------------------------------

  lemma PlansAreTagged(commands: seq<PostTransaction>)
    requires forall c :: c in commands ==> c.WellFormed()
    ensures AllPlanned(PlannedAll(commands))
  {
    forall p | p in PlannedAll(commands) ensures IsPlanned(p) {
      var i :| 0 <= i < |commands| && PlannedAll(commands)[i] == p;
      assert commands[i] in commands;
      PostFormsAreTagged(commands[i]);
    }
  }

  lemma EveryCallKeepsTheBookValid(d: Deployment, b: Book, op: Op)
    requires Valid(b) && op.WellFormed()
    ensures Valid(After(d, b, op))
  {
    match op
    case Post(c) =>
      PostFormsAreTagged(c);
      PostingKeepsTheBookValid(b, PlanFor(c));
    case Batch(cs) =>
      PlansAreTagged(cs);
      BatchingKeepsTheBookValid(b, PlannedAll(cs));
    case Open(c) => OpeningKeepsTheBookValid(d, b, c);
    case Define(c) => DefiningKeepsTheBookValid(d, b, c);
    case Close(c) => ClosingKeepsTheBookValid(b, c);
  }

  lemma TheEmptyBookIsValid()
    ensures Valid(EMPTY_BOOK)
  {
  }

  /** The invariants survive every run. */
  lemma {:induction false} EveryReachableBookIsValid(d: Deployment, ops: seq<Op>)
    requires forall op :: op in ops ==> op.WellFormed()
    ensures Valid(Run(d, ops))
    decreases |ops|
  {
    if ops == [] {
      TheEmptyBookIsValid();
    } else {
      EveryReachableBookIsValid(d, ops[..|ops| - 1]);
      assert ops[|ops| - 1] in ops;
      EveryCallKeepsTheBookValid(d, Run(d, ops[..|ops| - 1]), ops[|ops| - 1]);
    }
  }
}
