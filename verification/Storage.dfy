/** The storage port, in memory: a committed store, one open bracket, and statements
    that stage their writes in it. Any call may fail as storage does, and then the
    bracket is gone; a failing commit leaves either book. */
module Storage {
  import opened Wrappers
  import opened Bytes
  import opened Domain
  import opened Accounts
  import opened Periods
  import opened Postings
  import opened KeyOrder
  import opened Port
  import opened Book
  import opened Closing
  import opened Writer
  import opened AppendStatement
  import opened BatchStatement
  import opened Stores
  import Statements = Book
  import Writing = Writer
  import ClosingStatements = Closing

  datatype StorageError = StorageError

  /** The open database transaction: the books its statements have written. */
  datatype Bracket = NoBracket | Staging(writes: Store)

  lemma TheUpsertsAnswerTheDeltas(b: Book, legs: seq<Leg>, status: TransactionStatus, deltas: map<Key, Delta>, upserts: seq<BalanceUpsert>)
    requires AreDeltasOf(deltas, legs, status)
    requires var order := InKeyOrder(deltas.Keys);
             && |upserts| == |order|
             && forall i :: 0 <= i < |upserts| ==> order[i] in deltas && upserts[i] == UpsertOf(b.accounts, b.balances, deltas, order[i])
    ensures upserts == UpsertsFor(b, Upserted(b.balances, KnownLegs(b.accounts, legs), status), legs)
  {
    var order := InKeyOrder(deltas.Keys);
    var answers := UpsertsFor(b, Upserted(b.balances, KnownLegs(b.accounts, legs), status), legs);
    forall i | 0 <= i < |upserts| ensures upserts[i] == answers[i] {
      OneUpsertAnswersItsDelta(b, legs, status, deltas, order[i]);
    }
  }

  lemma OneUpsertAnswersItsDelta(b: Book, legs: seq<Leg>, status: TransactionStatus, deltas: map<Key, Delta>, row: Key)
    requires AreDeltasOf(deltas, legs, status) && row in deltas
    ensures UpsertOf(b.accounts, b.balances, deltas, row)
         == BalanceUpsert(row, if IsKnown(b.accounts, row)
                               then Some(BalanceOn(Upserted(b.balances, KnownLegs(b.accounts, legs), status), row).lastSeq) else None)
  {
    if IsKnown(b.accounts, row) {
      AKnownRowsCounter(b, legs, status, deltas, row);
    }
  }

  lemma AKnownRowsCounter(b: Book, legs: seq<Leg>, status: TransactionStatus, deltas: map<Key, Delta>, row: Key)
    requires AreDeltasOf(deltas, legs, status) && row in deltas && IsKnown(b.accounts, row)
    ensures BalanceOn(Upserted(b.balances, KnownLegs(b.accounts, legs), status), row).lastSeq
         == BalanceOn(b.balances, row).lastSeq + deltas[row].legs
  {
    TheRowsAgree(b.accounts, b.balances, legs, status, deltas, row);
    InKeyOrderListsEveryKey(deltas.Keys);
  }

  /** The plan a reversal's statement derives from its target, or the caller's own. */
  method PlanOrMirror(b: Book, c: PostTransaction, append: Append) returns (legs: seq<Leg>, offsets: seq<nat>, deltas: map<Key, Delta>)
    requires IsPlanFor(append, c.postings, c.status)
    ensures legs == StatementLegs(b, c) && |offsets| == |legs| && AreDeltasOf(deltas, legs, c.status)
    ensures forall i :: 0 <= i < |legs| ==> offsets[i] == OffsetAt(legs, i)
  {
    if c.reversesId.None? {
      return append.legs, append.seqOffsets, append.deltas;
    }
    legs := StatementLegs(b, c);
    offsets := OffsetsBackFromLastSeq(legs);
    deltas := map row | row in KeysOf(legs) :: Cached(DeltaOf(legs, row), c.status);
  }

  /** The single append, step by step: the claim gates everything, the upserts and
      the entries follow from it, and a gated target withholds the transaction. */
  method AppendTo(b: Book, p: Planned, append: Append) returns (claimed: Statement<Option<Claimed>>)
    requires IsPlanFor(append, p.command.postings, p.command.status)
    ensures claimed == Statements.ClaimAndAppend(b, p)
  {
    if p.Key() in b.events {
      return Answered(None, b);
    }
    var legs, offsets, deltas := PlanOrMirror(b, p.command, append);
    var balances, upserts := UpsertInOrder(b.accounts, b.balances, deltas);
    TheUpsertsAreTheCoalescedOnes(b.accounts, b.balances, legs, p.command.status, deltas, balances);
    TheUpsertsAnswerTheDeltas(b, legs, p.command.status, deltas, upserts);
    if !Fits(balances) {
      return Failed;
    }
    if Gate(b, p.command).Some? {
      return Answered(Some(SupersessionRefused(Gate(b, p.command).value)), Claiming(b, p, balances, b.txns, 1));
    }
    var entries := NumberEntries(b.accounts, balances, legs, offsets);
    ThePlanNumbersTheEntries(b.accounts, b.balances, legs, p.command.status, offsets);
    var txn := Txn(b.nextId + 1, b.nextId, OrdinaryPosting, p.command.status, EffectiveAt(b, p.command),
                   p.command.resolvesId, p.command.reversesId, b.nextXact, entries);
    TheStatementInPieces(b, p, legs);
    return Answered(Some(Claimed.Appended(b.nextId, b.nextId + 1, upserts)), Claiming(b, p, balances, b.txns + [txn], 2));
  }

  /** The claim and what it gates, put together. */
  function Claiming(b: Book, p: Planned, balances: map<Key, Balance>, txns: seq<Txn>, ids: nat): Book
  {
    b.(events := b.events[p.Key() := Event(b.nextId, p.hash)], txns := txns, balances := balances, nextId := b.nextId + ids)
  }

  lemma TheStatementInPieces(b: Book, p: Planned, legs: seq<Leg>)
    requires p.Key() !in b.events && Gate(b, p.command).None? && legs == StatementLegs(b, p.command)
    ensures var known := KnownLegs(b.accounts, legs);
            var balances := Upserted(b.balances, known, p.command.status);
            var txn := Txn(b.nextId + 1, b.nextId, OrdinaryPosting, p.command.status, EffectiveAt(b, p.command),
                           p.command.resolvesId, p.command.reversesId, b.nextXact, Numbered(b.balances, known));
            Fits(balances) ==>
              Statements.ClaimAndAppend(b, p)
              == Answered(Some(Claimed.Appended(b.nextId, b.nextId + 1, UpsertsFor(b, balances, legs))),
                          Claiming(b, p, balances, b.txns + [txn], 2))
  {
  }

  function Checkpointing(b: Book, c: ClosePeriod, plan: ClosePlan, transactionId: nat, computedAt: nat): Statement<nat>
    requires (c.periodCode, c.currency) in b.closes
  {
    var checkpointed := ClosingStatements.CheckpointTheClose(b, c, plan, transactionId, computedAt);
    Answered(|checkpointed.closes[(c.periodCode, c.currency)].checkpoint|, checkpointed)
  }

  class Repository {
    const deployment: Deployment
    var committed: Store
    var bracket: Bracket

    constructor (deployment: Deployment)
      ensures this.deployment == deployment && committed == map[] && bracket == NoBracket
    {
      this.deployment := deployment;
      committed := map[];
      bracket := NoBracket;
    }

    /** The book a statement of the open bracket sees. */
    function Sees(tenant: Text): Book
      requires bracket.Staging?
      reads this
    {
      if tenant in bracket.writes then bracket.writes[tenant] else BookOf(committed, tenant)
    }

    /** Every tenant's book, as a statement across tenants sees them. */
    function Seen(): Store
      requires bracket.Staging?
      reads this
    {
      committed + bracket.writes
    }

    method Begin() returns (r: Result<(), StorageError>)
      modifies this`bracket
      ensures r.Ok? ==> bracket == Staging(map[])
      ensures r.Err? ==> bracket == NoBracket
    {
      if * {
        bracket := NoBracket;
        return Err(StorageError);
      }
      bracket := Staging(map[]);
      return Ok(());
    }

    /** Commit the bracket: everything in it becomes durable together. A commit that
        fails answers nothing about which book it left. */
    method Commit() returns (r: Result<(), StorageError>)
      requires bracket.Staging?
      modifies this`committed, this`bracket
      ensures bracket == NoBracket
      ensures committed == old(committed) || committed == old(Durable())
      ensures r.Ok? ==> committed == old(Durable())
    {
      var durable := Durable();
      bracket := NoBracket;
      if * {
        if * {
          committed := durable;
        }
        return Err(StorageError);
      }
      committed := durable;
      return Ok(());
    }

    /** What committing now would leave. */
    function Durable(): Store
      requires bracket.Staging?
      reads this
    {
      CommittedAll(committed, bracket.writes)
    }

    method Rollback() returns (r: Result<(), StorageError>)
      requires bracket.Staging?
      modifies this`bracket
      ensures bracket == NoBracket
    {
      bracket := NoBracket;
      if * {
        return Err(StorageError);
      }
      return Ok(());
    }

    // ---- one statement, one lookup --------------------------------------

    /** What a statement answered is what its contract answers over the book the
        bracket saw, and its writes are staged; a failed one takes the bracket down. */
    ghost predicate Ran<T(!new)>(writes: Store, tenant: Text, statement: Statement<T>, r: Result<T, StorageError>)
      reads this
    {
      if r.Err? then bracket == NoBracket
      else statement.Answered? && r.value == statement.answer && bracket == Staging(writes[tenant := statement.staged])
    }

    method Stage<T(!new)>(tenant: Text, statement: Statement<T>) returns (r: Result<T, StorageError>)
      requires bracket.Staging?
      modifies this`bracket
      ensures Ran(old(bracket.writes), tenant, statement, r)
    {
      if * {
        bracket := NoBracket;
        return Err(StorageError);
      }
      match statement
      case Failed =>
        bracket := NoBracket;
        return Err(StorageError);
      case Answered(answer, staged) =>
        bracket := Staging(bracket.writes[tenant := staged]);
        return Ok(answer);
    }

    method Look<T(!new)>(answer: T) returns (r: Result<T, StorageError>)
      requires bracket.Staging?
      modifies this`bracket
      ensures r.Ok? ==> r.value == answer && bracket == old(bracket)
      ensures r.Err? ==> bracket == NoBracket
    {
      if * {
        bracket := NoBracket;
        return Err(StorageError);
      }
      return Ok(answer);
    }

    // ---- posting -------------------------------------------------------

    method ClaimAndAppend(c: PostTransaction, hash: Text, append: Append) returns (r: Result<Option<Claimed>, StorageError>)
      requires bracket.Staging? && IsPlanFor(append, c.postings, c.status)
      modifies this`bracket
      ensures Ran(old(bracket.writes), c.tenantId, Statements.ClaimAndAppend(old(Sees(c.tenantId)), Planned(c, hash)), r)
    {
      var claimed := AppendTo(Sees(c.tenantId), Planned(c, hash), append);
      r := Stage(c.tenantId, claimed);
    }

    method StoredResult(p: Planned) returns (r: Result<Option<(nat, Option<nat>)>, StorageError>)
      requires bracket.Staging?
      modifies this`bracket
      ensures r.Ok? ==> r.value == Statements.StoredResult(old(Sees(p.command.tenantId)), p) && bracket == old(bracket)
      ensures r.Err? ==> bracket == NoBracket
    {
      r := Look(Statements.StoredResult(Sees(p.command.tenantId), p));
    }

    /** The batched statement: members of any tenants, each with its plan's legs. */
    method ClaimAndAppendBatch(members: seq<Planned>) returns (r: Result<seq<MemberOutcome>, StorageError>)
      requires bracket.Staging?
      modifies this`bracket
      ensures RanAcross(old(bracket.writes), ClaimAndAppendAcross(old(Seen()), members), r)
    {
      var claimed := AppendAcross(Seen(), members);
      if * {
        bracket := NoBracket;
        return Err(StorageError);
      }
      match claimed
      case StoreFailed =>
        bracket := NoBracket;
        return Err(StorageError);
      case StoreAnswered(outcomes, writes) =>
        bracket := Staging(bracket.writes + writes);
        return Ok(outcomes);
    }

    ghost predicate RanAcross<T(!new)>(writes: Store, statement: StoreStatement<T>, r: Result<T, StorageError>)
      reads this
    {
      if r.Err? then bracket == NoBracket
      else statement.StoreAnswered? && r.value == statement.answer && bracket == Staging(writes + statement.writes)
    }

    method StoredResultBatch(members: seq<Planned>) returns (r: Result<seq<Option<(nat, Option<nat>)>>, StorageError>)
      requires bracket.Staging?
      modifies this`bracket
      ensures r.Ok? ==> r.value == StoredResults(old(Seen()), members) && bracket == old(bracket)
      ensures r.Err? ==> bracket == NoBracket
    {
      r := Look(StoredResults(Seen(), members));
    }

    // ---- opening an account --------------------------------------------

    method ChartTripleForPurpose(purpose: Text) returns (r: Result<Option<ChartTriple>, StorageError>)
      requires bracket.Staging?
      modifies this`bracket
      ensures r.Ok? ==> r.value == (if purpose in deployment.chart then Some(deployment.chart[purpose]) else None) && bracket == old(bracket)
      ensures r.Err? ==> bracket == NoBracket
    {
      r := Look(if purpose in deployment.chart then Some(deployment.chart[purpose]) else None);
    }

    method ClaimAndOpenAccount(c: OpenAccount, hash: Text, triple: ChartTriple) returns (r: Result<Option<OpenedAccount>, StorageError>)
      requires bracket.Staging?
      modifies this`bracket
      ensures Ran(old(bracket.writes), c.tenantId, Writing.ClaimAndOpenAccount(old(Sees(c.tenantId)), c, hash, triple), r)
    {
      r := Stage(c.tenantId, Writing.ClaimAndOpenAccount(Sees(c.tenantId), c, hash, triple));
    }

    method StoredAccount(c: OpenAccount, hash: Text) returns (r: Result<Option<(nat, Option<nat>)>, StorageError>)
      requires bracket.Staging?
      modifies this`bracket
      ensures r.Ok? ==> r.value == Writing.StoredAccount(old(Sees(c.tenantId)), c, hash) && bracket == old(bracket)
      ensures r.Err? ==> bracket == NoBracket
    {
      r := Look(Writing.StoredAccount(Sees(c.tenantId), c, hash));
    }

    // ---- the period ----------------------------------------------------

    method ClaimAndDefinePeriod(c: DefinePeriod, hash: Text) returns (r: Result<Option<DefinedPeriod>, StorageError>)
      requires bracket.Staging?
      modifies this`bracket
      ensures Ran(old(bracket.writes), c.tenantId, Writing.ClaimAndDefinePeriod(deployment, old(Sees(c.tenantId)), c, hash), r)
    {
      r := Stage(c.tenantId, Writing.ClaimAndDefinePeriod(deployment, Sees(c.tenantId), c, hash));
    }

    method StoredPeriod(c: DefinePeriod, hash: Text) returns (r: Result<Option<(nat, Option<Period>)>, StorageError>)
      requires bracket.Staging?
      modifies this`bracket
      ensures r.Ok? ==> r.value == Writing.StoredPeriod(old(Sees(c.tenantId)), c, hash) && bracket == old(bracket)
      ensures r.Err? ==> bracket == NoBracket
    {
      r := Look(Writing.StoredPeriod(Sees(c.tenantId), c, hash));
    }

    method PeriodCloseContext(c: ClosePeriod) returns (r: Result<Option<PeriodCloseContext>, StorageError>)
      requires bracket.Staging?
      modifies this`bracket
      ensures r.Ok? ==> r.value == CloseContext(old(Sees(c.tenantId)), c) && bracket == old(bracket)
      ensures r.Err? ==> bracket == NoBracket
    {
      r := Look(CloseContext(Sees(c.tenantId), c));
    }

    method ClaimAndClosePeriod(c: ClosePeriod, hash: Text, plan: ClosePlan) returns (r: Result<Option<ClosedPeriod>, StorageError>)
      requires bracket.Staging?
      modifies this`bracket
      ensures Ran(old(bracket.writes), c.tenantId, ClosingStatements.ClaimAndClosePeriod(old(Sees(c.tenantId)), c, hash, plan), r)
    {
      r := Stage(c.tenantId, ClosingStatements.ClaimAndClosePeriod(Sees(c.tenantId), c, hash, plan));
    }

    /** Step four, over what the bracket has already written: how many rows it wrote. */
    method CheckpointTheClose(c: ClosePeriod, plan: ClosePlan, transactionId: nat, computedAt: nat) returns (r: Result<nat, StorageError>)
      requires bracket.Staging?
      requires (c.periodCode, c.currency) in Sees(c.tenantId).closes
      modifies this`bracket
      ensures Ran(old(bracket.writes), c.tenantId, Checkpointing(old(Sees(c.tenantId)), c, plan, transactionId, computedAt), r)
    {
      r := Stage(c.tenantId, Checkpointing(Sees(c.tenantId), c, plan, transactionId, computedAt));
    }

    method StoredClose(c: ClosePeriod, hash: Text) returns (r: Result<bool, StorageError>)
      requires bracket.Staging?
      modifies this`bracket
      ensures r.Ok? ==> r.value == HeldByThisClose(old(Sees(c.tenantId)), c, hash) && bracket == old(bracket)
      ensures r.Err? ==> bracket == NoBracket
    {
      r := Look(HeldByThisClose(Sees(c.tenantId), c, hash));
    }
  }
}
