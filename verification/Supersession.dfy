/** The life of a transaction: withheld while pending, resolved or voided once,
    reversed once, and what each of these does to the balances. */
module Supersession {
  import opened Wrappers
  import opened Domain
  import opened Postings
  import opened Book
  import opened BookInvariants
  import opened Writer
  import opened WriterInvariants
  import opened Runs
  import Idempotency

  // ---- what the gate says ----------------------------------------------

  ghost predicate Stands(txns: seq<Txn>, id: nat, i: nat)
  {
    i < |txns| && txns[i].id == id
  }

  lemma TheTransactionFound(b: Book, id: nat, i: nat)
    requires TxnIdsAreFresh(b.txns, b.nextId, b.nextXact) && Stands(b.txns, id, i)
    ensures FindTxn(b.txns, id) == Some(b.txns[i])
  {
    FindTxnFinds(b.txns, id);
    var j :| 0 <= j < |b.txns| && b.txns[j] == FindTxn(b.txns, id).value && b.txns[j].id == id;
    OneIdOnePlace(b, i, j);
  }

  lemma OneIdOnePlace(b: Book, i: nat, j: nat)
    requires TxnIdsAreFresh(b.txns, b.nextId, b.nextXact)
    requires i < |b.txns| && j < |b.txns| && b.txns[i].id == b.txns[j].id
    ensures i == j
  {
  }

  ghost predicate IsResolvable(txns: seq<Txn>, id: nat, i: nat)
  {
    Stands(txns, id, i) && txns[i].status.Pending? && !IsSuperseded(txns, id)
  }

  ghost predicate IsReversible(txns: seq<Txn>, id: nat, i: nat)
  {
    Stands(txns, id, i) && txns[i].kind.OrdinaryPosting? && txns[i].Supersedes().None? && !IsSuperseded(txns, id)
  }

  /** A resolution passes exactly when its target stands, is pending and has not
      been superseded; it is refused as unknown exactly when no transaction has
      that id. */
  lemma AResolutionPassesExactly(b: Book, c: PostTransaction)
    requires TxnIdsAreFresh(b.txns, b.nextId, b.nextXact) && c.resolvesId.Some?
    ensures Gate(b, c).None? <==> exists i: nat :: IsResolvable(b.txns, c.resolvesId.value, i)
    ensures Gate(b, c) == Some(SupersedeRefusal.ResolveTargetUnknown) <==> !exists i: nat :: Stands(b.txns, c.resolvesId.value, i)
  {
    var id := c.resolvesId.value;
    if i: nat :| Stands(b.txns, id, i) {
      TheTransactionFound(b, id, i);
      assert Gate(b, c).None? <==> IsResolvable(b.txns, id, i);
      forall k: nat | IsResolvable(b.txns, id, k) ensures IsResolvable(b.txns, id, i) {
        TheTransactionFound(b, id, k);
      }
    } else {
      NobodyIsFound(b.txns, id);
    }
  }

  /** A reversal passes exactly when its target stands, is an ordinary posting that
      supersedes nothing, and has not been superseded. */
  lemma AReversalPassesExactly(b: Book, c: PostTransaction)
    requires TxnIdsAreFresh(b.txns, b.nextId, b.nextXact) && c.resolvesId.None? && c.reversesId.Some?
    ensures Gate(b, c).None? <==> exists i: nat :: IsReversible(b.txns, c.reversesId.value, i)
    ensures Gate(b, c) == Some(SupersedeRefusal.ReverseTargetUnknown) <==> !exists i: nat :: Stands(b.txns, c.reversesId.value, i)
  {
    var id := c.reversesId.value;
    if i: nat :| Stands(b.txns, id, i) {
      TheTransactionFound(b, id, i);
      assert Gate(b, c).None? <==> IsReversible(b.txns, id, i);
      forall k: nat | IsReversible(b.txns, id, k) ensures IsReversible(b.txns, id, i) {
        TheTransactionFound(b, id, k);
      }
    } else {
      NobodyIsFound(b.txns, id);
    }
  }

  lemma NobodyIsFound(txns: seq<Txn>, id: nat)
    requires !exists i: nat :: Stands(txns, id, i)
    ensures FindTxn(txns, id).None?
  {
    FindTxnFinds(txns, id);
    if FindTxn(txns, id).Some? {
      var j :| 0 <= j < |txns| && txns[j] == FindTxn(txns, id).value && txns[j].id == id;
      assert Stands(txns, id, j);
    }
  }

  // ---- what an accepted post moves -------------------------------------

  ghost predicate IsAccepted(b: Book, p: Planned)
  {
    ValidStaged(b) && p.command.WellFormed() && IsFreshPost(PostOutcome(b, p).answer)
  }

  ghost function RowAfter(b: Book, p: Planned, row: Key): Balance
  {
    BalanceOn(PostOutcome(b, p).book.balances, row)
  }

  lemma WhatAcceptanceWrites(b: Book, p: Planned)
    requires IsAccepted(b, p)
    ensures var after := PostOutcome(b, p).book;
            && Gate(b, p.command).None?
            && after.txns == b.txns + [TxnOf(b, ShapeOf(b, p.command), StatementLegs(b, p.command))]
            && after.balances == Upserted(b.balances, StatementLegs(b, p.command), p.command.status)
  {
    WhatAPostMeans(b, p);
  }

  lemma AnAcceptedPostMoves(b: Book, p: Planned, row: Key)
    requires IsAccepted(b, p)
    ensures var before, delta := BalanceOn(b.balances, row), DeltaOf(StatementLegs(b, p.command), row);
            && RowAfter(b, p, row).lastSeq == before.lastSeq + delta.legs
            && (p.command.status.Posted? ==>
                  RowAfter(b, p, row).input == before.input + delta.input && RowAfter(b, p, row).output == before.output + delta.output)
            && (p.command.status.Pending? ==> RowAfter(b, p, row).input == before.input && RowAfter(b, p, row).output == before.output)
  {
    WhatAcceptanceWrites(b, p);
    UpsertOnOneRow(b.balances, StatementLegs(b, p.command), p.command.status, row);
  }

  /** An accepted pending transaction moves no balance and takes its numbers all the same. */
  lemma APendingMovesNoBalance(b: Book, p: Planned, row: Key)
    requires IsAccepted(b, p) && p.command.status.Pending?
    ensures var before := BalanceOn(b.balances, row);
            RowAfter(b, p, row) == Balance(before.input, before.output, before.lastSeq + Count(p.Legs(), row))
  {
    AnAcceptedPostMoves(b, p, row);
  }

  lemma AReversalsTarget(b: Book, p: Planned, j: nat)
    requires IsAccepted(b, p) && p.command.reversesId.Some? && Stands(b.txns, p.command.reversesId.value, j)
    ensures StatementLegs(b, p.command) == if b.txns[j].status.Posted? then Mirrored(LegsIn(b.txns[j].entries)) else []
  {
    TheTransactionFound(b, p.command.reversesId.value, j);
  }

  /** Voiding a pending transaction changes no balance row and writes no entry. */
  lemma AVoidLeavesEveryBalance(b: Book, p: Planned, j: nat, row: Key)
    requires IsAccepted(b, p) && p.command.reversesId.Some? && Stands(b.txns, p.command.reversesId.value, j)
    requires b.txns[j].status.Pending?
    ensures RowAfter(b, p, row) == BalanceOn(b.balances, row)
    ensures AllEntries(PostOutcome(b, p).book.txns) == AllEntries(b.txns)
  {
    AReversalsTarget(b, p, j);
    AnAcceptedPostMoves(b, p, row);
    NoLegsMoveNothing(row);
    WhatAcceptanceWrites(b, p);
    NoLegsNoEntries(b.txns, TxnOf(b, ShapeOf(b, p.command), []));
  }

  lemma NoLegsMoveNothing(row: Key)
    ensures DeltaOf([], row) == Delta(0, 0, 0)
  {
  }

  lemma NoLegsNoEntries(txns: seq<Txn>, t: Txn)
    requires t.entries == []
    ensures AllEntries(txns + [t]) == AllEntries(txns)
  {
    AllEntriesOneMore(txns, t);
  }

  /** A reversal gives back, side for side, exactly what its target moved. */
  lemma AReversalGivesBackWhatItsTargetMoved(b: Book, p: Planned, j: nat, row: Key)
    requires IsAccepted(b, p) && p.command.reversesId.Some? && Stands(b.txns, p.command.reversesId.value, j)
    requires b.txns[j].status.Posted?
    ensures var before, moved := BalanceOn(b.balances, row), DeltaOf(LegsIn(b.txns[j].entries), row);
            RowAfter(b, p, row) == Balance(before.input + moved.output, before.output + moved.input, before.lastSeq + moved.legs)
  {
    AReversalsTarget(b, p, j);
    AnAcceptedPostMoves(b, p, row);
    MirroringSwapsTheSides(LegsIn(b.txns[j].entries), row);
  }

  /** A posting and its reversal, one after the other, leave every account's net
      position where it was. */
  lemma ReversingUndoesThePosting(b: Book, p: Planned, r: Planned, row: Key)
    requires IsAccepted(b, p) && p.command.Plain()
    requires var after := PostOutcome(b, p).book; IsAccepted(after, r) && r.command.reversesId == Some(b.nextId + 1)
    ensures var before, after := BalanceOn(b.balances, row), RowAfter(PostOutcome(b, p).book, r, row);
            after.input - after.output == before.input - before.output
  {
    var after := PostOutcome(b, p).book;
    WhatAPostMeans(b, p);
    var n := |b.txns|;
    assert Stands(after.txns, b.nextId + 1, n);
    LegsOfNumbered(b.balances, p.Legs());
    assert LegsIn(after.txns[n].entries) == p.Legs() && after.txns[n].status.Posted?;
    AnAcceptedPostMoves(b, p, row);
    AReversalGivesBackWhatItsTargetMoved(after, r, n, row);
  }

  // ---- once is for good ------------------------------------------------

  lemma ASupersededTargetIsRefused(b: Book, p: Planned, target: nat)
    requires ValidStaged(b) && p.command.WellFormed() && IsSuperseded(b.txns, target)
    requires p.command.resolvesId == Some(target) || p.command.reversesId == Some(target)
    ensures !IsFreshPost(PostOutcome(b, p).answer) && PostOutcome(b, p).book == b
  {
    WhatAPostMeans(b, p);
    assert Gate(b, p.command).Some?;
  }

  /** However the run goes on, a superseded transaction is never taken again: every
      later command that points at it is refused or replayed, and writes nothing. */
  lemma OnceSupersededIsForGood(d: Deployment, ops: seq<Op>, i: nat, k: nat, target: nat, c: PostTransaction)
    requires Idempotency.WellFormedRun(ops) && i <= k <= |ops| && c.WellFormed()
    requires IsSuperseded(Run(d, ops[..i]).txns, target)
    requires c.resolvesId == Some(target) || c.reversesId == Some(target)
    ensures var o := PostOutcome(Run(d, ops[..k]), PlanFor(c));
            !IsFreshPost(o.answer) && o.book == Run(d, ops[..k])
  {
    var early, late := Run(d, ops[..i]), Run(d, ops[..k]);
    assert ops[..k][..i] == ops[..i];
    Idempotency.RunsOnlyGrow(d, ops[..k], i);
    SupersededStays(early.txns, late.txns, target);
    EveryReachableBookIsValid(d, ops[..k]);
    ASupersededTargetIsRefused(late, PlanFor(c), target);
  }

  lemma SupersededStays(early: seq<Txn>, late: seq<Txn>, target: nat)
    requires early <= late && IsSuperseded(early, target)
    ensures IsSuperseded(late, target)
  {
    var i :| 0 <= i < |early| && early[i].Supersedes() == Some(target);
    assert late[i] == early[i];
  }

  /** An accepted resolution or reversal supersedes its target from then on. */
  lemma AnAcceptedSupersessionIsMade(b: Book, p: Planned)
    requires IsAccepted(b, p) && (p.command.resolvesId.Some? || p.command.reversesId.Some?)
    ensures var target := if p.command.resolvesId.Some? then p.command.resolvesId.value else p.command.reversesId.value;
            !IsSuperseded(b.txns, target) && IsSuperseded(PostOutcome(b, p).book.txns, target)
  {
    var target := if p.command.resolvesId.Some? then p.command.resolvesId.value else p.command.reversesId.value;
    WhatAcceptanceWrites(b, p);
    ThePassedTargetIsFree(b, p.command, target);
    TheLastSupersedes(b.txns, TxnOf(b, ShapeOf(b, p.command), StatementLegs(b, p.command)), target);
  }

  lemma ThePassedTargetIsFree(b: Book, c: PostTransaction, target: nat)
    requires Gate(b, c).None?
    requires c.resolvesId == Some(target) || (c.resolvesId.None? && c.reversesId == Some(target))
    ensures !IsSuperseded(b.txns, target)
  {
  }

  lemma TheLastSupersedes(txns: seq<Txn>, t: Txn, target: nat)
    requires t.Supersedes() == Some(target)
    ensures IsSuperseded(txns + [t], target)
  {
    assert (txns + [t])[|txns|] == t;
  }
}
