/** Whatever posting brackets do beside one another on one book, the book is the one that
    posting their statements one after another, in the order they committed, leaves. */
module SerialOrder {
  import opened Wrappers
  import opened Bytes
  import opened Domain
  import opened Postings
  import opened KeyOrder
  import opened Port
  import opened Book
  import opened BookInvariants
  import opened AppendStatement
  import opened Writer
  import opened WriterInvariants
  import opened BatchRefinement
  import opened Runs
  import opened Brackets

  // ---- what a running bracket may rely on ------------------------------

  /** The snapshot is an earlier state of the book, its accounts the same. */
  ghost predicate IsLater(seen: Book, now: Book)
  {
    seen.accounts == now.accounts && seen.txns <= now.txns
  }

  /** What it asked for it won or somebody durably holds; what it won nobody does. */
  ghost predicate ClaimsStand(events: map<Text, Event>, b: Bracket)
  {
    && b.asked <= |b.Askers()|
    && (forall m :: 0 <= m < b.asked ==> b.Askers()[m].Key() in b.won || b.Askers()[m].Key() in events)
    && (forall key :: key in b.won ==> key !in events)
  }

  ghost predicate SlotStands(txns: seq<Txn>, b: Bracket)
  {
    b.pointed ==> b.HasAsked() && b.Pointer().Some? && !IsSuperseded(txns, b.Pointer().value)
  }

  /** These rows are the book's own, moved by what the legs move them by. */
  ghost predicate AreMoved(balances: map<Key, Balance>, staged: map<Key, Balance>, legs: seq<Leg>, status: TransactionStatus)
  {
    forall row :: row in staged ==> IsMoved(balances, staged[row], legs, status, row)
  }

  ghost predicate IsMoved(balances: map<Key, Balance>, balance: Balance, legs: seq<Leg>, status: TransactionStatus, row: Key)
  {
    balance == MovedBy(BalanceOn(balances, row), Cached(DeltaOf(legs, row), status)) && BalanceFits(balance)
  }

  /** The rows it has moved are the first of its own. */
  ghost predicate AreTheFirst(staged: map<Key, Balance>, rows: seq<Key>, taken: nat)
  {
    taken <= |rows| && forall row :: row in staged <==> row in rows[..taken]
  }

  ghost predicate RowsStand(balances: map<Key, Balance>, b: Bracket)
  {
    && AreTheFirst(b.staged, b.Rows(), b.taken)
    && AreMoved(balances, b.staged, b.Legs(), b.Status())
    && (b.taken > 0 ==> b.HasAsked())
  }

  ghost predicate Stands(now: Book, b: Bracket)
  {
    IsLater(b.seen, now) && ClaimsStand(now.events, b) && SlotStands(now.txns, b) && RowsStand(now.balances, b)
  }

  /** Two running brackets hold nothing in common. */
  ghost predicate AreApart(a: Bracket, b: Bracket)
  {
    && a.won !! b.won
    && a.staged.Keys !! b.staged.Keys
    && (a.pointed && b.pointed ==> a.Pointer() != b.Pointer())
  }

  /** Commands that passed their constructors, none of which its own plan refuses. */
  ghost predicate IsAStatement(members: seq<Planned>)
  {
    AllPlanned(members) && members != [] && forall p :: p in members ==> !PlanFails(p)
  }

  ghost predicate Sound(s: State)
  {
    && Valid(s.committed)
    && (forall i :: 0 <= i < |s.brackets| ==> IsAStatement(s.brackets[i].members))
    && (forall i :: 0 <= i < |s.brackets| && s.brackets[i].phase.Running? ==> Stands(s.committed, s.brackets[i]))
    && (forall i, j :: 0 <= i < |s.brackets| && 0 <= j < |s.brackets| && i != j && s.brackets[i].phase.Running? && s.brackets[j].phase.Running?
          ==> AreApart(s.brackets[i], s.brackets[j]))
  }

  // ---- its rows are the statement's upserts ----------------------------

  lemma MovedRowsAreTheUpserts(balances: map<Key, Balance>, staged: map<Key, Balance>, legs: seq<Leg>, status: TransactionStatus)
    requires staged.Keys == KeysOf(legs) && AreMoved(balances, staged, legs, status)
    ensures balances + staged == Upserted(balances, legs, status)
  {
    var after := Upserted(balances, legs, status);
    forall row | row in after ensures (balances + staged)[row] == after[row] {
      UpsertOnOneRow(balances, legs, status, row);
      if row in staged {
        assert IsMoved(balances, staged[row], legs, status, row);
      } else {
        UntouchedKeysHaveNothing(legs, row);
      }
    }
  }

  lemma MovedRowsFit(balances: map<Key, Balance>, staged: map<Key, Balance>, legs: seq<Leg>, status: TransactionStatus)
    requires staged.Keys == KeysOf(legs) && AreMoved(balances, staged, legs, status) && Fits(balances)
    ensures Fits(Upserted(balances, legs, status))
  {
    MovedRowsAreTheUpserts(balances, staged, legs, status);
    forall row | row in balances + staged
      ensures BalanceOn(balances + staged, row).input < I64_LIMIT && BalanceOn(balances + staged, row).output < I64_LIMIT {
      if row in staged {
        assert IsMoved(balances, staged[row], legs, status, row);
      } else {
        assert BalanceOn(balances + staged, row) == BalanceOn(balances, row);
      }
    }
  }

  /** And so they number the entries as the statement would alone. */
  lemma MovedRowsNumberTheEntries(balances: map<Key, Balance>, staged: map<Key, Balance>, legs: seq<Leg>, status: TransactionStatus)
    requires staged.Keys == KeysOf(legs) && AreMoved(balances, staged, legs, status)
    ensures StagedEntries(staged, legs) == Numbered(balances, legs)
  {
    forall i | 0 <= i < |legs| ensures StagedEntries(staged, legs)[i] == Numbered(balances, legs)[i] {
      var row := legs[i].Row();
      assert row in KeysOf(legs);
      assert IsMoved(balances, staged[row], legs, status, row);
    }
  }

  lemma AtItsEndItHasEveryRow(b: Bracket)
    requires AreTheFirst(b.staged, b.Rows(), b.taken) && b.taken == |b.Rows()|
    ensures b.staged.Keys == KeysOf(b.Legs())
  {
    InKeyOrderListsEveryKey(KeysOf(b.Legs()));
    assert b.Rows()[..b.taken] == b.Rows();
  }

  // ---- its snapshot still tells it of its target -----------------------

  lemma {:induction false} LaterTransactionsHideNoTarget(txns: seq<Txn>, more: seq<Txn>, id: nat)
    requires forall i :: 0 <= i < |more| ==> more[i].id != id
    ensures FindTxn(txns + more, id) == FindTxn(txns, id)
    decreases |more|
  {
    if more == [] {
      assert txns + more == txns;
    } else {
      var n := |more| - 1;
      LaterTransactionsHideNoTarget(txns, more[..n], id);
      assert (txns + more)[..|txns + more| - 1] == txns + more[..n];
    }
  }

  /** A transaction once seen is found as it was seen. */
  lemma WhatWasSeenIsFound(seen: seq<Txn>, now: seq<Txn>, id: nat, nextId: nat, nextXact: nat)
    requires seen <= now && TxnIdsAreFresh(now, nextId, nextXact) && FindTxn(seen, id).Some?
    ensures FindTxn(now, id) == FindTxn(seen, id)
  {
    var more := now[|seen|..];
    FindTxnFinds(seen, id);
    var j :| 0 <= j < |seen| && seen[j] == FindTxn(seen, id).value && seen[j].id == id;
    forall i | 0 <= i < |more| ensures more[i].id != id {
      assert now[j] == seen[j] && more[i] == now[|seen| + i];
    }
    LaterTransactionsHideNoTarget(seen, more, id);
    assert now == seen + more;
  }

  /** A gate that passed on the snapshot passes now, if nobody took the slot since, and
      derives the same legs and date. */
  lemma TheGateStillPasses(seen: Book, now: Book, c: PostTransaction)
    requires Valid(now) && IsLater(seen, now) && Gate(seen, c).None?
    requires PointerOf(c).Some? ==> !IsSuperseded(now.txns, PointerOf(c).value)
    ensures Gate(now, c).None? && StatementLegs(now, c) == StatementLegs(seen, c) && ShapeOf(now, c) == ShapeOf(seen, c)
  {
    if PointerOf(c).Some? {
      WhatWasSeenIsFound(seen.txns, now.txns, PointerOf(c).value, now.nextId, now.nextXact);
    }
  }

  // ---- a commit means its statement ------------------------------------

  lemma AtItsEndItMayBeWritten(now: Book, b: Bracket)
    requires Valid(now) && Stands(now, b) && IsAStatement(b.members) && b.IsAlone() && b.IsAtItsEnd() && LandsWhole(b)
    ensures CanBeWritten(now, b.members[0]) && b.Legs() == StatementLegs(now, b.members[0].command)
    ensures WrittenAlone(now, b) == Written(now, b.members[0])
  {
    var p := b.members[0];
    assert p in b.members;
    TheGateStillPasses(b.seen, now, p.command);
    StatementLegsAreSound(now, p.command);
    KnownLegsAreAll(now.accounts, StatementLegs(now, p.command));
    AtItsEndItHasEveryRow(b);
    MovedRowsAreTheUpserts(now.balances, b.staged, b.Legs(), b.Status());
    MovedRowsFit(now.balances, b.staged, b.Legs(), b.Status());
    MovedRowsNumberTheEntries(now.balances, b.staged, b.Legs(), b.Status());
  }

  /** The single statement's commit is its posting's, on the book as it is then. */
  lemma ACommitAloneIsItsPosting(now: Book, b: Bracket)
    requires Valid(now) && Stands(now, b) && IsAStatement(b.members) && b.IsAlone() && b.IsAtItsEnd() && LandsWhole(b)
    ensures AfterItsCommit(now, b) == MembersOutcome(now, b.members).book
    ensures IsFreshPost(PostOutcome(now, b.members[0]).answer)
  {
    assert b.members[0] in b.members;
    AtItsEndItMayBeWritten(now, b);
    AnAcceptedPostIsRecordedWhole(now, b.members[0]);
  }

  lemma {:induction false} TheAdmissibleAsk(accounts: map<nat, Account>, members: seq<Planned>, p: Planned)
    requires p in members && AllKnown(accounts, p.Legs())
    ensures p in AdmissibleOf(accounts, members)
    decreases |members|
  {
    var n := |members| - 1;
    if p != members[n] {
      TheAdmissibleAsk(accounts, members[..n], p);
    }
  }

  /** Once every key is asked for, those who won theirs are those whose key is free. */
  lemma AWinnerProceeds(now: Book, b: Bracket, p: Planned)
    requires b.seen.accounts == now.accounts && ClaimsStand(now.events, b) && b.HasAsked() && !b.IsAlone() && p in b.members
    ensures Wins(b.seen.accounts, b.won, p) <==> Proceeds(now, p)
  {
    if AllKnown(now.accounts, p.Legs()) {
      TheAdmissibleAsk(now.accounts, b.members, p);
      var m :| 0 <= m < |b.Askers()| && b.Askers()[m] == p;
      assert m < b.asked;
    }
  }

  lemma {:induction false} WinnersAreWhoProceed(now: Book, accounts: map<nat, Account>, won: set<Text>, members: seq<Planned>)
    requires forall p :: p in members ==> (Wins(accounts, won, p) <==> Proceeds(now, p))
    ensures WinnersOf(accounts, won, members) == Proceeding(now, members)
    decreases |members|
  {
    if members != [] {
      WinnersAreWhoProceed(now, accounts, won, members[..|members| - 1]);
      assert members[|members| - 1] in members;
    }
  }

  lemma TheWinnersProceed(now: Book, b: Bracket)
    requires b.seen.accounts == now.accounts && ClaimsStand(now.events, b) && b.HasAsked() && !b.IsAlone()
    ensures b.Winners() == Proceeding(now, b.members) && (SharesAClaim(b) <==> AClaimIsShared(now, b.members))
  {
    forall p | p in b.members ensures Wins(b.seen.accounts, b.won, p) <==> Proceeds(now, p) {
      AWinnerProceeds(now, b, p);
    }
    WinnersAreWhoProceed(now, b.seen.accounts, b.won, b.members);
    forall i | 0 <= i < |b.members| ensures Wins(b.seen.accounts, b.won, b.members[i]) <==> Proceeds(now, b.members[i]) {
      assert b.members[i] in b.members;
    }
  }

  lemma TheirTransactionsAreTheBatchs(now: Book, b: Bracket, winners: seq<Planned>, m: nat)
    requires m < |winners| && winners[m].command.Plain()
    requires StagedEntries(b.staged, MemberLegs(winners)) == Numbered(now.balances, MemberLegs(winners))
    ensures WinnersTxn(now, b, winners, m) == MemberTxn(now, winners, m)
  {
  }

  lemma TheirWritesAreTheBatchs(now: Book, b: Bracket, winners: seq<Planned>)
    requires winners == b.Winners() && AllPlain(winners)
    requires StagedEntries(b.staged, MemberLegs(winners)) == Numbered(now.balances, MemberLegs(winners))
    requires now.balances + b.staged == Upserted(now.balances, MemberLegs(winners), TransactionStatus.Posted)
    ensures WrittenTogether(now, b) == BatchWritten(now, winners)
  {
    forall m | 0 <= m < |winners| ensures WinnersTxn(now, b, winners, m) == MemberTxn(now, winners, m) {
      assert winners[m] in winners;
      TheirTransactionsAreTheBatchs(now, b, winners, m);
    }
    assert WrittenTogether(now, b).txns == now.txns + MemberTxns(now, winners);
  }

  lemma AtItsEndItsBatchMayBeWritten(now: Book, b: Bracket)
    requires Valid(now) && Stands(now, b) && !b.IsAlone() && b.IsAtItsEnd() && LandsWhole(b)
    ensures WrittenTogether(now, b) == BatchWritten(now, Proceeding(now, b.members))
    ensures Fits(BatchWritten(now, Proceeding(now, b.members)).balances) && !AClaimIsShared(now, b.members)
  {
    TheWinnersProceed(now, b);
    ProceedingAreMembers(now, b.members);
    AtItsEndItHasEveryRow(b);
    MovedRowsAreTheUpserts(now.balances, b.staged, b.Legs(), b.Status());
    MovedRowsFit(now.balances, b.staged, b.Legs(), b.Status());
    MovedRowsNumberTheEntries(now.balances, b.staged, b.Legs(), b.Status());
    TheirWritesAreTheBatchs(now, b, b.Winners());
  }

  /** And the shared statement's commit is its batch's. */
  lemma ACommitTogetherIsItsBatch(now: Book, b: Bracket)
    requires Valid(now) && Stands(now, b) && IsAStatement(b.members) && !b.IsAlone() && b.IsAtItsEnd() && LandsWhole(b)
    ensures AfterItsCommit(now, b) == MembersOutcome(now, b.members).book
    ensures ClaimAndAppendBatch(now, b.members).Answered?
  {
    AtItsEndItsBatchMayBeWritten(now, b);
    forall i | 0 <= i < |b.members| ensures b.members[i].command.Plain() {
      assert b.members[i] in b.members;
    }
  }

  /** Either way, what a bracket commits is what its members, posted there and then with
      nobody beside them, would leave. */
  lemma ACommitIsItsStatement(now: Book, b: Bracket)
    requires Valid(now) && Stands(now, b) && IsAStatement(b.members) && b.IsAtItsEnd() && LandsWhole(b)
    ensures AfterItsCommit(now, b) == MembersOutcome(now, b.members).book && Valid(AfterItsCommit(now, b))
  {
    if b.IsAlone() {
      assert b.members[0] in b.members;
      ACommitAloneIsItsPosting(now, b);
      PostingKeepsTheBookValid(now, b.members[0]);
    } else {
      ACommitTogetherIsItsBatch(now, b);
      TheSharedStatementKeepsTheBookValid(now, b.members);
    }
  }

  // ---- what a commit leaves to the others ------------------------------

  /** Nothing changes but under the keys, the rows and the slot it holds. */
  ghost predicate LeavesTheRest(before: Book, after: Book, b: Bracket)
  {
    && before.accounts == after.accounts && before.txns <= after.txns
    && (forall key :: key in before.events ==> key in after.events)
    && (forall key :: key in after.events ==> key in before.events || key in b.won)
    && (forall row :: row !in b.staged ==> BalanceOn(after.balances, row) == BalanceOn(before.balances, row))
    && (forall id: nat :: IsSuperseded(after.txns, id) ==> IsSuperseded(before.txns, id) || (b.pointed && b.Pointer() == Some(id)))
  }

  lemma {:induction false} ClaimsAreTheirs(events: map<Text, Event>, firstId: nat, members: seq<Planned>, won: set<Text>)
    requires forall p :: p in members ==> p.Key() in won
    ensures forall key :: key in events ==> key in ClaimedBy(events, firstId, members)
    ensures forall key :: key in ClaimedBy(events, firstId, members) ==> key in events || key in won
    decreases |members|
  {
    if members != [] {
      ClaimsAreTheirs(events, firstId, members[..|members| - 1], won);
      assert members[|members| - 1] in members;
    }
  }

  lemma {:induction false} WinnersHoldTheirKeys(accounts: map<nat, Account>, won: set<Text>, members: seq<Planned>)
    ensures forall p :: p in WinnersOf(accounts, won, members) ==> p.Key() in won
    decreases |members|
  {
    if members != [] {
      WinnersHoldTheirKeys(accounts, won, members[..|members| - 1]);
    }
  }

  lemma OneMoreSupersedes(txns: seq<Txn>, more: seq<Txn>, pointer: Option<nat>)
    requires forall i :: 0 <= i < |more| ==> more[i].Supersedes().None? || more[i].Supersedes() == pointer
    ensures forall id: nat :: IsSuperseded(txns + more, id) ==> IsSuperseded(txns, id) || pointer == Some(id)
  {
    forall id: nat | IsSuperseded(txns + more, id) ensures IsSuperseded(txns, id) || pointer == Some(id) {
      var i :| 0 <= i < |txns + more| && (txns + more)[i].Supersedes() == Some(id);
      if i < |txns| {
        assert txns[i].Supersedes() == Some(id);
      } else {
        assert more[i - |txns|].Supersedes() == Some(id);
      }
    }
  }

  lemma AloneItLeavesTheRest(now: Book, b: Bracket)
    requires b.IsAlone() && LandsWhole(b)
    ensures LeavesTheRest(now, WrittenAlone(now, b), b)
  {
    var after := WrittenAlone(now, b);
    OneMoreSupersedes(now.txns, [after.txns[|now.txns|]], PointerOf(b.members[0].command));
  }

  lemma TogetherTheyLeaveTheRest(now: Book, b: Bracket)
    requires !b.IsAlone()
    ensures LeavesTheRest(now, WrittenTogether(now, b), b)
  {
    var winners := b.Winners();
    var more := seq(|winners|, m requires 0 <= m < |winners| => WinnersTxn(now, b, winners, m));
    WinnersHoldTheirKeys(b.seen.accounts, b.won, b.members);
    ClaimsAreTheirs(now.events, now.nextId, winners, b.won);
    OneMoreSupersedes(now.txns, more, None);
    assert WrittenTogether(now, b).txns == now.txns + more;
  }

  lemma ACommitLeavesTheRest(now: Book, b: Bracket)
    requires LandsWhole(b)
    ensures LeavesTheRest(now, AfterItsCommit(now, b), b)
  {
    if b.IsAlone() {
      AloneItLeavesTheRest(now, b);
    } else {
      TogetherTheyLeaveTheRest(now, b);
    }
  }

  lemma TheirRowsStand(before: Book, after: Book, b: Bracket, other: Bracket)
    requires RowsStand(before.balances, other) && b.staged.Keys !! other.staged.Keys && LeavesTheRest(before, after, b)
    ensures RowsStand(after.balances, other)
  {
    forall row | row in other.staged ensures IsMoved(after.balances, other.staged[row], other.Legs(), other.Status(), row) {
      assert IsMoved(before.balances, other.staged[row], other.Legs(), other.Status(), row);
    }
  }

  lemma TheOthersStand(before: Book, after: Book, b: Bracket, other: Bracket)
    requires Stands(before, other) && AreApart(b, other) && LeavesTheRest(before, after, b)
    ensures Stands(after, other)
  {
    TheirRowsStand(before, after, b, other);
  }

  // ---- every step keeps the state sound --------------------------------

  lemma OneBracketMoves(s: State, i: nat, b: Bracket)
    requires Sound(s) && i < |s.brackets| && b.members == s.brackets[i].members
    requires b.phase.Running? ==> Stands(s.committed, b)
    requires b.phase.Running? ==> forall j :: 0 <= j < |s.brackets| && j != i && s.brackets[j].phase.Running? ==> AreApart(b, s.brackets[j])
    ensures Sound(s.(brackets := s.brackets[i := b]))
  {
    var t := s.(brackets := s.brackets[i := b]);
    forall k, j | 0 <= k < |t.brackets| && 0 <= j < |t.brackets| && k != j && t.brackets[k].phase.Running? && t.brackets[j].phase.Running?
      ensures AreApart(t.brackets[k], t.brackets[j]) {
      if j == i {
        assert AreApart(b, s.brackets[k]);
      }
    }
  }

  lemma BeginningStands(now: Book, b: Bracket)
    ensures Stands(now, Begun(now, b))
  {
  }

  lemma NoRowsStand(balances: map<Key, Balance>, b: Bracket)
    requires b.taken == 0 && b.staged == map[]
    ensures RowsStand(balances, b)
  {
    assert b.Rows()[..0] == [];
  }

  lemma WhileAskingItHasNoRows(balances: map<Key, Balance>, b: Bracket)
    requires RowsStand(balances, b) && !b.HasAsked()
    ensures b.taken == 0 && b.staged == map[]
  {
    assert b.Rows()[..0] == [];
  }

  lemma AskingStands(now: Book, b: Bracket)
    requires Stands(now, b) && b.phase.Running? && !b.HasAsked()
    ensures Stands(now, Asked(now, b))
    ensures b.staged == map[] && !b.pointed
  {
    WhileAskingItHasNoRows(now.balances, b);
    NoRowsStand(now.balances, Asked(now, b));
  }

  lemma OneMoreIsTheNext(staged: map<Key, Balance>, rows: seq<Key>, taken: nat, row: Key, balance: Balance)
    requires AreTheFirst(staged, rows, taken) && taken < |rows| && row == rows[taken]
    ensures AreTheFirst(staged[row := balance], rows, taken + 1)
  {
    assert rows[..taken + 1] == rows[..taken] + [row];
  }

  lemma OneMoreIsMoved(balances: map<Key, Balance>, staged: map<Key, Balance>, legs: seq<Leg>, status: TransactionStatus, row: Key, balance: Balance)
    requires AreMoved(balances, staged, legs, status) && IsMoved(balances, balance, legs, status, row)
    ensures AreMoved(balances, staged[row := balance], legs, status)
  {
    var after := staged[row := balance];
    forall r | r in after ensures IsMoved(balances, after[r], legs, status, r) {
      if r != row {
        assert IsMoved(balances, staged[r], legs, status, r);
      }
    }
  }

  lemma MovingStands(now: Book, b: Bracket)
    requires Stands(now, b) && b.HasAsked() && b.taken < |b.Rows()| && BalanceFits(NextRow(now, b))
    ensures Stands(now, Brackets.Moved(now, b))
  {
    var row, balance := b.Rows()[b.taken], NextRow(now, b);
    OneMoreIsTheNext(b.staged, b.Rows(), b.taken, row, balance);
    OneMoreIsMoved(now.balances, b.staged, b.Legs(), b.Status(), row, balance);
  }

  lemma AskingKeepsItSound(s: State, i: nat)
    requires Sound(s) && Enabled(s, Ask(i))
    ensures Sound(Next(s, Ask(i)))
  {
    var b, now := s.brackets[i], s.committed;
    AskingStands(now, b);
    forall j | 0 <= j < |s.brackets| && j != i && s.brackets[j].phase.Running? ensures AreApart(Asked(now, b), s.brackets[j]) {
      assert AreApart(b, s.brackets[j]);
    }
    OneBracketMoves(s, i, Asked(now, b));
  }

  lemma TakingTheSlotKeepsItSound(s: State, i: nat)
    requires Sound(s) && Enabled(s, TakeTheSlot(i))
    ensures Sound(Next(s, TakeTheSlot(i)))
  {
    var b := s.brackets[i];
    forall j | 0 <= j < |s.brackets| && j != i && s.brackets[j].phase.Running? ensures AreApart(b.(pointed := true), s.brackets[j]) {
      assert AreApart(b, s.brackets[j]);
    }
    OneBracketMoves(s, i, b.(pointed := true));
  }

  lemma MovingARowKeepsItSound(s: State, i: nat)
    requires Sound(s) && Enabled(s, MoveARow(i))
    ensures Sound(Next(s, MoveARow(i)))
  {
    var b, now := s.brackets[i], s.committed;
    MovingStands(now, b);
    forall j | 0 <= j < |s.brackets| && j != i && s.brackets[j].phase.Running? ensures AreApart(Brackets.Moved(now, b), s.brackets[j]) {
      assert AreApart(b, s.brackets[j]);
    }
    OneBracketMoves(s, i, Brackets.Moved(now, b));
  }

  lemma CommittingKeepsItSound(s: State, i: nat)
    requires Sound(s) && Enabled(s, Commit(i))
    ensures Sound(Next(s, Commit(i)))
  {
    var b, t := s.brackets[i], Next(s, Commit(i));
    ACommitIsItsStatement(s.committed, b);
    ACommitLeavesTheRest(s.committed, b);
    TheRestOfThemStand(s, t.committed, i);
    OneBracketIsOver(s, i, t.committed, b.(phase := Durable));
  }

  lemma TheRestOfThemStand(s: State, after: Book, i: nat)
    requires Sound(s) && IsRunning(s, i) && LeavesTheRest(s.committed, after, s.brackets[i])
    ensures forall j :: 0 <= j < |s.brackets| && j != i && s.brackets[j].phase.Running? ==> Stands(after, s.brackets[j])
  {
    forall j | 0 <= j < |s.brackets| && j != i && s.brackets[j].phase.Running? ensures Stands(after, s.brackets[j]) {
      TheOthersStand(s.committed, after, s.brackets[i], s.brackets[j]);
    }
  }

  lemma OneBracketIsOver(s: State, i: nat, after: Book, b: Bracket)
    requires Sound(s) && i < |s.brackets| && b.members == s.brackets[i].members && !b.phase.Running? && Valid(after)
    requires forall j :: 0 <= j < |s.brackets| && j != i && s.brackets[j].phase.Running? ==> Stands(after, s.brackets[j])
    ensures Sound(State(after, s.brackets[i := b]))
  {
  }

  /** Every step keeps every bracket's grounds, and keeps the brackets apart. */
  lemma EveryStepKeepsItSound(s: State, step: Step)
    requires Sound(s) && Enabled(s, step)
    ensures Sound(Next(s, step))
  {
    match step
    case Begin(i) =>
      BeginningStands(s.committed, s.brackets[i]);
      OneBracketMoves(s, i, Begun(s.committed, s.brackets[i]));
    case Ask(i) => AskingKeepsItSound(s, i);
    case TakeTheSlot(i) => TakingTheSlotKeepsItSound(s, i);
    case MoveARow(i) => MovingARowKeepsItSound(s, i);
    case Commit(i) => CommittingKeepsItSound(s, i);
    case RollBack(i) => OneBracketMoves(s, i, s.brackets[i].(phase := RolledBack));
  }

  // ---- every run -------------------------------------------------------

  ghost predicate IsARun(book: Book, statements: seq<seq<Planned>>, states: seq<State>, steps: seq<Step>)
  {
    && |states| == |steps| + 1
    && states[0] == Starting(book, statements)
    && forall k :: 0 <= k < |steps| ==> Enabled(states[k], steps[k]) && states[k + 1] == Next(states[k], steps[k])
  }

  /** The brackets that have committed, in the order they did. */
  function CommitOrder(steps: seq<Step>, k: nat): seq<nat>
    requires k <= |steps|
  {
    if k == 0 then [] else OrderAfter(CommitOrder(steps, k - 1), steps[k - 1])
  }

  function OrderAfter(order: seq<nat>, step: Step): seq<nat>
  {
    if step.Commit? then order + [step.i] else order
  }

  predicate IsAnOrder(order: seq<nat>, count: nat)
  {
    && (forall k :: 0 <= k < |order| ==> order[k] < count)
    && (forall k, l :: 0 <= k < l < |order| ==> order[k] != order[l])
  }

  /** The statements posted one after another, each with nobody beside it. */
  ghost function InTurn(book: Book, statements: seq<seq<Planned>>, order: seq<nat>): Book
    requires IsAnOrder(order, |statements|)
  {
    if order == [] then book else
    var n := |order| - 1;
    MembersOutcome(InTurn(book, statements, order[..n]), statements[order[n]]).book
  }

  ghost predicate AreStatements(statements: seq<seq<Planned>>)
  {
    forall i :: 0 <= i < |statements| ==> IsAStatement(statements[i])
  }

  /** The brackets are these statements', and these are the ones that have committed. */
  ghost predicate HaveCommitted(s: State, statements: seq<seq<Planned>>, order: seq<nat>)
  {
    && |s.brackets| == |statements|
    && (forall i :: 0 <= i < |statements| ==> s.brackets[i].members == statements[i])
    && IsAnOrder(order, |statements|)
    && (forall i :: 0 <= i < |statements| ==> (s.brackets[i].phase.Durable? <==> i in order))
  }

  lemma TheStartIsSound(book: Book, statements: seq<seq<Planned>>)
    requires Valid(book) && AreStatements(statements)
    ensures Sound(Starting(book, statements)) && HaveCommitted(Starting(book, statements), statements, [])
  {
  }

  lemma OneMoreInTurn(book: Book, statements: seq<seq<Planned>>, order: seq<nat>, i: nat)
    requires IsAnOrder(order, |statements|) && i < |statements| && i !in order
    ensures IsAnOrder(order + [i], |statements|)
    ensures InTurn(book, statements, order + [i]) == MembersOutcome(InTurn(book, statements, order), statements[i]).book
  {
    assert (order + [i])[..|order|] == order;
  }

  lemma OnlyCommitsCommit(s: State, step: Step)
    requires Enabled(s, step)
    ensures var t := Next(s, step);
            && |t.brackets| == |s.brackets| && step.i < |s.brackets|
            && (forall j :: 0 <= j < |s.brackets| ==> t.brackets[j].members == s.brackets[j].members)
            && (forall j :: 0 <= j < |s.brackets| ==> (t.brackets[j].phase.Durable? <==> s.brackets[j].phase.Durable? || (step.Commit? && j == step.i)))
            && (step.Commit? ==> s.brackets[step.i].phase.Running?)
            && (!step.Commit? ==> t.committed == s.committed)
  {
    match step
    case Begin(_) =>
    case Ask(_) =>
    case TakeTheSlot(_) =>
    case MoveARow(_) =>
    case Commit(_) =>
    case RollBack(_) =>
  }

  lemma OneMoreHasCommitted(s: State, t: State, statements: seq<seq<Planned>>, order: seq<nat>, i: nat)
    requires HaveCommitted(s, statements, order) && i < |s.brackets| && !s.brackets[i].phase.Durable? && |t.brackets| == |s.brackets|
    requires forall j :: 0 <= j < |s.brackets| ==> t.brackets[j].members == s.brackets[j].members
    requires forall j :: 0 <= j < |s.brackets| ==> (t.brackets[j].phase.Durable? <==> s.brackets[j].phase.Durable? || j == i)
    ensures HaveCommitted(t, statements, order + [i]) && i !in order
  {
  }

  /** The book is the one these committed statements leave, posted in this order. */
  ghost predicate IsInOrder(book: Book, statements: seq<seq<Planned>>, s: State, order: seq<nat>)
  {
    Sound(s) && HaveCommitted(s, statements, order) && s.committed == InTurn(book, statements, order)
  }

  lemma EveryStepKeepsItInOrder(book: Book, statements: seq<seq<Planned>>, s: State, order: seq<nat>, step: Step)
    requires IsInOrder(book, statements, s, order) && Enabled(s, step)
    ensures IsInOrder(book, statements, Next(s, step), OrderAfter(order, step))
  {
    EveryStepKeepsItSound(s, step);
    OnlyCommitsCommit(s, step);
    if step.Commit? {
      ACommitIsItsStatement(s.committed, s.brackets[step.i]);
      OneMoreHasCommitted(s, Next(s, step), statements, order, step.i);
      OneMoreInTurn(book, statements, order, step.i);
    }
  }

  /** Whatever the interleaving, the keys contested, the rows shared and the brackets
      rolled back: the book is the one that the committed statements, posted one after
      another in the order they committed, leave; and it is valid. */
  lemma {:induction false} BracketsLeaveWhatTheirOrderLeaves(book: Book, statements: seq<seq<Planned>>, states: seq<State>, steps: seq<Step>, k: nat)
    requires Valid(book) && AreStatements(statements) && IsARun(book, statements, states, steps) && k < |states|
    ensures IsInOrder(book, statements, states[k], CommitOrder(steps, k))
    decreases k
  {
    if k == 0 {
      TheStartIsSound(book, statements);
    } else {
      BracketsLeaveWhatTheirOrderLeaves(book, statements, states, steps, k - 1);
      EveryStepKeepsItInOrder(book, statements, states[k - 1], CommitOrder(steps, k - 1), steps[k - 1]);
    }
  }

  // ---- and nothing is refused that would not be ------------------------

  /** Posted alone on the book, a single statement is recorded, and a shared one does not
      fail. */
  ghost predicate IsAccepted(now: Book, members: seq<Planned>)
  {
    if |members| == 1 then IsFreshPost(PostOutcome(now, members[0]).answer) else ClaimAndAppendBatch(now, members).Answered?
  }

  /** What it supersedes, if anything, its snapshot let it, and it has the slot. */
  ghost predicate HasItsSlot(b: Bracket)
  {
    b.IsAlone() && PointerOf(b.members[0].command).Some? ==> Gate(b.seen, b.members[0].command).None? && b.pointed
  }

  lemma AcceptedAloneItLandsWhole(now: Book, b: Bracket)
    requires Valid(now) && Stands(now, b) && IsAStatement(b.members) && b.IsAlone() && b.IsAtItsEnd() && HasItsSlot(b)
    requires IsAccepted(now, b.members)
    ensures LandsWhole(b)
  {
    var p := b.members[0];
    assert p in b.members;
    WhatAPostMeans(now, p);
    assert b.Askers()[0] == p;
  }

  lemma AcceptedTogetherItLandsWhole(now: Book, b: Bracket)
    requires Valid(now) && Stands(now, b) && !b.IsAlone() && b.IsAtItsEnd() && IsAccepted(now, b.members)
    ensures LandsWhole(b)
  {
    TheWinnersProceed(now, b);
    forall p | p in b.members ensures p.command.Plain() {
      var i :| 0 <= i < |b.members| && b.members[i] == p;
    }
  }

  /** At its end a bracket may commit if and only if its statement, posted alone on the
      book as it is then, would be accepted, and it has its slot if it needs one. */
  lemma AtItsEndItCommitsExactlyWhenAccepted(s: State, i: nat)
    requires Sound(s) && IsRunning(s, i) && s.brackets[i].IsAtItsEnd()
    ensures Enabled(s, Commit(i)) <==> IsAccepted(s.committed, s.brackets[i].members) && HasItsSlot(s.brackets[i])
  {
    var now, b := s.committed, s.brackets[i];
    assert Stands(now, b);
    if Enabled(s, Commit(i)) {
      if b.IsAlone() {
        ACommitAloneIsItsPosting(now, b);
      } else {
        ACommitTogetherIsItsBatch(now, b);
      }
    } else if IsAccepted(now, b.members) && HasItsSlot(b) {
      if b.IsAlone() {
        AcceptedAloneItLandsWhole(now, b);
      } else {
        AcceptedTogetherItLandsWhole(now, b);
      }
    }
  }

  lemma TheRowIsOfItsLegs(b: Bracket)
    requires b.taken < |b.Rows()|
    ensures b.Rows()[b.taken] in KeysOf(b.Legs()) && b.Legs() != []
  {
    InKeyOrderListsEveryKey(KeysOf(b.Legs()));
    assert b.Rows()[b.taken] in b.Rows();
  }

  lemma ARowThatDoesNotFit(balances: map<Key, Balance>, legs: seq<Leg>, status: TransactionStatus, row: Key)
    requires row in KeysOf(legs) && !BalanceFits(MovedBy(BalanceOn(balances, row), Cached(DeltaOf(legs, row), status)))
    ensures !Fits(Upserted(balances, legs, status))
  {
    UpsertOnOneRow(balances, legs, status, row);
    assert row in Upserted(balances, legs, status);
  }

  lemma AloneItsLegsAreTheStatements(now: Book, b: Bracket)
    requires Valid(now) && Stands(now, b) && b.IsAlone() && b.Legs() != []
    ensures b.members[0].Key() !in now.events
    ensures b.Legs() == KnownLegs(now.accounts, StatementLegs(now, b.members[0].command))
  {
    var c := b.members[0].command;
    if c.reversesId.Some? {
      assert TargetOf(b.seen, c).Some?;
      WhatWasSeenIsFound(b.seen.txns, now.txns, PointerOf(c).value, now.nextId, now.nextXact);
    }
  }

  /** A row that cannot hold what a bracket would move it by fails its statement, as it
      would with nobody beside it: every member hears storage, and nothing is written. */
  lemma WhereARowOverflowsTheStatementFails(s: State, i: nat)
    requires Sound(s) && IsRunning(s, i) && s.brackets[i].HasAsked() && s.brackets[i].taken < |s.brackets[i].Rows()|
    requires !BalanceFits(NextRow(s.committed, s.brackets[i]))
    ensures var meant := MembersOutcome(s.committed, s.brackets[i].members);
            meant.book == s.committed && forall m :: 0 <= m < |meant.answer| ==> meant.answer[m] == Err(WriteError.Storage)
  {
    var now, b := s.committed, s.brackets[i];
    var row := b.Rows()[b.taken];
    TheRowIsOfItsLegs(b);
    ARowThatDoesNotFit(now.balances, b.Legs(), b.Status(), row);
    if b.IsAlone() {
      assert b.members[0] in b.members;
      AloneItsStatementFails(now, b);
    } else {
      TheirStatementFails(now, b);
    }
  }

  lemma AloneItsStatementFails(now: Book, b: Bracket)
    requires Valid(now) && Stands(now, b) && b.IsAlone() && b.Legs() != [] && !PlanFails(b.members[0])
    requires !Fits(Upserted(now.balances, b.Legs(), b.Status()))
    ensures MembersOutcome(now, b.members) == Outcome([Err(WriteError.Storage)], now)
  {
    AloneItsLegsAreTheStatements(now, b);
  }

  lemma TheirStatementFails(now: Book, b: Bracket)
    requires Valid(now) && Stands(now, b) && !b.IsAlone() && b.members != [] && b.HasAsked()
    requires !Fits(Upserted(now.balances, b.Legs(), b.Status()))
    ensures MembersOutcome(now, b.members) == Outcome(seq(|b.members|, m => Err(WriteError.Storage)), now)
  {
    TheWinnersProceed(now, b);
  }

  // ---- who asks --------------------------------------------------------

  lemma {:induction false} AdmissibleMembersAreKnown(accounts: map<nat, Account>, members: seq<Planned>, p: Planned)
    ensures p in AdmissibleOf(accounts, members) <==> p in members && AllKnown(accounts, p.Legs())
    decreases |members|
  {
    if members != [] {
      var n := |members| - 1;
      AdmissibleMembersAreKnown(accounts, members[..n], p);
      assert members == members[..n] + [members[n]];
    }
  }

  /** A shared statement asks for the key of a member whose every account its snapshot
      holds: a member it withholds keeps its key free. */
  lemma AWithheldMemberAsksForNothing(s: State, i: nat) returns (p: Planned)
    requires Enabled(s, Ask(i)) && |s.brackets[i].members| != 1
    ensures p in s.brackets[i].members && forall leg :: leg in p.Legs() ==> IsKnown(s.brackets[i].seen.accounts, leg.Row())
    ensures Next(s, Ask(i)).brackets[i].won == s.brackets[i].won + if p.Key() in s.committed.events then {} else {p.Key()}
  {
    p := s.brackets[i].Askers()[s.brackets[i].asked];
    AdmissibleMembersAreKnown(s.brackets[i].seen.accounts, s.brackets[i].members, p);
  }
}
