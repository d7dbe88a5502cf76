/** Posting together means posting one by one: the shared statement refines the
    single one, for the batches a drain yields. */
module BatchRefinement {
  import opened Wrappers
  import opened Bytes
  import opened Domain
  import opened Postings
  import opened Port
  import opened Book
  import opened BookInvariants
  import opened Writer
  import opened WriterInvariants

  // ---- one coalesced statement is a run of single ones ------------------

  /** Recording each member in turn, in one bracket. */
  function RecordedInTurn(b: Book, members: seq<Planned>): Book
  {
    if members == [] then b else
    var p := members[|members| - 1];
    Record(RecordedInTurn(b, members[..|members| - 1]), p.Key(), p.hash, ShapeOf(b, p.command), p.Legs())
  }

  /** Two coalesced upserts, one after the other, are the upsert of both. */
  lemma UpsertsCompose(balances: map<Key, Balance>, first: seq<Leg>, second: seq<Leg>, status: TransactionStatus)
    ensures Upserted(Upserted(balances, first, status), second, status) == Upserted(balances, first + second, status)
  {
    var twice, once := Upserted(Upserted(balances, first, status), second, status), Upserted(balances, first + second, status);
    KeysConcat(first, second);
    forall row ensures BalanceOn(twice, row) == BalanceOn(once, row) {
      UpsertsComposeOnOneRow(balances, first, second, status, row);
    }
    SameBalances(twice, once);
  }

  lemma UpsertsComposeOnOneRow(balances: map<Key, Balance>, first: seq<Leg>, second: seq<Leg>, status: TransactionStatus, row: Key)
    ensures BalanceOn(Upserted(Upserted(balances, first, status), second, status), row)
         == BalanceOn(Upserted(balances, first + second, status), row)
  {
    UpsertOnOneRow(balances, first, status, row);
    UpsertOnOneRow(Upserted(balances, first, status), second, status, row);
    UpsertOnOneRow(balances, first + second, status, row);
    DeltasAreAdditive(first, second, row);
  }

  lemma SameBalances(one: map<Key, Balance>, other: map<Key, Balance>)
    requires one.Keys == other.Keys && forall row :: BalanceOn(one, row) == BalanceOn(other, row)
    ensures one == other
  {
    forall row | row in one ensures one[row] == other[row] {
      assert BalanceOn(one, row) == BalanceOn(other, row);
    }
  }

  /** A member's legs start where the earlier members' end. */
  lemma {:induction false} MemberLegsSplit(members: seq<Planned>, m: nat)
    requires m < |members|
    ensures MemberLegs(members[..m]) + members[m].Legs() <= MemberLegs(members)
    decreases |members|
  {
    var n := |members| - 1;
    if m < n {
      assert members[..n][..m] == members[..m];
      MemberLegsSplit(members[..n], m);
    }
  }

  lemma UpTo(all: seq<Leg>, before: seq<Leg>, mine: seq<Leg>, i: nat)
    requires before + mine <= all && i < |mine|
    ensures all[|before| + i] == mine[i]
    ensures all[..|before| + i] == before + mine[..i]
  {
    assert all[..|before| + |mine|] == before + mine;
    assert all[|before| + i] == (before + mine)[|before| + i];
  }

  lemma CountsUpTo(all: seq<Leg>, before: seq<Leg>, mine: seq<Leg>, i: nat)
    requires before + mine <= all && i < |mine|
    ensures all[|before| + i] == mine[i]
    ensures Count(all[..|before| + i], mine[i].Row()) == Count(before, mine[i].Row()) + Count(mine[..i], mine[i].Row())
  {
    UpTo(all, before, mine, i);
    CountConcat(before, mine[..i], mine[i].Row());
  }

  lemma MemberEntryInTheWindow(b: Book, members: seq<Planned>, m: nat, i: nat)
    requires m < |members| && i < |members[m].Legs()|
    ensures |MemberLegs(members[..m])| + i < |MemberLegs(members)|
    ensures MemberEntries(b, members, m)[i] == Numbered(b.balances, MemberLegs(members))[|MemberLegs(members[..m])| + i]
  {
    StartsWithin(members, m);
  }

  /** How many legs of the batch reach the row before this one. */
  function EarlierInTheBatch(members: seq<Planned>, m: nat, i: nat): nat
    requires m < |members| && i < |members[m].Legs()|
  {
    var row := members[m].Legs()[i].Row();
    Count(MemberLegs(members[..m]), row) + Count(members[m].Legs()[..i], row)
  }

  lemma CountsInTheBatch(members: seq<Planned>, m: nat, i: nat)
    requires m < |members| && i < |members[m].Legs()|
    ensures var all, at := MemberLegs(members), |MemberLegs(members[..m])| + i;
            at < |all| && all[at] == members[m].Legs()[i] && Count(all[..at], members[m].Legs()[i].Row()) == EarlierInTheBatch(members, m, i)
  {
    var all, before, mine := MemberLegs(members), MemberLegs(members[..m]), members[m].Legs();
    MemberLegsSplit(members, m);
    CountsUpTo(all, before, mine, i);
  }

  /** The window's walk-back, seen forwards: the number after every earlier leg of
      the batch on the row, whichever member carried it. */
  lemma MemberEntriesInTurn(b: Book, members: seq<Planned>, m: nat, i: nat)
    requires m < |members| && i < |members[m].Legs()|
    ensures MemberEntries(b, members, m)[i] == EntryAfter(b.balances, EarlierInTheBatch(members, m, i), members[m].Legs()[i])
  {
    MemberEntryInTheWindow(b, members, m, i);
    CountsInTheBatch(members, m, i);
    NumberedInTurn(b.balances, MemberLegs(members), |MemberLegs(members[..m])| + i);
  }

  /** Later members change nothing an earlier one wrote. */
  lemma LaterMembersRenumberNothing(b: Book, members: seq<Planned>, m: nat)
    requires m < |members| - 1
    ensures MemberEntries(b, members, m) == MemberEntries(b, members[..|members| - 1], m)
  {
    var front := members[..|members| - 1];
    assert front[..m] == members[..m];
    forall i | 0 <= i < |members[m].Legs()| ensures MemberEntries(b, members, m)[i] == MemberEntries(b, front, m)[i] {
      MemberEntriesInTurn(b, members, m, i);
      MemberEntriesInTurn(b, front, m, i);
    }
  }

  /** The last member is numbered as a single post after the others would be. */
  lemma TheLastMemberIsNumberedInTurn(b: Book, members: seq<Planned>)
    requires members != []
    ensures var n := |members| - 1;
            MemberEntries(b, members, n)
            == Numbered(Upserted(b.balances, MemberLegs(members[..n]), TransactionStatus.Posted), members[n].Legs())
  {
    var n := |members| - 1;
    var balances := Upserted(b.balances, MemberLegs(members[..n]), TransactionStatus.Posted);
    forall i | 0 <= i < |members[n].Legs()| ensures MemberEntries(b, members, n)[i] == Numbered(balances, members[n].Legs())[i] {
      TheLastMembersEntryInTurn(b, members, i);
    }
  }

  lemma TheLastMembersEntryInTurn(b: Book, members: seq<Planned>, i: nat)
    requires members != [] && i < |members[|members| - 1].Legs()|
    ensures var n := |members| - 1;
            MemberEntries(b, members, n)[i]
            == Numbered(Upserted(b.balances, MemberLegs(members[..n]), TransactionStatus.Posted), members[n].Legs())[i]
  {
    var n := |members| - 1;
    var earlier, mine := MemberLegs(members[..n]), members[n].Legs();
    MemberEntriesInTurn(b, members, n, i);
    NumberedInTurn(Upserted(b.balances, earlier, TransactionStatus.Posted), mine, i);
    UpsertOnOneRow(b.balances, earlier, TransactionStatus.Posted, mine[i].Row());
  }

  predicate AllPlain(members: seq<Planned>)
  {
    forall p :: p in members ==> p.command.Plain()
  }

  /** The shared statement writes exactly what recording its members in turn
      writes: one upsert per row however many members touched it, numbers counted
      across members that never saw each other. */
  lemma {:induction false} TheSharedStatementRecordsInTurn(b: Book, members: seq<Planned>)
    requires AllPlain(members)
    ensures BatchWritten(b, members) == RecordedInTurn(b, members)
    decreases |members|
  {
    if members == [] {
      NoMembersWriteNothing(b);
    } else {
      var n := |members| - 1;
      TheSharedStatementRecordsInTurn(b, members[..n]);
      OneMoreMember(b, members);
    }
  }

  lemma NoMembersWriteNothing(b: Book)
    ensures BatchWritten(b, []) == b
  {
    assert Upserted(b.balances, [], TransactionStatus.Posted) == b.balances;
  }

  lemma OneMoreMember(b: Book, members: seq<Planned>)
    requires members != [] && AllPlain(members)
    ensures var n := |members| - 1;
            BatchWritten(b, members)
            == Record(BatchWritten(b, members[..n]), members[n].Key(), members[n].hash, ShapeOf(b, members[n].command), members[n].Legs())
  {
    var n := |members| - 1;
    UpsertsCompose(b.balances, MemberLegs(members[..n]), members[n].Legs(), TransactionStatus.Posted);
    assert members[n] in members;
    OneMoreTransaction(b, members);
  }

  lemma TheLastTransaction(b: Book, members: seq<Planned>)
    requires members != [] && members[|members| - 1].command.Plain()
    ensures var n := |members| - 1;
            MemberTxn(b, members, n) == TxnOf(BatchWritten(b, members[..n]), ShapeOf(b, members[n].command), members[n].Legs())
  {
    TheLastMemberIsNumberedInTurn(b, members);
  }

  lemma AnEarlierTransactionStands(b: Book, members: seq<Planned>, m: nat)
    requires m < |members| - 1
    ensures MemberTxn(b, members, m) == MemberTxn(b, members[..|members| - 1], m)
  {
    LaterMembersRenumberNothing(b, members, m);
  }

  lemma EarlierTransactionsStand(b: Book, members: seq<Planned>)
    requires members != []
    ensures MemberTxns(b, members) == MemberTxns(b, members[..|members| - 1]) + [MemberTxn(b, members, |members| - 1)]
  {
    var n := |members| - 1;
    var all, front := MemberTxns(b, members), MemberTxns(b, members[..n]);
    forall m | 0 <= m < n ensures all[m] == front[m] {
      AnEarlierTransactionStands(b, members, m);
    }
  }

  lemma OneMoreTransaction(b: Book, members: seq<Planned>)
    requires members != [] && members[|members| - 1].command.Plain()
    ensures var n := |members| - 1;
            var before := BatchWritten(b, members[..n]);
            b.txns + MemberTxns(b, members) == before.txns + [TxnOf(before, ShapeOf(b, members[n].command), members[n].Legs())]
  {
    var n := |members| - 1;
    EarlierTransactionsStand(b, members);
    TheLastTransaction(b, members);
    assert b.txns + (MemberTxns(b, members[..n]) + [MemberTxn(b, members, n)])
        == (b.txns + MemberTxns(b, members[..n])) + [MemberTxn(b, members, n)];
  }

  // ---- what later writes leave alone -----------------------------------

  /** A later book: the journal only grew, and every claim still stands. */
  ghost predicate Extends(before: Book, after: Book)
  {
    && before.txns <= after.txns
    && before.nextId <= after.nextId
    && (forall i :: |before.txns| <= i < |after.txns| ==> after.txns[i].eventId >= before.nextId)
    && (forall key :: key in before.events ==> key in after.events && after.events[key] == before.events[key])
  }

  lemma {:induction false} LaterTransactionsHideNoEvent(txns: seq<Txn>, more: seq<Txn>, eventId: nat)
    requires forall i :: 0 <= i < |more| ==> more[i].eventId != eventId
    ensures TxnOfEvent(txns + more, eventId) == TxnOfEvent(txns, eventId)
    decreases |more|
  {
    if more == [] {
      assert txns + more == txns;
    } else {
      var n := |more| - 1;
      LaterTransactionsHideNoEvent(txns, more[..n], eventId);
      assert (txns + more)[..|txns + more| - 1] == txns + more[..n];
    }
  }

  /** A stored result never changes once its key is held. */
  lemma StoredResultsStand(before: Book, after: Book, p: Planned)
    requires EventIdsAreFresh(before.events, before.nextId) && Extends(before, after) && p.Key() in before.events
    ensures StoredResult(after, p) == StoredResult(before, p)
  {
    var more := after.txns[|before.txns|..];
    assert after.txns == before.txns + more;
    forall i | 0 <= i < |more| ensures more[i].eventId != before.events[p.Key()].id {
      assert more[i] == after.txns[|before.txns| + i];
    }
    LaterTransactionsHideNoEvent(before.txns, more, before.events[p.Key()].id);
  }

  lemma RecordingExtends(before: Book, b: Book, key: Text, hash: Text, shape: Shape, legs: seq<Leg>)
    requires Extends(before, b) && key !in b.events
    ensures Extends(before, Record(b, key, hash, shape, legs))
    ensures Extends(before, PastTheCommit(Record(b, key, hash, shape, legs)))
  {
  }

  // ---- one bracket against many ----------------------------------------

  /** The same book but for when each bracket committed. */
  ghost predicate SameUpToCommits(x: Book, y: Book)
  {
    && x.accounts == y.accounts && x.register == y.register && x.events == y.events
    && x.balances == y.balances && x.periods == y.periods && x.closes == y.closes && x.nextId == y.nextId
    && |x.txns| == |y.txns|
    && forall i :: 0 <= i < |x.txns| ==> x.txns[i].(xactId := 0) == y.txns[i].(xactId := 0)
  }

  lemma RecordingKeepsThemTheSame(x: Book, y: Book, key: Text, hash: Text, shape: Shape, legs: seq<Leg>)
    requires SameUpToCommits(x, y)
    ensures SameUpToCommits(PastTheCommit(Record(x, key, hash, shape, legs)), Record(y, key, hash, shape, legs))
  {
  }

  /** Posting each command on its own, one after the other. */
  ghost function OneAtATime(b: Book, members: seq<Planned>): (o: Outcome<seq<PostAnswer>>)
    ensures |o.answer| == |members|
  {
    if members == [] then Outcome([], b) else
    var n := |members| - 1;
    var earlier := OneAtATime(b, members[..n]);
    var last := PostOutcome(earlier.book, members[n]);
    Outcome(earlier.answer + [last.answer], last.book)
  }

  /** Plain posted commands of one tenant with distinct keys, none of which its own
      plan refuses: what a drain hands the shared statement. */
  ghost predicate MayShare(members: seq<Planned>)
  {
    && AllPlain(members) && DistinctKeys(members)
    && forall p :: p in members ==> p.command.WellFormed() && !PlanFails(p)
  }

  lemma FewerMayShare(members: seq<Planned>)
    requires members != [] && MayShare(members)
    ensures MayShare(members[..|members| - 1])
    ensures forall i :: 0 <= i < |members| - 1 ==> members[i].Key() != members[|members| - 1].Key()
  {
    var n := |members| - 1;
    forall p | p in members[..n] ensures p in members {
    }
  }

  /** The answer each member is owed. */
  ghost function Owed(b: Book, members: seq<Planned>, m: nat): PostAnswer
    requires m < |members|
  {
    var p := members[m];
    if p.Key() in b.events then Replayed(StoredResult(b, p))
    else if !IsAdmissible(b, p) then Err(WriteError.AccountUnknown(FirstUnknown(b.accounts, p.Legs()).value))
    else Fresh(b.nextId + 2 * |Proceeding(b, members[..m])|)
  }

  /** Where the earlier members leave the balances. */
  function BalancesBefore(b: Book, members: seq<Planned>, m: nat): map<Key, Balance>
    requires m < |members|
  {
    Upserted(b.balances, MemberLegs(Proceeding(b, members[..m])), TransactionStatus.Posted)
  }

  /** The one failure the single statement reaches first and the shared one withholds:
      a free key, an unknown account, and known legs no balance can hold. */
  ghost predicate FailsAlone(b: Book, members: seq<Planned>, m: nat)
    requires m < |members|
  {
    var p := members[m];
    p.Key() !in b.events && !IsAdmissible(b, p) && !KnownLegsFit(b.accounts, BalancesBefore(b, members, m), p)
  }

  /** And what each would hear alone, after the members before it. */
  ghost function OwedAlone(b: Book, members: seq<Planned>, m: nat): PostAnswer
    requires m < |members|
  {
    if FailsAlone(b, members, m) then Err(WriteError.Storage) else Owed(b, members, m)
  }

  /** Totals that fit in the end fitted all along. */
  lemma FittedAllAlong(balances: map<Key, Balance>, legs: seq<Leg>, status: TransactionStatus)
    requires AllPositive(legs) && Fits(Upserted(balances, legs, status))
    ensures Fits(balances)
  {
    forall row ensures BalanceOn(balances, row).input < I64_LIMIT && BalanceOn(balances, row).output < I64_LIMIT {
      UpsertOnOneRow(balances, legs, status, row);
      TotalsAreNotNegative(legs, row, Debit);
      TotalsAreNotNegative(legs, row, Credit);
      assert BalanceOn(Upserted(balances, legs, status), row).input < I64_LIMIT;
    }
  }

  /** What recording in turn leaves alone, and what it claims. */
  lemma {:induction false} RecordingInTurnClaimsTheirKeys(b: Book, members: seq<Planned>)
    ensures RecordedInTurn(b, members).accounts == b.accounts
    ensures RecordedInTurn(b, members).nextId == b.nextId + 2 * |members|
    ensures forall key :: key in RecordedInTurn(b, members).events ==> key in b.events || exists p :: p in members && p.Key() == key
    ensures RecordedInTurn(b, members).nextXact == b.nextXact
    decreases |members|
  {
    if members != [] {
      var n := |members| - 1;
      RecordingInTurnClaimsTheirKeys(b, members[..n]);
      forall key | key in RecordedInTurn(b, members).events && key !in b.events ensures exists p :: p in members && p.Key() == key {
        if key in RecordedInTurn(b, members[..n]).events {
          var p :| p in members[..n] && p.Key() == key;
          assert p in members;
        } else {
          assert members[n] in members;
        }
      }
    }
  }

  // ---- one more member, posted on its own ------------------------------

  lemma AHeldKeyReplays(b: Book, now: Book, p: Planned)
    requires EventIdsAreFresh(b.events, b.nextId) && Extends(b, now) && p.Key() in b.events && !PlanFails(p)
    ensures PostOutcome(now, p) == Outcome(Replayed(StoredResult(b, p)), now)
  {
    StoredResultsStand(b, now, p);
  }

  /** What a plain posting's own statement answers and leaves, over a book that the
      earlier members moved on from `b`. */
  ghost predicate AnswersInTurn(b: Book, now: Book, p: Planned, next: Outcome<PostAnswer>)
  {
    if p.Key() in b.events then next == Outcome(Replayed(StoredResult(b, p)), now)
    else if IsAdmissible(b, p) then
      next == Outcome(Fresh(now.nextId), PastTheCommit(Record(now, p.Key(), p.hash, ShapeOf(b, p.command), p.Legs())))
    else if KnownLegsFit(b.accounts, now.balances, p) then
      next == Outcome(Err(WriteError.AccountUnknown(FirstUnknown(b.accounts, p.Legs()).value)), now)
    else next == Outcome(Err(WriteError.Storage), now)
  }

  lemma AnAdmissibleMemberIsRecorded(b: Book, now: Book, p: Planned)
    requires b.accounts == now.accounts && p.Key() !in now.events && p.command.Plain() && !PlanFails(p) && IsAdmissible(b, p)
    requires Fits(Upserted(now.balances, p.Legs(), TransactionStatus.Posted))
    ensures PostOutcome(now, p)
         == Outcome(Fresh(now.nextId), PastTheCommit(Record(now, p.Key(), p.hash, ShapeOf(b, p.command), p.Legs())))
  {
    assert Written(now, p) == Record(now, p.Key(), p.hash, ShapeOf(b, p.command), p.Legs());
    AnAcceptedPostIsRecordedWhole(now, p);
  }

  lemma TheNextPostAnswersInTurn(b: Book, now: Book, p: Planned)
    requires EventIdsAreFresh(b.events, b.nextId) && Extends(b, now) && b.accounts == now.accounts
    requires p.command.Plain() && !PlanFails(p)
    requires p.Key() !in b.events ==> p.Key() !in now.events
    requires Proceeds(b, p) ==> Fits(Upserted(now.balances, p.Legs(), TransactionStatus.Posted))
    ensures AnswersInTurn(b, now, p, PostOutcome(now, p))
  {
    if p.Key() in b.events {
      AHeldKeyReplays(b, now, p);
    } else if IsAdmissible(b, p) {
      AnAdmissibleMemberIsRecorded(b, now, p);
    } else {
      AnUnknownAccountIsRefused(now, p);
    }
  }

  lemma OneMoreProceeds(b: Book, members: seq<Planned>)
    requires members != []
    ensures var n := |members| - 1;
            Proceeding(b, members) == if Proceeds(b, members[n]) then Proceeding(b, members[..n]) + [members[n]] else Proceeding(b, members[..n])
  {
    assert Proceeding(b, members[..|members| - 1]) + [] == Proceeding(b, members[..|members| - 1]);
  }

  lemma OneMoreRecorded(b: Book, members: seq<Planned>, p: Planned)
    ensures RecordedInTurn(b, members + [p]) == Record(RecordedInTurn(b, members), p.Key(), p.hash, ShapeOf(b, p.command), p.Legs())
  {
    assert (members + [p])[..|members|] == members;
  }

  ghost predicate AnswersAgree(b: Book, members: seq<Planned>, answers: seq<PostAnswer>)
    requires |answers| == |members|
  {
    forall m :: 0 <= m < |members| ==> answers[m] == OwedAlone(b, members, m)
  }

  /** Where posting one by one stands beside recording the members that proceed. */
  ghost predicate InStep(b: Book, claimed: nat, now: Book, recorded: Book)
  {
    && SameUpToCommits(now, recorded) && Extends(b, now) && Extends(b, recorded)
    && recorded.accounts == b.accounts && recorded.nextId == b.nextId + 2 * claimed
  }

  lemma OneMoreAnswer(b: Book, members: seq<Planned>, answers: seq<PostAnswer>, last: PostAnswer)
    requires members != [] && |answers| == |members| - 1 && AnswersAgree(b, members[..|members| - 1], answers)
    requires last == OwedAlone(b, members, |members| - 1)
    ensures AnswersAgree(b, members, answers + [last])
  {
    forall m | 0 <= m < |members| ensures (answers + [last])[m] == OwedAlone(b, members, m) {
      if m < |members| - 1 {
        assert members[..|members| - 1][..m] == members[..m];
        assert answers[m] == OwedAlone(b, members[..|members| - 1], m);
      }
    }
  }

  /** An admissible member with a free key moves both along by one transaction. */
  lemma BothMoveOn(b: Book, claimed: nat, now: Book, recorded: Book, p: Planned, shape: Shape)
    requires InStep(b, claimed, now, recorded) && p.Key() !in now.events
    ensures InStep(b, claimed + 1, PastTheCommit(Record(now, p.Key(), p.hash, shape, p.Legs())), Record(recorded, p.Key(), p.hash, shape, p.Legs()))
  {
    RecordingKeepsThemTheSame(now, recorded, p.Key(), p.hash, shape, p.Legs());
    RecordingExtends(b, now, p.Key(), p.hash, shape, p.Legs());
    RecordingExtends(b, recorded, p.Key(), p.hash, shape, p.Legs());
  }

  /** The next member's own post leaves the books in step. */
  ghost predicate TheBooksStayInStep(b: Book, members: seq<Planned>, next: Book)
  {
    InStep(b, |Proceeding(b, members)|, next, RecordedInTurn(b, Proceeding(b, members)))
  }

  lemma TheNextKeyIsFree(b: Book, members: seq<Planned>, now: Book)
    requires members != [] && MayShare(members) && TheBooksStayInStep(b, members[..|members| - 1], now)
    ensures members[|members| - 1].Key() !in b.events ==> members[|members| - 1].Key() !in now.events
  {
    var front := members[..|members| - 1];
    FewerMayShare(members);
    RecordingInTurnClaimsTheirKeys(b, Proceeding(b, front));
    ProceedingAreMembers(b, front);
  }

  lemma AnIdleMemberStaysInStep(b: Book, members: seq<Planned>, now: Book)
    requires members != [] && !Proceeds(b, members[|members| - 1]) && TheBooksStayInStep(b, members[..|members| - 1], now)
    ensures TheBooksStayInStep(b, members, now)
  {
    OneMoreProceeds(b, members);
  }

  lemma AProceedingMemberStaysInStep(b: Book, members: seq<Planned>, now: Book)
    requires members != [] && Proceeds(b, members[|members| - 1]) && TheBooksStayInStep(b, members[..|members| - 1], now)
    requires members[|members| - 1].Key() !in now.events
    ensures var p := members[|members| - 1];
            TheBooksStayInStep(b, members, PastTheCommit(Record(now, p.Key(), p.hash, ShapeOf(b, p.command), p.Legs())))
  {
    var earlier, p := Proceeding(b, members[..|members| - 1]), members[|members| - 1];
    OneMoreProceeds(b, members);
    OneMoreRecorded(b, earlier, p);
    BothMoveOn(b, |earlier|, now, RecordedInTurn(b, earlier), p, ShapeOf(b, p.command));
  }

  lemma AnswersInTurnAreOwed(b: Book, members: seq<Planned>, now: Book, next: Outcome<PostAnswer>)
    requires members != [] && AnswersInTurn(b, now, members[|members| - 1], next)
    requires now.nextId == b.nextId + 2 * |Proceeding(b, members[..|members| - 1])|
    requires now.balances == BalancesBefore(b, members, |members| - 1)
    ensures next.answer == OwedAlone(b, members, |members| - 1)
  {
  }

  lemma TheBalancesInStep(b: Book, members: seq<Planned>, now: Book)
    requires members != [] && MayShare(members) && TheBooksStayInStep(b, members[..|members| - 1], now)
    ensures now.balances == BalancesBefore(b, members, |members| - 1)
  {
    var front := members[..|members| - 1];
    FewerMayShare(members);
    ProceedingArePlain(b, front);
    TheSharedStatementRecordsInTurn(b, Proceeding(b, front));
  }

  lemma OneMoreInStep(b: Book, members: seq<Planned>, now: Book, next: Outcome<PostAnswer>)
    requires members != [] && TheBooksStayInStep(b, members[..|members| - 1], now)
    requires AnswersInTurn(b, now, members[|members| - 1], next)
    requires members[|members| - 1].Key() !in b.events ==> members[|members| - 1].Key() !in now.events
    ensures TheBooksStayInStep(b, members, next.book)
  {
    if Proceeds(b, members[|members| - 1]) {
      AProceedingMemberStaysInStep(b, members, now);
    } else {
      AnIdleMemberStaysInStep(b, members, now);
    }
  }

  lemma TheLastMembersTotalsFit(b: Book, members: seq<Planned>)
    requires members != [] && Proceeds(b, members[|members| - 1]) && members[|members| - 1].command.Plain()
    requires Fits(RecordedInTurn(b, Proceeding(b, members)).balances)
    ensures Fits(Upserted(RecordedInTurn(b, Proceeding(b, members[..|members| - 1])).balances, members[|members| - 1].Legs(), TransactionStatus.Posted))
  {
    OneMoreProceeds(b, members);
    OneMoreRecorded(b, Proceeding(b, members[..|members| - 1]), members[|members| - 1]);
  }

  lemma FittedWithoutTheLast(b: Book, members: seq<Planned>)
    requires members != [] && MayShare(members) && Fits(RecordedInTurn(b, Proceeding(b, members)).balances)
    ensures Fits(RecordedInTurn(b, Proceeding(b, members[..|members| - 1])).balances)
  {
    var earlier, p := Proceeding(b, members[..|members| - 1]), members[|members| - 1];
    assert p in members;
    if Proceeds(b, p) {
      TheLastMembersTotalsFit(b, members);
      LegsOfPostingsArePositive(p.command.postings);
      FittedAllAlong(RecordedInTurn(b, earlier).balances, p.Legs(), TransactionStatus.Posted);
    } else {
      OneMoreProceeds(b, members);
    }
  }

  lemma TheNextPostStaysInStep(b: Book, members: seq<Planned>, now: Book)
    requires members != [] && MayShare(members) && EventIdsAreFresh(b.events, b.nextId)
    requires TheBooksStayInStep(b, members[..|members| - 1], now)
    requires Fits(RecordedInTurn(b, Proceeding(b, members)).balances)
    ensures AnswersInTurn(b, now, members[|members| - 1], PostOutcome(now, members[|members| - 1]))
    ensures members[|members| - 1].Key() !in b.events ==> members[|members| - 1].Key() !in now.events
  {
    assert members[|members| - 1] in members;
    TheNextKeyIsFree(b, members, now);
    if Proceeds(b, members[|members| - 1]) {
      TheLastMembersTotalsFit(b, members);
    }
    TheNextPostAnswersInTurn(b, now, members[|members| - 1]);
  }

  /** Posting one by one stays in step with recording the proceeding members. */
  lemma {:induction false} PostingOneByOneStaysInStep(b: Book, members: seq<Planned>)
    requires MayShare(members) && EventIdsAreFresh(b.events, b.nextId)
    requires Fits(RecordedInTurn(b, Proceeding(b, members)).balances)
    ensures TheBooksStayInStep(b, members, OneAtATime(b, members).book)
    ensures AnswersAgree(b, members, OneAtATime(b, members).answer)
    decreases |members|
  {
    if members != [] {
      var n := |members| - 1;
      var earlier := OneAtATime(b, members[..n]);
      FewerMayShare(members);
      FittedWithoutTheLast(b, members);
      PostingOneByOneStaysInStep(b, members[..n]);
      TheNextPostStaysInStep(b, members, earlier.book);
      OneMoreInStep(b, members, earlier.book, PostOutcome(earlier.book, members[n]));
      TheBalancesInStep(b, members, earlier.book);
      AnswersInTurnAreOwed(b, members, earlier.book, PostOutcome(earlier.book, members[n]));
      OneMoreAnswer(b, members, earlier.answer, PostOutcome(earlier.book, members[n]).answer);
    }
  }

  // ---- the shared statement --------------------------------------------

  lemma {:induction false} ProceedingArePlain(b: Book, members: seq<Planned>)
    requires AllPlain(members)
    ensures AllPlain(Proceeding(b, members))
  {
    ProceedingAreMembers(b, members);
  }

  /** What the members that proceed would add up to. */
  ghost predicate TotalsFit(b: Book, members: seq<Planned>)
  {
    Fits(BatchWritten(b, Proceeding(b, members)).balances)
  }

  /** The batches a drain yields fail whole for one reason only: a total over every
      member that no balance row can hold. */
  lemma TheSharedStatementFailsExactlyOnOverflow(b: Book, members: seq<Planned>)
    requires MayShare(members)
    ensures ClaimAndAppendBatch(b, members).Failed? <==> !TotalsFit(b, members)
  {
    assert !AClaimIsShared(b, members);
    forall i | 0 <= i < |members| ensures members[i].command.Plain() {
      assert members[i] in members;
    }
  }

  /** A member's answer is the one it is owed, whatever its batch-mates wrote. */
  lemma AMembersAnswerIsOwed(b: Book, members: seq<Planned>, staged: Book, m: nat)
    requires m < |members| && EventIdsAreFresh(b.events, b.nextId) && Extends(b, staged)
    ensures MemberAnswer(staged, members[m], OutcomeFor(b, members, m)) == Owed(b, members, m)
  {
    if members[m].Key() in b.events {
      StoredResultsStand(b, staged, members[m]);
    }
  }

  lemma TheSharedBookIsInStep(b: Book, members: seq<Planned>, shared: Book)
    requires MayShare(members) && TotalsFit(b, members) && shared == BatchWritten(b, Proceeding(b, members))
    requires EventIdsAreFresh(b.events, b.nextId)
    ensures SameUpToCommits(OneAtATime(b, members).book, shared) && Extends(b, shared)
    ensures AnswersAgree(b, members, OneAtATime(b, members).answer)
  {
    ProceedingArePlain(b, members);
    TheSharedStatementRecordsInTurn(b, Proceeding(b, members));
    PostingOneByOneStaysInStep(b, members);
  }

  /** Answers agree member by member, but for the ones that fail alone: those are
      refused as unknown accounts together and as storage alone. */
  ghost predicate AllAgree(b: Book, members: seq<Planned>, shared: seq<PostAnswer>, single: seq<PostAnswer>)
  {
    && |shared| == |single| == |members|
    && forall m :: 0 <= m < |members| ==> AgreesAt(b, members, m, shared[m], single[m])
  }

  ghost predicate AgreesAt(b: Book, members: seq<Planned>, m: nat, shared: PostAnswer, single: PostAnswer)
    requires m < |members|
  {
    && (single == shared <==> !FailsAlone(b, members, m))
    && (FailsAlone(b, members, m) ==>
          single == Err(WriteError.Storage) && shared == Err(WriteError.AccountUnknown(FirstUnknown(b.accounts, members[m].Legs()).value)))
  }

  lemma TheSharedAnswersAgree(b: Book, members: seq<Planned>, staged: Book, shared: seq<PostAnswer>, single: seq<PostAnswer>)
    requires EventIdsAreFresh(b.events, b.nextId) && Extends(b, staged)
    requires |single| == |members| && AnswersAgree(b, members, single)
    requires |shared| == |members|
    requires forall m :: 0 <= m < |members| ==> shared[m] == MemberAnswer(staged, members[m], OutcomeFor(b, members, m))
    ensures AllAgree(b, members, shared, single)
  {
    forall m | 0 <= m < |members| ensures AgreesAt(b, members, m, shared[m], single[m]) {
      AMembersAnswerIsOwed(b, members, staged, m);
      assert single[m] == OwedAlone(b, members, m);
    }
  }

  /** The shared statement, when it does not fail whole, means posting its members
      one by one in arrival order: the same claims, ids, entries, numbers and
      balances, and every member answered as it would be alone but for exactly the
      ones that fail alone. */
  lemma PostingTogetherMeansPostingInTurn(b: Book, members: seq<Planned>)
    requires MayShare(members) && EventIdsAreFresh(b.events, b.nextId)
    requires ClaimAndAppendBatch(b, members).Answered?
    ensures SameUpToCommits(OneAtATime(b, members).book, AppendedTogether(b, members).book)
    ensures AllAgree(b, members, AppendedTogether(b, members).answer, OneAtATime(b, members).answer)
  {
    var written := ClaimAndAppendBatch(b, members);
    TheSharedStatementFailsExactlyOnOverflow(b, members);
    TheSharedBookIsInStep(b, members, written.staged);
    TheSharedAnswersAgree(b, members, written.staged, AppendedTogether(b, members).answer, OneAtATime(b, members).answer);
  }

  // ---- the whole batch, its own refusals included -----------------------

  /** What a drain hands over: plain posted commands with distinct keys. */
  ghost predicate IsADrain(commands: seq<Planned>)
  {
    && AllPlain(commands) && DistinctKeys(commands)
    && forall p :: p in commands ==> p.command.WellFormed()
  }

  lemma {:induction false} SurvivorsMayShare(commands: seq<Planned>)
    requires IsADrain(commands)
    ensures MayShare(Survivors(commands))
    ensures forall p :: p in Survivors(commands) ==> p in commands
    decreases |commands|
  {
    if commands != [] {
      var n := |commands| - 1;
      forall p | p in commands[..n] ensures p in commands {
      }
      SurvivorsMayShare(commands[..n]);
      OneMoreSurvivorMayShare(Survivors(commands[..n]), commands);
    }
  }

  lemma OneMoreSurvivorMayShare(survivors: seq<Planned>, commands: seq<Planned>)
    requires commands != [] && IsADrain(commands) && MayShare(survivors)
    requires forall p :: p in survivors ==> p in commands[..|commands| - 1]
    ensures !PlanFails(commands[|commands| - 1]) ==> MayShare(survivors + [commands[|commands| - 1]])
  {
    var n := |commands| - 1;
    assert commands[n] in commands;
    forall i | 0 <= i < |survivors| ensures survivors[i].Key() != commands[n].Key() {
      assert survivors[i] in survivors;
      var j :| 0 <= j < n && commands[j] == survivors[i];
    }
  }

  /** A refusal by a command's own plan touches nobody else. */
  lemma {:induction false} PlanRefusalsTouchNobody(b: Book, commands: seq<Planned>)
    ensures InOrder(b, commands)
    decreases |commands|
  {
    if commands != [] {
      PlanRefusalsTouchNobody(b, commands[..|commands| - 1]);
      OneMoreCommandInOrder(b, commands);
    }
  }

  ghost predicate InOrder(b: Book, commands: seq<Planned>)
  {
    var survivors := OneAtATime(b, Survivors(commands));
    OneAtATime(b, commands).book == survivors.book && OneAtATime(b, commands).answer == InArrivalOrder(commands, survivors.answer)
  }

  lemma OneMoreCommandInOrder(b: Book, commands: seq<Planned>)
    requires commands != [] && InOrder(b, commands[..|commands| - 1])
    ensures InOrder(b, commands)
  {
    var n := |commands| - 1;
    if PlanFails(commands[n]) {
      ARefusedPlanStaysInOrder(b, commands);
    } else {
      ASurvivorStaysInOrder(b, commands);
    }
  }

  lemma ARefusedPlanStaysInOrder(b: Book, commands: seq<Planned>)
    requires commands != [] && InOrder(b, commands[..|commands| - 1]) && PlanFails(commands[|commands| - 1])
    ensures InOrder(b, commands)
  {
    var front := commands[..|commands| - 1];
    assert Survivors(commands) == Survivors(front);
    ARefusalIsKept(commands, OneAtATime(b, Survivors(front)).answer);
  }

  lemma ASurvivorStaysInOrder(b: Book, commands: seq<Planned>)
    requires commands != [] && InOrder(b, commands[..|commands| - 1]) && !PlanFails(commands[|commands| - 1])
    ensures InOrder(b, commands)
  {
    var n := |commands| - 1;
    var survivors := Survivors(commands[..n]);
    assert Survivors(commands) == survivors + [commands[n]];
    assert (survivors + [commands[n]])[..|survivors|] == survivors;
    TheNextAnswerIsTaken(commands, OneAtATime(b, survivors).answer, PostOutcome(OneAtATime(b, survivors).book, commands[n]).answer);
  }

  lemma RanksStand(commands: seq<Planned>, i: nat)
    requires i < |commands| - 1
    ensures Rank(commands, i) == Rank(commands[..|commands| - 1], i)
  {
    assert commands[..|commands| - 1][..i] == commands[..i];
  }

  lemma ARefusalIsKept(commands: seq<Planned>, answered: seq<PostAnswer>)
    requires commands != [] && PlanFails(commands[|commands| - 1]) && |answered| == |Survivors(commands[..|commands| - 1])|
    ensures |Survivors(commands)| == |answered|
    ensures InArrivalOrder(commands, answered) == InArrivalOrder(commands[..|commands| - 1], answered) + [Err(PlanRefusal(commands[|commands| - 1]))]
  {
    var n := |commands| - 1;
    SurvivorsBefore(commands[..n]);
    forall i | 0 <= i < n && !PlanFails(commands[i])
      ensures InArrivalOrder(commands, answered)[i] == InArrivalOrder(commands[..n], answered)[i] {
      RanksStand(commands, i);
    }
  }

  lemma TheNextAnswerIsTaken(commands: seq<Planned>, answered: seq<PostAnswer>, last: PostAnswer)
    requires commands != [] && !PlanFails(commands[|commands| - 1]) && |answered| == |Survivors(commands[..|commands| - 1])|
    ensures |Survivors(commands)| == |answered| + 1
    ensures InArrivalOrder(commands, answered + [last]) == InArrivalOrder(commands[..|commands| - 1], answered) + [last]
  {
    var n := |commands| - 1;
    SurvivorsBefore(commands[..n]);
    forall i | 0 <= i < n && !PlanFails(commands[i])
      ensures InArrivalOrder(commands, answered + [last])[i] == InArrivalOrder(commands[..n], answered)[i] {
      RanksStand(commands, i);
    }
  }

  /** The commands that batching answers otherwise: survivors of a batch of two or
      more that would have failed alone. */
  ghost predicate AnsweredApart(b: Book, commands: seq<Planned>, i: nat)
    requires i < |commands|
  {
    var survivors := Survivors(commands);
    && |survivors| >= 2 && !PlanFails(commands[i]) && !IsAdmissible(b, commands[i])
    && Rank(commands, i) < |survivors| && FailsAlone(b, survivors, Rank(commands, i))
  }

  /** Batched posting refines single posting: for what a drain yields, unless the
      shared statement fails whole, the batch leaves the book posting one by one
      would. Command by command the two answers are the same if and only if it is not
      one that fails alone; that one hears storage alone and, in the batch, the name
      of its least unknown account. */
  lemma BatchedPostingRefinesSinglePosting(b: Book, commands: seq<Planned>)
    requires Valid(b) && IsADrain(commands)
    requires |Survivors(commands)| >= 2 ==> ClaimAndAppendBatch(b, Survivors(commands)).Answered?
    ensures SameUpToCommits(OneAtATime(b, commands).book, BatchOutcome(b, commands).book)
    ensures forall i :: 0 <= i < |commands| ==>
              CommandAgrees(b, commands, i, BatchOutcome(b, commands).answer[i], OneAtATime(b, commands).answer[i])
  {
    var survivors := Survivors(commands);
    SurvivorsMayShare(commands);
    PlanRefusalsTouchNobody(b, commands);
    MembersRefine(b, survivors);
    ArrivalOrderKeepsAgreement(b, commands, MembersOutcome(b, survivors).answer, OneAtATime(b, survivors).answer);
  }

  ghost predicate CommandAgrees(b: Book, commands: seq<Planned>, i: nat, shared: PostAnswer, single: PostAnswer)
    requires i < |commands|
  {
    && (single == shared <==> !AnsweredApart(b, commands, i))
    && (AnsweredApart(b, commands, i) ==>
          && single == Err(WriteError.Storage)
          && shared == Err(WriteError.AccountUnknown(FirstUnknown(b.accounts, commands[i].Legs()).value)))
  }

  ghost predicate MembersAgree(b: Book, members: seq<Planned>, shared: seq<PostAnswer>, single: seq<PostAnswer>)
  {
    if |members| >= 2 then AllAgree(b, members, shared, single) else shared == single && |single| == |members|
  }

  lemma MembersRefine(b: Book, members: seq<Planned>)
    requires EventIdsAreFresh(b.events, b.nextId) && MayShare(members)
    requires |members| >= 2 ==> ClaimAndAppendBatch(b, members).Answered?
    ensures SameUpToCommits(OneAtATime(b, members).book, MembersOutcome(b, members).book)
    ensures MembersAgree(b, members, MembersOutcome(b, members).answer, OneAtATime(b, members).answer)
  {
    if |members| >= 2 {
      PostingTogetherMeansPostingInTurn(b, members);
    } else if |members| == 1 {
      OneAloneIsOneInTurn(b, members);
    }
  }

  lemma OneAloneIsOneInTurn(b: Book, members: seq<Planned>)
    requires |members| == 1
    ensures OneAtATime(b, members) == Outcome([PostOutcome(b, members[0]).answer], PostOutcome(b, members[0]).book)
  {
    var alone := PostOutcome(b, members[0]);
    assert OneAtATime(b, members[..0]) == Outcome([], b);
    assert [] + [alone.answer] == [alone.answer];
  }

  lemma ArrivalOrderKeepsAgreement(b: Book, commands: seq<Planned>, shared: seq<PostAnswer>, single: seq<PostAnswer>)
    requires |shared| == |Survivors(commands)| == |single| && MembersAgree(b, Survivors(commands), shared, single)
    ensures forall i :: 0 <= i < |commands| ==>
              CommandAgrees(b, commands, i, InArrivalOrder(commands, shared)[i], InArrivalOrder(commands, single)[i])
  {
    SurvivorsBefore(commands);
    forall i | 0 <= i < |commands| ensures CommandAgrees(b, commands, i, InArrivalOrder(commands, shared)[i], InArrivalOrder(commands, single)[i]) {
      if !PlanFails(commands[i]) && |Survivors(commands)| >= 2 {
        assert AgreesAt(b, Survivors(commands), Rank(commands, i), shared[Rank(commands, i)], single[Rank(commands, i)]);
      }
    }
  }

  /** A batch that fails whole writes nothing: its members may all retry, and a
      command its own plan refused keeps that refusal. */
  lemma AFailedBatchWritesNothing(b: Book, commands: seq<Planned>)
    requires |Survivors(commands)| >= 2 && ClaimAndAppendBatch(b, Survivors(commands)).Failed?
    ensures BatchOutcome(b, commands).book == b
    ensures forall i :: 0 <= i < |commands| ==>
              BatchOutcome(b, commands).answer[i] == Err(if PlanFails(commands[i]) then PlanRefusal(commands[i]) else WriteError.Storage)
  {
    SurvivorsBefore(commands);
  }
}
