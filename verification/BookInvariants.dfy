/** What every reachable book keeps, and why recording one accepted transaction
    keeps it. */
module BookInvariants {
  import opened Wrappers
  import opened Bytes
  import opened Domain
  import opened Accounts
  import opened Periods
  import opened Postings
  import opened Port
  import opened Book
  import opened Closing

  // ---- the balance cache, the numbering, the double entry ---------------

  function AllLegs(txns: seq<Txn>): seq<Leg> { LegsIn(AllEntries(txns)) }

  /** The cache means posted; the counter counts every entry. */
  ghost predicate CacheIsExact(balances: map<Key, Balance>, txns: seq<Txn>)
  {
    forall row :: BalanceOn(balances, row) == RowTotals(txns, row)
  }

  /** What one row's cache should hold. */
  function RowTotals(txns: seq<Txn>, row: Key): Balance
  {
    Balance(Total(PostedLegs(txns), row, Debit), Total(PostedLegs(txns), row, Credit), Count(AllLegs(txns), row))
  }

  /** Each entry takes the number after every earlier one on its row. */
  ghost predicate NumberedGaplessly(entries: seq<Entry>)
  {
    forall i :: 0 <= i < |entries| ==> IsNumbered(entries, i)
  }

  ghost predicate IsNumbered(entries: seq<Entry>, i: nat)
    requires i < |entries|
  {
    entries[i].accountSeq == Count(LegsIn(entries[..i]), entries[i].leg.Row()) + 1
  }

  ghost predicate EveryTxnBalances(txns: seq<Txn>)
  {
    forall i :: 0 <= i < |txns| ==> Balanced(LegsIn(txns[i].entries))
  }

  ghost predicate EntriesAreSound(b: Book)
  {
    && AllPositive(AllLegs(b.txns))
    && AllKnown(b.accounts, AllLegs(b.txns))
    && Fits(b.balances)
  }

  // ---- supersession ----------------------------------------------------

  /** A target may be superseded by this transaction. */
  ghost predicate IsTargetOf(target: Txn, t: Txn)
  {
    && target.kind.OrdinaryPosting?
    && target.Supersedes().None?
    && (t.resolvesId.Some? ==> target.status.Pending?)
    && (t.reversesId.Some? ==>
          LegsIn(t.entries) == if target.status.Posted? then Mirrored(LegsIn(target.entries)) else [])
  }

  ghost predicate PointsAtAnEarlierTarget(txns: seq<Txn>, i: nat)
    requires i < |txns| && txns[i].Supersedes().Some?
  {
    exists j :: 0 <= j < i && txns[j].id == txns[i].Supersedes().value && IsTargetOf(txns[j], txns[i])
  }

  /** One supersession per target, one deep. */
  ghost predicate SupersessionIsOneDeep(txns: seq<Txn>)
  {
    && (forall i :: 0 <= i < |txns| ==> txns[i].status.Pending? ==> txns[i].Supersedes().None? && txns[i].kind.OrdinaryPosting?)
    && (forall i :: 0 <= i < |txns| ==> txns[i].resolvesId.None? || txns[i].reversesId.None?)
    && (forall i :: 0 <= i < |txns| && txns[i].Supersedes().Some? ==> PointsAtAnEarlierTarget(txns, i))
    && (forall i, j :: 0 <= i < j < |txns| && txns[i].Supersedes().Some? ==> txns[i].Supersedes() != txns[j].Supersedes())
  }

  // ---- identities ------------------------------------------------------

  ghost predicate TxnIdsAreFresh(txns: seq<Txn>, nextId: nat, nextXact: nat)
  {
    && (forall i :: 0 <= i < |txns| ==> txns[i].id < nextId && txns[i].eventId < nextId && txns[i].xactId <= nextXact)
    && (forall i, j :: 0 <= i < j < |txns| ==> txns[i].id != txns[j].id && txns[i].eventId != txns[j].eventId)
  }

  ghost predicate EventIdsAreFresh(events: map<Text, Event>, nextId: nat)
  {
    && (forall key :: key in events ==> events[key].id < nextId)
    && (forall k, l :: k in events && l in events && k != l ==> events[k].id != events[l].id)
  }

  ghost predicate IdsAreFresh(b: Book)
  {
    && TxnIdsAreFresh(b.txns, b.nextId, b.nextXact)
    && EventIdsAreFresh(b.events, b.nextId)
    && forall id :: id in b.accounts ==> id < b.nextId
  }

  ghost predicate RegisterIsExact(accounts: map<nat, Account>, register: map<Nature, nat>)
  {
    && (forall n :: n in register ==> register[n] in accounts && accounts[register[n]].nature == n)
    && (forall id :: id in accounts ==> accounts[id].nature in register && register[accounts[id].nature] == id)
  }

  /** A claim's stored hash leads to the row its operation wrote, whichever body of
      whichever operation it is the hash of. */
  ghost predicate LeadsSomewhere(claim: Event, txns: seq<Txn>, register: map<Nature, nat>, periods: map<Text, Period>)
  {
    && (forall c: PostTransaction {:trigger HashOf(c)} :: c.WellFormed() && claim.hash == HashOf(c) ==> TxnOfEvent(txns, claim.id).Some?)
    && (forall c: OpenAccount {:trigger CanonicalOpen(c)} :: claim.hash == CanonicalOpen(c) && c.WellFormed() ==> NatureOf(c) in register)
    && (forall c: DefinePeriod {:trigger CanonicalDefine(c)} :: Some(claim.hash) == CanonicalDefine(c) && c.WellFormed()
          ==> c.code in periods && periods[c.code] == Period(c.code, c.startsAt.utc, c.endsAt.utc, c.tz))
  }

  ghost predicate ClaimsLeadSomewhere(events: map<Text, Event>, txns: seq<Txn>, register: map<Nature, nat>, periods: map<Text, Period>)
  {
    forall key :: key in events ==> LeadsSomewhere(events[key], txns, register, periods)
  }

  // ---- periods ---------------------------------------------------------

  /** Periods are non-empty, printable, and share no instant. */
  ghost predicate PeriodsAreSound(periods: map<Text, Period>)
  {
    && (forall code :: code in periods ==> periods[code].code == code && YEAR_0 <= periods[code].startsAt < periods[code].endsAt)
    && (forall one, other :: one in periods && other in periods && one != other ==> !Overlap(periods[one], periods[other]))
  }

  // ---- closes ----------------------------------------------------------

  /** A stored close's checkpoint is the at-close position, its sweep included, of
      the journal as it stands now. */
  ghost predicate CheckpointIsExact(txns: seq<Txn>, currency: Text, close: Close)
  {
    var legs := LegsWhere(txns, InCheckpoint(close.endsAt, close.computedAtXid, close.transactionId));
    forall account :: CheckpointOn(close.checkpoint, account)
      == Checkpointed(Total(legs, Key(account, currency), Debit), Total(legs, Key(account, currency), Credit))
  }

  /** Every temporary account but retained earnings is checkpointed at zero. */
  ghost predicate TemporariesAreZeroed(accounts: map<nat, Account>, retainedEarnings: Option<nat>, close: Close)
  {
    forall account: nat :: IsTemporary(accounts, account) && retainedEarnings != Some(account)
      ==> CheckpointOn(close.checkpoint, account).input == CheckpointOn(close.checkpoint, account).output
  }

  ghost predicate IsInTheJournal(txns: seq<Txn>, close: Close)
  {
    exists i :: 0 <= i < |txns| && IsTheCloseOf(txns[i], close)
  }

  ghost predicate CloseIsExact(b: Book, currency: Text, close: Close)
  {
    && close.computedAtXid < b.nextXact
    && close.transactionId < b.nextId
    && RetainedEarnings(b.register, currency).Some?
    && IsInTheJournal(b.txns, close)
    && CheckpointIsExact(b.txns, currency, close)
    && TemporariesAreZeroed(b.accounts, RetainedEarnings(b.register, currency), close)
  }

  predicate IsTheCloseOf(t: Txn, close: Close)
  {
    t.id == close.transactionId && t.kind.PeriodClose? && t.xactId == close.computedAtXid && t.effectiveAt < close.endsAt
  }

  ghost predicate ClosesAreExact(b: Book)
  {
    forall name :: name in b.closes ==> CloseIsExact(b, name.1, b.closes[name])
  }

  // ---- the whole -------------------------------------------------------

  /** What a bracket keeps while it is open. */
  ghost predicate ValidStaged(b: Book)
  {
    && CacheIsExact(b.balances, b.txns)
    && NumberedGaplessly(AllEntries(b.txns))
    && EveryTxnBalances(b.txns)
    && EntriesAreSound(b)
    && SupersessionIsOneDeep(b.txns)
    && IdsAreFresh(b)
    && RegisterIsExact(b.accounts, b.register)
    && ClaimsLeadSomewhere(b.events, b.txns, b.register, b.periods)
    && PeriodsAreSound(b.periods)
    && ClosesAreExact(b)
  }

  /** What every committed book satisfies. */
  ghost predicate Valid(b: Book)
  {
    ValidStaged(b) && forall i :: 0 <= i < |b.txns| ==> b.txns[i].xactId < b.nextXact
  }

  // ---- appending to the journal ----------------------------------------

  lemma LegsInConcat(a: seq<Entry>, b: seq<Entry>)
    ensures LegsIn(a + b) == LegsIn(a) + LegsIn(b)
  {
  }

  lemma AllEntriesOneMore(txns: seq<Txn>, t: Txn)
    ensures AllEntries(txns + [t]) == AllEntries(txns) + t.entries
    ensures AllLegs(txns + [t]) == AllLegs(txns) + LegsIn(t.entries)
  {
    assert (txns + [t])[..|txns|] == txns;
    LegsInConcat(AllEntries(txns), t.entries);
  }

  lemma LegsWhereOneMore(txns: seq<Txn>, t: Txn, bound: Bound)
    ensures LegsWhere(txns + [t], bound) == LegsWhere(txns, bound) + if bound.Admits(t) then LegsIn(t.entries) else []
  {
    assert (txns + [t])[..|txns|] == txns;
  }

  lemma LegsOfNumbered(balances: map<Key, Balance>, legs: seq<Leg>)
    ensures LegsIn(Numbered(balances, legs)) == legs
  {
  }

  /** The walk-back, seen forwards: an entry's number is its row's counter before
      the statement, plus its place among the statement's own legs on that row. */
  lemma NumberedForwards(balances: map<Key, Balance>, legs: seq<Leg>, i: nat)
    requires i < |legs|
    ensures Numbered(balances, legs)[i].accountSeq
         == BalanceOn(balances, legs[i].Row()).lastSeq + Count(legs[..i], legs[i].Row()) + 1
  {
    var counters := map row | row in balances :: balances[row].lastSeq;
    WalkBackNumbersSequentially(counters, legs, i);
    OneAtATimeCountsThePrefix(counters, legs, i);
  }

  /** The entry a leg takes after so many earlier ones on its row. */
  function EntryAfter(balances: map<Key, Balance>, earlier: int, leg: Leg): Entry
  {
    Entry(leg, BalanceOn(balances, leg.Row()).lastSeq + earlier + 1)
  }

  lemma NumberedInTurn(balances: map<Key, Balance>, legs: seq<Leg>, i: nat)
    requires i < |legs|
    ensures Numbered(balances, legs)[i] == EntryAfter(balances, Count(legs[..i], legs[i].Row()), legs[i])
  {
    NumberedForwards(balances, legs, i);
  }

  // ---- what recording keeps, clause by clause --------------------------

  function TxnOf(b: Book, shape: Shape, legs: seq<Leg>): Txn
  {
    Txn(b.nextId + 1, b.nextId, shape.kind, shape.status, shape.effectiveAt,
        shape.resolvesId, shape.reversesId, b.nextXact, Numbered(b.balances, legs))
  }

  lemma UpsertOnOneRow(balances: map<Key, Balance>, legs: seq<Leg>, status: TransactionStatus, row: Key)
    ensures var before, delta := BalanceOn(balances, row), Cached(DeltaOf(legs, row), status);
            BalanceOn(Upserted(balances, legs, status), row)
            == Balance(before.input + delta.input, before.output + delta.output, before.lastSeq + delta.legs)
  {
    if row !in KeysOf(legs) {
      UntouchedKeysHaveNothing(legs, row);
    }
  }

  lemma RowTotalsOneMore(txns: seq<Txn>, t: Txn, row: Key)
    ensures var before, delta := RowTotals(txns, row), Cached(DeltaOf(LegsIn(t.entries), row), t.status);
            RowTotals(txns + [t], row)
            == Balance(before.input + delta.input, before.output + delta.output, before.lastSeq + delta.legs)
  {
    var posted := if t.status.Posted? then LegsIn(t.entries) else [];
    AllEntriesOneMore(txns, t);
    LegsWhereOneMore(txns, t, EveryPosted);
    CountConcat(AllLegs(txns), LegsIn(t.entries), row);
    TotalConcat(PostedLegs(txns), posted, row, Debit);
    TotalConcat(PostedLegs(txns), posted, row, Credit);
  }

  lemma RecordingKeepsTheCache(b: Book, key: Text, hash: Text, shape: Shape, legs: seq<Leg>)
    requires CacheIsExact(b.balances, b.txns)
    ensures CacheIsExact(Record(b, key, hash, shape, legs).balances, Record(b, key, hash, shape, legs).txns)
  {
    forall row ensures BalanceOn(Upserted(b.balances, legs, shape.status), row) == RowTotals(b.txns + [TxnOf(b, shape, legs)], row) {
      RecordingKeepsOneRow(b, shape, legs, row);
    }
  }

  lemma RecordingKeepsOneRow(b: Book, shape: Shape, legs: seq<Leg>, row: Key)
    requires CacheIsExact(b.balances, b.txns)
    ensures BalanceOn(Upserted(b.balances, legs, shape.status), row) == RowTotals(b.txns + [TxnOf(b, shape, legs)], row)
  {
    assert BalanceOn(b.balances, row) == RowTotals(b.txns, row);
    LegsOfNumbered(b.balances, legs);
    RowTotalsOneMore(b.txns, TxnOf(b, shape, legs), row);
    UpsertOnOneRow(b.balances, legs, shape.status, row);
  }

  /** Every leg's row stands at the count of its earlier entries. */
  ghost predicate CountersAgree(before: seq<Entry>, balances: map<Key, Balance>, legs: seq<Leg>)
  {
    forall k :: 0 <= k < |legs| ==> BalanceOn(balances, legs[k].Row()).lastSeq == Count(LegsIn(before), legs[k].Row())
  }

  lemma RecordingKeepsTheNumbering(b: Book, legs: seq<Leg>)
    requires CacheIsExact(b.balances, b.txns) && NumberedGaplessly(AllEntries(b.txns))
    ensures NumberedGaplessly(AllEntries(b.txns) + Numbered(b.balances, legs))
  {
    forall k | 0 <= k < |legs|
      ensures BalanceOn(b.balances, legs[k].Row()).lastSeq == Count(AllLegs(b.txns), legs[k].Row()) {
      assert BalanceOn(b.balances, legs[k].Row()) == RowTotals(b.txns, legs[k].Row());
    }
    TheNumberingContinues(AllEntries(b.txns), b.balances, legs);
  }

  lemma TheNumberingContinues(before: seq<Entry>, balances: map<Key, Balance>, legs: seq<Leg>)
    requires NumberedGaplessly(before) && CountersAgree(before, balances, legs)
    ensures NumberedGaplessly(before + Numbered(balances, legs))
  {
    var after := before + Numbered(balances, legs);
    forall i | 0 <= i < |after| ensures IsNumbered(after, i) {
      if i < |before| {
        assert IsNumbered(before, i);
        assert after[..i] == before[..i];
      } else {
        NewEntriesContinueTheCount(before, balances, legs, i - |before|);
      }
    }
  }

  lemma NewEntriesContinueTheCount(before: seq<Entry>, balances: map<Key, Balance>, legs: seq<Leg>, k: nat)
    requires k < |legs|
    requires BalanceOn(balances, legs[k].Row()).lastSeq == Count(LegsIn(before), legs[k].Row())
    ensures Numbered(balances, legs)[k].accountSeq
         == Count(LegsIn((before + Numbered(balances, legs))[..|before| + k]), legs[k].Row()) + 1
  {
    var added := Numbered(balances, legs);
    assert (before + added)[..|before| + k] == before + added[..k];
    LegsInConcat(before, added[..k]);
    assert LegsIn(added[..k]) == legs[..k];
    CountConcat(LegsIn(before), legs[..k], legs[k].Row());
    NumberedForwards(balances, legs, k);
  }

  /** What a new transaction must bring for the supersession rule to survive it. */
  ghost predicate MaySupersede(txns: seq<Txn>, shape: Shape, legs: seq<Leg>)
  {
    && (shape.status.Pending? ==> shape.resolvesId.None? && shape.reversesId.None? && shape.kind.OrdinaryPosting?)
    && (shape.resolvesId.None? || shape.reversesId.None?)
    && (shape.resolvesId.Some? ==>
          && !IsSuperseded(txns, shape.resolvesId.value)
          && exists j :: 0 <= j < |txns| && txns[j].id == shape.resolvesId.value && txns[j].kind.OrdinaryPosting?
                         && txns[j].status.Pending?)
    && (shape.reversesId.Some? ==>
          && !IsSuperseded(txns, shape.reversesId.value)
          && exists j :: 0 <= j < |txns| && txns[j].id == shape.reversesId.value && txns[j].kind.OrdinaryPosting?
                         && txns[j].Supersedes().None?
                         && legs == if txns[j].status.Posted? then Mirrored(LegsIn(txns[j].entries)) else [])
  }

  lemma RecordingKeepsSupersession(b: Book, shape: Shape, legs: seq<Leg>)
    requires SupersessionIsOneDeep(b.txns) && MaySupersede(b.txns, shape, legs)
    ensures SupersessionIsOneDeep(b.txns + [TxnOf(b, shape, legs)])
  {
    var t := TxnOf(b, shape, legs);
    var after := b.txns + [t];
    LegsOfNumbered(b.balances, legs);
    forall i | 0 <= i < |after| && after[i].Supersedes().Some? ensures PointsAtAnEarlierTarget(after, i) {
      if i < |b.txns| {
        assert PointsAtAnEarlierTarget(b.txns, i);
        var j :| 0 <= j < i && b.txns[j].id == b.txns[i].Supersedes().value && IsTargetOf(b.txns[j], b.txns[i]);
        assert after[j] == b.txns[j];
      } else {
        var j :| 0 <= j < |b.txns| && b.txns[j].id == t.Supersedes().value && b.txns[j].kind.OrdinaryPosting?
          && (shape.resolvesId.Some? ==> b.txns[j].status.Pending?)
          && (shape.reversesId.Some? ==> (b.txns[j].Supersedes().None?
                && legs == if b.txns[j].status.Posted? then Mirrored(LegsIn(b.txns[j].entries)) else []));
        assert after[j] == b.txns[j] && IsTargetOf(after[j], t);
      }
    }
  }

  lemma RecordingKeepsTheIds(b: Book, key: Text, hash: Text, shape: Shape, legs: seq<Leg>)
    requires IdsAreFresh(b) && key !in b.events
    ensures IdsAreFresh(Record(b, key, hash, shape, legs))
  {
    AClaimKeepsTheEventIds(b.events, b.nextId, key, hash, b.nextId + 2);
  }

  lemma AClaimKeepsTheEventIds(events: map<Text, Event>, nextId: nat, key: Text, hash: Text, after: nat)
    requires EventIdsAreFresh(events, nextId) && key !in events && nextId < after
    ensures EventIdsAreFresh(events[key := Event(nextId, hash)], after)
  {
  }

  lemma RecordingKeepsTheEntriesSound(b: Book, key: Text, hash: Text, shape: Shape, legs: seq<Leg>)
    requires EntriesAreSound(b) && AllPositive(legs) && AllKnown(b.accounts, legs)
    requires Fits(Upserted(b.balances, legs, shape.status))
    ensures EntriesAreSound(Record(b, key, hash, shape, legs))
  {
    AllEntriesOneMore(b.txns, TxnOf(b, shape, legs));
    LegsOfNumbered(b.balances, legs);
  }

  lemma RecordingKeepsTheClaims(b: Book, key: Text, hash: Text, shape: Shape, legs: seq<Leg>)
    requires ClaimsLeadSomewhere(b.events, b.txns, b.register, b.periods) && key !in b.events
    requires TaggedBy(hash, POST_LETTER) || TaggedBy(hash, CLOSE_LETTER)
    ensures var after := Record(b, key, hash, shape, legs);
            ClaimsLeadSomewhere(after.events, after.txns, after.register, after.periods)
  {
    var after := Record(b, key, hash, shape, legs);
    assert after.txns[..|b.txns|] == b.txns;
    APostsClaimLeadsToItsTransaction(Event(b.nextId, hash), after.txns, after.register, after.periods);
    forall k | k in b.events ensures LeadsSomewhere(b.events[k], after.txns, after.register, after.periods) {
      ALaterTransactionHidesNoClaim(b.events[k], b.txns, after.txns[|b.txns|], b.register, b.periods);
    }
  }

  lemma APostsClaimLeadsToItsTransaction(claim: Event, txns: seq<Txn>, register: map<Nature, nat>, periods: map<Text, Period>)
    requires TaggedBy(claim.hash, POST_LETTER) || TaggedBy(claim.hash, CLOSE_LETTER)
    requires TxnOfEvent(txns, claim.id).Some?
    ensures LeadsSomewhere(claim, txns, register, periods)
  {
    forall c: OpenAccount ensures claim.hash != CanonicalOpen(c) {
      OpenFormsAreTagged(c);
    }
    forall c: DefinePeriod ensures Some(claim.hash) != CanonicalDefine(c) {
      if CanonicalDefine(c).Some? {
        DefineFormsAreTagged(c);
      }
    }
  }

  lemma ALaterTransactionHidesNoClaim(claim: Event, txns: seq<Txn>, t: Txn, register: map<Nature, nat>, periods: map<Text, Period>)
    requires LeadsSomewhere(claim, txns, register, periods)
    ensures LeadsSomewhere(claim, txns + [t], register, periods)
  {
    assert (txns + [t])[..|txns|] == txns;
  }

  lemma RecordingKeepsTheCloses(b: Book, key: Text, hash: Text, shape: Shape, legs: seq<Leg>)
    requires ClosesAreExact(b)
    ensures ClosesAreExact(Record(b, key, hash, shape, legs))
  {
    forall name | name in b.closes ensures CloseIsExact(Record(b, key, hash, shape, legs), name.1, b.closes[name]) {
      assert CloseIsExact(b, name.1, b.closes[name]);
      RecordingKeepsOneClose(b, key, hash, shape, legs, name.1, b.closes[name]);
    }
  }

  /** A later transaction is past the close's cursor and is not the close, so its
      checkpoint's bound does not admit it. */
  lemma RecordingKeepsOneClose(b: Book, key: Text, hash: Text, shape: Shape, legs: seq<Leg>, currency: Text, close: Close)
    requires CloseIsExact(b, currency, close)
    ensures CloseIsExact(Record(b, key, hash, shape, legs), currency, close)
  {
    var t := TxnOf(b, shape, legs);
    var bound := InCheckpoint(close.endsAt, close.computedAtXid, close.transactionId);
    LegsWhereOneMore(b.txns, t, bound);
    assert !bound.Admits(t);
    assert LegsWhere(b.txns + [t], bound) == LegsWhere(b.txns, bound);
    assert CheckpointIsExact(b.txns + [t], currency, close);
    var i :| 0 <= i < |b.txns| && IsTheCloseOf(b.txns[i], close);
    assert (b.txns + [t])[i] == b.txns[i];
  }

  /** What an accepted transaction brings. */
  ghost predicate Recordable(b: Book, key: Text, hash: Text, shape: Shape, legs: seq<Leg>)
  {
    && key !in b.events
    && (TaggedBy(hash, POST_LETTER) || TaggedBy(hash, CLOSE_LETTER))
    && AllPositive(legs) && AllKnown(b.accounts, legs) && Balanced(legs)
    && Fits(Upserted(b.balances, legs, shape.status))
    && MaySupersede(b.txns, shape, legs)
  }

  /** Recording keeps every invariant at once. */
  lemma RecordingKeepsTheBookValid(b: Book, key: Text, hash: Text, shape: Shape, legs: seq<Leg>)
    requires ValidStaged(b) && Recordable(b, key, hash, shape, legs)
    ensures ValidStaged(Record(b, key, hash, shape, legs))
  {
    var after := Record(b, key, hash, shape, legs);
    RecordingKeepsTheCache(b, key, hash, shape, legs);
    RecordingKeepsTheNumbering(b, legs);
    AllEntriesOneMore(b.txns, TxnOf(b, shape, legs));
    assert EveryTxnBalances(after.txns) by {
      LegsOfNumbered(b.balances, legs);
    }
    RecordingKeepsTheEntriesSound(b, key, hash, shape, legs);
    RecordingKeepsSupersession(b, shape, legs);
    RecordingKeepsTheIds(b, key, hash, shape, legs);
    RecordingKeepsTheClaims(b, key, hash, shape, legs);
    RecordingKeepsTheCloses(b, key, hash, shape, legs);
  }

  /** Closing the bracket moves the commit position past everything it wrote. */
  lemma CommittingKeepsTheBookValid(before: Book, staged: Book)
    requires Valid(before) && ValidStaged(staged)
    ensures Valid(Committed(before, staged))
  {
    PassingTheCommitKeepsTheBookValid(staged);
  }

  lemma PassingTheCommitKeepsTheBookValid(staged: Book)
    requires ValidStaged(staged)
    ensures Valid(PastTheCommit(staged))
  {
    PassingTheCommitKeepsTheEntries(staged);
    PassingTheCommitKeepsTheIds(staged);
    PassingTheCommitKeepsTheCloses(staged);
  }

  lemma PassingTheCommitKeepsTheEntries(staged: Book)
    requires EntriesAreSound(staged)
    ensures EntriesAreSound(PastTheCommit(staged))
  {
  }

  lemma PassingTheCommitKeepsTheIds(staged: Book)
    requires IdsAreFresh(staged)
    ensures IdsAreFresh(PastTheCommit(staged))
    ensures forall i :: 0 <= i < |staged.txns| ==> staged.txns[i].xactId < PastTheCommit(staged).nextXact
  {
  }

  lemma PassingTheCommitKeepsTheCloses(staged: Book)
    requires ClosesAreExact(staged)
    ensures ClosesAreExact(PastTheCommit(staged))
  {
    var after := PastTheCommit(staged);
    forall name | name in after.closes ensures CloseIsExact(after, name.1, after.closes[name]) {
      assert CloseIsExact(staged, name.1, staged.closes[name]);
    }
  }
}
