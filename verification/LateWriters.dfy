/** A close among other brackets: its checkpoint is read while they are in flight, and
    stays exact for good if and only if none older than it was. */
module LateWriters {
  import opened Wrappers
  import opened Bytes
  import opened Domain
  import opened Postings
  import opened Reports
  import opened PinnedReads
  import opened CheckpointReader
  import Book
  import C = Closing

  type Txn = Book.Txn
  type Close = Book.Close
  type Bound = Book.Bound

  // ---- a journal as a statement sees it --------------------------------

  /** An entry's row, and what of its transaction an aggregate reads. */
  function AsTxn(r: Row): Txn
    requires r.EntryRow?
  {
    Book.Txn(r.transaction, 0, Book.OrdinaryPosting, if r.posted then TransactionStatus.Posted else TransactionStatus.Pending,
             r.effectiveAt, None, None, r.xactId, [Book.Entry(r.leg, 0)])
  }

  /** Committed, or written by the transaction that asks. */
  predicate Sees(c: Cluster, own: Option<Cursor>, r: Row)
  {
    own == Some(r.xactId) || IsCommitted(c, r)
  }

  predicate IsInView(c: Cluster, own: Option<Cursor>, tenant: Text, r: Row)
  {
    r.EntryRow? && r.tenant == tenant && Sees(c, own, r)
  }

  function View(rows: seq<Row>, c: Cluster, own: Option<Cursor>, tenant: Text): seq<Txn>
  {
    if rows == [] then [] else
    var last := rows[|rows| - 1];
    View(rows[..|rows| - 1], c, own, tenant) + if IsInView(c, own, tenant, last) then [AsTxn(last)] else []
  }

  /** The committed journal. */
  function Journal(c: Cluster, tenant: Text): seq<Txn>
  {
    View(c.rows, c, None, tenant)
  }

  predicate Counts(c: Cluster, own: Option<Cursor>, tenant: Text, bound: Bound, r: Row)
  {
    IsInView(c, own, tenant, r) && bound.Admits(AsTxn(r))
  }

  /** The legs a bound admits, row by row. */
  function Counted(rows: seq<Row>, c: Cluster, own: Option<Cursor>, tenant: Text, bound: Bound): seq<Leg>
  {
    if rows == [] then [] else
    var last := rows[|rows| - 1];
    Counted(rows[..|rows| - 1], c, own, tenant, bound) + if Counts(c, own, tenant, bound, last) then [last.leg] else []
  }

  lemma {:induction false} TheViewsLegs(rows: seq<Row>, c: Cluster, own: Option<Cursor>, tenant: Text, bound: Bound)
    ensures Book.LegsWhere(View(rows, c, own, tenant), bound) == Counted(rows, c, own, tenant, bound)
    decreases |rows|
  {
    if rows != [] {
      var n := |rows| - 1;
      var before := View(rows[..n], c, own, tenant);
      TheViewsLegs(rows[..n], c, own, tenant, bound);
      if IsInView(c, own, tenant, rows[n]) {
        OneMoreTxn(before, AsTxn(rows[n]), rows[n].leg, bound);
      } else {
        assert before + [] == before;
        assert Counted(rows[..n], c, own, tenant, bound) + [] == Counted(rows[..n], c, own, tenant, bound);
      }
    }
  }

  lemma OneMoreTxn(before: seq<Txn>, t: Txn, leg: Leg, bound: Bound)
    requires t.entries == [Book.Entry(leg, 0)]
    ensures Book.LegsWhere(before + [t], bound) == Book.LegsWhere(before, bound) + if bound.Admits(t) then [leg] else []
  {
    assert (before + [t])[..|before|] == before;
    assert Book.LegsIn(t.entries) == [leg];
  }

  /** A posted entry of the tenant's, committed or the asker's own. */
  predicate IsAPostedRow(c: Cluster, own: Option<Cursor>, tenant: Text, r: Row)
  {
    && r.EntryRow? && r.tenant == tenant && r.posted
    && (own == Some(r.xactId) || (r.xactId !in c.running && r.xactId !in c.aborted))
  }

  /** Which rows the plain recompute, the checkpoint and the reader's two tails count. */
  lemma WhichRowsCount(c: Cluster, own: Option<Cursor>, tenant: Text, r: Row, endsAt: Instant, asOf: Instant, computedAt: nat, closeTxn: nat, cursor: nat)
    ensures Counts(c, own, tenant, Book.Admitted(asOf, cursor), r)
            <==> IsAPostedRow(c, own, tenant, r) && r.effectiveAt < asOf && r.xactId < cursor
    ensures Counts(c, own, tenant, Book.InCheckpoint(endsAt, computedAt, closeTxn), r)
            <==> IsAPostedRow(c, own, tenant, r) && r.effectiveAt < endsAt && (r.xactId < computedAt || r.transaction == closeTxn)
    ensures Counts(c, own, tenant, Book.InTailA(endsAt, asOf, cursor), r)
            <==> IsAPostedRow(c, own, tenant, r) && endsAt <= r.effectiveAt < asOf && r.xactId < cursor
    ensures Counts(c, own, tenant, Book.InTailB(endsAt, computedAt, closeTxn, cursor), r)
            <==> IsAPostedRow(c, own, tenant, r) && r.effectiveAt < endsAt && computedAt <= r.xactId < cursor && r.transaction != closeTxn
  {
  }

  // ---- the close and its readers ---------------------------------------

  /** Whose close, of which period, under which transaction. */
  datatype CloseRun = CloseRun(tenant: Text, currency: Text, endsAt: Instant, xactId: Cursor, transaction: nat)
  {
    function Bound(): Bound { Book.InCheckpoint(endsAt, xactId, transaction) }

    /** The checkpoint its second statement takes, at the state it is read in. */
    function TakenAt(c: Cluster): Close
    {
      Book.Close(endsAt, transaction, xactId,
                 C.Checkpoint(View(c.rows, c, Some(xactId), tenant), currency, endsAt, xactId, transaction))
    }
  }

  /** The close committed, and wrote nothing after its checkpoint. */
  ghost predicate CloseIsWhole(c: Cluster, d: Cluster, close: CloseRun)
  {
    && |c.rows| <= |d.rows| && close.xactId !in d.running && close.xactId !in d.aborted
    && (forall i :: 0 <= i < |c.rows| && IsOfTheClose(c.rows[i], close) ==> c.rows[i].xactId == close.xactId)
    && (forall i :: |c.rows| <= i < |d.rows| ==> !IsOfTheClose(d.rows[i], close))
  }

  predicate IsOfTheClose(r: Row, close: CloseRun)
  {
    r.EntryRow? && r.tenant == close.tenant && r.transaction == close.transaction
  }

  /** The reader, at a later state, over the checkpoint as it was taken. */
  ghost predicate ReadsExactly(c: Cluster, d: Cluster, close: CloseRun, account: nat, asOf: Instant, cursor: nat)
  {
    FromCheckpoint(Journal(d, close.tenant), close.TakenAt(c), Key(account, close.currency), asOf, cursor)
    == FromInception(Journal(d, close.tenant), Key(account, close.currency), asOf, cursor)
  }

  lemma {:induction false} TxnsOfTheView(rows: seq<Row>, c: Cluster, own: Option<Cursor>, tenant: Text, t: Txn)
    requires t in View(rows, c, own, tenant)
    ensures exists i :: 0 <= i < |rows| && IsInView(c, own, tenant, rows[i]) && t == AsTxn(rows[i])
    decreases |rows|
  {
    var n := |rows| - 1;
    if t in View(rows[..n], c, own, tenant) {
      TxnsOfTheView(rows[..n], c, own, tenant, t);
      var i :| 0 <= i < n && IsInView(c, own, tenant, rows[..n][i]) && t == AsTxn(rows[..n][i]);
      assert rows[i] == rows[..n][i];
    } else {
      assert IsInView(c, own, tenant, rows[n]) && t == AsTxn(rows[n]);
    }
  }

  /** A cursor above the close's own id, and an as-of at or after the period end, may
      use the close. */
  lemma TheCloseMayAnchor(c: Cluster, d: Cluster, close: CloseRun, asOf: Instant, cursor: nat)
    requires CloseIsWhole(c, d, close) && c.rows <= d.rows && close.endsAt <= asOf && close.xactId < cursor
    ensures MayAnchor(Journal(d, close.tenant), close.TakenAt(c), asOf, cursor)
  {
    forall t | t in Journal(d, close.tenant) && t.id == close.transaction ensures t.xactId < cursor {
      TxnsOfTheView(d.rows, d, None, close.tenant, t);
      var i :| 0 <= i < |d.rows| && IsInView(d, None, close.tenant, d.rows[i]) && t == AsTxn(d.rows[i]);
      assert IsOfTheClose(d.rows[i], close);
    }
  }

  // ---- what the checkpoint missed --------------------------------------

  /** Counted in the end, and not counted when the checkpoint was read. */
  predicate IsMissed(c: Cluster, d: Cluster, close: CloseRun, r: Row)
  {
    Counts(d, None, close.tenant, close.Bound(), r) && !Counts(c, Some(close.xactId), close.tenant, close.Bound(), r)
  }

  function MissedLegs(rows: seq<Row>, c: Cluster, d: Cluster, close: CloseRun): seq<Leg>
  {
    if rows == [] then [] else
    var last := rows[|rows| - 1];
    MissedLegs(rows[..|rows| - 1], c, d, close) + if IsMissed(c, d, close, last) then [last.leg] else []
  }

  /** A row the checkpoint counted is counted for good. */
  ghost predicate NothingIsLost(rows: seq<Row>, c: Cluster, d: Cluster, close: CloseRun)
  {
    forall i :: 0 <= i < |rows| && Counts(c, Some(close.xactId), close.tenant, close.Bound(), rows[i]) ==> IsCommitted(d, rows[i])
  }

  lemma OneMoreLegOrNone(before: seq<Leg>, leg: Leg, counts: bool, row: Key, direction: Direction)
    ensures Total(before + (if counts then [leg] else []), row, direction)
         == Total(before, row, direction) + if counts && leg.Row() == row && leg.direction == direction then leg.amountMinor else 0
  {
    if counts {
      assert (before + [leg])[..|before|] == before;
    } else {
      assert before + [] == before;
    }
  }

  lemma {:induction false} TheMissedMakeUpTheRest(rows: seq<Row>, c: Cluster, d: Cluster, close: CloseRun, row: Key, direction: Direction)
    requires NothingIsLost(rows, c, d, close)
    ensures Total(Counted(rows, d, None, close.tenant, close.Bound()), row, direction)
         == Total(Counted(rows, c, Some(close.xactId), close.tenant, close.Bound()), row, direction)
            + Total(MissedLegs(rows, c, d, close), row, direction)
    decreases |rows|
  {
    if rows != [] {
      var n := |rows| - 1;
      var last := rows[n];
      TheMissedMakeUpTheRest(rows[..n], c, d, close, row, direction);
      var leg := if last.EntryRow? then last.leg else Leg(0, close.currency, Debit, 0);
      OneMoreLegOrNone(Counted(rows[..n], d, None, close.tenant, close.Bound()), leg, Counts(d, None, close.tenant, close.Bound(), last), row, direction);
      OneMoreLegOrNone(Counted(rows[..n], c, Some(close.xactId), close.tenant, close.Bound()), leg,
                       Counts(c, Some(close.xactId), close.tenant, close.Bound(), last), row, direction);
      OneMoreLegOrNone(MissedLegs(rows[..n], c, d, close), leg, IsMissed(c, d, close, last), row, direction);
    }
  }

  // ---- between the checkpoint and a later state ------------------------

  lemma {:induction false} RowsAreKept(states: seq<Cluster>, steps: seq<Step>, j: nat, k: nat)
    requires IsARun(states, steps) && j <= k < |states|
    ensures states[j].rows <= states[k].rows && states[j].next <= states[k].next
    decreases k
  {
    if j < k {
      RowsAreKept(states, steps, j, k - 1);
    }
  }

  /** Whoever writes or is settled later, under an id already issued, was running. */
  ghost predicate IssuedIdsFollow(c: Cluster, d: Cluster)
  {
    && c.rows <= d.rows
    && (forall x: Cursor :: x < c.next && x in d.running ==> x in c.running)
    && (forall x: Cursor :: x in c.aborted ==> x in d.aborted)
    && (forall x: Cursor :: x < c.next && x in d.aborted ==> x in c.aborted || x in c.running)
    && (forall i :: |c.rows| <= i < |d.rows| && d.rows[i].xactId < c.next ==> d.rows[i].xactId in c.running)
  }

  lemma AStepFollows(c: Cluster, d: Cluster, step: Step)
    requires IssuedIdsFollow(c, d) && c.next <= d.next && Enabled(d, step)
    ensures IssuedIdsFollow(c, Next(d, step))
  {
  }

  lemma {:induction false} LaterStatesFollow(states: seq<Cluster>, steps: seq<Step>, j: nat, k: nat)
    requires IsARun(states, steps) && j <= k < |states|
    ensures IssuedIdsFollow(states[j], states[k])
    decreases k
  {
    if j < k {
      LaterStatesFollow(states, steps, j, k - 1);
      RowsAreKept(states, steps, j, k - 1);
      AStepFollows(states[j], states[k - 1], steps[k - 1]);
    }
  }

  /** Of what is written after the checkpoint was read, it could have counted nothing;
      of what it counted, it loses nothing. */
  lemma WhatWasCountedStays(c: Cluster, d: Cluster, close: CloseRun)
    requires Sound(c) && IssuedIdsFollow(c, d) && CloseIsWhole(c, d, close) && close.xactId in c.running
    ensures forall i :: |c.rows| <= i < |d.rows| ==> !Counts(c, Some(close.xactId), close.tenant, close.Bound(), d.rows[i])
    ensures NothingIsLost(d.rows, c, d, close)
  {
    forall i | |c.rows| <= i < |d.rows| ensures !Counts(c, Some(close.xactId), close.tenant, close.Bound(), d.rows[i]) {
      assert !IsOfTheClose(d.rows[i], close);
    }
    forall i | 0 <= i < |d.rows| && Counts(c, Some(close.xactId), close.tenant, close.Bound(), d.rows[i]) ensures IsCommitted(d, d.rows[i]) {
      assert i < |c.rows| && c.rows[i] == d.rows[i] && c.rows[i] in c.rows;
    }
  }

  lemma {:induction false} CountingMoreRows(rows: seq<Row>, n: nat, c: Cluster, own: Option<Cursor>, tenant: Text, bound: Bound)
    requires n <= |rows| && forall i :: n <= i < |rows| ==> !Counts(c, own, tenant, bound, rows[i])
    ensures Counted(rows, c, own, tenant, bound) == Counted(rows[..n], c, own, tenant, bound)
    decreases |rows|
  {
    var m := |rows| - 1;
    if n < |rows| {
      CountingMoreRows(rows[..m], n, c, own, tenant, bound);
      assert rows[..m][..n] == rows[..n];
    } else {
      assert rows[..n] == rows;
    }
  }

  // ---- the reader against the journal ----------------------------------

  function MissedOn(c: Cluster, d: Cluster, close: CloseRun, row: Key): Book.Checkpointed
  {
    Book.Checkpointed(Total(MissedLegs(d.rows, c, d, close), row, Debit), Total(MissedLegs(d.rows, c, d, close), row, Credit))
  }

  /** The later journal, inside the checkpoint's bound, is what was stored and what was missed. */
  lemma StoredAndMissed(c: Cluster, d: Cluster, close: CloseRun, account: nat)
    requires Sound(c) && IssuedIdsFollow(c, d) && CloseIsWhole(c, d, close) && close.xactId in c.running
    ensures var row := Key(account, close.currency);
            var inside, stored := Gross(Journal(d, close.tenant), close.Bound(), row), C.CheckpointOn(close.TakenAt(c).checkpoint, account);
            && inside.input == stored.input + MissedOn(c, d, close, row).input
            && inside.output == stored.output + MissedOn(c, d, close, row).output
  {
    var row, own := Key(account, close.currency), Some(close.xactId);
    WhatWasCountedStays(c, d, close);
    CountingMoreRows(d.rows, |c.rows|, c, own, close.tenant, close.Bound());
    assert d.rows[..|c.rows|] == c.rows;
    TheMissedMakeUpTheRest(d.rows, c, d, close, row, Debit);
    TheMissedMakeUpTheRest(d.rows, c, d, close, row, Credit);
    TheViewsLegs(d.rows, d, None, close.tenant, close.Bound());
    TheViewsLegs(c.rows, c, own, close.tenant, close.Bound());
    C.CheckpointHoldsTheTotals(View(c.rows, c, own, close.tenant), close.currency, close.endsAt, close.xactId, close.transaction, account);
  }

  lemma {:induction false} MissedLegsArePositive(rows: seq<Row>, c: Cluster, d: Cluster, close: CloseRun)
    requires forall i :: 0 <= i < |rows| ==> IsStorable(rows[i])
    ensures AllPositive(MissedLegs(rows, c, d, close))
    decreases |rows|
  {
    if rows != [] {
      MissedLegsArePositive(rows[..|rows| - 1], c, d, close);
    }
  }

  /** The reader falls short of inception by what the checkpoint missed. */
  lemma TheReaderFallsShort(c: Cluster, d: Cluster, close: CloseRun, account: nat, asOf: Instant, cursor: nat)
    requires Sound(c) && IssuedIdsFollow(c, d) && CloseIsWhole(c, d, close) && close.xactId in c.running
    requires close.endsAt <= asOf && close.xactId < cursor
    ensures FromInception(Journal(d, close.tenant), Key(account, close.currency), asOf, cursor)
         == Plus(FromCheckpoint(Journal(d, close.tenant), close.TakenAt(c), Key(account, close.currency), asOf, cursor),
                 MissedOn(c, d, close, Key(account, close.currency)))
  {
    TheCloseMayAnchor(c, d, close, asOf, cursor);
    StoredAndMissed(c, d, close, account);
    TheSumFallsShort(Journal(d, close.tenant), close.TakenAt(c), Key(account, close.currency), asOf, cursor,
                     MissedOn(c, d, close, Key(account, close.currency)));
  }

  lemma TheSumFallsShort(txns: seq<Txn>, taken: Close, row: Key, asOf: Instant, cursor: nat, missed: Book.Checkpointed)
    requires MayAnchor(txns, taken, asOf, cursor)
    requires var inside, stored := Gross(txns, Book.InCheckpoint(taken.endsAt, taken.computedAtXid, taken.transactionId), row),
                                   C.CheckpointOn(taken.checkpoint, row.account);
             inside.input == stored.input + missed.input && inside.output == stored.output + missed.output
    ensures FromInception(txns, row, asOf, cursor) == Plus(FromCheckpoint(txns, taken, row, asOf, cursor), missed)
  {
    var inside := Gross(txns, Book.InCheckpoint(taken.endsAt, taken.computedAtXid, taken.transactionId), row);
    var tails := Plus(Gross(txns, Book.InTailA(taken.endsAt, asOf, cursor), row),
                      Gross(txns, Book.InTailB(taken.endsAt, taken.computedAtXid, taken.transactionId, cursor), row));
    ThreeTermsAreTheWhole(txns, taken, row, asOf, cursor);
    SumsRegroup(inside, C.CheckpointOn(taken.checkpoint, row.account), missed, tails);
  }

  lemma NothingOrSomething(legs: seq<Leg>, row: Key)
    requires AllPositive(legs)
    ensures Book.Checkpointed(Total(legs, row, Debit), Total(legs, row, Credit)) == Book.Checkpointed(0, 0) <==> row !in KeysOf(legs)
  {
    if row in KeysOf(legs) {
      ALegMovesItsRow(legs, row);
    } else {
      UntouchedKeysHaveNothing(legs, row);
    }
  }

  /** At one later state the reader is exact on an account if and only if the
      checkpoint missed nothing there. */
  lemma ExactWhereNothingWasMissed(c: Cluster, d: Cluster, close: CloseRun, account: nat, asOf: Instant, cursor: nat)
    requires Sound(c) && Sound(d) && IssuedIdsFollow(c, d) && CloseIsWhole(c, d, close) && close.xactId in c.running
    requires close.endsAt <= asOf && close.xactId < cursor
    ensures ReadsExactly(c, d, close, account, asOf, cursor)
            <==> Key(account, close.currency) !in KeysOf(MissedLegs(d.rows, c, d, close))
  {
    var row := Key(account, close.currency);
    TheReaderFallsShort(c, d, close, account, asOf, cursor);
    AddsNothing(FromCheckpoint(Journal(d, close.tenant), close.TakenAt(c), row, asOf, cursor), MissedOn(c, d, close, row));
    MissedLegsArePositive(d.rows, c, d, close);
    NothingOrSomething(MissedLegs(d.rows, c, d, close), row);
  }

  // ---- nobody older was running ----------------------------------------

  ghost predicate NobodyOlderRuns(c: Cluster, x: Cursor)
  {
    forall y: Cursor :: y in c.running ==> x <= y
  }

  lemma {:induction false} NothingIsMissed(rows: seq<Row>, c: Cluster, d: Cluster, close: CloseRun)
    requires forall i :: 0 <= i < |rows| ==> !IsMissed(c, d, close, rows[i])
    ensures MissedLegs(rows, c, d, close) == []
    decreases |rows|
  {
    if rows != [] {
      NothingIsMissed(rows[..|rows| - 1], c, d, close);
    }
  }

  lemma OnlyAnOlderWriterIsMissed(c: Cluster, d: Cluster, close: CloseRun)
    requires Sound(c) && IssuedIdsFollow(c, d) && CloseIsWhole(c, d, close) && close.xactId in c.running
    requires NobodyOlderRuns(c, close.xactId)
    ensures MissedLegs(d.rows, c, d, close) == []
  {
    forall i | 0 <= i < |d.rows| ensures !IsMissed(c, d, close, d.rows[i]) {
      if i < |c.rows| {
        assert c.rows[i] == d.rows[i] && c.rows[i] in c.rows;
      } else {
        assert !IsOfTheClose(d.rows[i], close);
      }
    }
    NothingIsMissed(d.rows, c, d, close);
  }

  // ---- every way a run can go on ---------------------------------------

  function Last(states: seq<Cluster>): Cluster
    requires states != []
  {
    states[|states| - 1]
  }

  /** A state this run may come to. */
  ghost predicate MayComeTo(states: seq<Cluster>, steps: seq<Step>, d: Cluster)
  {
    exists later: seq<Cluster>, more: seq<Step> :: IsARun(states + later, steps + more) && states + later != [] && Last(states + later) == d
  }

  lemma AStepOn(states: seq<Cluster>, steps: seq<Step>, d: Cluster, step: Step) returns (e: Cluster)
    requires MayComeTo(states, steps, d) && Enabled(d, step)
    ensures e == Next(d, step) && MayComeTo(states, steps, e)
  {
    e := Next(d, step);
    var later: seq<Cluster>, more: seq<Step> :| IsARun(states + later, steps + more) && states + later != [] && Last(states + later) == d;
    var run, taken := states + later, steps + more;
    assert states + (later + [e]) == run + [e] && steps + (more + [step]) == taken + [step];
    forall k | 0 <= k < |taken + [step]|
      ensures Enabled((run + [e])[k], (taken + [step])[k]) && (run + [e])[k + 1] == Next((run + [e])[k], (taken + [step])[k]) {
      if k < |taken| {
        assert (run + [e])[k] == run[k] && (run + [e])[k + 1] == run[k + 1] && (taken + [step])[k] == taken[k];
      }
    }
    assert IsARun(states + (later + [e]), steps + (more + [step]));
    assert Last(states + (later + [e])) == e;
  }

  /** Every bracket still open gives up. */
  lemma {:induction false} EverybodySettles(states: seq<Cluster>, steps: seq<Step>, d: Cluster) returns (e: Cluster)
    requires MayComeTo(states, steps, d)
    ensures MayComeTo(states, steps, e) && e.running == {} && e.next == d.next && e.rows == d.rows
    ensures forall z: Cursor :: z !in d.running && z !in d.aborted ==> z !in e.aborted
    decreases d.running
  {
    if x :| x in d.running {
      var next := AStepOn(states, steps, d, Abort(x));
      e := EverybodySettles(states, steps, next);
    } else {
      e := d;
    }
  }

  lemma WhatARunComesTo(states: seq<Cluster>, steps: seq<Step>, d: Cluster)
    requires IsARun(states, steps) && MayComeTo(states, steps, d)
    ensures Sound(Last(states)) && Sound(d) && IssuedIdsFollow(Last(states), d)
  {
    var later: seq<Cluster>, more: seq<Step> :| IsARun(states + later, steps + more) && states + later != [] && Last(states + later) == d;
    var run, taken := states + later, steps + more;
    assert run[|states| - 1] == Last(states);
    EveryReachableClusterIsSound(run, taken, |states| - 1);
    EveryReachableClusterIsSound(run, taken, |run| - 1);
    LaterStatesFollow(run, taken, |states| - 1, |run| - 1);
  }

  lemma ARunComesToItsEnd(states: seq<Cluster>, steps: seq<Step>)
    requires IsARun(states, steps)
    ensures MayComeTo(states, steps, Last(states))
  {
    assert states + [] == states && steps + [] == steps;
    assert IsARun(states + [], steps + []);
  }

  // ---- exact for good --------------------------------------------------

  /** The close has swept, and its checkpoint is read now. */
  ghost predicate IsTakingItsCheckpoint(c: Cluster, close: CloseRun)
  {
    close.xactId in c.running && forall i :: 0 <= i < |c.rows| && IsOfTheClose(c.rows[i], close) ==> c.rows[i].xactId == close.xactId
  }

  /** However the run goes on and the close commits, every read that may use it, at a
      cursor the horizon has reached, is exact. */
  ghost predicate StaysExact(states: seq<Cluster>, steps: seq<Step>, close: CloseRun)
    requires states != []
  {
    forall d: Cluster, account: nat, asOf: Instant, cursor: Cursor ::
      MayComeTo(states, steps, d) && CloseIsWhole(Last(states), d, close) && close.endsAt <= asOf && close.xactId < cursor <= Horizon(d)
      ==> ReadsExactly(Last(states), d, close, account, asOf, cursor)
  }

  /** Nobody older running when the checkpoint is read: exact in every later state,
      on every account, at every cursor above the close. */
  lemma WithNobodyOlderTheCloseIsExactForGood(states: seq<Cluster>, steps: seq<Step>, close: CloseRun, d: Cluster,
                                              account: nat, asOf: Instant, cursor: nat)
    requires IsARun(states, steps) && IsTakingItsCheckpoint(Last(states), close) && NobodyOlderRuns(Last(states), close.xactId)
    requires MayComeTo(states, steps, d) && CloseIsWhole(Last(states), d, close) && close.endsAt <= asOf && close.xactId < cursor
    ensures ReadsExactly(Last(states), d, close, account, asOf, cursor)
  {
    WhatARunComesTo(states, steps, d);
    OnlyAnOlderWriterIsMissed(Last(states), d, close);
    ExactWhereNothingWasMissed(Last(states), d, close, account, asOf, cursor);
  }

  /** A row an older writer could still write: posted, in the close's currency, dated
      inside the period, under no key in use and no part of the close. */
  ghost predicate CouldStillLand(c: Cluster, close: CloseRun, row: Row)
  {
    && row.EntryRow? && row.tenant == close.tenant && row.leg.currency == close.currency && row.posted
    && row.effectiveAt < close.endsAt && row.transaction != close.transaction && IsStorable(row) && IsNew(c.rows, row)
  }

  lemma TheLastRowIsMissed(rows: seq<Row>, row: Row, c: Cluster, d: Cluster, close: CloseRun)
    requires IsMissed(c, d, close, row)
    ensures row.leg.Row() in KeysOf(MissedLegs(rows + [row], c, d, close))
  {
    assert (rows + [row])[..|rows|] == rows;
    var legs := MissedLegs(rows + [row], c, d, close);
    assert legs[|legs| - 1] == row.leg;
  }

  /** One late row, and the read falls short. */
  lemma OneLateRowIsEnough(c: Cluster, d: Cluster, close: CloseRun, row: Row, cursor: nat)
    requires Sound(c) && Sound(d) && IssuedIdsFollow(c, d) && IsTakingItsCheckpoint(c, close)
    requires d.rows == c.rows + [row] && close.xactId !in d.running && close.xactId !in d.aborted
    requires CouldStillLand(c, close, row) && row.xactId in c.running && row.xactId < close.xactId < cursor && IsCommitted(d, row)
    ensures CloseIsWhole(c, d, close) && !ReadsExactly(c, d, close, row.leg.account, close.endsAt, cursor)
  {
    assert d.rows[|c.rows|] == row && !IsOfTheClose(row, close);
    assert IsMissed(c, d, close, row);
    TheLastRowIsMissed(c.rows, row, c, d, close);
    ExactWhereNothingWasMissed(c, d, close, row.leg.account, close.endsAt, cursor);
  }

  /** Somebody older running: the close commits, the older writer then lands its row and
      commits, everybody else settles, and the read at the horizon falls short. */
  lemma AnOlderWriterLandsLate(states: seq<Cluster>, steps: seq<Step>, close: CloseRun, y: Cursor, row: Row) returns (d: Cluster)
    requires IsARun(states, steps) && IsTakingItsCheckpoint(Last(states), close)
    requires y in Last(states).running && y < close.xactId && CouldStillLand(Last(states), close, row) && row.xactId == y
    ensures MayComeTo(states, steps, d) && CloseIsWhole(Last(states), d, close)
    ensures close.xactId < Horizon(d) && !ReadsExactly(Last(states), d, close, row.leg.account, close.endsAt, Horizon(d))
  {
    var c := Last(states);
    ARunComesToItsEnd(states, steps);
    WhatARunComesTo(states, steps, c);
    var closed := AStepOn(states, steps, c, Commit(close.xactId));
    var written := AStepOn(states, steps, closed, Insert(row));
    var landed := AStepOn(states, steps, written, Commit(y));
    d := EverybodySettles(states, steps, landed);
    WhatARunComesTo(states, steps, d);
    OneLateRowIsEnough(c, d, close, row, Horizon(d));
  }

  /** A close is exact for good if and only if no older transaction is running when its
      checkpoint is read. */
  lemma ACloseIsExactForGoodExactlyWithNobodyOlder(states: seq<Cluster>, steps: seq<Step>, close: CloseRun, row: Row)
    requires IsARun(states, steps) && IsTakingItsCheckpoint(Last(states), close) && CouldStillLand(Last(states), close, row)
    ensures StaysExact(states, steps, close) <==> NobodyOlderRuns(Last(states), close.xactId)
  {
    var c := Last(states);
    if NobodyOlderRuns(c, close.xactId) {
      forall d: Cluster, account: nat, asOf: Instant, cursor: Cursor
        | MayComeTo(states, steps, d) && CloseIsWhole(c, d, close) && close.endsAt <= asOf && close.xactId < cursor <= Horizon(d)
        ensures ReadsExactly(c, d, close, account, asOf, cursor) {
        WithNobodyOlderTheCloseIsExactForGood(states, steps, close, d, account, asOf, cursor);
      }
    } else {
      var y: Cursor :| y in c.running && y < close.xactId;
      var d := AnOlderWriterLandsLate(states, steps, close, y,
                                    EntryRow(row.tenant, y, row.id, row.transaction, row.posted, row.effectiveAt, row.leg));
    }
  }

  lemma ThatRunIsARun(row: Row, states: seq<Cluster>, steps: seq<Step>)
    requires row.EntryRow? && row.xactId == 3 && IsStorable(row)
    requires states == [STARTED, Cluster(4, {3}, {}, []), Cluster(5, {3, 4}, {}, []), Cluster(5, {3}, {}, []), Cluster(5, {3}, {}, [row]), Cluster(5, {}, {}, [row])]
    requires steps == [Begin, Begin, Commit(4), Insert(row), Commit(3)]
    ensures IsARun(states, steps) && Sound(states[2]) && Sound(states[5]) && IssuedIdsFollow(states[2], states[5])
  {
    assert {3} + {4} == {3, 4} && states[2].running - {4} == {3} && states[4].running - {3} == {};
    assert IsARun(states, steps);
    EveryReachableClusterIsSound(states, steps, 2);
    EveryReachableClusterIsSound(states, steps, 5);
    LaterStatesFollow(states, steps, 2, 5);
  }

  /** One run: 3 begins, the close begins at 4, reads its checkpoint and commits, then 3
      writes inside the period and commits; the read at the horizon falls short. */
  lemma TheCloseThatReadsShort(close: CloseRun, row: Row, states: seq<Cluster>, steps: seq<Step>)
    requires row.xactId == 3 && close.xactId == 4 && CouldStillLand(STARTED, close, row)
    requires states == [STARTED, Cluster(4, {3}, {}, []), Cluster(5, {3, 4}, {}, []), Cluster(5, {3}, {}, []), Cluster(5, {3}, {}, [row]), Cluster(5, {}, {}, [row])]
    requires steps == [Begin, Begin, Commit(4), Insert(row), Commit(3)]
    ensures IsARun(states, steps) && IsTakingItsCheckpoint(states[2], close)
    ensures Pinned(states[5], close.tenant, None) == Ok(5)
    ensures !ReadsExactly(states[2], states[5], close, row.leg.account, close.endsAt, 5)
  {
    ThatRunIsARun(row, states, steps);
    var c, d := states[2], states[5];
    assert [] + [row] == d.rows;
    OneLateRowIsEnough(c, d, close, row, 5);
    assert IsHorizon(5, {}, Horizon(d));
  }
}
