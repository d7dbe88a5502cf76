/** What a reader may rely on in every book any run can reach. */
module ReachableBooks {
  import opened Wrappers
  import opened Bytes
  import opened Domain
  import opened Postings
  import opened Book
  import opened Closing
  import opened BookInvariants
  import opened Runs

  // ---- numbering -------------------------------------------------------

  /** A row's entries carry 1..lastSeq, each exactly once, ascending as written. */
  ghost predicate IsNumberedExactly(entries: seq<Entry>, row: Key, lastSeq: nat)
  {
    && (forall i :: 0 <= i < |entries| && entries[i].leg.Row() == row ==> 1 <= entries[i].accountSeq <= lastSeq)
    && (forall i, j :: 0 <= i < j < |entries| && entries[i].leg.Row() == row && entries[j].leg.Row() == row
          ==> entries[i].accountSeq < entries[j].accountSeq)
    && forall n :: 1 <= n <= lastSeq ==> IsIssued(entries, row, n)
  }

  ghost predicate IsIssued(entries: seq<Entry>, row: Key, n: int)
  {
    exists i :: 0 <= i < |entries| && entries[i].leg.Row() == row && entries[i].accountSeq == n
  }

  lemma {:induction false} GaplessNumberingIsExact(entries: seq<Entry>, row: Key)
    requires NumberedGaplessly(entries)
    ensures IsNumberedExactly(entries, row, Count(LegsIn(entries), row))
    decreases |entries|
  {
    if entries != [] {
      var n := |entries| - 1;
      var front := entries[..n];
      forall i | 0 <= i < n ensures IsNumbered(front, i) {
        assert IsNumbered(entries, i);
        assert front[..i] == entries[..i];
      }
      GaplessNumberingIsExact(front, row);
      assert LegsIn(entries)[..n] == LegsIn(front);
      assert IsNumbered(entries, n);
      OneMoreIsNumberedExactly(entries, row, Count(LegsIn(front), row));
    }
  }

  lemma OneMoreIsNumberedExactly(entries: seq<Entry>, row: Key, before: nat)
    requires entries != [] && IsNumberedExactly(entries[..|entries| - 1], row, before)
    requires entries[|entries| - 1].leg.Row() == row ==> entries[|entries| - 1].accountSeq == before + 1
    ensures IsNumberedExactly(entries, row, before + if entries[|entries| - 1].leg.Row() == row then 1 else 0)
  {
    var n := |entries| - 1;
    var front, last := entries[..n], entries[n];
    var after := before + if last.leg.Row() == row then 1 else 0;
    forall k | 1 <= k <= after ensures IsIssued(entries, row, k) {
      if k <= before {
        assert IsIssued(front, row, k);
        var i :| 0 <= i < n && front[i].leg.Row() == row && front[i].accountSeq == k;
        assert entries[i].accountSeq == k;
      } else {
        assert entries[n].accountSeq == k;
      }
    }
    forall i | 0 <= i < n && entries[i].leg.Row() == row ensures 1 <= entries[i].accountSeq <= before {
      assert front[i] == entries[i];
    }
    forall i, j | 0 <= i < j < n && entries[i].leg.Row() == row && entries[j].leg.Row() == row
      ensures entries[i].accountSeq < entries[j].accountSeq {
      assert front[i] == entries[i] && front[j] == entries[j];
    }
  }

  // ---- double entry ----------------------------------------------------

  lemma {:induction false} BalancedTransactionsBalanceTheBook(txns: seq<Txn>)
    requires EveryTxnBalances(txns)
    ensures Balanced(AllLegs(txns)) && Balanced(PostedLegs(txns))
    decreases |txns|
  {
    if txns != [] {
      var front, last := txns[..|txns| - 1], txns[|txns| - 1];
      BalancedTransactionsBalanceTheBook(front);
      assert txns == front + [last];
      AllEntriesOneMore(front, last);
      LegsWhereOneMore(front, last, EveryPosted);
      BalancedConcat(AllLegs(front), LegsIn(last.entries));
      if last.status.Posted? {
        BalancedConcat(PostedLegs(front), LegsIn(last.entries));
      } else {
        assert PostedLegs(txns) == PostedLegs(front) + [] == PostedLegs(front);
      }
    }
  }

  // ---- supersession ----------------------------------------------------

  /** Every supersession in the book, read from the superseder. */
  ghost predicate SupersedesProperly(txns: seq<Txn>, i: nat)
    requires i < |txns| && txns[i].Supersedes().Some?
  {
    exists j :: 0 <= j < i && txns[j].id == txns[i].Supersedes().value && IsSupersededBy(txns[j], txns[i])
  }

  /** A target carries no pointer of its own, a resolved one is pending, and a
      posted one nets to zero against its mirror on every account and currency. */
  ghost predicate IsSupersededBy(target: Txn, t: Txn)
  {
    && target.Supersedes().None? && target.kind.OrdinaryPosting?
    && (t.resolvesId.Some? ==> target.status.Pending?)
    && (t.reversesId.Some? && target.status.Posted? ==> forall row :: Net(LegsIn(target.entries) + LegsIn(t.entries), row) == 0)
    && (t.reversesId.Some? && target.status.Pending? ==> t.entries == [])
  }

  lemma AMirrorNetsToNothing(legs: seq<Leg>, row: Key)
    ensures Net(legs + Mirrored(legs), row) == 0
  {
    NetConcat(legs, Mirrored(legs), row);
    MirroringSwapsTheSides(legs, row);
  }

  lemma EverySupersessionIsProper(txns: seq<Txn>, i: nat)
    requires SupersessionIsOneDeep(txns) && i < |txns| && txns[i].Supersedes().Some?
    ensures SupersedesProperly(txns, i)
  {
    assert PointsAtAnEarlierTarget(txns, i);
    var j :| 0 <= j < i && txns[j].id == txns[i].Supersedes().value && IsTargetOf(txns[j], txns[i]);
    if txns[i].reversesId.Some? {
      forall row ensures txns[j].status.Posted? ==> Net(LegsIn(txns[j].entries) + LegsIn(txns[i].entries), row) == 0 {
        AMirrorNetsToNothing(LegsIn(txns[j].entries), row);
      }
      if txns[j].status.Pending? {
        assert |LegsIn(txns[i].entries)| == 0;
      }
    }
    assert IsSupersededBy(txns[j], txns[i]);
  }

  lemma TheTargetOf(txns: seq<Txn>, k: nat) returns (j: nat)
    requires SupersessionIsOneDeep(txns) && k < |txns| && txns[k].Supersedes().Some?
    ensures j < k && txns[j].id == txns[k].Supersedes().value && txns[j].Supersedes().None?
  {
    assert PointsAtAnEarlierTarget(txns, k);
    j :| 0 <= j < k && txns[j].id == txns[k].Supersedes().value && IsTargetOf(txns[j], txns[k]);
  }

  /** Depth exactly one: nobody supersedes a superseder, and no target is
      superseded twice. */
  lemma NoSupersederIsSuperseded(b: Book, i: nat, k: nat)
    requires TxnIdsAreFresh(b.txns, b.nextId, b.nextXact) && SupersessionIsOneDeep(b.txns)
    requires i < |b.txns| && k < |b.txns| && b.txns[i].Supersedes().Some? && b.txns[k].Supersedes().Some?
    ensures b.txns[k].Supersedes().value != b.txns[i].id
    ensures i != k ==> b.txns[i].Supersedes() != b.txns[k].Supersedes()
  {
    var j := TheTargetOf(b.txns, k);
    assert i != j;
    assert b.txns[i].id != b.txns[j].id;
  }

  // ---- every reachable book --------------------------------------------

  /** In every book any run reaches, each balance row is the sum of its posted
      entries and the count of all of them; its entries are numbered exactly
      1..last_seq. */
  lemma EveryBalanceRowIsExact(d: Deployment, ops: seq<Op>, row: Key)
    requires forall op :: op in ops ==> op.WellFormed()
    ensures var b := Run(d, ops);
            && BalanceOn(b.balances, row)
               == Balance(Total(PostedLegs(b.txns), row, Debit), Total(PostedLegs(b.txns), row, Credit), Count(AllLegs(b.txns), row))
            && IsNumberedExactly(AllEntries(b.txns), row, BalanceOn(b.balances, row).lastSeq)
  {
    var b := Run(d, ops);
    EveryReachableBookIsValid(d, ops);
    assert BalanceOn(b.balances, row) == RowTotals(b.txns, row);
    GaplessNumberingIsExact(AllEntries(b.txns), row);
  }

  /** Debits equal credits in every transaction, and over the whole book. */
  lemma EveryBookBalances(d: Deployment, ops: seq<Op>, currency: Text)
    requires forall op :: op in ops ==> op.WellFormed()
    ensures var b := Run(d, ops);
            && (forall i :: 0 <= i < |b.txns| ==> Balanced(LegsIn(b.txns[i].entries)))
            && CurrencyTotal(AllLegs(b.txns), currency, Debit) == CurrencyTotal(AllLegs(b.txns), currency, Credit)
            && CurrencyTotal(PostedLegs(b.txns), currency, Debit) == CurrencyTotal(PostedLegs(b.txns), currency, Credit)
  {
    EveryReachableBookIsValid(d, ops);
    BalancedTransactionsBalanceTheBook(Run(d, ops).txns);
  }

  /** Supersession is one deep in every book any run reaches. */
  lemma EverySupersessionIsOneDeep(d: Deployment, ops: seq<Op>, i: nat, k: nat)
    requires forall op :: op in ops ==> op.WellFormed()
    requires i < |Run(d, ops).txns| && Run(d, ops).txns[i].Supersedes().Some?
    requires k < |Run(d, ops).txns| && Run(d, ops).txns[k].Supersedes().Some?
    ensures var txns := Run(d, ops).txns;
            && SupersedesProperly(txns, i)
            && txns[k].Supersedes().value != txns[i].id
            && (i != k ==> txns[i].Supersedes() != txns[k].Supersedes())
  {
    var b := Run(d, ops);
    EveryReachableBookIsValid(d, ops);
    EverySupersessionIsProper(b.txns, i);
    NoSupersederIsSuperseded(b, i, k);
  }
}
