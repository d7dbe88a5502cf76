/** The append a single post's statement runs, row by row: every coalesced delta's
    upsert in lock order, then every leg's entry numbered back from its row's counter. */
module AppendStatement {
  import opened Wrappers
  import opened Domain
  import opened Postings
  import opened KeyOrder
  import opened Book
  import opened BookInvariants

  // ---- the append, row by row ------------------------------------------

  /** A balance row after one delta. */
  function MovedBy(before: Balance, delta: Delta): Balance
  {
    Balance(before.input + delta.input, before.output + delta.output, before.lastSeq + delta.legs)
  }

  /** A row after the first `done` upserts in key order. */
  function RowAfter(accounts: map<nat, Account>, balances: map<Key, Balance>, deltas: map<Key, Delta>, done: seq<Key>, row: Key): Balance
  {
    if row in done && row in deltas && IsKnown(accounts, row) then MovedBy(BalanceOn(balances, row), deltas[row])
    else BalanceOn(balances, row)
  }

  ghost predicate IsAfter(accounts: map<nat, Account>, balances: map<Key, Balance>, deltas: map<Key, Delta>, done: seq<Key>, after: map<Key, Balance>)
  {
    && (forall row :: BalanceOn(after, row) == RowAfter(accounts, balances, deltas, done, row))
    && (forall row :: row in after <==> row in balances || (row in done && IsKnown(accounts, row)))
  }

  /** What one delta's upsert hands back: an account that does not exist, or does not
      hold the currency, upserts nothing and has no counter. */
  function UpsertOf(accounts: map<nat, Account>, balances: map<Key, Balance>, deltas: map<Key, Delta>, row: Key): BalanceUpsert
    requires row in deltas
  {
    BalanceUpsert(row, if IsKnown(accounts, row) then Some(BalanceOn(balances, row).lastSeq + deltas[row].legs) else None)
  }

  /** Every delta's upsert, in lock order. */
  method UpsertInOrder(accounts: map<nat, Account>, balances: map<Key, Balance>, deltas: map<Key, Delta>)
    returns (after: map<Key, Balance>, upserts: seq<BalanceUpsert>)
    ensures IsAfter(accounts, balances, deltas, InKeyOrder(deltas.Keys), after)
    ensures |upserts| == |InKeyOrder(deltas.Keys)|
    ensures var order := InKeyOrder(deltas.Keys);
            forall i :: 0 <= i < |upserts| ==> order[i] in deltas && upserts[i] == UpsertOf(accounts, balances, deltas, order[i])
  {
    var order := InKeyOrder(deltas.Keys);
    InKeyOrderListsEveryKey(deltas.Keys);
    InKeyOrderAscends(deltas.Keys);
    AscendingKeysAreDistinct(order);
    after, upserts := UpsertEach(accounts, balances, deltas, order);
  }

  method UpsertEach(accounts: map<nat, Account>, balances: map<Key, Balance>, deltas: map<Key, Delta>, order: seq<Key>)
    returns (after: map<Key, Balance>, upserts: seq<BalanceUpsert>)
    requires forall i, j :: 0 <= i < j < |order| ==> order[i] != order[j]
    requires forall row :: row in order ==> row in deltas
    ensures IsAfter(accounts, balances, deltas, order, after)
    ensures |upserts| == |order|
    ensures forall i :: 0 <= i < |upserts| ==> order[i] in deltas && upserts[i] == UpsertOf(accounts, balances, deltas, order[i])
  {
    after, upserts := balances, [];
    for i := 0 to |order|
      invariant IsAfter(accounts, balances, deltas, order[..i], after)
      invariant |upserts| == i
      invariant forall k :: 0 <= k < i ==> order[k] in deltas && upserts[k] == UpsertOf(accounts, balances, deltas, order[k])
    {
      var row := order[i];
      assert row in order;
      OneMoreUpsert(accounts, balances, deltas, order, i, after);
      assert BalanceOn(after, row) == BalanceOn(balances, row) by {
        assert row !in order[..i];
      }
      upserts := upserts + [BalanceUpsert(row, if IsKnown(accounts, row) then Some(BalanceOn(after, row).lastSeq + deltas[row].legs) else None)];
      if IsKnown(accounts, row) {
        after := after[row := MovedBy(BalanceOn(after, row), deltas[row])];
      }
    }
    assert order[..|order|] == order;
  }

  lemma OneMoreUpsert(accounts: map<nat, Account>, balances: map<Key, Balance>, deltas: map<Key, Delta>, order: seq<Key>, i: nat, after: map<Key, Balance>)
    requires i < |order| && order[i] in deltas && (forall j :: 0 <= j < i ==> order[j] != order[i])
    requires IsAfter(accounts, balances, deltas, order[..i], after)
    ensures IsAfter(accounts, balances, deltas, order[..i + 1],
                    if IsKnown(accounts, order[i]) then after[order[i] := MovedBy(BalanceOn(after, order[i]), deltas[order[i]])] else after)
  {
    var row, done := order[i], order[..i];
    var next := if IsKnown(accounts, row) then after[row := MovedBy(BalanceOn(after, row), deltas[row])] else after;
    assert order[..i + 1] == done + [row];
    assert row !in done;
    forall other ensures BalanceOn(next, other) == RowAfter(accounts, balances, deltas, done + [row], other) {
      assert BalanceOn(after, other) == RowAfter(accounts, balances, deltas, done, other);
    }
  }

  // ---- and it is the append the writer's plan meant ---------------------

  lemma OneMoreLegMovesItsRow(legs: seq<Leg>, leg: Leg, row: Key)
    ensures DeltaOf(legs + [leg], row) == if leg.Row() == row then Moved(DeltaOf(legs, row), leg) else DeltaOf(legs, row)
  {
    assert (legs + [leg])[..|legs|] == legs;
  }

  lemma {:induction false} KnownLegsKeepKnownRows(accounts: map<nat, Account>, legs: seq<Leg>, row: Key)
    ensures DeltaOf(KnownLegs(accounts, legs), row) == if IsKnown(accounts, row) then DeltaOf(legs, row) else Delta(0, 0, 0)
    decreases |legs|
  {
    if legs != [] {
      var front, last := legs[..|legs| - 1], legs[|legs| - 1];
      KnownLegsKeepKnownRows(accounts, front, row);
      assert legs == front + [last];
      OneMoreLegMovesItsRow(front, last, row);
      if IsKnown(accounts, last.Row()) {
        OneMoreLegMovesItsRow(KnownLegs(accounts, front), last, row);
      } else {
        assert KnownLegs(accounts, legs) == KnownLegs(accounts, front) + [] == KnownLegs(accounts, front);
      }
    }
  }

  lemma {:induction false} KnownLegsKeys(accounts: map<nat, Account>, legs: seq<Leg>)
    ensures forall row :: row in KeysOf(KnownLegs(accounts, legs)) <==> row in KeysOf(legs) && IsKnown(accounts, row)
    decreases |legs|
  {
    if legs != [] {
      var n := |legs| - 1;
      KnownLegsKeys(accounts, legs[..n]);
      assert legs == legs[..n] + [legs[n]];
      KeysConcat(legs[..n], [legs[n]]);
      KeysConcat(KnownLegs(accounts, legs[..n]), if IsKnown(accounts, legs[n].Row()) then [legs[n]] else []);
      assert [legs[n]][0].Row() in KeysOf([legs[n]]);
    }
  }

  ghost predicate AreDeltasOf(deltas: map<Key, Delta>, legs: seq<Leg>, status: TransactionStatus)
  {
    deltas.Keys == KeysOf(legs) && forall row :: row in deltas ==> deltas[row] == Cached(DeltaOf(legs, row), status)
  }

  lemma TheRowsMoveByTheirDeltas(accounts: map<nat, Account>, balances: map<Key, Balance>, legs: seq<Leg>, status: TransactionStatus,
                                 deltas: map<Key, Delta>, row: Key)
    requires AreDeltasOf(deltas, legs, status)
    ensures RowAfter(accounts, balances, deltas, InKeyOrder(deltas.Keys), row)
         == MovedBy(BalanceOn(balances, row), Cached(DeltaOf(KnownLegs(accounts, legs), row), status))
  {
    InKeyOrderListsEveryKey(deltas.Keys);
    KnownLegsKeepKnownRows(accounts, legs, row);
    if row !in KeysOf(legs) {
      UntouchedKeysHaveNothing(legs, row);
    }
  }

  lemma TheRowsAgree(accounts: map<nat, Account>, balances: map<Key, Balance>, legs: seq<Leg>, status: TransactionStatus,
                     deltas: map<Key, Delta>, row: Key)
    requires AreDeltasOf(deltas, legs, status)
    ensures RowAfter(accounts, balances, deltas, InKeyOrder(deltas.Keys), row)
         == BalanceOn(Upserted(balances, KnownLegs(accounts, legs), status), row)
  {
    UpsertOnOneRow(balances, KnownLegs(accounts, legs), status, row);
    TheRowsMoveByTheirDeltas(accounts, balances, legs, status, deltas, row);
  }

  lemma SameKeysAndRows(one: map<Key, Balance>, other: map<Key, Balance>)
    requires forall row :: row in one <==> row in other
    requires forall row :: BalanceOn(one, row) == BalanceOn(other, row)
    ensures one == other
  {
    forall row | row in one ensures one[row] == other[row] {
      assert BalanceOn(one, row) == BalanceOn(other, row);
    }
  }

  /** Upserting the plan's deltas row by row is the coalesced upsert. */
  lemma TheUpsertsAreTheCoalescedOnes(accounts: map<nat, Account>, balances: map<Key, Balance>, legs: seq<Leg>, status: TransactionStatus,
                                      deltas: map<Key, Delta>, after: map<Key, Balance>)
    requires AreDeltasOf(deltas, legs, status) && IsAfter(accounts, balances, deltas, InKeyOrder(deltas.Keys), after)
    ensures after == Upserted(balances, KnownLegs(accounts, legs), status)
  {
    var once := Upserted(balances, KnownLegs(accounts, legs), status);
    InKeyOrderListsEveryKey(deltas.Keys);
    KnownLegsKeys(accounts, legs);
    forall row ensures BalanceOn(after, row) == BalanceOn(once, row) {
      TheRowsAgree(accounts, balances, legs, status, deltas, row);
    }
    SameKeysAndRows(after, once);
  }

  /** The entry a plan's offset numbers: the counter its row's upsert returned, less
      the offset. */
  function PlannedEntry(after: map<Key, Balance>, leg: Leg, offset: nat): Entry
  {
    Entry(leg, BalanceOn(after, leg.Row()).lastSeq - offset)
  }

  /** Each leg whose row was upserted, numbered back from its counter. */
  method NumberEntries(accounts: map<nat, Account>, after: map<Key, Balance>, legs: seq<Leg>, offsets: seq<nat>)
    returns (entries: seq<Entry>)
    requires |offsets| == |legs|
    ensures entries == PlannedEntries(accounts, after, legs, offsets)
  {
    entries := [];
    for i := 0 to |legs|
      invariant entries == PlannedEntries(accounts, after, legs[..i], offsets[..i])
    {
      assert legs[..i + 1][..i] == legs[..i] && offsets[..i + 1][..i] == offsets[..i];
      if IsKnown(accounts, legs[i].Row()) {
        entries := entries + [PlannedEntry(after, legs[i], offsets[i])];
      }
    }
    assert legs[..|legs|] == legs && offsets[..|legs|] == offsets;
  }

  function PlannedEntries(accounts: map<nat, Account>, after: map<Key, Balance>, legs: seq<Leg>, offsets: seq<nat>): seq<Entry>
    requires |offsets| == |legs|
  {
    if legs == [] then [] else
    var n := |legs| - 1;
    PlannedEntries(accounts, after, legs[..n], offsets[..n])
      + if IsKnown(accounts, legs[n].Row()) then [PlannedEntry(after, legs[n], offsets[n])] else []
  }

  /** Every known leg, numbered after the earlier ones on its row. */
  function KnownInTurn(accounts: map<nat, Account>, balances: map<Key, Balance>, legs: seq<Leg>): seq<Entry>
  {
    if legs == [] then [] else
    var n := |legs| - 1;
    KnownInTurn(accounts, balances, legs[..n])
      + if IsKnown(accounts, legs[n].Row()) then [EntryAfter(balances, Count(legs[..n], legs[n].Row()), legs[n])] else []
  }

  lemma NumberingOneMore(balances: map<Key, Balance>, legs: seq<Leg>, leg: Leg)
    ensures Numbered(balances, legs + [leg]) == Numbered(balances, legs) + [EntryAfter(balances, Count(legs, leg.Row()), leg)]
  {
    var all := legs + [leg];
    forall i | 0 <= i < |legs| ensures Numbered(balances, all)[i] == Numbered(balances, legs)[i] {
      NumberedInTurn(balances, all, i);
      NumberedInTurn(balances, legs, i);
      assert all[..i] == legs[..i];
    }
    NumberedInTurn(balances, all, |legs|);
    assert all[..|legs|] == legs;
  }

  lemma {:induction false} KnownInTurnIsTheNumbering(accounts: map<nat, Account>, balances: map<Key, Balance>, legs: seq<Leg>)
    ensures KnownInTurn(accounts, balances, legs) == Numbered(balances, KnownLegs(accounts, legs))
    decreases |legs|
  {
    if legs != [] {
      var front, last := legs[..|legs| - 1], legs[|legs| - 1];
      KnownInTurnIsTheNumbering(accounts, balances, front);
      if IsKnown(accounts, last.Row()) {
        KnownLegsKeepKnownRows(accounts, front, last.Row());
        NumberingOneMore(balances, KnownLegs(accounts, front), last);
      } else {
        assert KnownLegs(accounts, legs) == KnownLegs(accounts, front) + [] == KnownLegs(accounts, front);
      }
    }
  }

  /** A plan's offset walks back to the number one-at-a-time posting would issue. */
  lemma {:induction false} OffsetsWalkBack(balances: map<Key, Balance>, after: map<Key, Balance>, legs: seq<Leg>, i: nat)
    requires i < |legs|
    requires BalanceOn(after, legs[i].Row()).lastSeq == BalanceOn(balances, legs[i].Row()).lastSeq + Count(legs, legs[i].Row())
    ensures PlannedEntry(after, legs[i], OffsetAt(legs, i)) == EntryAfter(balances, Count(legs[..i], legs[i].Row()), legs[i])
  {
    NumberedForwards(balances, legs, i);
  }

  lemma {:induction false} PlannedEntriesInTurn(accounts: map<nat, Account>, balances: map<Key, Balance>, after: map<Key, Balance>,
                                                legs: seq<Leg>, offsets: seq<nat>, i: nat)
    requires |offsets| == |legs| && i <= |legs|
    requires forall k :: 0 <= k < |legs| ==> offsets[k] == OffsetAt(legs, k)
    requires forall k :: 0 <= k < |legs| && IsKnown(accounts, legs[k].Row()) ==>
               BalanceOn(after, legs[k].Row()).lastSeq == BalanceOn(balances, legs[k].Row()).lastSeq + Count(legs, legs[k].Row())
    ensures PlannedEntries(accounts, after, legs[..i], offsets[..i]) == KnownInTurn(accounts, balances, legs[..i])
    decreases i
  {
    if i > 0 {
      var k := i - 1;
      PlannedEntriesInTurn(accounts, balances, after, legs, offsets, k);
      assert legs[..i][..k] == legs[..k] && offsets[..i][..k] == offsets[..k];
      if IsKnown(accounts, legs[k].Row()) {
        OffsetsWalkBack(balances, after, legs, k);
      }
    }
  }

  lemma TheCountersTookEveryLeg(accounts: map<nat, Account>, balances: map<Key, Balance>, legs: seq<Leg>, status: TransactionStatus, k: nat)
    requires k < |legs| && IsKnown(accounts, legs[k].Row())
    ensures var after := Upserted(balances, KnownLegs(accounts, legs), status);
            BalanceOn(after, legs[k].Row()).lastSeq == BalanceOn(balances, legs[k].Row()).lastSeq + Count(legs, legs[k].Row())
  {
    UpsertOnOneRow(balances, KnownLegs(accounts, legs), status, legs[k].Row());
    KnownLegsKeepKnownRows(accounts, legs, legs[k].Row());
  }

  /** The plan's entries are the statement's numbering. */
  lemma ThePlanNumbersTheEntries(accounts: map<nat, Account>, balances: map<Key, Balance>, legs: seq<Leg>, status: TransactionStatus, offsets: seq<nat>)
    requires |offsets| == |legs| && forall k :: 0 <= k < |legs| ==> offsets[k] == OffsetAt(legs, k)
    ensures PlannedEntries(accounts, Upserted(balances, KnownLegs(accounts, legs), status), legs, offsets)
         == Numbered(balances, KnownLegs(accounts, legs))
  {
    var after := Upserted(balances, KnownLegs(accounts, legs), status);
    forall k | 0 <= k < |legs| && IsKnown(accounts, legs[k].Row())
      ensures BalanceOn(after, legs[k].Row()).lastSeq == BalanceOn(balances, legs[k].Row()).lastSeq + Count(legs, legs[k].Row()) {
      TheCountersTookEveryLeg(accounts, balances, legs, status, k);
    }
    PlannedEntriesInTurn(accounts, balances, after, legs, offsets, |legs|);
    assert legs[..|legs|] == legs && offsets[..|legs|] == offsets;
    KnownInTurnIsTheNumbering(accounts, balances, legs);
  }
}
