/** The batched append, stage by stage: the account gate and the claims, the join back
    that a shared key breaks, one upsert per coalesced row, one numbering across every
    proceeding member's legs, and one outcome per member. */
module BatchStatement {
  import opened Wrappers
  import opened Bytes
  import opened Domain
  import opened Postings
  import opened Book
  import opened AppendStatement
  import opened Stores
  import Statements = Book

  // ---- the claims ------------------------------------------------------

  function KeysOfMembers(members: seq<Planned>): set<Text>
  {
    set p | p in members :: p.Key()
  }

  lemma OneMoreKey(members: seq<Planned>, p: Planned)
    ensures KeysOfMembers(members + [p]) == KeysOfMembers(members) + {p.Key()}
  {
    forall key | key in KeysOfMembers(members) + {p.Key()} ensures key in KeysOfMembers(members + [p]) {
      assert (members + [p])[|members|] == p;
      if q :| q in members && q.Key() == key {
        assert q in members + [p];
      }
    }
  }

  lemma OneMoreMayProceed(b: Book, members: seq<Planned>, i: nat)
    requires i < |members|
    ensures Proceeding(b, members[..i + 1]) == Proceeding(b, members[..i]) + if Proceeds(b, members[i]) then [members[i]] else []
  {
    assert members[..i + 1][..i] == members[..i];
  }

  lemma TheProceedingHaveAnIndex(b: Book, members: seq<Planned>, key: Text) returns (k: nat)
    requires key in KeysOfMembers(Proceeding(b, members))
    ensures k < |members| && Proceeds(b, members[k]) && members[k].Key() == key
  {
    ProceedingAreMembers(b, members);
    var p :| p in Proceeding(b, members) && p.Key() == key;
    k :| 0 <= k < |members| && members[k] == p;
  }

  lemma {:induction false} WhoProceedsIsThere(b: Book, members: seq<Planned>, k: nat)
    requires k < |members| && Proceeds(b, members[k])
    ensures members[k] in Proceeding(b, members)
    decreases |members|
  {
    var n := |members| - 1;
    if k < n {
      WhoProceedsIsThere(b, members[..n], k);
    }
  }

  /** What claims leave: the keys that proceed and, unless one is shared, the events they claim in order. */
  ghost predicate Claimed(before: map<Text, Event>, firstId: nat, proceeding: seq<Planned>, shared: bool, events: map<Text, Event>, won: seq<Planned>)
  {
    && KeysOfMembers(won) == KeysOfMembers(proceeding)
    && events.Keys == before.Keys + KeysOfMembers(won)
    && (!shared ==> won == proceeding && events == ClaimedBy(before, firstId, won))
  }

  lemma SharedStaysShared(b: Book, members: seq<Planned>, i: nat)
    requires i < |members| && AClaimIsShared(b, members[..i])
    ensures AClaimIsShared(b, members[..i + 1])
  {
    var j, k :| 0 <= j < i && 0 <= k < i && j != k && Proceeds(b, members[..i][j]) && members[..i][j].Key() == members[..i][k].Key();
    assert members[..i + 1][j] == members[..i][j] && members[..i + 1][k] == members[..i][k];
  }

  /** A key claimed twice within the batch is shared. */
  lemma AlreadyClaimedHere(b: Book, members: seq<Planned>, i: nat)
    requires i < |members| && Proceeds(b, members[i]) && members[i].Key() in KeysOfMembers(Proceeding(b, members[..i]))
    ensures AClaimIsShared(b, members[..i + 1])
  {
    var k := TheProceedingHaveAnIndex(b, members[..i], members[i].Key());
    assert members[..i + 1][k] == members[..i][k] && members[..i + 1][i] == members[i];
  }

  lemma OneMoreClaimed(events: map<Text, Event>, firstId: nat, won: seq<Planned>, p: Planned)
    ensures ClaimedBy(events, firstId, won + [p]) == ClaimedBy(events, firstId, won)[p.Key() := Event(firstId + 2 * |won|, p.hash)]
  {
    assert (won + [p])[..|won|] == won;
  }

  lemma OneMoreIsWon(before: map<Text, Event>, firstId: nat, proceeding: seq<Planned>, shared: bool, events: map<Text, Event>, won: seq<Planned>, p: Planned)
    requires Claimed(before, firstId, proceeding, shared, events, won)
    ensures Claimed(before, firstId, proceeding + [p], shared, events[p.Key() := Event(firstId + 2 * |won|, p.hash)], won + [p])
  {
    OneMoreKey(won, p);
    OneMoreKey(proceeding, p);
    OneMoreClaimed(before, firstId, won, p);
  }

  /** An inserted claim. */
  lemma AKeyIsWon(b: Book, members: seq<Planned>, i: nat, events: map<Text, Event>, won: seq<Planned>)
    requires i < |members| && IsAdmissible(b, members[i]) && members[i].Key() !in events
    requires Claimed(b.events, b.nextId, Proceeding(b, members[..i]), AClaimIsShared(b, members[..i]), events, won)
    ensures Claimed(b.events, b.nextId, Proceeding(b, members[..i + 1]), AClaimIsShared(b, members[..i + 1]),
                    events[members[i].Key() := Event(b.nextId + 2 * |won|, members[i].hash)], won + [members[i]])
  {
    var shared := AClaimIsShared(b, members[..i]);
    OneMoreMayProceed(b, members, i);
    OneMoreIsWon(b.events, b.nextId, Proceeding(b, members[..i]), shared, events, won, members[i]);
    if shared {
      SharedStaysShared(b, members, i);
    }
  }

  /** A claim that inserts nothing. */
  lemma NoKeyIsWon(b: Book, members: seq<Planned>, i: nat, events: map<Text, Event>, won: seq<Planned>)
    requires i < |members| && (!IsAdmissible(b, members[i]) || members[i].Key() in events)
    requires Claimed(b.events, b.nextId, Proceeding(b, members[..i]), AClaimIsShared(b, members[..i]), events, won)
    ensures Claimed(b.events, b.nextId, Proceeding(b, members[..i + 1]), AClaimIsShared(b, members[..i + 1]), events, won)
  {
    OneMoreMayProceed(b, members, i);
    if AClaimIsShared(b, members[..i]) {
      SharedStaysShared(b, members, i);
    }
    if Proceeds(b, members[i]) {
      AlreadyClaimedHere(b, members, i);
      OneMoreKey(Proceeding(b, members[..i]), members[i]);
    } else {
      assert Proceeding(b, members[..i]) + [] == Proceeding(b, members[..i]);
    }
  }

  /** One member's row of the insert: a key already there inserts nothing. */
  method ClaimOne(b: Book, members: seq<Planned>, i: nat, events: map<Text, Event>, won: seq<Planned>)
    returns (events': map<Text, Event>, won': seq<Planned>)
    requires i < |members|
    requires Claimed(b.events, b.nextId, Proceeding(b, members[..i]), AClaimIsShared(b, members[..i]), events, won)
    ensures Claimed(b.events, b.nextId, Proceeding(b, members[..i + 1]), AClaimIsShared(b, members[..i + 1]), events', won')
  {
    var p := members[i];
    if IsAdmissible(b, p) && p.Key() !in events {
      AKeyIsWon(b, members, i, events, won);
      return events[p.Key() := Event(b.nextId + 2 * |won|, p.hash)], won + [p];
    }
    NoKeyIsWon(b, members, i, events, won);
    return events, won;
  }

  /** Every admissible member's key in one insert, in member order. */
  method ClaimTheKeys(b: Book, members: seq<Planned>) returns (events: map<Text, Event>, won: seq<Planned>)
    ensures Claimed(b.events, b.nextId, Proceeding(b, members), AClaimIsShared(b, members), events, won)
  {
    events, won := b.events, [];
    for i := 0 to |members|
      invariant Claimed(b.events, b.nextId, Proceeding(b, members[..i]), AClaimIsShared(b, members[..i]), events, won)
    {
      events, won := ClaimOne(b, members, i, events, won);
    }
    assert members[..|members|] == members;
  }

  /** Two members on one claimed key are two transactions on one event. */
  lemma TwoOnOneEvent(b: Book, members: seq<Planned>, j: nat, i: nat)
    requires j < i < |members| && members[j].Key() == members[i].Key() && members[i].Key() in KeysOfMembers(Proceeding(b, members))
    ensures AClaimIsShared(b, members)
  {
    var k := TheProceedingHaveAnIndex(b, members, members[i].Key());
    if k == i {
      assert members[i].Key() == members[j].Key() && i != j;
    } else {
      assert members[k].Key() == members[i].Key() && k != i;
    }
  }

  lemma OneOnEachEvent(b: Book, members: seq<Planned>)
    requires forall j, i :: 0 <= j < i < |members| && members[j].Key() == members[i].Key()
                            ==> members[i].Key() !in KeysOfMembers(Proceeding(b, members))
    ensures !AClaimIsShared(b, members)
  {
    forall i, j | 0 <= i < |members| && 0 <= j < |members| && i != j && Proceeds(b, members[i])
      ensures members[i].Key() != members[j].Key() {
      WhoProceedsIsThere(b, members, i);
      assert members[i].Key() in KeysOfMembers(Proceeding(b, members));
    }
  }

  /** The claimed keys joined back to their members: does each event get one transaction? */
  method JoinBack(b: Book, members: seq<Planned>, won: seq<Planned>) returns (apart: bool)
    requires KeysOfMembers(won) == KeysOfMembers(Proceeding(b, members))
    ensures apart <==> !AClaimIsShared(b, members)
  {
    var claimed := KeysOfMembers(won);
    var written: set<Text> := {};
    for i := 0 to |members|
      invariant forall k :: 0 <= k < i && members[k].Key() in claimed ==> members[k].Key() in written
      invariant forall key :: key in written ==> exists k :: 0 <= k < i && members[k].Key() == key
      invariant forall j, k :: 0 <= j < k < i && members[j].Key() == members[k].Key() ==> members[k].Key() !in claimed
    {
      var key := members[i].Key();
      if key in claimed && key in written {
        ghost var j :| 0 <= j < i && members[j].Key() == key;
        TwoOnOneEvent(b, members, j, i);
        return false;
      }
      if key in claimed {
        written := written + {key};
      }
    }
    OneOnEachEvent(b, members);
    return true;
  }

  // ---- the upserts and the entries -------------------------------------

  /** Every proceeding member's legs, and their coalesced deltas. */
  method Aggregate(members: seq<Planned>) returns (legs: seq<Leg>, deltas: map<Key, Delta>)
    ensures legs == MemberLegs(members) && AreDeltasOf(deltas, legs, TransactionStatus.Posted)
  {
    legs := [];
    for m := 0 to |members|
      invariant legs == MemberLegs(members[..m])
    {
      assert members[..m + 1][..m] == members[..m];
      legs := legs + members[m].Legs();
    }
    assert members[..|members|] == members;
    deltas := map row | row in KeysOf(legs) :: DeltaOf(legs, row);
  }

  lemma {:induction false} TheProceedingAreKnown(b: Book, members: seq<Planned>)
    requires forall p :: p in members ==> IsAdmissible(b, p)
    ensures KnownLegs(b.accounts, MemberLegs(members)) == MemberLegs(members)
    decreases |members|
  {
    if members != [] {
      var n := |members| - 1;
      TheProceedingAreKnown(b, members[..n]);
      assert members[n] in members;
      AllKnownConcat(b.accounts, MemberLegs(members[..n]), members[n].Legs());
    }
  }

  lemma FewerAreKnown(accounts: map<nat, Account>, legs: seq<Leg>, n: nat)
    requires n < |legs| && AllKnown(accounts, legs)
    ensures AllKnown(accounts, legs[..n]) && IsKnown(accounts, legs[n].Row())
  {
  }

  lemma OneMoreKnown(accounts: map<nat, Account>, legs: seq<Leg>, leg: Leg)
    requires KnownLegs(accounts, legs) == legs && IsKnown(accounts, leg.Row())
    ensures KnownLegs(accounts, legs + [leg]) == legs + [leg]
  {
    assert (legs + [leg])[..|legs|] == legs;
  }

  lemma {:induction false} AllKnownConcat(accounts: map<nat, Account>, known: seq<Leg>, more: seq<Leg>)
    requires KnownLegs(accounts, known) == known && AllKnown(accounts, more)
    ensures KnownLegs(accounts, known + more) == known + more
    decreases |more|
  {
    if more == [] {
      assert known + more == known;
    } else {
      var n := |more| - 1;
      FewerAreKnown(accounts, more, n);
      AllKnownConcat(accounts, known, more[..n]);
      OneMoreKnown(accounts, known + more[..n], more[n]);
      assert (known + more[..n]) + [more[n]] == known + more;
    }
  }

  /** One numbering over all the legs, cut back into each member's transaction. */
  method CutIntoTransactions(b: Book, members: seq<Planned>, entries: seq<Entry>) returns (txns: seq<Txn>)
    requires entries == Numbered(b.balances, MemberLegs(members))
    ensures txns == MemberTxns(b, members)
  {
    txns := [];
    var start := 0;
    for m := 0 to |members|
      invariant start == |MemberLegs(members[..m])| && txns == MemberTxns(b, members)[..m]
    {
      StartsWithin(members, m);
      assert members[..m + 1][..m] == members[..m];
      var next := start + |members[m].Legs()|;
      txns := txns + [Txn(b.nextId + 2 * m + 1, b.nextId + 2 * m, OrdinaryPosting, TransactionStatus.Posted,
                          EffectiveAt(b, members[m].command), None, None, b.nextXact, entries[start..next])];
      assert MemberTxns(b, members)[m] == MemberTxn(b, members, m);
      start := next;
    }
  }

  ghost predicate AreOutcomes(b: Book, members: seq<Planned>, outcomes: seq<MemberOutcome>)
  {
    |outcomes| <= |members| && forall k :: 0 <= k < |outcomes| ==> outcomes[k] == OutcomeFor(b, members, k)
  }

  lemma OneMoreOutcome(b: Book, members: seq<Planned>, outcomes: seq<MemberOutcome>, outcome: MemberOutcome)
    requires AreOutcomes(b, members, outcomes) && |outcomes| < |members| && outcome == OutcomeFor(b, members, |outcomes|)
    ensures AreOutcomes(b, members, outcomes + [outcome])
  {
  }

  /** What one member hears, its ids those of the claims won before it. */
  method OutcomeAt(b: Book, p: Planned, rank: nat, ghost members: seq<Planned>, ghost m: nat) returns (outcome: MemberOutcome)
    requires m < |members| && p == members[m] && rank == |Proceeding(b, members[..m])|
    ensures outcome == OutcomeFor(b, members, m)
  {
    if p.Key() in b.events {
      return KeyAlreadyClaimed;
    }
    var unknown := FirstUnknown(b.accounts, p.Legs());
    if unknown.Some? {
      return MemberOutcome.AccountUnknown(unknown.value);
    }
    return MemberOutcome.Appended(b.nextId + 2 * rank, b.nextId + 2 * rank + 1);
  }

  /** One outcome per member; the ids follow the claims in order. */
  method Outcomes(b: Book, members: seq<Planned>) returns (outcomes: seq<MemberOutcome>)
    ensures |outcomes| == |members| && AreOutcomes(b, members, outcomes)
  {
    outcomes := [];
    var rank := 0;
    for m := 0 to |members|
      invariant rank == |Proceeding(b, members[..m])| && |outcomes| == m && AreOutcomes(b, members, outcomes)
    {
      var outcome := OutcomeAt(b, members[m], rank, members, m);
      OneMoreMayProceed(b, members, m);
      OneMoreOutcome(b, members, outcomes, outcome);
      outcomes := outcomes + [outcome];
      rank := rank + if outcome.Appended? then 1 else 0;
    }
  }

  /** The balances and the transactions the proceeding members write. */
  method WriteTheMembers(b: Book, won: seq<Planned>) returns (balances: map<Key, Balance>, txns: seq<Txn>)
    requires forall p :: p in won ==> IsAdmissible(b, p)
    ensures balances == Upserted(b.balances, MemberLegs(won), TransactionStatus.Posted) && txns == b.txns + MemberTxns(b, won)
  {
    var legs, deltas := Aggregate(won);
    TheProceedingAreKnown(b, won);
    var upserts;
    balances, upserts := UpsertInOrder(b.accounts, b.balances, deltas);
    TheUpsertsAreTheCoalescedOnes(b.accounts, b.balances, legs, TransactionStatus.Posted, deltas, balances);
    var offsets := OffsetsBackFromLastSeq(legs);
    var entries := NumberEntries(b.accounts, balances, legs, offsets);
    ThePlanNumbersTheEntries(b.accounts, b.balances, legs, TransactionStatus.Posted, offsets);
    var written := CutIntoTransactions(b, won, entries);
    txns := b.txns + written;
  }

  lemma TheStagesAreTheStatement(b: Book, members: seq<Planned>, outcomes: seq<MemberOutcome>)
    requires forall m :: 0 <= m < |members| ==> members[m].command.Plain()
    requires !AClaimIsShared(b, members) && Fits(BatchWritten(b, Proceeding(b, members)).balances)
    requires |outcomes| == |members| && AreOutcomes(b, members, outcomes)
    ensures Statements.ClaimAndAppendBatch(b, members) == Answered(outcomes, BatchWritten(b, Proceeding(b, members)))
  {
    assert outcomes == seq(|members|, m requires 0 <= m < |members| => OutcomeFor(b, members, m));
  }

  /** The batched append, stage by stage, is the statement the batch means. */
  method AppendBatchTo(b: Book, members: seq<Planned>) returns (claimed: Statement<seq<MemberOutcome>>)
    ensures claimed == Statements.ClaimAndAppendBatch(b, members)
  {
    for i := 0 to |members|
      invariant forall k :: 0 <= k < i ==> members[k].command.Plain()
    {
      if !members[i].command.Plain() {
        return Failed;
      }
    }
    var events, won := ClaimTheKeys(b, members);
    var apart := JoinBack(b, members, won);
    if !apart {
      return Failed;
    }
    ProceedingAreMembers(b, members);
    var balances, txns := WriteTheMembers(b, won);
    if !Fits(balances) {
      return Failed;
    }
    var outcomes := Outcomes(b, members);
    TheStagesAreTheStatement(b, members, outcomes);
    return Answered(outcomes, b.(events := events, txns := txns, balances := balances, nextId := b.nextId + 2 * |won|));
  }

  // ---- across tenants --------------------------------------------------

  method AppendOneTenants(store: Store, members: seq<Planned>, tenant: Text, ghost meant: map<Text, Part>) returns (part: Part)
    requires meant == Parts(store, members) && tenant in meant
    ensures part == meant[tenant]
  {
    part := AppendBatchTo(BookOf(store, tenant), From(members, tenant));
  }

  /** The parts asked for so far, each answered; `todo` is whose are left. */
  ghost predicate AreAnsweredSoFar(parts: map<Text, Part>, meant: map<Text, Part>, todo: set<Text>)
  {
    && todo <= meant.Keys && parts.Keys == meant.Keys - todo
    && forall tenant :: tenant in parts ==> parts[tenant] == meant[tenant] && parts[tenant].Answered?
  }

  lemma OneMorePart(parts: map<Text, Part>, meant: map<Text, Part>, todo: set<Text>, tenant: Text)
    requires AreAnsweredSoFar(parts, meant, todo) && tenant in todo && meant[tenant].Answered?
    ensures AreAnsweredSoFar(parts[tenant := meant[tenant]], meant, todo - {tenant})
  {
  }

  lemma TheseAreAllTheParts(parts: map<Text, Part>, meant: map<Text, Part>)
    requires AreAnsweredSoFar(parts, meant, {})
    ensures parts == meant && AllAnswered(meant)
  {
  }

  /** Every tenant's part in one statement: the first that fails fails it whole. */
  method AppendEachTenants(store: Store, members: seq<Planned>, ghost meant: map<Text, Part>) returns (ok: bool, parts: map<Text, Part>)
    requires meant == Parts(store, members) && meant.Keys == TenantsOf(members)
    ensures ok <==> AllAnswered(meant)
    ensures ok ==> parts == meant
  {
    parts := map[];
    var todo := TenantsOf(members);
    while todo != {}
      invariant AreAnsweredSoFar(parts, meant, todo)
      decreases todo
    {
      var tenant :| tenant in todo;
      var claimed := AppendOneTenants(store, members, tenant, meant);
      if claimed.Failed? {
        return false, parts;
      }
      OneMorePart(parts, meant, todo, tenant);
      parts, todo := parts[tenant := claimed], todo - {tenant};
    }
    TheseAreAllTheParts(parts, meant);
    return true, parts;
  }

  /** Each member's outcome, back in member order. */
  method OutcomesInOrder(parts: map<Text, Part>, members: seq<Planned>) returns (outcomes: seq<MemberOutcome>)
    requires Covers(parts, members) && AllAnswered(parts)
    ensures |outcomes| == |members| && forall m :: 0 <= m < |members| ==> outcomes[m] == OutcomeAmongItsOwn(parts, members, m)
  {
    outcomes := [];
    for m := 0 to |members|
      invariant |outcomes| == m && forall k :: 0 <= k < m ==> outcomes[k] == OutcomeAmongItsOwn(parts, members, k)
    {
      AMembersPart(parts, members, m);
      outcomes := outcomes + [parts[members[m].command.tenantId].answer[RankIn(members, m)]];
    }
  }

  /** The batched append across the tenants of its members. */
  method AppendAcross(store: Store, members: seq<Planned>) returns (claimed: StoreStatement<seq<MemberOutcome>>)
    ensures claimed == ClaimAndAppendAcross(store, members)
  {
    PartsCover(store, members);
    ghost var meant := Parts(store, members);
    var ok, parts := AppendEachTenants(store, members, meant);
    if !ok {
      return StoreFailed;
    }
    var outcomes := OutcomesInOrder(parts, members);
    TheseAreTheOutcomes(parts, members, outcomes);
    return StoreAnswered(outcomes, map tenant | tenant in parts :: parts[tenant].staged);
  }

  lemma TheseAreTheOutcomes(parts: map<Text, Part>, members: seq<Planned>, outcomes: seq<MemberOutcome>)
    requires Covers(parts, members) && AllAnswered(parts)
    requires |outcomes| == |members| && forall m :: 0 <= m < |members| ==> outcomes[m] == OutcomeAmongItsOwn(parts, members, m)
    ensures Assembled(parts, members) == StoreAnswered(outcomes, WritesOf(parts))
  {
    assert outcomes == seq(|members|, m requires 0 <= m < |members| => OutcomeAmongItsOwn(parts, members, m));
  }
}
