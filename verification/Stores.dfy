/** Every tenant's book, and a batched statement across the tenants of its members: each
    tenant's members on that tenant's book, all of them or none. */
module Stores {
  import opened Wrappers
  import opened Bytes
  import opened Port
  import opened Book
  import opened Writer

  type Store = map<Text, Book>

  function BookOf(store: Store, tenant: Text): Book
  {
    if tenant in store then store[tenant] else EMPTY_BOOK
  }

  ghost predicate SameBooks(one: Store, other: Store)
  {
    forall tenant :: BookOf(one, tenant) == BookOf(other, tenant)
  }

  /** What committing these writes leaves. */
  function CommittedAll(store: Store, writes: Store): Store
  {
    store + map tenant | tenant in writes :: Committed(BookOf(store, tenant), writes[tenant])
  }

  // ---- whose members ---------------------------------------------------

  function TenantsOf(members: seq<Planned>): set<Text>
  {
    set p | p in members :: p.command.tenantId
  }

  /** One tenant's members, in member order. */
  function From(members: seq<Planned>, tenant: Text): seq<Planned>
  {
    if members == [] then [] else
    var n := |members| - 1;
    From(members[..n], tenant) + if members[n].command.tenantId == tenant then [members[n]] else []
  }

  /** A member's place among its own tenant's. */
  function RankIn(members: seq<Planned>, m: nat): nat
    requires m < |members|
  {
    |From(members[..m], members[m].command.tenantId)|
  }

  lemma {:induction false} AMemberStandsAtItsRank(members: seq<Planned>, m: nat)
    requires m < |members|
    ensures RankIn(members, m) < |From(members, members[m].command.tenantId)|
    ensures From(members, members[m].command.tenantId)[RankIn(members, m)] == members[m]
    decreases |members|
  {
    var n := |members| - 1;
    if m < n {
      assert members[..n][..m] == members[..m];
      AMemberStandsAtItsRank(members[..n], m);
    }
  }

  lemma {:induction false} AllAreFrom(members: seq<Planned>, tenant: Text)
    requires forall p :: p in members ==> p.command.tenantId == tenant
    ensures From(members, tenant) == members
    decreases |members|
  {
    if members != [] {
      AllAreFrom(members[..|members| - 1], tenant);
    }
  }

  lemma OnesOwnRank(members: seq<Planned>, tenant: Text, m: nat)
    requires m < |members| && forall p :: p in members ==> p.command.tenantId == tenant
    ensures members[m].command.tenantId == tenant && RankIn(members, m) == m
  {
    assert members[m] in members;
    AllAreFrom(members[..m], tenant);
  }

  // ---- the statement across tenants ------------------------------------

  datatype StoreStatement<+T> = StoreFailed | StoreAnswered(answer: T, writes: Store)

  type Part = Statement<seq<MemberOutcome>>

  /** Each tenant's own part of the statement. */
  function Parts(store: Store, members: seq<Planned>): map<Text, Part>
  {
    map tenant | tenant in TenantsOf(members) :: ClaimAndAppendBatch(BookOf(store, tenant), From(members, tenant))
  }

  /** There is a part for every member, with an outcome for it. */
  ghost predicate Covers(parts: map<Text, Part>, members: seq<Planned>)
  {
    parts.Keys == TenantsOf(members)
    && forall tenant :: tenant in parts && parts[tenant].Answered? ==> |parts[tenant].answer| == |From(members, tenant)|
  }

  lemma PartsCover(store: Store, members: seq<Planned>)
    ensures Covers(Parts(store, members), members)
  {
  }

  ghost predicate AllAnswered(parts: map<Text, Part>)
  {
    forall tenant :: tenant in parts ==> parts[tenant].Answered?
  }

  lemma AMembersPart(parts: map<Text, Part>, members: seq<Planned>, m: nat)
    requires Covers(parts, members) && AllAnswered(parts) && m < |members|
    ensures var tenant := members[m].command.tenantId;
            tenant in parts && parts[tenant].Answered? && RankIn(members, m) < |parts[tenant].answer|
  {
    assert members[m] in members;
    AMemberStandsAtItsRank(members, m);
  }

  /** What the member hears from its own tenant's part. */
  function OutcomeAmongItsOwn(parts: map<Text, Part>, members: seq<Planned>, m: nat): MemberOutcome
    requires Covers(parts, members) && AllAnswered(parts) && m < |members|
  {
    AMembersPart(parts, members, m);
    parts[members[m].command.tenantId].answer[RankIn(members, m)]
  }

  function WritesOf(parts: map<Text, Part>): Store
    requires AllAnswered(parts)
  {
    map tenant | tenant in parts :: parts[tenant].staged
  }

  /** All the parts, or none: the outcomes back in member order. */
  ghost function Assembled(parts: map<Text, Part>, members: seq<Planned>): StoreStatement<seq<MemberOutcome>>
    requires Covers(parts, members)
  {
    if !AllAnswered(parts) then StoreFailed
    else StoreAnswered(seq(|members|, m requires 0 <= m < |members| => OutcomeAmongItsOwn(parts, members, m)), WritesOf(parts))
  }

  /** Statement A, batched, keyed by tenant throughout: whichever tenant's part would fail,
      all of it fails. */
  ghost function ClaimAndAppendAcross(store: Store, members: seq<Planned>): StoreStatement<seq<MemberOutcome>>
  {
    PartsCover(store, members);
    Assembled(Parts(store, members), members)
  }

  /** Statement B, batched: one stored result per member, in the order given. */
  function StoredResults(store: Store, members: seq<Planned>): (stored: seq<Option<(nat, Option<nat>)>>)
    ensures |stored| == |members|
  {
    seq(|members|, m requires 0 <= m < |members| => StoredResult(BookOf(store, members[m].command.tenantId), members[m]))
  }

  // ---- what a batch across tenants means -------------------------------

  datatype StoreOutcome = StoreOutcome(answer: seq<PostAnswer>, store: Store)

  function AnswersAcross(staged: Store, members: seq<Planned>, outcomes: seq<MemberOutcome>): (answers: seq<PostAnswer>)
    requires |members| == |outcomes|
    ensures |answers| == |members|
  {
    seq(|members|, m requires 0 <= m < |members| => MemberAnswer(BookOf(staged, members[m].command.tenantId), members[m], outcomes[m]))
  }

  function StorageForEach(members: nat): (answers: seq<PostAnswer>)
    ensures |answers| == members
  {
    seq(members, m => Err(WriteError.Storage))
  }

  ghost function AppendedAcross(store: Store, members: seq<Planned>): (o: StoreOutcome)
    ensures |o.answer| == |members|
  {
    match ClaimAndAppendAcross(store, members)
    case StoreFailed => StoreOutcome(StorageForEach(|members|), store)
    case StoreAnswered(outcomes, writes) => StoreOutcome(AnswersAcross(writes, members, outcomes), CommittedAll(store, writes))
  }

  ghost function MembersAcross(store: Store, members: seq<Planned>): (o: StoreOutcome)
    ensures |o.answer| == |members|
  {
    if members == [] then StoreOutcome([], store)
    else if |members| == 1 then
      var tenant := members[0].command.tenantId;
      var alone := PostOutcome(BookOf(store, tenant), members[0]);
      StoreOutcome([alone.answer], store[tenant := alone.book])
    else AppendedAcross(store, members)
  }

  ghost function BatchAcross(store: Store, commands: seq<Planned>): (o: StoreOutcome)
    ensures |o.answer| == |commands|
  {
    var members := MembersAcross(store, Survivors(commands));
    StoreOutcome(InArrivalOrder(commands, members.answer), members.store)
  }

  lemma WhatIsAssembled(parts: map<Text, Part>, members: seq<Planned>)
    requires Covers(parts, members) && AllAnswered(parts)
    ensures var claimed := Assembled(parts, members);
            |claimed.answer| == |members| && claimed.writes.Keys == TenantsOf(members)
  {
  }

  /** A statement that answered: an outcome for every member, and a book written for
      every tenant among them. */
  lemma AnAnsweredStatement(store: Store, members: seq<Planned>, outcomes: seq<MemberOutcome>, writes: Store)
    requires ClaimAndAppendAcross(store, members) == StoreAnswered(outcomes, writes)
    ensures |outcomes| == |members| && writes.Keys == TenantsOf(members)
    ensures AppendedAcross(store, members) == StoreOutcome(AnswersAcross(writes, members, outcomes), CommittedAll(store, writes))
  {
    PartsCover(store, members);
    WhatIsAssembled(Parts(store, members), members);
  }

  // ---- tenant by tenant ------------------------------------------------

  /** What one part leaves and answers is what that tenant's members mean together. */
  lemma APartIsItsTenants(store: Store, members: seq<Planned>, parts: map<Text, Part>, tenant: Text)
    requires parts == Parts(store, members) && Covers(parts, members) && AllAnswered(parts) && tenant in parts
    ensures var together := AppendedTogether(BookOf(store, tenant), From(members, tenant));
            together == Outcome(MemberAnswers(parts[tenant].staged, From(members, tenant), parts[tenant].answer),
                                Committed(BookOf(store, tenant), parts[tenant].staged))
  {
    assert parts[tenant] == ClaimAndAppendBatch(BookOf(store, tenant), From(members, tenant));
  }

  /** Across tenants, unless it fails whole, the statement is each tenant's own: its book
      moves as its members' batch moves it alone. */
  lemma EachTenantsBookIsItsOwn(store: Store, members: seq<Planned>, tenant: Text)
    requires ClaimAndAppendAcross(store, members).StoreAnswered?
    ensures BookOf(AppendedAcross(store, members).store, tenant) == AppendedTogether(BookOf(store, tenant), From(members, tenant)).book
  {
    PartsCover(store, members);
    var parts := Parts(store, members);
    if tenant in parts {
      APartIsItsTenants(store, members, parts, tenant);
    } else {
      NobodyFrom(members, tenant);
      NobodyWritesNothing(BookOf(store, tenant));
    }
  }

  /** And each of its members hears what that batch means alone. */
  lemma EachMemberHearsItsOwn(store: Store, members: seq<Planned>, m: nat)
    requires ClaimAndAppendAcross(store, members).StoreAnswered? && m < |members|
    ensures RankIn(members, m) < |From(members, members[m].command.tenantId)|
    ensures AppendedAcross(store, members).answer[m]
         == AppendedTogether(BookOf(store, members[m].command.tenantId), From(members, members[m].command.tenantId)).answer[RankIn(members, m)]
  {
    PartsCover(store, members);
    var parts, tenant := Parts(store, members), members[m].command.tenantId;
    AMembersPart(parts, members, m);
    AMemberStandsAtItsRank(members, m);
    APartIsItsTenants(store, members, parts, tenant);
    assert AppendedAcross(store, members).answer[m] == MemberAnswer(parts[tenant].staged, members[m], OutcomeAmongItsOwn(parts, members, m));
  }

  lemma {:induction false} NobodyFrom(members: seq<Planned>, tenant: Text)
    requires tenant !in TenantsOf(members)
    ensures From(members, tenant) == []
    decreases |members|
  {
    if members != [] {
      var n := |members| - 1;
      assert members[n] in members;
      assert TenantsOf(members[..n]) <= TenantsOf(members);
      NobodyFrom(members[..n], tenant);
    }
  }

  lemma NobodyWritesNothing(b: Book)
    ensures AppendedTogether(b, []).book == b
  {
  }

  /** It fails whole if and only if some tenant's part would fail alone; then every member
      hears storage and no book moves. */
  lemma OneTenantsFailureIsEverybodys(store: Store, members: seq<Planned>)
    ensures ClaimAndAppendAcross(store, members).StoreFailed?
            <==> exists tenant :: tenant in Parts(store, members) && Parts(store, members)[tenant].Failed?
    ensures ClaimAndAppendAcross(store, members).StoreFailed? ==> AppendedAcross(store, members) == StoreOutcome(StorageForEach(|members|), store)
  {
  }

  /** A batch of one tenant is that tenant's batch. */
  lemma OneTenantsBatch(store: Store, tenant: Text, commands: seq<Planned>)
    requires forall p :: p in commands ==> p.command.tenantId == tenant
    ensures BatchAcross(store, commands).answer == BatchOutcome(BookOf(store, tenant), commands).answer
    ensures BookOf(BatchAcross(store, commands).store, tenant) == BatchOutcome(BookOf(store, tenant), commands).book
    ensures forall other :: other != tenant ==> BookOf(BatchAcross(store, commands).store, other) == BookOf(store, other)
  {
    var members := Survivors(commands);
    SurvivorsAreCommands(commands);
    if |members| == 1 {
      assert members[0] in members;
    } else if |members| >= 2 {
      OneTenantsMembers(store, tenant, members);
    }
  }

  lemma OneTenantsMembers(store: Store, tenant: Text, members: seq<Planned>)
    requires members != [] && forall p :: p in members ==> p.command.tenantId == tenant
    ensures AppendedAcross(store, members).answer == AppendedTogether(BookOf(store, tenant), members).answer
    ensures BookOf(AppendedAcross(store, members).store, tenant) == AppendedTogether(BookOf(store, tenant), members).book
    ensures forall other :: other != tenant ==> BookOf(AppendedAcross(store, members).store, other) == BookOf(store, other)
  {
    AllAreFrom(members, tenant);
    OnlyTenant(members, tenant);
    if ClaimAndAppendAcross(store, members).StoreAnswered? {
      OneTenantsAnswered(store, tenant, members);
    } else {
      OneTenantsFailureIsEverybodys(store, members);
      assert Parts(store, members)[tenant] == ClaimAndAppendBatch(BookOf(store, tenant), members);
      assert AppendedTogether(BookOf(store, tenant), members).answer == StorageForEach(|members|);
    }
  }

  lemma OnlyTenant(members: seq<Planned>, tenant: Text)
    requires members != [] && forall p :: p in members ==> p.command.tenantId == tenant
    ensures TenantsOf(members) == {tenant}
  {
    assert members[0] in members;
  }

  lemma OneTenantsAnswer(store: Store, tenant: Text, members: seq<Planned>, m: nat)
    requires m < |members| && (forall p :: p in members ==> p.command.tenantId == tenant) && From(members, tenant) == members
    requires ClaimAndAppendAcross(store, members).StoreAnswered?
    ensures AppendedAcross(store, members).answer[m] == AppendedTogether(BookOf(store, tenant), members).answer[m]
  {
    OnesOwnRank(members, tenant, m);
    EachMemberHearsItsOwn(store, members, m);
  }

  lemma TheOthersStay(store: Store, tenant: Text, members: seq<Planned>, other: Text)
    requires TenantsOf(members) == {tenant} && other != tenant && ClaimAndAppendAcross(store, members).StoreAnswered?
    ensures BookOf(AppendedAcross(store, members).store, other) == BookOf(store, other)
  {
    PartsCover(store, members);
    CommittedElsewhere(store, WritesOf(Parts(store, members)), other);
  }

  lemma CommittedElsewhere(store: Store, writes: Store, tenant: Text)
    requires tenant !in writes
    ensures BookOf(CommittedAll(store, writes), tenant) == BookOf(store, tenant)
  {
  }

  lemma SameAnswers(one: seq<PostAnswer>, other: seq<PostAnswer>)
    requires |one| == |other| && forall m :: 0 <= m < |one| ==> one[m] == other[m]
    ensures one == other
  {
  }

  lemma OneTenantsAnswered(store: Store, tenant: Text, members: seq<Planned>)
    requires (forall p :: p in members ==> p.command.tenantId == tenant) && From(members, tenant) == members && TenantsOf(members) == {tenant}
    requires ClaimAndAppendAcross(store, members).StoreAnswered?
    ensures AppendedAcross(store, members).answer == AppendedTogether(BookOf(store, tenant), members).answer
    ensures BookOf(AppendedAcross(store, members).store, tenant) == AppendedTogether(BookOf(store, tenant), members).book
    ensures forall other :: other != tenant ==> BookOf(AppendedAcross(store, members).store, other) == BookOf(store, other)
  {
    EachTenantsBookIsItsOwn(store, members, tenant);
    forall m | 0 <= m < |members| ensures AppendedAcross(store, members).answer[m] == AppendedTogether(BookOf(store, tenant), members).answer[m] {
      OneTenantsAnswer(store, tenant, members, m);
    }
    SameAnswers(AppendedAcross(store, members).answer, AppendedTogether(BookOf(store, tenant), members).answer);
    forall other | other != tenant ensures BookOf(AppendedAcross(store, members).store, other) == BookOf(store, other) {
      TheOthersStay(store, tenant, members, other);
    }
  }
}
