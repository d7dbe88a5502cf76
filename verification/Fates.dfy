/** Whatever a call of the service leaves is one of the three fates a call may have: it
    was served, or lost before its commit, or made durable and then lost. */
module Fates {
  import opened Bytes
  import opened Domain
  import opened Accounts
  import opened Periods
  import opened Port
  import opened Book
  import opened BatchRefinement
  import opened Writer
  import opened WriterInvariants
  import opened Runs
  import opened FaultyRuns
  import opened Stores
  import opened Service

  /** A call of a run leaves what the service's own method for it means. */
  lemma WhatACallLeaves(d: Deployment, b: Book, op: Op)
    requires op.WellFormed()
    ensures op.Post? ==> After(d, b, op) == PostOutcome(b, PlanFor(op.post)).book
    ensures op.Batch? ==> After(d, b, op) == BatchOutcome(b, PlannedAll(op.commands)).book
    ensures op.Open? ==> After(d, b, op) == OpenOutcome(d, b, op.open, CanonicalOpen(op.open)).book
    ensures op.Define? ==> After(d, b, op) == DefineOutcome(d, b, op.define, CanonicalDefine(op.define)).book
    ensures op.Close? ==> After(d, b, op) == CloseOutcome(b, op.close, CanonicalClose(op.close)).book
  {
  }

  /** One tenant's call, posted, opened, defined or closed: its book is what some fate
      leaves, and the service said storage failed in every fate but the first. */
  lemma EveryCallHasAFate(d: Deployment, before: Store, after: Store, tenant: Text, op: Op, failed: bool) returns (fate: Fate)
    requires op.WellFormed() && Leaves(before, after, tenant, After(d, BookOf(before, tenant), op), failed)
    ensures BookOf(after, tenant) == UnderFate(d, BookOf(before, tenant), op, fate)
    ensures failed || fate.Served?
    ensures forall other :: other != tenant ==> BookOf(after, other) == BookOf(before, other)
  {
    if BookOf(after, tenant) == After(d, BookOf(before, tenant), op) {
      fate := if failed then LostAfter else Served;
    } else {
      fate := LostBefore;
    }
  }

  /** And every fate is one the service may leave: it rules out none of them. */
  lemma EveryFateMayBe(d: Deployment, before: Store, tenant: Text, op: Op, fate: Fate) returns (after: Store)
    requires op.WellFormed()
    ensures Leaves(before, after, tenant, After(d, BookOf(before, tenant), op), !fate.Served?)
    ensures BookOf(after, tenant) == UnderFate(d, BookOf(before, tenant), op, fate)
  {
    after := before[tenant := UnderFate(d, BookOf(before, tenant), op, fate)];
  }

  // ---- a batch of many tenants -----------------------------------------

  /** One tenant's commands, in arrival order. */
  function CommandsFrom(commands: seq<PostTransaction>, tenant: Text): (own: seq<PostTransaction>)
    ensures forall c :: c in own ==> c in commands && c.tenantId == tenant
  {
    if commands == [] then [] else
    var n := |commands| - 1;
    CommandsFrom(commands[..n], tenant) + if commands[n].tenantId == tenant then [commands[n]] else []
  }

  lemma OneMoreFrom(members: seq<Planned>, p: Planned, tenant: Text)
    ensures From(members + [p], tenant) == if p.command.tenantId == tenant then From(members, tenant) + [p] else From(members, tenant)
  {
    assert (members + [p])[..|members|] == members;
    assert From(members, tenant) + [] == From(members, tenant);
  }

  lemma OneMoreSurvives(commands: seq<Planned>, p: Planned)
    ensures Survivors(commands + [p]) == if PlanFails(p) then Survivors(commands) else Survivors(commands) + [p]
  {
    assert (commands + [p])[..|commands|] == commands;
    assert Survivors(commands) + [] == Survivors(commands);
  }

  lemma TheySurviveOn(front: seq<Planned>, p: Planned, tenant: Text)
    requires From(Survivors(front), tenant) == Survivors(From(front, tenant))
    ensures From(Survivors(front + [p]), tenant) == Survivors(From(front + [p], tenant))
  {
    OneMoreSurvives(front, p);
    OneMoreFrom(front, p, tenant);
    OneMoreFrom(Survivors(front), p, tenant);
    OneMoreSurvives(From(front, tenant), p);
  }

  /** A tenant's survivors are the survivors of its commands. */
  lemma {:induction false} TheirSurvivors(commands: seq<Planned>, tenant: Text)
    ensures From(Survivors(commands), tenant) == Survivors(From(commands, tenant))
    decreases |commands|
  {
    if commands != [] {
      var front, last := commands[..|commands| - 1], commands[|commands| - 1];
      assert front + [last] == commands;
      TheirSurvivors(front, tenant);
      TheySurviveOn(front, last, tenant);
    }
  }

  lemma OneMorePlanned(commands: seq<PostTransaction>, c: PostTransaction)
    requires (forall x :: x in commands ==> x.WellFormed()) && c.WellFormed()
    ensures forall x :: x in commands + [c] ==> x.WellFormed()
    ensures PlannedAll(commands + [c]) == PlannedAll(commands) + [PlanFor(c)]
  {
  }

  lemma OneMoreOfTheirs(front: seq<PostTransaction>, c: PostTransaction, tenant: Text)
    ensures CommandsFrom(front + [c], tenant)
         == if c.tenantId == tenant then CommandsFrom(front, tenant) + [c] else CommandsFrom(front, tenant)
  {
    assert (front + [c])[..|front|] == front;
    assert CommandsFrom(front, tenant) + [] == CommandsFrom(front, tenant);
  }

  lemma TheirPlansGoOn(front: seq<PostTransaction>, c: PostTransaction, tenant: Text)
    requires (forall x :: x in front ==> x.WellFormed()) && c.WellFormed()
    requires From(PlannedAll(front), tenant) == PlannedAll(CommandsFrom(front, tenant))
    ensures forall x :: x in front + [c] ==> x.WellFormed()
    ensures From(PlannedAll(front + [c]), tenant) == PlannedAll(CommandsFrom(front + [c], tenant))
  {
    var plans, p, own := PlannedAll(front), PlanFor(c), CommandsFrom(front, tenant);
    OneMorePlanned(front, c);
    OneMoreFrom(plans, p, tenant);
    OneMoreOfTheirs(front, c, tenant);
    OneMorePlanned(own, c);
  }

  lemma {:induction false} TheirPlans(commands: seq<PostTransaction>, tenant: Text)
    requires forall c :: c in commands ==> c.WellFormed()
    ensures From(PlannedAll(commands), tenant) == PlannedAll(CommandsFrom(commands, tenant))
    decreases |commands|
  {
    if commands == [] {
      assert PlannedAll(commands) == [];
    } else {
      var front, last := commands[..|commands| - 1], commands[|commands| - 1];
      assert front + [last] == commands;
      TheirPlans(front, tenant);
      TheirPlansGoOn(front, last, tenant);
    }
  }

  /** A plain posting alone in its tenant's part leaves what it leaves posted alone. */
  lemma AloneInItsPart(b: Book, p: Planned)
    requires p.command.Plain() && !PlanFails(p)
    ensures AppendedTogether(b, [p]).book == PostOutcome(b, p).book
  {
    assert [p][..0] == [];
    NoMembersWriteNothing(b);
    if p.Key() !in b.events && IsAdmissible(b, p) {
      AloneItIsRecorded(b, p);
    } else {
      assert Proceeding(b, [p]) == [];
      if p.Key() !in b.events {
        AnUnknownAccountIsRefused(b, p);
      }
    }
  }

  lemma AloneItIsRecorded(b: Book, p: Planned)
    requires p.command.Plain() && !PlanFails(p) && Proceeds(b, p)
    ensures AppendedTogether(b, [p]).book == PostOutcome(b, p).book
  {
    assert [p][..0] == [];
    assert Proceeding(b, [p]) == [p];
    TheSharedStatementRecordsInTurn(b, [p]);
    assert RecordedInTurn(b, [p]) == Record(b, p.Key(), p.hash, ShapeOf(b, p.command), p.Legs());
    if Fits(Upserted(b.balances, p.Legs(), TransactionStatus.Posted)) {
      AnAdmissibleMemberIsRecorded(b, b, p);
    } else {
      KnownLegsAreAll(b.accounts, p.Legs());
    }
  }

  /** A tenant's part of a statement that answered leaves what its own batch would. */
  lemma ItsPartIsItsBatch(b: Book, members: seq<Planned>)
    requires ClaimAndAppendBatch(b, members).Answered? && forall p :: p in members ==> !PlanFails(p)
    ensures AppendedTogether(b, members).book == MembersOutcome(b, members).book
  {
    if members == [] {
      NobodyWritesNothing(b);
    } else if |members| == 1 {
      assert members == [members[0]] && members[0].command.Plain();
      AloneInItsPart(b, members[0]);
    }
  }

  /** A batch's survivors, and what it may leave of one tenant's book. */
  lemma WhatATenantIsLeft(before: Store, members: seq<Planned>, tenant: Text)
    requires forall p :: p in members ==> !PlanFails(p)
    ensures var book := BookOf(MembersAcross(before, members).store, tenant);
            book == BookOf(before, tenant) || book == MembersOutcome(BookOf(before, tenant), From(members, tenant)).book
  {
    if |members| == 1 {
      OneMoreFrom([], members[0], tenant);
      assert [] + [members[0]] == members;
    } else if |members| >= 2 && ClaimAndAppendAcross(before, members).StoreAnswered? {
      EachTenantsBookIsItsOwn(before, members, tenant);
      if tenant in TenantsOf(members) {
        PartsAnswer(before, members, tenant);
        FromAreAmong(members, tenant);
        ItsPartIsItsBatch(BookOf(before, tenant), From(members, tenant));
      } else {
        NobodyFrom(members, tenant);
      }
    }
  }

  lemma PartsAnswer(before: Store, members: seq<Planned>, tenant: Text)
    requires ClaimAndAppendAcross(before, members).StoreAnswered? && tenant in TenantsOf(members)
    ensures ClaimAndAppendBatch(BookOf(before, tenant), From(members, tenant)).Answered?
  {
    PartsCover(before, members);
    assert Parts(before, members)[tenant].Answered?;
  }

  lemma {:induction false} FromAreAmong(members: seq<Planned>, tenant: Text)
    ensures forall p :: p in From(members, tenant) ==> p in members
    decreases |members|
  {
    if members != [] {
      FromAreAmong(members[..|members| - 1], tenant);
    }
  }

  /** What one tenant's commands, batched, would leave. */
  lemma WhatTheirBatchLeaves(d: Deployment, b: Book, commands: seq<PostTransaction>, tenant: Text)
    requires forall c :: c in commands ==> c.WellFormed()
    ensures After(d, b, Op.Batch(CommandsFrom(commands, tenant)))
         == MembersOutcome(b, From(Survivors(PlannedAll(commands)), tenant)).book
  {
    TheirPlans(commands, tenant);
    TheirSurvivors(PlannedAll(commands), tenant);
  }

  lemma WhatSettlingLeaves(before: Store, after: Store, commands: seq<Planned>, answers: seq<PostAnswer>, tenant: Text)
    requires SettlesTheBatch(before, after, commands, answers)
    ensures BookOf(after, tenant) == BookOf(before, tenant)
            || BookOf(after, tenant) == BookOf(MembersAcross(before, Survivors(commands)).store, tenant)
  {
  }

  /** A batch of any tenants: every tenant's book is what some fate of its own commands,
      batched, leaves. */
  lemma EveryTenantOfABatchHasAFate(d: Deployment, before: Store, after: Store, commands: seq<PostTransaction>, answers: seq<PostAnswer>, tenant: Text)
    returns (fate: Fate)
    requires (forall c :: c in commands ==> c.WellFormed()) && SettlesTheBatch(before, after, PlannedAll(commands), answers)
    ensures BookOf(after, tenant) == UnderFate(d, BookOf(before, tenant), Op.Batch(CommandsFrom(commands, tenant)), fate)
  {
    var plans := PlannedAll(commands);
    SurvivorsAreCommands(plans);
    WhatSettlingLeaves(before, after, plans, answers, tenant);
    WhatATenantIsLeft(before, Survivors(plans), tenant);
    WhatTheirBatchLeaves(d, BookOf(before, tenant), commands, tenant);
    fate := if BookOf(after, tenant) == BookOf(before, tenant) then LostBefore else Served;
  }
}
