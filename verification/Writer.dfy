/** The writer: what each of its operations answers over a book, and the book it
    leaves committed. Storage that fails is the caller of this module's to add. */
module Writer {
  import opened Wrappers
  import opened Bytes
  import opened Domain
  import opened Accounts
  import opened Periods
  import opened Postings
  import opened Port
  import opened Book
  import opened Closing

  datatype Outcome<+A> = Outcome(answer: A, book: Book)

  // ---- posting ---------------------------------------------------------

  /** The first upsert that returned no counter: the account the refusal names. */
  function FirstMissing(upserts: seq<BalanceUpsert>): Option<Key>
  {
    if upserts == [] then None
    else if upserts[0].lastSeq.None? then Some(upserts[0].row)
    else FirstMissing(upserts[1..])
  }

  /** The name a refused supersession goes by; a refusal of a pointer the command
      never carried has none. */
  function Named(refusal: SupersedeRefusal, c: PostTransaction): WriteError
  {
    match refusal
    case ResolveTargetUnknown =>
      if c.resolvesId.Some? then WriteError.ResolveTargetUnknown(c.resolvesId.value) else WriteError.Internal
    case ResolveTargetNotPending =>
      if c.resolvesId.Some? then WriteError.ResolveTargetNotPending(c.resolvesId.value) else WriteError.Internal
    case ReverseTargetUnknown =>
      if c.reversesId.Some? then WriteError.ReverseTargetUnknown(c.reversesId.value) else WriteError.Internal
    case ReverseTargetNotReversible =>
      if c.reversesId.Some? then WriteError.ReverseTargetNotReversible(c.reversesId.value) else WriteError.Internal
    case TargetAlreadySuperseded =>
      if c.resolvesId.Some? then WriteError.TargetAlreadySuperseded(c.resolvesId.value)
      else if c.reversesId.Some? then WriteError.TargetAlreadySuperseded(c.reversesId.value)
      else WriteError.Internal
  }

  /** What the lookup found of an already-claimed key. */
  function Replayed(stored: Option<(nat, Option<nat>)>): PostAnswer
  {
    if stored.Some? then Ok(Port.Posted(stored.value.0, stored.value.1, true)) else Err(WriteError.KeyReused)
  }

  /** A first writer's answer: the event it claimed, and the transaction after it. */
  function Fresh(eventId: nat): PostAnswer
  {
    Ok(Port.Posted(eventId, Some(eventId + 1), false))
  }

  /** A command's own plan fails when its payload cannot be rendered or its legs
      overflow, and is refused in that order. */
  ghost predicate PlanFails(p: Planned)
  {
    !p.command.PayloadRenders() || Overflows(p.Legs())
  }

  function PlanRefusal(p: Planned): WriteError
  {
    if !p.command.PayloadRenders() then WriteError.Internal else WriteError.Overflow
  }

  ghost function PostOutcome(b: Book, p: Planned): Outcome<PostAnswer>
  {
    if PlanFails(p) then Outcome(Err(PlanRefusal(p)), b) else AfterTheClaim(b, p, ClaimAndAppend(b, p))
  }

  /** Commit what landed whole; roll back before every refusal and every replay. */
  ghost function AfterTheClaim(b: Book, p: Planned, claimed: Statement<Option<Claimed>>): Outcome<PostAnswer>
  {
    match claimed
    case Failed => Outcome(Err(WriteError.Storage), b)
    case Answered(None, _) => Outcome(Replayed(StoredResult(b, p)), b)
    case Answered(Some(SupersessionRefused(refusal)), _) => Outcome(Err(Named(refusal, p.command)), b)
    case Answered(Some(Appended(eventId, transactionId, upserts)), staged) =>
      var missing := if p.command.reversesId.Some? then None else FirstMissing(upserts);
      if missing.Some? then Outcome(Err(WriteError.AccountUnknown(missing.value)), b)
      else Outcome(Ok(Port.Posted(eventId, Some(transactionId), false)), Committed(b, staged))
  }

  // ---- posting a batch -------------------------------------------------

  /** The commands whose own plan let them through, in arrival order. */
  ghost function Survivors(commands: seq<Planned>): seq<Planned>
  {
    if commands == [] then [] else
    var n := |commands| - 1;
    Survivors(commands[..n]) + if PlanFails(commands[n]) then [] else [commands[n]]
  }

  /** How many of the first `i` commands survived their plan: the rank of command
      `i` among the members. */
  ghost function Rank(commands: seq<Planned>, i: nat): nat
    requires i <= |commands|
  {
    |Survivors(commands[..i])|
  }

  /** One member's answer, once the shared statement and the replay lookup spoke. */
  function MemberAnswer(staged: Book, p: Planned, outcome: MemberOutcome): PostAnswer
  {
    match outcome
    case Appended(eventId, transactionId) => Ok(Port.Posted(eventId, Some(transactionId), false))
    case AccountUnknown(row) => Err(WriteError.AccountUnknown(row))
    case KeyAlreadyClaimed => Replayed(StoredResult(staged, p))
  }

  function MemberAnswers(staged: Book, members: seq<Planned>, outcomes: seq<MemberOutcome>): (answers: seq<PostAnswer>)
    requires |members| == |outcomes|
    ensures |answers| == |members|
  {
    seq(|members|, m requires 0 <= m < |members| => MemberAnswer(staged, members[m], outcomes[m]))
  }

  ghost function AppendedTogether(b: Book, members: seq<Planned>): (o: Outcome<seq<PostAnswer>>)
    ensures |o.answer| == |members|
  {
    match ClaimAndAppendBatch(b, members)
    case Failed => Outcome(seq(|members|, m => Err(WriteError.Storage)), b)
    case Answered(outcomes, staged) => Outcome(MemberAnswers(staged, members, outcomes), Committed(b, staged))
  }

  /** The members' answers: one takes the single statement, more share one. */
  ghost function MembersOutcome(b: Book, members: seq<Planned>): (o: Outcome<seq<PostAnswer>>)
    ensures |o.answer| == |members|
  {
    if members == [] then Outcome([], b)
    else if |members| == 1 then
      var alone := PostOutcome(b, members[0]);
      Outcome([alone.answer], alone.book)
    else AppendedTogether(b, members)
  }

  /** Each command keeps its own plan's refusal, or takes the members' next answer. */
  ghost function InArrivalOrder(commands: seq<Planned>, answered: seq<PostAnswer>): (answers: seq<PostAnswer>)
    requires |answered| == |Survivors(commands)|
    ensures |answers| == |commands|
  {
    SurvivorsBefore(commands);
    seq(|commands|, i requires 0 <= i < |commands| =>
      if PlanFails(commands[i]) then Err(PlanRefusal(commands[i])) else answered[Rank(commands, i)])
  }

  ghost function BatchOutcome(b: Book, commands: seq<Planned>): (o: Outcome<seq<PostAnswer>>)
    ensures |o.answer| == |commands|
  {
    var members := MembersOutcome(b, Survivors(commands));
    Outcome(InArrivalOrder(commands, members.answer), members.book)
  }

  /** A surviving command is the member at its rank. */
  lemma {:induction false} SurvivorsBefore(commands: seq<Planned>)
    ensures forall i :: 0 <= i < |commands| && !PlanFails(commands[i]) ==>
              Rank(commands, i) < |Survivors(commands)| && Survivors(commands)[Rank(commands, i)] == commands[i]
    decreases |commands|
  {
    if commands != [] {
      var n := |commands| - 1;
      SurvivorsBefore(commands[..n]);
      forall i | 0 <= i < |commands| && !PlanFails(commands[i])
        ensures Rank(commands, i) < |Survivors(commands)| && Survivors(commands)[Rank(commands, i)] == commands[i] {
        if i < n {
          assert commands[..n][..i] == commands[..i];
          assert Rank(commands[..n], i) == Rank(commands, i);
        }
      }
    }
  }

  lemma {:induction false} SurvivorsAreCommands(commands: seq<Planned>)
    ensures forall p :: p in Survivors(commands) ==> p in commands && !PlanFails(p)
    decreases |commands|
  {
    if commands != [] {
      SurvivorsAreCommands(commands[..|commands| - 1]);
    }
  }

  // ---- opening an account ----------------------------------------------

  /** The two owner rules, in the order they are asked. */
  function OwnerRule(c: OpenAccount, triple: ChartTriple): Option<OpenAccountError>
  {
    if c.ownerType.House? == c.ownerId.Some? then
      Some(OpenAccountError.AccountOwnerMismatched(c.ownerType, c.ownerId.Some?))
    else if triple.MustBeOwned() && c.ownerType.House? then
      Some(OpenAccountError.AccountTypeRequiresAnOwner(c.purpose))
    else None
  }

  datatype OpenedAccount = Opened(eventId: nat, accountId: nat) | AlreadyExists

  /** The claim, with the account insert riding on it. */
  function ClaimAndOpenAccount(b: Book, c: OpenAccount, hash: Text, triple: ChartTriple): Statement<Option<OpenedAccount>>
  {
    if c.idempotencyKey in b.events then Answered(None, b) else
    var claimed := b.(events := b.events[c.idempotencyKey := Event(b.nextId, hash)], nextId := b.nextId + 1);
    if NatureOf(c) in b.register then Answered(Some(AlreadyExists), claimed)
    else
      Answered(Some(Opened(b.nextId, b.nextId + 1)),
               claimed.(accounts := b.accounts[b.nextId + 1 := Account(NatureOf(c), triple)],
                        register := b.register[NatureOf(c) := b.nextId + 1],
                        nextId := b.nextId + 2))
  }

  /** The event holding this key with this body, and the account its body names. */
  function StoredAccount(b: Book, c: OpenAccount, hash: Text): Option<(nat, Option<nat>)>
  {
    if c.idempotencyKey in b.events && b.events[c.idempotencyKey].hash == hash then
      Some((b.events[c.idempotencyKey].id, if NatureOf(c) in b.register then Some(b.register[NatureOf(c)]) else None))
    else None
  }

  function ReplayedOpening(stored: Option<(nat, Option<nat>)>): OpenAnswer
  {
    if stored.None? then Err(OpenAccountError.KeyReused)
    else if stored.value.1.None? then Err(OpenAccountError.Internal)
    else Ok(AccountOpened(stored.value.0, stored.value.1.value, true))
  }

  function OpenOutcome(d: Deployment, b: Book, c: OpenAccount, hash: Text): Outcome<OpenAnswer>
  {
    if c.purpose !in d.chart then Outcome(Err(OpenAccountError.AccountTypeUnknown(c.purpose)), b)
    else if OwnerRule(c, d.chart[c.purpose]).Some? then Outcome(Err(OwnerRule(c, d.chart[c.purpose]).value), b)
    else
      match ClaimAndOpenAccount(b, c, hash, d.chart[c.purpose])
      case Failed => Outcome(Err(OpenAccountError.Storage), b)
      case Answered(None, _) => Outcome(ReplayedOpening(StoredAccount(b, c, hash)), b)
      case Answered(Some(AlreadyExists), _) => Outcome(Err(OpenAccountError.AccountExists(c.purpose, c.currency)), b)
      case Answered(Some(Opened(eventId, accountId)), staged) =>
        Outcome(Ok(AccountOpened(eventId, accountId, false)), Committed(b, staged))
  }

  // ---- defining a period -----------------------------------------------

  datatype DefinedPeriod = Defined(eventId: nat, period: Period) | Exists | Overlaps | ZoneUnknown

  /** The claim, with the period insert riding on it: the zone is a row's own
      check, the code an index's, the overlap an exclusion's, and they speak in
      that order. */
  function ClaimAndDefinePeriod(d: Deployment, b: Book, c: DefinePeriod, hash: Text): Statement<Option<DefinedPeriod>>
  {
    if c.idempotencyKey in b.events then Answered(None, b) else
    var claimed := b.(events := b.events[c.idempotencyKey := Event(b.nextId, hash)], nextId := b.nextId + 1);
    if c.tz !in d.zones then Answered(Some(ZoneUnknown), claimed)
    else if c.code in b.periods then Answered(Some(Exists), claimed)
    else if OverlapsAnother(b, PeriodOf(c)) then Answered(Some(Overlaps), claimed)
    else
      Answered(Some(Defined(b.nextId, PeriodOf(c))), claimed.(periods := b.periods[c.code := PeriodOf(c)]))
  }

  function StoredPeriod(b: Book, c: DefinePeriod, hash: Text): Option<(nat, Option<Period>)>
  {
    if c.idempotencyKey in b.events && b.events[c.idempotencyKey].hash == hash then
      Some((b.events[c.idempotencyKey].id, if c.code in b.periods then Some(b.periods[c.code]) else None))
    else None
  }

  function ReplayedDefinition(stored: Option<(nat, Option<Period>)>): DefineAnswer
  {
    if stored.None? then Err(DefinePeriodError.KeyReused)
    else if stored.value.1.None? then Err(DefinePeriodError.Internal)
    else Ok(PeriodDefined(stored.value.0, stored.value.1.value, true))
  }

  function DefineOutcome(d: Deployment, b: Book, c: DefinePeriod, hash: Option<Text>): Outcome<DefineAnswer>
  {
    if hash.None? || !c.PayloadRenders() then Outcome(Err(DefinePeriodError.Internal), b) else
    match ClaimAndDefinePeriod(d, b, c, hash.value)
    case Failed => Outcome(Err(DefinePeriodError.Storage), b)
    case Answered(None, _) => Outcome(ReplayedDefinition(StoredPeriod(b, c, hash.value)), b)
    case Answered(Some(Exists), _) => Outcome(Err(PeriodExists(c.code)), b)
    case Answered(Some(Overlaps), _) => Outcome(Err(PeriodOverlaps(c.code)), b)
    case Answered(Some(ZoneUnknown), _) => Outcome(Err(PeriodZoneUnknown(c.tz)), b)
    case Answered(Some(Defined(eventId, period)), staged) =>
      Outcome(Ok(PeriodDefined(eventId, period, false)), Committed(b, staged))
  }

  // ---- closing a period ------------------------------------------------

  predicate HeldByThisClose(b: Book, c: ClosePeriod, hash: Text)
  {
    c.DerivedKey() in b.events && b.events[c.DerivedKey()].hash == hash
  }

  function RepeatedClose(held: bool, c: ClosePeriod): CloseAnswer
  {
    if held then Err(PeriodAlreadyClosed(c.periodCode, c.currency)) else Err(ClosePeriodError.KeyReused)
  }

  ghost function CloseOutcome(b: Book, c: ClosePeriod, hash: Text): Outcome<CloseAnswer>
  {
    var context := CloseContext(b, c);
    if context.None? then Outcome(Err(PeriodUnknown(c.periodCode)), b)
    else if context.value.retainedEarnings.None? then Outcome(Err(RetainedEarningsUnknown(c.currency)), b)
    else if TheLastInstantInside(context.value.endsAt).None? then Outcome(Err(ClosePeriodError.Internal), b)
    else
      var plan := PlanOf(context.value);
      AfterTheClose(b, c, hash, plan, ClaimAndClosePeriod(b, c, hash, plan))
  }

  /** Checkpoint what the sweep wrote, then commit; roll back before every refusal. */
  ghost function AfterTheClose(b: Book, c: ClosePeriod, hash: Text, plan: ClosePlan, claimed: Statement<Option<ClosedPeriod>>): Outcome<CloseAnswer>
  {
    match claimed
    case Failed => Outcome(Err(ClosePeriodError.Storage), b)
    case Answered(None, _) => Outcome(RepeatedClose(HeldByThisClose(b, c, hash), c), b)
    case Answered(Some(AlreadyClosed), _) => Outcome(Err(PeriodAlreadyClosed(c.periodCode, c.currency)), b)
    case Answered(Some(Closed(eventId, transactionId, computedAt, swept)), staged) =>
      var checkpointed := CheckpointTheClose(staged, c, plan, transactionId, computedAt);
      var rows := if (c.periodCode, c.currency) in checkpointed.closes then |checkpointed.closes[(c.periodCode, c.currency)].checkpoint| else 0;
      Outcome(Ok(PeriodClosed(eventId, transactionId, plan.closesAt, computedAt, swept, rows)), Committed(b, checkpointed))
  }

  function PlanOf(context: PeriodCloseContext): ClosePlan
    requires context.retainedEarnings.Some? && TheLastInstantInside(context.endsAt).Some?
  {
    ClosePlan(context.startsAt, context.endsAt, context.retainedEarnings.value, TheLastInstantInside(context.endsAt).value)
  }
}
