/** One tenant's book, and what each of the writer's statements answers and stages
    over it: the documented contract of the storage port, run over values. */
module Book {
  import opened Wrappers
  import opened Bytes
  import opened Domain
  import opened Accounts
  import opened Periods
  import opened Postings
  import opened KeyOrder
  import opened Port

  // ---- the book --------------------------------------------------------

  datatype Account = Account(nature: Nature, triple: ChartTriple)

  /** The natural key the register's two unique indexes hold. */
  datatype Nature = Nature(ownerType: AccountOwnerType, ownerId: Option<Text>, purpose: Text, currency: Text)

  /** The row a body names, by the natural key the register holds it under. */
  function NatureOf(c: OpenAccount): Nature
  {
    Nature(c.ownerType, c.ownerId, c.purpose, c.currency)
  }

  /** An accepted operation: its id, and the hash of the body that claimed the key. */
  datatype Event = Event(id: nat, hash: Text)

  datatype Kind = OrdinaryPosting | PeriodClose

  datatype Entry = Entry(leg: Leg, accountSeq: int)

  datatype Txn = Txn(
    id: nat, eventId: nat, kind: Kind, status: TransactionStatus, effectiveAt: Instant,
    resolvesId: Option<nat>, reversesId: Option<nat>, xactId: nat, entries: seq<Entry>)
  {
    /** The transaction this one supersedes: at most one pointer is ever set. */
    function Supersedes(): Option<nat>
    {
      if resolvesId.Some? then resolvesId else reversesId
    }
  }

  /** The posted totals and the entry counter of one account in one currency. */
  datatype Balance = Balance(input: int, output: int, lastSeq: nat)

  datatype Checkpointed = Checkpointed(input: int, output: int)

  datatype Close = Close(endsAt: Instant, transactionId: nat, computedAtXid: nat, checkpoint: map<nat, Checkpointed>)

  datatype Book = Book(
    accounts: map<nat, Account>,
    register: map<Nature, nat>,
    events: map<Text, Event>,
    txns: seq<Txn>,
    balances: map<Key, Balance>,
    periods: map<Text, Period>,
    closes: map<(Text, Text), Close>,
    nextId: nat,
    nextXact: nat)

  const EMPTY_BOOK := Book(map[], map[], map[], [], map[], map[], map[], 0, 0)

  /** What every tenant shares: the chart, and the zones the server recognises. */
  datatype Deployment = Deployment(chart: map<Text, ChartTriple>, zones: set<Text>)

  // ---- periods ---------------------------------------------------------

  function PeriodOf(c: DefinePeriod): Period
  {
    Period(c.code, c.startsAt.utc, c.endsAt.utc, c.tz)
  }

  /** Two half-open periods share an instant. */
  predicate Overlap(a: Period, b: Period)
  {
    a.startsAt < b.endsAt && b.startsAt < a.endsAt
  }

  predicate OverlapsAnother(b: Book, period: Period)
  {
    exists code :: code in b.periods && Overlap(b.periods[code], period)
  }

  // ---- reading the journal ---------------------------------------------

  function LegsIn(entries: seq<Entry>): (legs: seq<Leg>)
    ensures |legs| == |entries|
  {
    seq(|entries|, i requires 0 <= i < |entries| => entries[i].leg)
  }

  /** The entries of the whole journal, in the order they were written. */
  function AllEntries(txns: seq<Txn>): seq<Entry>
  {
    if txns == [] then [] else AllEntries(txns[..|txns| - 1]) + txns[|txns| - 1].entries
  }

  /** Which posted transactions an aggregate admits. */
  datatype Bound =
    | EveryPosted
    /** Dated before an instant, committed below a cursor. */
    | Admitted(before: Instant, cursor: nat)
    /** The checkpoint's bound: below the close's cursor, or the close itself. */
    | InCheckpoint(endsAt: Instant, computedAt: nat, closeTxn: nat)
    /** Tail A: dated at or after the boundary. */
    | InTailA(endsAt: Instant, asOf: Instant, cursor: nat)
    /** Tail B: dated inside, committed at or after the close's cursor, not the close. */
    | InTailB(endsAt: Instant, computedAt: nat, closeTxn: nat, cursor: nat)
  {
    predicate Admits(t: Txn)
    {
      t.status.Posted? &&
      match this
      case EveryPosted => true
      case Admitted(before, cursor) => t.effectiveAt < before && t.xactId < cursor
      case InCheckpoint(endsAt, computedAt, closeTxn) => t.effectiveAt < endsAt && (t.xactId < computedAt || t.id == closeTxn)
      case InTailA(endsAt, asOf, cursor) => endsAt <= t.effectiveAt < asOf && t.xactId < cursor
      case InTailB(endsAt, computedAt, closeTxn, cursor) =>
        t.effectiveAt < endsAt && computedAt <= t.xactId < cursor && t.id != closeTxn
    }
  }

  /** The legs of the transactions a bound admits. */
  function LegsWhere(txns: seq<Txn>, bound: Bound): seq<Leg>
  {
    if txns == [] then [] else
    var last := txns[|txns| - 1];
    LegsWhere(txns[..|txns| - 1], bound) + if bound.Admits(last) then LegsIn(last.entries) else []
  }

  function PostedLegs(txns: seq<Txn>): seq<Leg> { LegsWhere(txns, EveryPosted) }

  function FindTxn(txns: seq<Txn>, id: nat): Option<Txn>
  {
    if txns == [] then None
    else if txns[|txns| - 1].id == id then Some(txns[|txns| - 1])
    else FindTxn(txns[..|txns| - 1], id)
  }

  function TxnOfEvent(txns: seq<Txn>, eventId: nat): Option<nat>
  {
    if txns == [] then None
    else if txns[|txns| - 1].eventId == eventId then Some(txns[|txns| - 1].id)
    else TxnOfEvent(txns[..|txns| - 1], eventId)
  }

  predicate IsSuperseded(txns: seq<Txn>, id: nat)
  {
    exists i :: 0 <= i < |txns| && txns[i].Supersedes() == Some(id)
  }

  // ---- balances and numbering ------------------------------------------

  function BalanceOn(balances: map<Key, Balance>, row: Key): Balance
  {
    if row in balances then balances[row] else Balance(0, 0, 0)
  }

  /** Every coalesced delta's upsert. */
  function Upserted(balances: map<Key, Balance>, legs: seq<Leg>, status: TransactionStatus): map<Key, Balance>
  {
    map row | row in balances.Keys + KeysOf(legs) ::
      var before, delta := BalanceOn(balances, row), Cached(DeltaOf(legs, row), status);
      Balance(before.input + delta.input, before.output + delta.output, before.lastSeq + delta.legs)
  }

  /** Each leg's entry, numbered back from the counter its row's upsert returned. */
  function Numbered(balances: map<Key, Balance>, legs: seq<Leg>): (entries: seq<Entry>)
    ensures |entries| == |legs|
  {
    seq(|legs|, i requires 0 <= i < |legs| =>
      Entry(legs[i], BalanceOn(balances, legs[i].Row()).lastSeq + Count(legs, legs[i].Row()) - OffsetAt(legs, i)))
  }

  /** A balance column is a `bigint`: a statement that would pass it fails whole. */
  predicate Fits(balances: map<Key, Balance>)
  {
    forall row {:trigger BalanceOn(balances, row)} :: row in balances ==>
      BalanceOn(balances, row).input < I64_LIMIT && BalanceOn(balances, row).output < I64_LIMIT
  }

  /** An account exists and holds the currency. */
  predicate IsKnown(accounts: map<nat, Account>, row: Key)
  {
    row.account in accounts && accounts[row.account].nature.currency == row.currency
  }

  predicate AllKnown(accounts: map<nat, Account>, legs: seq<Leg>)
  {
    forall i :: 0 <= i < |legs| ==> IsKnown(accounts, legs[i].Row())
  }

  /** The legs whose rows the upsert's existence join matched. */
  function KnownLegs(accounts: map<nat, Account>, legs: seq<Leg>): seq<Leg>
  {
    if legs == [] then [] else
    KnownLegs(accounts, legs[..|legs| - 1]) + if IsKnown(accounts, legs[|legs| - 1].Row()) then [legs[|legs| - 1]] else []
  }

  /** The row a refusal names: the first missing one in account order. */
  function FirstUnknown(accounts: map<nat, Account>, legs: seq<Leg>): (row: Option<Key>)
    ensures row.None? <==> AllKnown(accounts, legs)
  {
    var missing := MissingRows(accounts, legs);
    NothingMissingMeansAllKnown(accounts, legs);
    if missing == {} then None else Some(LeastOf(missing))
  }

  function MissingRows(accounts: map<nat, Account>, legs: seq<Leg>): set<Key>
  {
    set row | row in KeysOf(legs) && !IsKnown(accounts, row)
  }

  lemma NothingMissingMeansAllKnown(accounts: map<nat, Account>, legs: seq<Leg>)
    ensures MissingRows(accounts, legs) == {} <==> AllKnown(accounts, legs)
  {
    forall i | 0 <= i < |legs| && !IsKnown(accounts, legs[i].Row()) ensures legs[i].Row() in MissingRows(accounts, legs) {
      assert legs[i].Row() in KeysOf(legs);
    }
  }

  // ---- recording one transaction ---------------------------------------

  /** What a transaction is, apart from its entries. */
  datatype Shape = Shape(kind: Kind, status: TransactionStatus, effectiveAt: Instant, resolvesId: Option<nat>, reversesId: Option<nat>)

  /** The claim, the transaction it causes, the upserts and the entries: what one
      accepted posting adds to the book. */
  function Record(b: Book, key: Text, hash: Text, shape: Shape, legs: seq<Leg>): Book
  {
    var txn := Txn(b.nextId + 1, b.nextId, shape.kind, shape.status, shape.effectiveAt,
                   shape.resolvesId, shape.reversesId, b.nextXact, Numbered(b.balances, legs));
    b.(events := b.events[key := Event(b.nextId, hash)],
       txns := b.txns + [txn],
       balances := Upserted(b.balances, legs, shape.status),
       nextId := b.nextId + 2)
  }

  /** Committing takes the next commit position; writing nothing takes none. */
  function Committed(before: Book, staged: Book): Book
  {
    if staged == before then before else PastTheCommit(staged)
  }

  function PastTheCommit(staged: Book): Book
  {
    staged.(nextXact := staged.nextXact + 1)
  }

  datatype Statement<+T> = Failed | Answered(answer: T, staged: Book)

  // ---- posting ---------------------------------------------------------

  datatype SupersedeRefusal =
    | ResolveTargetUnknown
    | ResolveTargetNotPending
    | ReverseTargetUnknown
    | ReverseTargetNotReversible
    | TargetAlreadySuperseded

  datatype BalanceUpsert = BalanceUpsert(row: Key, lastSeq: Option<nat>)

  datatype Claimed =
    | Appended(eventId: nat, transactionId: nat, upserts: seq<BalanceUpsert>)
    | SupersessionRefused(refusal: SupersedeRefusal)

  function TargetOf(b: Book, c: PostTransaction): Option<Txn>
  {
    if c.resolvesId.Some? then FindTxn(b.txns, c.resolvesId.value)
    else if c.reversesId.Some? then FindTxn(b.txns, c.reversesId.value)
    else None
  }

  /** The supersede gate: why a resolution or a reversal may not be written. */
  function Gate(b: Book, c: PostTransaction): Option<SupersedeRefusal>
  {
    var target := TargetOf(b, c);
    if c.resolvesId.Some? then
      if target.None? then Some(SupersedeRefusal.ResolveTargetUnknown)
      else if !target.value.status.Pending? then Some(SupersedeRefusal.ResolveTargetNotPending)
      else if IsSuperseded(b.txns, c.resolvesId.value) then Some(SupersedeRefusal.TargetAlreadySuperseded)
      else None
    else if c.reversesId.Some? then
      if target.None? then Some(SupersedeRefusal.ReverseTargetUnknown)
      else if !target.value.kind.OrdinaryPosting? || target.value.Supersedes().Some? then Some(SupersedeRefusal.ReverseTargetNotReversible)
      else if IsSuperseded(b.txns, c.reversesId.value) then Some(SupersedeRefusal.TargetAlreadySuperseded)
      else None
    else None
  }

  /** The caller's legs, or the ones a reversal derives: a posted target's mirror,
      and nothing at all for a pending one. */
  function StatementLegs(b: Book, c: PostTransaction): seq<Leg>
  {
    if c.reversesId.None? then LegsOf(c.postings)
    else
      var target := TargetOf(b, c);
      if target.Some? && target.value.status.Posted? then Mirrored(LegsIn(target.value.entries)) else []
  }

  /** The caller's date, or the one a reversal defers to. */
  function EffectiveAt(b: Book, c: PostTransaction): Instant
  {
    if c.effectiveAt.Some? then c.effectiveAt.value.utc
    else if TargetOf(b, c).Some? then TargetOf(b, c).value.effectiveAt
    else 0
  }

  function ShapeOf(b: Book, c: PostTransaction): Shape
  {
    Shape(OrdinaryPosting, c.status, EffectiveAt(b, c), c.resolvesId, c.reversesId)
  }

  function HashOf(c: PostTransaction): Text
    requires c.WellFormed()
  {
    CanonicalPost(c).value
  }

  function UpsertsFor(b: Book, balances: map<Key, Balance>, legs: seq<Leg>): seq<BalanceUpsert>
  {
    var order := InKeyOrder(KeysOf(legs));
    seq(|order|, i requires 0 <= i < |order| =>
      BalanceUpsert(order[i], if IsKnown(b.accounts, order[i]) then Some(BalanceOn(balances, order[i]).lastSeq) else None))
  }

  /** What a plan carries into a statement: the command, and its canonical hash. */
  datatype Planned = Planned(command: PostTransaction, hash: Text)
  {
    function Key(): Text { command.idempotencyKey }

    function Legs(): seq<Leg> { LegsOf(command.postings) }
  }

  function PlanFor(c: PostTransaction): Planned
    requires c.WellFormed()
  {
    Planned(c, HashOf(c))
  }

  function PlannedAll(commands: seq<PostTransaction>): (planned: seq<Planned>)
    requires forall c :: c in commands ==> c.WellFormed()
    ensures |planned| == |commands|
  {
    seq(|commands|, i requires 0 <= i < |commands| => PlanFor(commands[i]))
  }

  /** Statement A. `None` is the key already held, and then nothing ran; on a
      refused supersession the claim and the upserts did. */
  function ClaimAndAppend(b: Book, p: Planned): Statement<Option<Claimed>>
  {
    if p.Key() in b.events then Answered(None, b)
    else AfterTheUpserts(b, p.command, Record(b, p.Key(), p.hash, ShapeOf(b, p.command), KnownLegs(b.accounts, StatementLegs(b, p.command))))
  }

  function AfterTheUpserts(b: Book, c: PostTransaction, recorded: Book): Statement<Option<Claimed>>
  {
    if !Fits(recorded.balances) then Failed
    else if Gate(b, c).Some? then
      Answered(Some(SupersessionRefused(Gate(b, c).value)), recorded.(txns := b.txns, nextId := b.nextId + 1))
    else
      Answered(Some(Claimed.Appended(b.nextId, b.nextId + 1, UpsertsFor(b, recorded.balances, StatementLegs(b, c)))), recorded)
  }

  /** Statement B: the hash is in the lookup, so a different body finds nothing. */
  function StoredResult(b: Book, p: Planned): Option<(nat, Option<nat>)>
  {
    if p.Key() in b.events && b.events[p.Key()].hash == p.hash then
      Some((b.events[p.Key()].id, TxnOfEvent(b.txns, b.events[p.Key()].id)))
    else None
  }

  // ---- the batched statement -------------------------------------------

  datatype MemberOutcome =
    | Appended(eventId: nat, transactionId: nat)
    | AccountUnknown(row: Key)
    | KeyAlreadyClaimed

  /** Every account a member names exists. */
  predicate IsAdmissible(b: Book, p: Planned)
  {
    AllKnown(b.accounts, p.Legs())
  }

  predicate Proceeds(b: Book, p: Planned)
  {
    IsAdmissible(b, p) && p.Key() !in b.events
  }

  /** The members that passed the gate and won their key, in member order. */
  function Proceeding(b: Book, members: seq<Planned>): seq<Planned>
  {
    if members == [] then [] else
    Proceeding(b, members[..|members| - 1]) + if Proceeds(b, members[|members| - 1]) then [members[|members| - 1]] else []
  }

  /** Every member's legs, member after member. */
  function MemberLegs(members: seq<Planned>): seq<Leg>
  {
    if members == [] then [] else
    MemberLegs(members[..|members| - 1]) + members[|members| - 1].Legs()
  }

  predicate DistinctKeys(members: seq<Planned>)
  {
    forall i, j :: 0 <= i < j < |members| ==> members[i].Key() != members[j].Key()
  }

  /** A claimed key is joined back to every member carrying it, so one that a second
      member carries too writes two transactions for one event: refused whole. */
  predicate AClaimIsShared(b: Book, members: seq<Planned>)
  {
    exists i, j :: 0 <= i < |members| && 0 <= j < |members| && i != j && Proceeds(b, members[i])
                   && members[i].Key() == members[j].Key()
  }

  function ClaimedBy(events: map<Text, Event>, firstId: nat, members: seq<Planned>): map<Text, Event>
  {
    if members == [] then events else
    var n := |members| - 1;
    ClaimedBy(events, firstId, members[..n])[members[n].Key() := Event(firstId + 2 * n, members[n].hash)]
  }

  /** One member's entries, out of the one numbering every member's legs share: a
      window counted across members that never saw each other, back from the counter
      their rows' shared upsert returned. */
  function MemberEntries(b: Book, members: seq<Planned>, m: nat): (entries: seq<Entry>)
    requires m < |members|
    ensures |entries| == |members[m].Legs()|
  {
    var start := |MemberLegs(members[..m])|;
    StartsWithin(members, m);
    Numbered(b.balances, MemberLegs(members))[start..start + |members[m].Legs()|]
  }

  lemma {:induction false} StartsWithin(members: seq<Planned>, m: nat)
    requires m < |members|
    ensures |MemberLegs(members[..m])| + |members[m].Legs()| <= |MemberLegs(members)|
    decreases |members|
  {
    var n := |members| - 1;
    if m < n {
      assert members[..n][..m] == members[..m];
      StartsWithin(members[..n], m);
    }
  }

  function MemberTxn(b: Book, members: seq<Planned>, m: nat): Txn
    requires m < |members|
  {
    Txn(b.nextId + 2 * m + 1, b.nextId + 2 * m, OrdinaryPosting, TransactionStatus.Posted, EffectiveAt(b, members[m].command),
        None, None, b.nextXact, MemberEntries(b, members, m))
  }

  function MemberTxns(b: Book, members: seq<Planned>): (txns: seq<Txn>)
    ensures |txns| == |members|
  {
    seq(|members|, m requires 0 <= m < |members| => MemberTxn(b, members, m))
  }

  /** The batch's writes: one coalesced upsert per row however many members touched
      it, one posted transaction per proceeding member. */
  function BatchWritten(b: Book, members: seq<Planned>): Book
  {
    b.(events := ClaimedBy(b.events, b.nextId, members),
       txns := b.txns + MemberTxns(b, members),
       balances := Upserted(b.balances, MemberLegs(members), TransactionStatus.Posted),
       nextId := b.nextId + 2 * |members|)
  }

  /** One outcome per member: the key claim is read first, the account gate second. */
  function OutcomeFor(b: Book, members: seq<Planned>, m: nat): MemberOutcome
    requires m < |members|
  {
    var p := members[m];
    if p.Key() in b.events then KeyAlreadyClaimed
    else if !IsAdmissible(b, p) then MemberOutcome.AccountUnknown(FirstUnknown(b.accounts, p.Legs()).value)
    else
      var rank := |Proceeding(b, members[..m])|;
      MemberOutcome.Appended(b.nextId + 2 * rank, b.nextId + 2 * rank + 1)
  }

  /** Statement A, batched. It carries plain postings only, two members sharing a
      key abort it, and so does a total no row can hold. */
  function ClaimAndAppendBatch(b: Book, members: seq<Planned>): Statement<seq<MemberOutcome>>
  {
    if exists i :: 0 <= i < |members| && !members[i].command.Plain() then Failed else
    var proceeding := Proceeding(b, members);
    var written := BatchWritten(b, proceeding);
    if AClaimIsShared(b, members) || !Fits(written.balances) then Failed
    else Answered(seq(|members|, m requires 0 <= m < |members| => OutcomeFor(b, members, m)), written)
  }

  lemma {:induction false} ProceedingAreMembers(b: Book, members: seq<Planned>)
    ensures forall p :: p in Proceeding(b, members) ==> p in members && Proceeds(b, p)
    decreases |members|
  {
    if members != [] {
      ProceedingAreMembers(b, members[..|members| - 1]);
    }
  }
}
