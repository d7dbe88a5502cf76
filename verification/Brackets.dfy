/** Posting brackets that run beside one another on one book. Each reads one snapshot,
    asks for its keys, takes the slot of the transaction it supersedes, and moves the
    balance rows of its legs one by one; what it holds it holds until it is over. */
module Brackets {
  import opened Wrappers
  import opened Bytes
  import opened Domain
  import opened Postings
  import opened KeyOrder
  import opened Book
  import opened AppendStatement
  import opened BatchRefinement

  datatype Phase = NotBegun | Running | Durable | RolledBack

  /** One bracket: the members of its statement, the book its snapshot saw, how many keys
      it has asked for and which it won, whether it has the superseded transaction's slot,
      and its own versions of the rows it has moved. */
  datatype Bracket = Bracket(
    members: seq<Planned>,
    phase: Phase,
    seen: Book,
    asked: nat,
    won: set<Text>,
    pointed: bool,
    taken: nat,
    staged: map<Key, Balance>)
  {
    /** One member takes the single statement, more share one. */
    predicate IsAlone() { |members| == 1 }

    /** The shared statement withholds its inadmissible members from the claim. */
    function Askers(): seq<Planned>
    {
      if IsAlone() then members else AdmissibleOf(seen.accounts, members)
    }

    predicate HasAsked() { asked >= |Askers()| }

    function Winners(): seq<Planned> { WinnersOf(seen.accounts, won, members) }

    /** The legs whose rows it moves. */
    function Legs(): seq<Leg>
    {
      if !IsAlone() then MemberLegs(Winners())
      else if members[0].Key() in won then KnownLegs(seen.accounts, StatementLegs(seen, members[0].command))
      else []
    }

    function Status(): TransactionStatus
    {
      if IsAlone() then members[0].command.status else TransactionStatus.Posted
    }

    ghost function Rows(): seq<Key> { InKeyOrder(KeysOf(Legs())) }

    function DeltaAt(row: Key): Delta { Cached(DeltaOf(Legs(), row), Status()) }

    /** The transaction a bracket that won its key would supersede. */
    function Pointer(): Option<nat>
    {
      if IsAlone() && members[0].Key() in won then PointerOf(members[0].command) else None
    }

    ghost predicate IsAtItsEnd() { phase.Running? && HasAsked() && taken == |Rows()| }
  }

  function PointerOf(c: PostTransaction): Option<nat>
  {
    if c.resolvesId.Some? then c.resolvesId else c.reversesId
  }

  function AdmissibleOf(accounts: map<nat, Account>, members: seq<Planned>): seq<Planned>
  {
    if members == [] then [] else
    var n := |members| - 1;
    AdmissibleOf(accounts, members[..n]) + if AllKnown(accounts, members[n].Legs()) then [members[n]] else []
  }

  /** The members that passed the gate and hold their key. */
  function WinnersOf(accounts: map<nat, Account>, won: set<Text>, members: seq<Planned>): seq<Planned>
  {
    if members == [] then [] else
    var n := |members| - 1;
    WinnersOf(accounts, won, members[..n]) + if Wins(accounts, won, members[n]) then [members[n]] else []
  }

  predicate Wins(accounts: map<nat, Account>, won: set<Text>, p: Planned)
  {
    AllKnown(accounts, p.Legs()) && p.Key() in won
  }

  /** The brackets, and the book committed so far. */
  datatype State = State(committed: Book, brackets: seq<Bracket>)

  datatype Step =
    | Begin(i: nat)
    | Ask(i: nat)
    | TakeTheSlot(i: nat)
    | MoveARow(i: nat)
    | Commit(i: nat)
    | RollBack(i: nat)

  function Starting(book: Book, statements: seq<seq<Planned>>): State
  {
    State(book, seq(|statements|, i requires 0 <= i < |statements| =>
      Bracket(statements[i], NotBegun, EMPTY_BOOK, 0, {}, false, 0, map[])))
  }

  // ---- what a step waits for -------------------------------------------

  predicate IsRunning(s: State, i: nat)
  {
    i < |s.brackets| && s.brackets[i].phase.Running?
  }

  /** No rival has the key and is not over. */
  predicate KeyIsFree(s: State, i: nat, key: Text)
  {
    forall j :: 0 <= j < |s.brackets| && j != i && s.brackets[j].phase.Running? ==> key !in s.brackets[j].won
  }

  predicate SlotIsFree(s: State, i: nat, pointer: Option<nat>)
  {
    forall j :: 0 <= j < |s.brackets| && j != i && s.brackets[j].phase.Running? && s.brackets[j].pointed ==> s.brackets[j].Pointer() != pointer
  }

  predicate RowIsFree(s: State, i: nat, row: Key)
  {
    forall j :: 0 <= j < |s.brackets| && j != i && s.brackets[j].phase.Running? ==> row !in s.brackets[j].staged
  }

  predicate BalanceFits(balance: Balance)
  {
    balance.input < I64_LIMIT && balance.output < I64_LIMIT
  }

  /** The row it comes to next, as its upsert leaves it: on the committed version, however
      old the snapshot is. */
  ghost function NextRow(now: Book, b: Bracket): Balance
    requires b.taken < |b.Rows()|
  {
    MovedBy(BalanceOn(now.balances, b.Rows()[b.taken]), b.DeltaAt(b.Rows()[b.taken]))
  }

  /** A claimed key is joined back to every member carrying it. */
  predicate SharesAClaim(b: Bracket)
  {
    exists i, j :: 0 <= i < |b.members| && 0 <= j < |b.members| && i != j
                   && Wins(b.seen.accounts, b.won, b.members[i]) && b.members[i].Key() == b.members[j].Key()
  }

  /** Whether the statement landed whole, and the writer commits it. */
  predicate LandsWhole(b: Bracket)
  {
    if b.IsAlone() then
      var c := b.members[0].command;
      && b.members[0].Key() in b.won
      && (c.reversesId.None? ==> AllKnown(b.seen.accounts, b.members[0].Legs()))
      && Gate(b.seen, c).None?
      && (b.Pointer().Some? ==> b.pointed)
    else AllPlain(b.members) && !SharesAClaim(b)
  }

  ghost predicate Enabled(s: State, step: Step)
  {
    match step
    case Begin(i) => i < |s.brackets| && s.brackets[i].phase.NotBegun?
    case Ask(i) =>
      IsRunning(s, i) && !s.brackets[i].HasAsked() && KeyIsFree(s, i, s.brackets[i].Askers()[s.brackets[i].asked].Key())
    case TakeTheSlot(i) =>
      && IsRunning(s, i) && s.brackets[i].HasAsked() && s.brackets[i].Pointer().Some?
      && Gate(s.brackets[i].seen, s.brackets[i].members[0].command).None?
      && SlotIsFree(s, i, s.brackets[i].Pointer()) && !IsSuperseded(s.committed.txns, s.brackets[i].Pointer().value)
    case MoveARow(i) =>
      && IsRunning(s, i) && s.brackets[i].HasAsked() && s.brackets[i].taken < |s.brackets[i].Rows()|
      && RowIsFree(s, i, s.brackets[i].Rows()[s.brackets[i].taken]) && BalanceFits(NextRow(s.committed, s.brackets[i]))
    case Commit(i) => IsRunning(s, i) && s.brackets[i].IsAtItsEnd() && LandsWhole(s.brackets[i])
    case RollBack(i) => IsRunning(s, i)
  }

  // ---- what a step does ------------------------------------------------

  function Begun(now: Book, b: Bracket): Bracket
  {
    Bracket(b.members, Running, now, 0, {}, false, 0, map[])
  }

  /** The key is won unless it is durably held. */
  function Asked(now: Book, b: Bracket): Bracket
    requires !b.HasAsked()
  {
    var key := b.Askers()[b.asked].Key();
    b.(asked := b.asked + 1, won := if key in now.events then b.won else b.won + {key})
  }

  ghost function Moved(now: Book, b: Bracket): Bracket
    requires b.taken < |b.Rows()|
  {
    b.(taken := b.taken + 1, staged := b.staged[b.Rows()[b.taken] := NextRow(now, b)])
  }

  /** Each leg's entry, numbered back from the bracket's own version of its row. */
  function StagedEntries(staged: map<Key, Balance>, legs: seq<Leg>): (entries: seq<Entry>)
    ensures |entries| == |legs|
  {
    seq(|legs|, i requires 0 <= i < |legs| => Entry(legs[i], BalanceOn(staged, legs[i].Row()).lastSeq - OffsetAt(legs, i)))
  }

  /** The single statement's writes. */
  function WrittenAlone(now: Book, b: Bracket): Book
    requires b.IsAlone()
  {
    var p := b.members[0];
    var txn := Txn(now.nextId + 1, now.nextId, OrdinaryPosting, p.command.status, EffectiveAt(b.seen, p.command),
                   p.command.resolvesId, p.command.reversesId, now.nextXact, StagedEntries(b.staged, b.Legs()));
    now.(events := now.events[p.Key() := Event(now.nextId, p.hash)],
         txns := now.txns + [txn],
         balances := now.balances + b.staged,
         nextId := now.nextId + 2)
  }

  /** One winner's entries, out of the numbering the winners' legs share. */
  function WinnersEntries(b: Bracket, winners: seq<Planned>, m: nat): seq<Entry>
    requires m < |winners|
  {
    var start := |MemberLegs(winners[..m])|;
    StartsWithin(winners, m);
    StagedEntries(b.staged, MemberLegs(winners))[start..start + |winners[m].Legs()|]
  }

  function WinnersTxn(now: Book, b: Bracket, winners: seq<Planned>, m: nat): Txn
    requires m < |winners|
  {
    Txn(now.nextId + 2 * m + 1, now.nextId + 2 * m, OrdinaryPosting, TransactionStatus.Posted, EffectiveAt(b.seen, winners[m].command),
        None, None, now.nextXact, WinnersEntries(b, winners, m))
  }

  /** The shared statement's writes. */
  function WrittenTogether(now: Book, b: Bracket): Book
  {
    var winners := b.Winners();
    now.(events := ClaimedBy(now.events, now.nextId, winners),
         txns := now.txns + seq(|winners|, m requires 0 <= m < |winners| => WinnersTxn(now, b, winners, m)),
         balances := now.balances + b.staged,
         nextId := now.nextId + 2 * |winners|)
  }

  /** What a bracket's commit makes of the book. */
  function AfterItsCommit(now: Book, b: Bracket): Book
  {
    Committed(now, if b.IsAlone() then WrittenAlone(now, b) else WrittenTogether(now, b))
  }

  ghost function Next(s: State, step: Step): State
    requires Enabled(s, step)
  {
    var b := s.brackets[step.i];
    match step
    case Begin(i) => s.(brackets := s.brackets[i := Begun(s.committed, b)])
    case Ask(i) => s.(brackets := s.brackets[i := Asked(s.committed, b)])
    case TakeTheSlot(i) => s.(brackets := s.brackets[i := b.(pointed := true)])
    case MoveARow(i) => s.(brackets := s.brackets[i := Moved(s.committed, b)])
    case Commit(i) => State(AfterItsCommit(s.committed, b), s.brackets[i := b.(phase := Durable)])
    case RollBack(i) => s.(brackets := s.brackets[i := b.(phase := RolledBack)])
  }
}
