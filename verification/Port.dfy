/** What the writer answers: the accepted results, and every refusal by name. */
module Port {
  import opened Wrappers
  import opened Bytes
  import opened Domain
  import opened Accounts
  import opened Postings

  /** Every variant but `Storage` promises that nothing was written. */
  datatype WriteError =
    | KeyReused
    | AccountUnknown(row: Key)
    | Overflow
    | ResolveTargetUnknown(resolvesId: nat)
    | ResolveTargetNotPending(resolvesId: nat)
    | ReverseTargetUnknown(reversesId: nat)
    | ReverseTargetNotReversible(reversesId: nat)
    | TargetAlreadySuperseded(transactionId: nat)
    | Internal
    | Storage

  datatype Posted = Posted(eventId: nat, transactionId: Option<nat>, replayed: bool)

  type PostAnswer = Result<Posted, WriteError>

  datatype OpenAccountError =
    | KeyReused
    | AccountTypeUnknown(purpose: Text)
    | AccountExists(purpose: Text, currency: Text)
    | AccountOwnerMismatched(ownerType: AccountOwnerType, ownerIdGiven: bool)
    | AccountTypeRequiresAnOwner(purpose: Text)
    | Internal
    | Storage

  datatype AccountOpened = AccountOpened(eventId: nat, accountId: nat, replayed: bool)

  type OpenAnswer = Result<AccountOpened, OpenAccountError>

  datatype DefinePeriodError =
    | KeyReused
    | PeriodExists(code: Text)
    | PeriodOverlaps(code: Text)
    | PeriodZoneUnknown(tz: Text)
    | Internal
    | Storage

  datatype PeriodDefined = PeriodDefined(eventId: nat, period: Period, replayed: bool)

  /** One period as the register holds it. */
  datatype Period = Period(code: Text, startsAt: Instant, endsAt: Instant, tz: Text)

  type DefineAnswer = Result<PeriodDefined, DefinePeriodError>

  datatype ClosePeriodError =
    | PeriodUnknown(code: Text)
    | PeriodAlreadyClosed(code: Text, currency: Text)
    | RetainedEarningsUnknown(currency: Text)
    | KeyReused
    | Internal
    | Storage

  /** The debit-positive position a close moved out of one temporary account. */
  datatype SweptPosition = SweptPosition(accountId: nat, positionMinor: int)

  datatype PeriodClosed = PeriodClosed(
    eventId: nat, transactionId: nat, effectiveAt: Instant, computedAtXid: nat,
    swept: seq<SweptPosition>, checkpointRows: nat)

  type CloseAnswer = Result<PeriodClosed, ClosePeriodError>
}
