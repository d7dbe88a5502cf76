# openledger: a verified model of the write path and of the pinned reads

This Dafny project models what openledger does between a caller's command and the
committed book, and what a reader may then rely on. It checks with
`dafny verify dfyconfig.toml`.

A *book* is one tenant's rows: the claimed idempotency keys, the transactions and their
entries, one balance row per (account, currency), the account register, the periods and
the closes with their checkpoints. Everything a caller does is a command over a book:
post (plain, pending, resolving, reversing or voiding), post a batch, open an account,
define a period, close a period.

## How it is laid out

**The commands.** `Bytes`, `Spaces`, `Domain`, `Accounts` and `Periods` hold the values,
the shape a constructor lets through, the canonical byte forms an idempotency hash is
computed over, and which instants render at the offset their caller wrote them at. A hash
is modelled as those bytes themselves, so it is injective by construction, and what has to
be proved is that the bytes determine the request.

**The posting mathematics.** `Postings` and `KeyOrder` expand postings into legs, coalesce
them under checked 64-bit addition, count each leg's offset back from its account's
counter, and order the keys the balance rows are locked in. `RowLocks` shows what that
order is for; `KeyClaims` adds the idempotency keys a statement claims before its rows,
which are in no order, and `ClaimKnots` says when statements can stop each other over
them.

**The book and its statements.** `Book` and `Closing` say what each storage statement does
to a book; `Writer` says what each operation of the service means, in one value: the
answer and the book; `Stores` is every tenant's book, and a batch across tenants.
`AppendStatement`, `BatchStatement` and `Storage` are the imperative forms: the single and
the batched append step by step, and a `Repository` class with a committed store and an
open bracket, any of whose statements may fail, and whose commit may fail on either side
of becoming durable. `Service` is the writer service as a class over that repository,
method by method, each proved against what its operation means. `Answers` is the
bookkeeping that lines up commands, planned members and replay answers.

**The operations in full.** `PostingInFull`, `BatchInFull`, `OpeningInFull`,
`DefinitionInFull`, `ClosingInFull` and `ListingsInFull` say once more what each operation
answers and stores, in plain terms: sums over the command's own postings, instants,
categories and names written out, and none of the writer's own definitions. `InFull` holds
the words they share. `Constructors` is the order in which each constructor refuses,
`BytesInFull` the bytes each hash is taken over, and `ReportsInFull` what the readers of
cursors, identifiers, instants and page keys make of any text, and how a key is printed.

**What every run keeps.** `BookInvariants`, `WriterInvariants` and `CloseExactness` prove
that every operation keeps a book valid and say exactly when each is accepted. `Runs` and
`ReachableBooks` carry that over every sequence of operations; `Supersession` is the life
of one transaction, pending to resolved or voided, posted to reversed; `Idempotency` is
about answers across a whole run, `FaultyRuns` about runs whose calls may fail on either
side of their commit, and `Fates` shows that whatever the service leaves is one of these;
`BatchRefinement` shows that the shared statement means posting one by one, and `TwoPaths`
exhibits the one way the answers part; `CheckpointReader` that a closed period's
checkpoint plus two tails is the plain recompute.

**Brackets beside one another.** `Brackets` runs any number of posting statements on one
book at once, step by step: a snapshot, the keys one by one, the slot of a superseded
transaction, the balance rows one by one, a commit or a rollback at any point.
`SerialOrder` shows that the book they leave is the one their order of commit leaves,
posted one after another, and `SerialRuns` that every such order is some run's.

**The accumulator.** `Queue` is the shared deque and its in-place drain. `Dispatchers` is
the pool as a state machine over interleaved steps: a push releases the queue's lock
before it notifies, a dispatcher decides to sleep before it registers as a waiter, and
`Notify` keeps one permit when nobody is there to wake. `Deliveries` follows every
submission from the queue through a dispatcher's hands to its own caller. `Callers` joins
the pool to the books, which openings, definitions, closes and other processes move beside
it: what its callers are told, and what every tenant's book then holds; `TwoCallers` is one
run of a pool in which two callers are told of one posting.

**Pinned reads.** `Reports` parses and prints cursors and page keys. `PinnedReads` is a
cluster of brackets that begin, insert, commit and abort in any order, with the commit
horizon and the cursor rule over it; `LateWriters` puts a close among those brackets, and
`SplitClose` its two statements at two of their states. `KeysetWalk` is paging by key;
`Listings` is the two listings a caller can walk, over the states of one run.

**The spike.** `SpikeBatch` is the throughput spike's batch: grouping, the in-place
insertion sort, and the backwards walk.

## What was found

- The service's internal refusals for a rendering that fails are documented as unreachable,
  because the constructors validate the UTC instant. They are reached. The hash of a period
  definition fails exactly when the period starts before year 0 in UTC
  (`Periods.HashingADefinitionFailsExactlyBeforeYearZero`), which 0000-01-01T00:00+01:00
  does; the payload of a definition or a posting is rendered at the caller's own offset and
  fails where the local year is outside 0 to 9999, or the offset has seconds in it or is a
  day or more (`Periods.ADefinitionThatHashesAndCannotBeRendered`,
  `Domain.APostingWhosePayloadCannotBeRendered`). `WriterInvariants.WhatADefinitionMeans`
  and `WriterInvariants.WhatAPostMeans` say that these are the only ways there.
- A close whose checkpoint was read while an older transaction was still running may read
  short of the plain recompute, a cost the closing statement's own comment records. It is
  exact in every state any run can come to if and only if no older transaction was running
  then (`LateWriters.ACloseIsExactForGoodExactlyWithNobodyOlder`); in
  `LateWriters.TheCloseThatReadsShort` it reads short at the pinned cursor itself.
- The sweep and the checkpoint of a close are two statements, each with its own snapshot. The
  close stores every temporary account at zero, however the brackets interleave, if and only
  if no older transaction was running when the sweep was read
  (`SplitClose.ACloseStoresZerosExactlyWithNobodyOlder`, and a run where it does not in
  `SplitClose.TheCloseThatStoresMore`).
- The batched statement claims its members' keys in no order. Statements can stop each other
  over them if and only if some can be stood, each at a key another of them has asked for
  (`ClaimKnots.StatementsDeadlockExactlyAtAKnot`); two of them, if and only if they contest a
  key and each comes first to a different one
  (`ClaimKnots.TwoWritersDeadlockExactlyWhereTheyDisagree`).
- A supplied cursor accepted on a book with no entries is refused once the book has one;
  with a floor, acceptance lasts (`PinnedReads.AcceptanceLastsExactlyWithAFloor`).
- An absent cursor is answered with the horizon, and that answer is refused when it is sent
  back on a book whose every entry sits at or above the horizon
  (`PinnedReads.ThePinnedCursorComesBack`, and a run that gets there in
  `PinnedReads.ThePinnedCursorMayBeRefused`).
- A negative cursor is documented as always landing above every horizon; it does so exactly
  while the horizon is below the value it wraps to (`PinnedReads.ANegativeCursorIsRefused`;
  bounds that accept one are in `PinnedReads.ANegativeCursorMayBeAccepted`).
- A posting that names an unknown account, while its known legs alone overflow a balance
  row, fails as storage on the single path and is refused as an unknown account in a batch;
  both write nothing. Unless the batch fails whole, that is the only way the two answers part
  (`BatchRefinement.BatchedPostingRefinesSinglePosting`), and a book reached by two openings
  and a posting shows it (`TwoPaths.TheTwoPathsPart`).

## Model

| member | source | states |
|---|---|---|
| Domain.EqualBytesMeanTheSameRequest | crates/ledger/src/domain.rs:279-337 | two well-formed posting commands have equal canonical bytes if and only if everything but the idempotency key agrees, instants compared as instants and absence distinct from every value |
| Domain.CanonicalBytes | crates/ledger/src/domain.rs:279-337 | appending to one buffer value by value yields exactly the canonical form |
| Domain.APostingWhosePayloadCannotBeRendered | crates/ledger/src/domain.rs:360-372 | one posting its constructor accepts, with a hash, whose payload does not render: its offset has seconds in it |
| Spaces.BlankIsTrimmedAway | crates/ledger/src/domain.rs:209-212 | a text is blank if and only if trimming white space leaves nothing of it |
| Spaces.TrimmedAwayIsAllSpaces | crates/ledger/src/domain.rs:209-212 | and if and only if it is white-space characters, of any width, only |
| Constructors.APostingIsLetThroughExactly | crates/ledger/src/domain.rs:41-70 | a posting is let through if and only if its amount is positive, its currency is three uppercase letters and its two accounts differ |
| Constructors.APostIsLetThroughExactly | crates/ledger/src/domain.rs:164-270 | a posting command is let through, unchanged, if and only if it is in the shape every other module takes it in; what is refused, and in which order, is a function of its own |
| Constructors.AnOpeningIsLetThroughExactly | crates/ledger/src/accounts.rs:160-250 | the same for an opening, its stripe count inside its window or absent; an owner that disagrees with its type is let through |
| Constructors.ADefinitionIsLetThroughExactly | crates/ledger/src/periods.rs:60-133 | the same for a definition, its instants in order and representable in UTC |
| Constructors.ACloseIsLetThroughExactly | crates/ledger/src/periods.rs:274-314 | the same for a close, its derived key within the cap as well |
| Accounts.EqualBytesMeanTheSameOpening | crates/ledger/src/accounts.rs:262-296 | the same equivalence for openings; an omitted stripe count is not the value it defaults to |
| Accounts.CanonicalBytes | crates/ledger/src/accounts.rs:262-296 | the opening's buffer, step by step, is its canonical form |
| Periods.EqualBytesMeanTheSameDefinition | crates/ledger/src/periods.rs:146-170 | the same equivalence for period definitions |
| Periods.DefinitionBytes | crates/ledger/src/periods.rs:146-170 | the definition's buffer is its canonical form, and fails where the rendering fails |
| Periods.HashingADefinitionFailsExactlyBeforeYearZero | crates/ledger/src/periods.rs:60-133 | a definition its constructor accepted cannot be hashed if and only if its period starts before year 0 |
| Periods.ADefinitionThatPassesItsConstructorAndCannotBeHashed | crates/ledger/src/periods.rs:118-133 | one a caller can spell: it starts at 0000-01-01T00:00+01:00, and renders at its own offset |
| Periods.ADefinitionThatHashesAndCannotBeRendered | crates/ledger/src/periods.rs:180-209 | one definition its constructor accepts, with a hash, whose payload does not render: its local year is before 0 |
| Periods.WithinATenantTheDerivedKeyNamesTheClose | crates/ledger/src/periods.rs:316-330 | within one tenant the derived close key is injective in (code, currency) |
| Periods.FormsOfDifferentOperationsNeverCollide | crates/ledger/src/periods.rs:336-350 | canonical forms of the four operations are pairwise different, whatever their bodies |
| Periods.CloseBytes | crates/ledger/src/periods.rs:336-350 | the close's buffer is its canonical form |
| BytesInFull.ThePostsBytesAre | crates/ledger/src/domain.rs:279-337 | byte by byte: the tag; the tenant, the date in UTC, the status word and the two pointers, each under its length in eight bytes, the lowest first; the number of postings; and per posting two ids of sixteen bytes, the highest first, the amount and the currency |
| BytesInFull.TheOpeningsBytesAre | crates/ledger/src/accounts.rs:262-296 | the tag and the seven values of an opening, an absence being no bytes and a stripe count two |
| BytesInFull.TheDefinitionsBytesAre | crates/ledger/src/periods.rs:146-170 | the tag and the five values of a definition |
| BytesInFull.TheClosesBytesAre | crates/ledger/src/periods.rs:336-350 | the tag and the three values of a close |
| Postings.ExpandPostings | crates/ledger/src/postings.rs:54-71 | the loop pushes each posting's credit then its debit, in posting order |
| Postings.LegsOfPostingsBalance | crates/ledger/src/postings.rs:54-71 | the legs of any postings have equal debits and credits in every currency |
| Postings.Coalesce | crates/ledger/src/postings.rs:73-91 | the one-pass checked accumulation refuses exactly when some (account, currency, side) total exceeds the 64-bit maximum, and otherwise yields those totals and counts |
| Postings.OneMoreLeg | crates/ledger/src/postings.rs:73-91 | one more leg moves one side of one delta, and the pass overflows there exactly when that side does; once it overflows, the whole set does |
| Postings.CoalescingIgnoresOrder | crates/ledger/src/postings.rs:73-91 | neither the verdict nor the deltas depend on leg order |
| Postings.DeltasAreAdditive | crates/ledger/src/postings.rs:73-91 | the deltas of a concatenation are the sums of the deltas |
| Postings.MirroringSwapsTheSides | crates/ledger/src/postings.rs:73-91 | flipping every leg swaps every delta's sides and keeps its count |
| KeyOrder.DeltasBalancePerCurrency | crates/ledger/src/postings.rs:73-91 | the deltas of a posting set sum to equal inputs and outputs in every currency |
| KeyOrder.InKeyOrderAscends | crates/ledger/src/postings.rs:73-78 | coalesced keys come out strictly ascending in (account, currency) |
| KeyOrder.TheOrderIsUnique | crates/ledger/src/postings.rs:73-78 | and that is the only strictly ascending listing of them |
| Postings.OffsetsBackFromLastSeq | crates/ledger/src/postings.rs:93-117 | the backwards pass, reversed, gives every leg the number of later legs on its row |
| Postings.WalkBackNumbersSequentially | crates/ledger/src/postings.rs:93-117 | however accounts interleave, the final counter less the offset is the number one-at-a-time posting would issue |
| Postings.PlanAppend | crates/ledger/src/postings.rs:134-161 | overflow is refused before the withholding, and the plan carries the legs, their offsets and the deltas, zeroed for a pending transaction but still counting its legs |
| RowLocks.RowLocksCannotDeadlock | crates/ledger/src/repository.rs:366-374 | any number of writers taking their rows in ascending order and holding them to commit: while one is unfinished, some writer can step |
| RowLocks.StatementsAlwaysFinish | crates/ledger/src/repository.rs:366-374 | from any statements' own deltas, however they interleave: no run has more steps than the rows they lock and their commits, and it is over exactly when all have committed |
| RowLocks.StatementsCanAlwaysFinish | crates/ledger/src/repository.rs:366-374 | and from wherever such a run has come, some way on commits them all |
| RowLocks.DisagreeingOrdersDeadlock | crates/ledger/src/postings.rs:73-76 | two writers that disagree about the order stop each other for good |
| KeyClaims.KeysInOneOrderCannotDeadlock | crates/ledger/postgres/src/repository.rs:617-632 | with the keys, each in its tenant, that a statement claims before its rows, and waits on rivals for: in every state statements come to, while a writer is unfinished some writer can step, if their keys follow one order |
| KeyClaims.EveryRunIsBounded | crates/ledger/postgres/src/repository.rs:617-632 | whatever their keys, no run of statements is longer than the keys they ask for, the rows they touch and their commits |
| KeyClaims.StatementsInOneOrderAlwaysFinish | crates/ledger/postgres/src/repository.rs:617-632 | from their start, where their keys follow one order: every run is so bounded, and over exactly when all have committed |
| ClaimKnots.StatementsDeadlockExactlyAtAKnot | crates/ledger/postgres/src/repository.rs:617-632 | any number of statements can come to a state in which none can step and some are unfinished if and only if they can be stood in a knot: some over, the others apart and each about to ask for a key another has asked for |
| ClaimKnots.TwoWritersDeadlockExactlyWhereTheyDisagree | crates/ledger/postgres/src/repository.rs:617-632 | two can if and only if they contest a key nobody holds yet and each comes first to a different one |
| SerialOrder.EveryStepKeepsItSound | crates/ledger/postgres/src/repository.rs:407-540 | posting brackets beside one another: every step keeps their keys, rows and superseded targets apart, each bracket's own row versions the committed ones moved by its legs, its snapshot an earlier state, and the committed book valid |
| SerialOrder.ACommitIsItsStatement | crates/ledger/postgres/src/repository.rs:484-525 | what a bracket commits, from its old snapshot, its won keys and its own row versions, is what its statement posted alone on the book as committed then leaves |
| SerialOrder.BracketsLeaveWhatTheirOrderLeaves | crates/ledger/postgres/src/repository.rs:617-664 | over every interleaving, single and shared statements, resolutions and reversals, contested keys and rollbacks: the book is the one the committed statements leave posted one after another in their order of commit, and is valid |
| SerialOrder.AtItsEndItCommitsExactlyWhenAccepted | crates/ledger/postgres/src/repository.rs:1670-1690 | with its keys asked for and its rows moved, a bracket may commit if and only if its statement, posted alone on the book as it is then, would be accepted, and what it supersedes passed its snapshot's gate and is its to supersede |
| SerialOrder.WhereARowOverflowsTheStatementFails | crates/ledger/postgres/src/repository.rs:493-509 | where a row cannot hold what a bracket would move it by, the statement posted alone then fails too: every member hears storage and nothing is written |
| SerialOrder.AWithheldMemberAsksForNothing | crates/ledger/postgres/src/repository.rs:732-742 | a shared bracket asks only for keys of members whose every account its snapshot holds, and wins one unless it is durably held |
| SerialRuns.EveryOrderIsSomeRuns | crates/ledger/postgres/src/repository.rs:407-540 | and the other way: any statements in any order, each accepted at its turn, are what some run of brackets commits, in exactly that order |
| BookInvariants.NumberedForwards | crates/ledger/src/repository.rs:366-374 | an entry's number is its row's counter before the statement plus its place among the statement's legs on the row |
| AppendStatement.UpsertInOrder | crates/ledger/src/repository.rs:366-374 | the loop upserts every delta's row once, in key order, and answers one counter per known row |
| AppendStatement.TheUpsertsAreTheCoalescedOnes | crates/ledger/postgres/src/repository.rs:407-540 | row-by-row upserts of the plan's deltas leave the balances the legs move |
| AppendStatement.ThePlanNumbersTheEntries | crates/ledger/postgres/src/repository.rs:407-540 | counter minus offset, leg by leg, is the statement's own numbering |
| BatchStatement.ClaimTheKeys | crates/ledger/postgres/src/repository.rs:732-742 | the claims in member order leave exactly the proceeding members' keys and, unless one is shared, their events in order |
| BatchStatement.JoinBack | crates/ledger/postgres/src/repository.rs:743-755 | joining the claimed keys back to the members finds one transaction per event if and only if no claim is shared |
| BatchStatement.AppendBatchTo | crates/ledger/postgres/src/repository.rs:680-838 | the batched append stage by stage, gate, claims, join back, one upsert per row, one numbering cut into transactions, one outcome per member, is the statement the batch means |
| BatchStatement.AppendAcross | crates/ledger/postgres/src/repository.rs:680-838 | the batched append over the tenants of its members is each tenant's part, all of them or none, the outcomes back in member order |
| Stores.EachTenantsBookIsItsOwn | crates/ledger/postgres/src/repository.rs:680-838 | a batch across tenants that does not fail whole moves every tenant's book as that tenant's own members' batch moves it alone |
| Stores.EachMemberHearsItsOwn | crates/ledger/postgres/src/repository.rs:680-838 | and each member hears what that batch tells it alone |
| Stores.OneTenantsFailureIsEverybodys | crates/ledger/postgres/src/repository.rs:680-838 | it fails whole if and only if some tenant's part fails, and then nothing moves |
| Storage.AppendTo | crates/ledger/src/repository.rs:366-407 | the single append step by step is the claim-gated statement: nothing on a held key, no transaction behind a refused supersession, a whole failure on a balance that does not fit |
| Storage.Repository.ClaimAndAppend | crates/ledger/src/repository.rs:366-407 | either the statement's answer with the bracket moved to the book it stages, or a storage failure that ends the bracket with the committed store untouched |
| Storage.Repository.ClaimAndAppendBatch | crates/ledger/src/repository.rs:409-442 | the same for the batched statement, members of any tenants, one outcome per member in order |
| Storage.Repository.Commit | crates/ledger/src/repository.rs:665-667 | a commit makes the whole bracket durable; one that fails leaves either the old store or the new one |
| Storage.Repository.Rollback | crates/ledger/src/repository.rs:669-671 | a rollback leaves the committed store as it was |
| Service.PlanTheCommand | crates/ledger/src/service.rs:214-255 | the internal refusal exactly when the payload does not render at the caller's offset, then the overflow refusal exactly when coalescing overflows, and otherwise the canonical hash and the planned append |
| Service.LedgerService.Post | crates/ledger/src/service.rs:132-180 | over every store and every fault: the answer is what the operation means, its internal refusal included, or a storage failure, and without one the committed store moves to the meant book and no other tenant's |
| Service.LedgerService.CommitOrRefuseUnknownAccount | crates/ledger/src/service.rs:257-295 | commits when every upsert handed a counter back, and otherwise rolls back and names the first row without one |
| Service.LedgerService.CommitDerivedReversal | crates/ledger/src/service.rs:304-315 | commits what the statement derived from its target |
| Service.LedgerService.RefuseUnsupersedableTarget | crates/ledger/src/service.rs:324-364 | rolls back first, then answers the diagnosis under the target the command named |
| Service.LedgerService.ReplayOrRefuse | crates/ledger/src/service.rs:372-391 | answers the stored result of this key and body, or the reuse, having written nothing |
| WriterInvariants.WhatAPostMeans | crates/ledger/src/service.rs:132-255 | a post is freshly accepted if and only if its payload renders, its totals fit, its key is free, its target may take it, its accounts exist in their currency and every balance still fits; otherwise the book is unchanged; the answer is the internal refusal if and only if its payload does not render |
| PostingInFull.APostIsAnsweredInFull | crates/ledger/src/service.rs:132-391 | on every valid book a posting is answered by the first of these that holds: no text at its own offset, a side of 2^63 or more, a held key (its own body again or the reuse), a balance that cannot hold it, a target that is unknown, not pending, not reversible or taken, a missing account (the least); and otherwise with the next event and transaction |
| PostingInFull.AnAcceptedPostIsStoredInFull | crates/ledger/postgres/src/repository.rs:407-540 | an accepted posting is stored at its caller's own date or else its target's, with its own pointers and status, a credit and a debit per posting or its target's entries with the sides swapped, numbered on from each row's counter; every row moves by what its postings move and nothing else changes; anything but an acceptance changes nothing |
| WriterInvariants.TheRefusalNamesTheLeastUnknownAccount | crates/ledger/src/service.rs:276-288 | the account a refusal names is the least unknown one in (account, currency) order |
| WriterInvariants.AnUnknownAccountIsRefused | crates/ledger/src/service.rs:257-295 | a posting over an unknown account with a free key hears the least such account's name if its known legs fit their balances, and a storage failure if they do not |
| Service.LedgerService.PostBatch | crates/ledger/src/service.rs:396-418 | none, one or many commands, of any tenants: the answers and every tenant's book are what the batch means, or a storage failure for every member that reached the statement |
| Service.LedgerService.PostTogether | crates/ledger/src/service.rs:426-463 | plan refusals keep their own answer, one survivor takes the single statement, more share one, whichever tenants they are of |
| Service.ATenantsBatchSettles | crates/ledger/src/service.rs:396-463 | a batch of one tenant moves that tenant's book as its batch means, and nobody else's |
| Service.LedgerService.AppendTheBatch | crates/ledger/src/service.rs:498-532 | one statement, at most one replay lookup, one commit; every disagreement over a count refuses the whole batch with nothing committed, and none is reached over the modelled repository |
| Answers.MembersReplayingAnEarlierWrite | crates/ledger/src/service.rs:568-578 | keeps exactly the members whose key was already held, in order |
| Answers.AnswersForMembers | crates/ledger/src/service.rs:604-644 | the iterator gives each held key the stored result at its rank among held keys, and every other member its own outcome |
| Answers.EveryMemberTakesItsOwnAnswer | crates/ledger/src/service.rs:604-644 | after the count checks the lookup never runs out, and no member takes another's stored result |
| Answers.AnswersInArrivalOrder | crates/ledger/src/service.rs:650-665 | a refused plan keeps its refusal, every other command takes the outcome at its rank among survivors |
| Answers.EveryCommandTakesItsOwnAnswer | crates/ledger/src/service.rs:650-665 | with one answer per survivor the batch never runs out of answers |
| BatchRefinement.TheSharedStatementRecordsInTurn | crates/ledger/postgres/src/repository.rs:680-840 | one upsert per row and one numbering across all members write exactly what recording the members in turn writes |
| BatchRefinement.MemberEntriesInTurn | crates/ledger/postgres/src/repository.rs:680-840 | a member's entry is numbered after every earlier leg of the batch on its row, whichever member carried it |
| BatchRefinement.TheSharedStatementFailsExactlyOnOverflow | crates/ledger/src/repository.rs:409-437 | for what a drain yields, the shared statement fails whole if and only if some balance row cannot hold the members' totals |
| BatchInFull.ABatchIsAnsweredInFull | crates/ledger/postgres/src/repository.rs:680-838 | a shared statement fails whole if and only if a member is pending or carries a pointer, two members share a key one of them would claim, or a row cannot hold their totals, and then writes nothing; otherwise each member hears of its held key, of its least missing account, or its event at two ids for each member before it that goes in |
| BatchInFull.ABatchIsStoredInFull | crates/ledger/postgres/src/repository.rs:680-838 | every member that goes in is stored at its own date with its own postings, in member order; the new entries are one numbering from the old counters, every row moves by the members' totals, their claims are theirs, and nothing else changes |
| BatchRefinement.PostingTogetherMeansPostingInTurn | crates/ledger/src/service.rs:498-532 | unless it fails whole, the shared statement leaves the book posting one by one in arrival order leaves, but for commit positions, and answers each member the same but for exactly the ones that fail alone |
| BatchRefinement.BatchedPostingRefinesSinglePosting | crates/ledger/src/service.rs:396-463 | the same for a whole drained batch with its plan refusals; the two answers to a command are equal if and only if it is not over an unknown account with known legs its turn's balances cannot hold, and then one is storage and the other names the account |
| BatchRefinement.AFailedBatchWritesNothing | crates/ledger/src/service.rs:449-463 | a batch that fails whole leaves the book as it was; a command its own plan refused keeps that refusal and every other hears storage |
| TwoPaths.TheBrinkIsReachable | crates/ledger/src/service.rs:72-123 | a run of two openings and a posting reaches a valid book one row of which is at the brink of its maximum |
| TwoPaths.TheTwoPathsPart | crates/ledger/src/service.rs:396-463 | on such a book a drain of two postings whose shared statement is answered, one of which hears an unknown account there and a storage failure alone |
| Service.LedgerService.OpenAccount | crates/ledger/src/service.rs:688-739 | the chart, then the owner rules, then the claim: the answer and the book are what the opening means, or a storage failure |
| WriterInvariants.WhatAnOpeningMeans | crates/ledger/src/service.rs:688-868 | an opening is freshly accepted if and only if the chart knows its purpose, its owner agrees, its key is free and its natural key is free; otherwise nothing is written; a claim held by this body always finds its account |
| OpeningInFull.AnOpeningIsAnsweredInFull | crates/ledger/src/service.rs:688-868 | an opening is answered by the first that holds: a purpose the chart does not know; an owner id and a house owner together, or neither; a house owner without an id for a purpose held per shard; a held key, its own or reused; an account that stands already under the same nature; and otherwise the next account |
| OpeningInFull.AnAcceptedOpeningIsStoredInFull | crates/ledger/src/accounts.rs:106-114 | an accepted opening stores its account under the chart's own triple, with its nature registered and its key claimed, and nothing else changes |
| Service.LedgerService.DefinePeriod | crates/ledger/src/service.rs:899-956 | the answer and the book are what the definition means, both internal refusals included, or a storage failure |
| WriterInvariants.WhatADefinitionMeans | crates/ledger/src/service.rs:899-1020 | a definition is freshly accepted if and only if it can be hashed and rendered, its key is free, the zone is known, the code is free and no period overlaps; the answer is the internal refusal if and only if it starts before year 0 in UTC or does not render at the caller's offsets |
| DefinitionInFull.ADefinitionIsAnsweredInFull | migrations/00001_baseline.sql:811-812 | a definition is answered by the first that holds: no text of an instant, a held key, an unknown zone, a taken code, an instant that is inside both the asked period and a stored one, both half-open; and otherwise the period it asked for |
| DefinitionInFull.AnAcceptedDefinitionIsStoredInFull | crates/ledger/src/service.rs:899-1020 | an accepted definition stores its period and its claim, and nothing else changes |
| DefinitionInFull.NoInstantIsInTwoPeriods | migrations/00001_baseline.sql:811-812 | in every valid book no instant is inside two stored periods, and every stored period has some |
| Service.LedgerService.ClosePeriod | crates/ledger/src/service.rs:1044-1151 | context, claim and sweep, checkpoint, commit: the answer and the book are what the close means, or a storage failure |
| Service.LedgerService.CheckpointAndCommitTheClose | crates/ledger/src/service.rs:1168-1196 | the checkpoint is taken over the book the sweep has already written, and both commit together |
| Service.LedgerService.RefuseTheRepeatedClose | crates/ledger/src/service.rs:1222-1243 | the same close again is refused as closed, another body holding the key as a reuse; neither writes |
| CloseExactness.WhatACloseMeans | crates/ledger/src/service.rs:1044-1151 | a close is accepted if and only if its period and its destination exist, its key and its name are free, the closing instant falls inside the period and the swept balances fit; every refusal leaves the book as it was |
| CloseExactness.TheSweepLeavesNothing | crates/ledger/src/repository.rs:593-615 | after the sweep every temporary account's position at the cursor is zero |
| CloseExactness.RetainedEarningsMoveByTheSweptTotal | crates/ledger/src/repository.rs:593-615 | retained earnings gain exactly what the temporary accounts gave up |
| CloseExactness.TheNewCloseIsExact | crates/ledger/src/repository.rs:625-647 | the stored checkpoint is the at-close position of every account and zero on every temporary one |
| ClosingInFull.ACloseIsAnsweredInFull | crates/ledger/src/service.rs:1044-1243 | a close is answered by the first that holds: an unknown period, no equity account of the house to close into, a key held by this close or another, a close on record, an instant a microsecond before the end that is outside the period, a row that cannot hold the sweep; and otherwise with exactly the positions of the revenue and expense accounts |
| ClosingInFull.TheClosingInstantIs | crates/ledger/src/periods.rs:396-398 | a thousand nanoseconds before the end, and none where that cannot be represented |
| ClosingInFull.AnAcceptedCloseIsStoredInFull | crates/ledger/postgres/src/repository.rs:1181-1329 | an accepted close stores its sweep a microsecond before the end, its record, its claim and a checkpoint of what was posted before the end, and nothing else changes |
| ClosingInFull.AClosedPeriodIsSwept | crates/ledger/postgres/src/repository.rs:1212 | after it every revenue and expense account but the destination stands at zero at the period's end, on the journal and in the checkpoint, the destination has gained what they held, and every other account stands where it did |
| ClosingInFull.TheSweepTouchesNobodyElse | crates/ledger/postgres/src/repository.rs:1212-1213 | no leg of the sweep is on an asset, a liability or an equity account other than the destination |
| Closing.CheckpointAndTailsAreTheWhole | crates/ledger/src/report_store.rs:212-217 | checkpoint, late arrivals inside the period and everything after are disjoint and together are what aggregating from inception admits |
| CheckpointReader.TheReaderIsExact | migrations/00004_the_report_path_reads_the_checkpoint.sql:972-1047 | in every valid book, whichever close anchors the report, checkpoint plus the two tails equals aggregating from inception |
| CheckpointReader.AnyLaterCursorMayAnchor | migrations/00004_the_report_path_reads_the_checkpoint.sql:914-967 | any cursor above the close's own commit, with an as-of at or after the period end, may use the close |
| CheckpointReader.CheckpointingFirstLosesTheSweep | crates/ledger/src/service.rs:1168-1196 | a checkpoint taken before the sweep would zero the temporary accounts if and only if there was nothing to sweep |
| CheckpointReader.TheReaderFallsShortByWhatWasMissed | migrations/00004_the_report_path_reads_the_checkpoint.sql:972-1047 | a checkpoint taken over one journal and read over a longer one falls short of inception by exactly the older commits it missed |
| LateWriters.WhichRowsCount | migrations/00004_the_report_path_reads_the_checkpoint.sql:972-1047 | the rows the plain recompute, the checkpoint and each of the two tails count, by date, commit position and transaction: posted entries of the tenant's, committed or the asker's own, and no others |
| LateWriters.ExactWhereNothingWasMissed | migrations/00004_the_report_path_reads_the_checkpoint.sql:972-1047 | at any later state of a run, the reader over the checkpoint as it was taken is exact on an account if and only if no row committed since, or since settled, inside the checkpoint's bound is on it |
| LateWriters.WithNobodyOlderTheCloseIsExactForGood | crates/ledger/postgres/src/repository.rs:1099-1110 | a close whose checkpoint was read with no older transaction running is exact in every state the run may come to, on every account, at every cursor above it |
| LateWriters.AnOlderWriterLandsLate | crates/ledger/postgres/src/repository.rs:1099-1110 | with an older one running, the run may go on so that it commits after the close and a read at the horizon falls short |
| LateWriters.ACloseIsExactForGoodExactlyWithNobodyOlder | crates/ledger/postgres/src/repository.rs:1099-1110 | a close stays exact however the run goes on if and only if no older transaction was running when its checkpoint was read |
| LateWriters.TheCloseThatReadsShort | crates/ledger/postgres/src/repository.rs:1099-1110 | one run in which an older transaction lands after the close and the report at the pinned cursor falls short |
| SplitClose.TheStoredPosition | crates/ledger/postgres/src/repository.rs:1169-1180 | a temporary account's stored position is the net of what settled between the sweep's snapshot and the checkpoint's |
| SplitClose.ACloseStoresZerosExactlyWithNobodyOlder | crates/ledger/postgres/src/repository.rs:1169-1180 | every temporary account is stored at zero in every way a run may go on until the checkpoint, if and only if no older transaction was running when the sweep was read |
| SplitClose.TheCloseThatStoresMore | crates/ledger/postgres/src/repository.rs:1169-1180 | one run in which an older transaction commits between the two and a temporary account is not stored at zero |
| BookInvariants.RecordingKeepsTheBookValid | crates/ledger/src/repository.rs:366-399 | recording one transaction keeps balances, numbering, double entry, supersession, identities, claims, periods and stored checkpoints exact |
| Runs.EveryReachableBookIsValid | crates/ledger/src/service.rs:72-123 | the invariants hold after every sequence of operations |
| ReachableBooks.EveryBalanceRowIsExact | crates/ledger/src/repository.rs:366-374 | in every reachable book a balance row's sides are the sums of posted entries only, its counter is the count of all its entries, and they are numbered exactly 1 to that count |
| ReachableBooks.EveryBookBalances | crates/ledger/src/postings.rs:54-71 | in every reachable book debits equal credits per currency, in each transaction and over the whole book |
| ReachableBooks.EverySupersessionIsOneDeep | crates/ledger/src/repository.rs:56-81 | in every reachable book a target is an earlier ordinary posting that supersedes nothing, no superseder is superseded, no target is superseded twice, and a posted target plus its mirror nets to zero on every row |
| ReachableBooks.NoSupersederIsSuperseded | crates/ledger/src/domain.rs:173-208 | supersession has depth exactly one |
| Supersession.AResolutionPassesExactly | crates/ledger/src/repository.rs:64-81 | a resolution passes the gate if and only if its target stands, is pending and has no superseder; it is unknown if and only if nothing has that id |
| Supersession.AReversalPassesExactly | crates/ledger/src/repository.rs:64-81 | a reversal passes the gate if and only if its target stands, is an ordinary posting that supersedes nothing and has no superseder |
| Supersession.APendingMovesNoBalance | crates/ledger/src/postings.rs:140-153 | an accepted pending transaction moves no balance and still takes one number per leg |
| Supersession.AVoidLeavesEveryBalance | crates/ledger/src/repository.rs:376-384 | voiding a pending transaction changes no balance row and writes no entry |
| Supersession.AReversalGivesBackWhatItsTargetMoved | crates/ledger/src/repository.rs:376-384 | a reversal moves every row by its target's movement with the sides swapped |
| Supersession.ReversingUndoesThePosting | crates/ledger/src/repository.rs:376-384 | a posting and its reversal leave every account's net position where it was |
| Supersession.AnAcceptedSupersessionIsMade | crates/ledger/src/repository.rs:76-80 | an accepted resolution or reversal found its target unsuperseded and leaves it superseded |
| Supersession.OnceSupersededIsForGood | crates/ledger/src/port.rs:113-116 | however a run goes on, no later command takes a superseded target: it is refused or replayed and writes nothing |
| Idempotency.OneKeyOneClaim | crates/ledger/src/service.rs:153-179 | over any run of any operations, all accepted answers for one key name one body, one event and one effect; of any two, at different calls or at different places of one batch, the later is a replay, and two of one batch both are |
| Idempotency.ADifferentBodyIsRefused | crates/ledger/src/service.rs:372-391 | once a key is held, no operation ever accepts it with another body |
| Idempotency.ARepeatedCloseIsRefused | crates/ledger/src/service.rs:1222-1243 | once a close is accepted, the same close is refused as already closed for the rest of the run, and writes nothing |
| Idempotency.OnlyAFirstWriterWrites | crates/ledger/src/port.rs:83-131 | a call whose every answer is a refusal or a replay leaves the committed book exactly as it was |
| Idempotency.RunsOnlyGrow | crates/ledger/src/repository.rs:665-667 | claims, transactions, registered accounts, periods and closes are never changed or lost by later operations |
| FaultyRuns.EveryFaultyRunIsValid | crates/ledger/src/service.rs:72-123 | the invariants hold after every run in which each call may be served, lost before its commit, or made durable and then lost |
| FaultyRuns.AFaultyRunIsARunOfWhatLanded | crates/ledger/src/repository.rs:665-671 | such a run leaves the book that the calls which landed would leave with no fault at all |
| FaultyRuns.OneKeyOneClaimUnderFaults | crates/ledger/src/service.rs:153-179 | of any two calls that landed under one key, their answers heard or lost, both name one body, event and effect, and the later is a replay |
| FaultyRuns.ARetriedCallWritesNothing | crates/ledger/src/port.rs:83-131 | a posting, an opening or a definition that landed is, whenever it is retried, answered with what it wrote; a close is refused as closed; the book stays as it is |
| FaultyRuns.ARetriedBatchWritesNothing | crates/ledger/src/service.rs:498-532 | a batch whose members all landed is, whenever it is retried, answered member by member with what each wrote, and the book stays as it is |
| Fates.WhatACallLeaves | crates/ledger/src/service.rs:72-123 | a call of a run leaves the book that the service's own method for that call means |
| Fates.EveryCallHasAFate | crates/ledger/src/service.rs:153-179 | whatever a call leaves of its tenant's book is one of the three fates, and the first unless the service said storage failed |
| Fates.EveryTenantOfABatchHasAFate | crates/ledger/src/service.rs:396-463 | a batch of any tenants leaves every tenant's book as some fate of its own commands, batched, leaves it |
| Queue.Queue.Push | crates/openledger/src/batching.rs:163-169 | a push appends its submission at the back |
| Queue.Queue.TakeWhateverIsWaiting | crates/openledger/src/batching.rs:180-193 | the head leaves first, company is collected only behind a plain posting, and batch and queue are left as one drain leaves them |
| Queue.Queue.CollectTheCompanyBehind | crates/openledger/src/batching.rs:224-248 | the in-place scan-and-remove loop terminates and takes exactly what one left-to-right pass takes |
| Queue.OneDrainIsExact | crates/openledger/src/batching.rs:224-281 | a drain is headed by the queue's head, is one tenant with distinct keys and all plain or a singleton, has at most max(1, ceiling) members, splits the queue into two order-preserving parts, and below the ceiling leaves nobody who could have ridden |
| Queue.ADrainMayShareAStatement | crates/openledger/src/batching.rs:275-281 | what a drain of two or more yields meets everything the shared statement asks for |
| Queue.NobodyWaitsForever | crates/openledger/src/batching.rs:180-193 | whatever is pushed meanwhile, a waiter at position p is taken by the (p + 1)-th drain at the latest |
| Queue.TwinsLeaveInArrivalOrder | crates/openledger/src/batching.rs:250-281 | in every run of pushes and drains, plain postings sharing a tenant and a key leave in arrival order |
| Dispatchers.EveryStepKeepsThePoolAwake | crates/openledger/src/batching.rs:432-459 | every step of every interleaving keeps the pool awake |
| Dispatchers.NoWakeUpIsEverLost | crates/openledger/src/batching.rs:441-459 | a non-empty queue never coexists with every dispatcher asleep or committed to sleeping, no stored permit and no pusher about to notify |
| Dispatchers.WithTheBatonWorkIsAboutToBeTaken | crates/openledger/src/batching.rs:195-214 | with the baton, while work is queued some dispatcher is about to drain, a push is about to notify, or a permit is stored and nobody is asleep |
| Dispatchers.WithoutTheBatonWorkWaitsBesideASleeper | crates/openledger/src/batching.rs:195-209 | without the baton a concrete run leaves a second tenant waiting beside a sleeping dispatcher |
| Deliveries.QueuedWorkCanAlwaysBeServed | crates/openledger/src/batching.rs:441-459 | in every reachable pool with a dispatcher, queued work leaves some step other than a push open |
| Deliveries.EverySubmissionIsInOnePlace | crates/openledger/src/batching.rs:469-483 | over any run, every submission is queued, in one dispatcher's hands or answered, never two of these, and an answer is to its own command |
| Deliveries.AnAnswerStands | crates/openledger/src/batching.rs:469-483 | an answer once delivered is never replaced |
| Deliveries.TheAnswerIsTheBatchsOwn | crates/openledger/src/batching.rs:469-483 | each caller hears the answer at its own place in its batch, and nobody else's |
| Deliveries.PostTheBatchAndAnswerItsCallers | crates/openledger/src/batching.rs:469-483 | the two loops around the service deliver answers the pool's posting step allows, each down its own caller's channel |
| Callers.EveryTenantsBookIsAFaultyRun | crates/openledger/src/batching.rs:404-483 | in every reachable pool, over whatever books it started from, every tenant's book is what a faulty run leaves: the calls before the pool, then the batches posted for the tenant and its calls from elsewhere (openings, definitions, closes, other processes' posts), in the order they interleaved |
| Callers.EveryFaultyRunIsAPools | crates/openledger/src/batching.rs:404-437 | and the other way: whatever calls of a tenant under whatever fates, some run of a pool over empty books makes exactly these and leaves what they leave |
| Callers.WhoseCallItIs | crates/openledger/src/batching.rs:404-437 | a call that goes past the queue is one tenant's if and only if everything in it names that tenant |
| Callers.EveryTenantsBookIsValid | crates/openledger/src/batching.rs:404-483 | from valid books, every tenant's book is valid in every reachable pool |
| Callers.CallersHearOneClaim | crates/openledger/src/batching.rs:404-483 | in every reachable pool over valid books, whatever goes on elsewhere, any two callers told of success under one tenant's key asked for the same request and were told one event and one transaction, and one of them of a replay |
| TwoCallers.TheSecondCallerHearsTheFirst | crates/openledger/src/batching.rs:380-483 | one run from empty books in which two accounts are opened beside the pool, one caller is told of a fresh posting and a second under the same key of its replay |
| Reports.ANumeralIsItsCursor | crates/ledger/src/reports.rs:90-99 | every unsigned 64-bit numeral, however padded with white space and led by zeros, parses to its value |
| Reports.ACursorReadsBack | crates/ledger/src/reports.rs:90-112 | parsing undoes the decimal printing for every cursor |
| Reports.ANegativeCursorWraps | crates/ledger/src/reports.rs:90-99 | every negative signed 64-bit numeral, however padded, parses to its value plus 2^64 |
| Reports.AUuidReadsBack | crates/ledger/src/reports.rs:228-238 | an identifier's hyphenated text parses back to it |
| Reports.AKeyReadsBackOnItsOwnAxis | crates/ledger/src/reports.rs:199-243 | a rendered page key parses to itself on its own axis and to nothing on the other |
| ReportsInFull.TheWhiteSpaceIsThis | crates/ledger/src/reports.rs:90-99 | the white space trimmed off a cursor is Unicode's, code point by code point |
| ReportsInFull.ACursorIsReadInFull | crates/ledger/src/reports.rs:90-99 | a cursor is read from any text: digits below 2^64, or a minus and digits up to 2^63 taken from 2^64, and nothing else |
| ReportsInFull.AUuidIsReadInFull | crates/ledger/src/reports.rs:222-238 | an identifier is read from any text: 32 hexadecimal digits in any of the four forms, as the number they spell, and nothing else |
| ReportsInFull.AnInstantIsReadInFull | crates/ledger/src/reports.rs:228-236 | an instant is read from any text: signed digits inside the years, and nothing else |
| ReportsInFull.ARecordedKeyIsReadInFull | crates/ledger/src/reports.rs:222-244 | a key of the recorded axis is a cursor, a comma and an identifier |
| ReportsInFull.AnEffectiveKeyIsReadInFull | crates/ledger/src/reports.rs:222-244 | a key of the effective axis is an instant, a cursor and an identifier |
| ReportsInFull.AKeyHasItsParts | crates/ledger/src/reports.rs:239-243 | and neither is read from a text with more parts or fewer |
| ReportsInFull.AKeyIsPrintedInFull | crates/ledger/src/reports.rs:199-215 | a key's text: on the effective axis the date as signed digits, then the cursor's digits with no zero to lead them, then the identifier hyphenated in small letters, a comma between each |
| PinnedReads.TheHorizonNeverFalls | crates/ledger/src/report_service.rs:28-33 | over any run of begin, insert, commit and abort the horizon never decreases |
| PinnedReads.WhatIsBelowTheHorizonIsSettled | crates/ledger/src/report_store.rs:59-69 | the committed rows strictly below any value at or under the horizon are the same in every later state |
| PinnedReads.AcceptanceLastsExactlyWithAFloor | crates/ledger/src/report_service.rs:513-543 | an accepted supplied cursor is accepted unchanged in a later state if and only if the book had a floor then or still has none |
| PinnedReads.AnAcceptedCursorAdmitsAnEntry | crates/ledger/src/report_service.rs:499-505 | on a book with a floor an accepted supplied cursor admits at least one of the tenant's entries |
| PinnedReads.AFirstEntryIsAboveTheHorizon | crates/ledger/src/report_service.rs:28-33 | the first entry of a book lands at or above every horizon that book was read under before |
| PinnedReads.ThePinnedCursorComesBack | crates/ledger/src/report_service.rs:517-519 | an absent cursor is the horizon, and sending that back is accepted if and only if there is no floor at or above it |
| PinnedReads.ThePinnedCursorMayBeRefused | crates/ledger/src/report_service.rs:517-543 | one run in which an absent cursor is answered with a horizon that is then refused as a cursor |
| PinnedReads.ANegativeCursorIsRefused | crates/ledger/src/reports.rs:80-89 | a negative cursor is refused as implausible if and only if the value it wraps to is above the horizon or at or below the floor |
| PinnedReads.ANegativeCursorMayBeAccepted | crates/ledger/src/reports.rs:80-89 | bounds under which a negative cursor is accepted |
| PinnedReads.AcceptanceOnAnEmptyBookIsLost | crates/ledger/src/report_service.rs:505-508 | one run in which a cursor accepted on an empty book is later refused |
| KeysetWalk.WhatAPageHolds | crates/ledger/src/report_service.rs:256-279 | a page holds only rows beyond its bound, and what it leaves out is beyond the key of the next page, which then exists |
| KeysetWalk.AWalkNeverRepeats | crates/ledger/src/report_service.rs:304-323 | whatever arrives between the pages, rows come out in strictly ascending key order |
| KeysetWalk.AFinishedWalkMissesNothing | crates/ledger/src/report_service.rs:304-323 | a finished walk of a growing table gives every row present at its start exactly once, and no row twice |
| KeysetWalk.AFinishedWalkIsTheWholeInOrder | crates/ledger/src/report_service.rs:460-486 | a finished walk of a fixed set is that set in order |
| KeysetWalk.AWalkOfAFixedSetTerminates | crates/ledger/src/report_service.rs:304-323 | a walk of a fixed set cannot go past one page more than its full ones |
| Listings.TheKeyComesBack | crates/ledger/src/report_service.rs:419-433 | the text a page hands back is read, on the same axis, as the key of its last entry |
| Listings.AStatementWalkIsExact | crates/ledger/src/report_service.rs:342-384 | following the next key at one pinned cursor, each page read at a later state of the run, gives every admitted entry once in the axis's order |
| Listings.AStatementWalkTerminates | crates/ledger/src/report_service.rs:342-384 | such a walk ends |
| Listings.AFullPageCanBeFollowed | crates/ledger/src/report_service.rs:342-384 | a page that hands back a key can be followed: at any later state of the run the same question, sent back with that key and the pinned cursor, is answered at that cursor on the same axis |
| Listings.ARegisterWalkMissesNothing | crates/ledger/src/report_service.rs:256-279 | walking the account register while it grows gives every account present at the start exactly once, and none twice |
| ListingsInFull.ACursorIsPinnedInFull | crates/ledger/src/report_service.rs:513-543 | in every sound state an absent cursor is pinned at the least running transaction or the next one; a supplied one is refused if it is not a number, if a running or coming transaction is below it, or if every entry of the book is at or above it, and is otherwise itself |
| ListingsInFull.AStatementIsAnsweredInFull | crates/ledger/src/report_service.rs:342-486 | on every sound state a statement is answered by the first that holds: an axis that is not "recorded" or "effective", a page size outside 1 to 1000, a key of the other axis, a range on the recorded axis, a cursor refused, an unknown account; and otherwise with the first admitted entries past the key, ascending by (position, id) or by (date, position, id) as it asked, and the key of the last if the page is full |
| ListingsInFull.ARegisterIsAnsweredInFull | crates/ledger/src/report_service.rs:256-279 | and so is a page of the register: the first accounts past the id asked for that the filters let through, ascending by id |
| ListingsInFull.TheNamesAreThese | crates/ledger/src/reports.rs:149-155 | the two names, letter by letter |
| SpikeBatch.Group | spikes/003-throughput-ceiling/main.go:226-234 | accounts in order of first appearance, each once and before the next has appeared at all, each with its own postings in arrival order |
| SpikeBatch.SortInPlace | spikes/003-throughput-ceiling/main.go:235-240 | the in-place insertion sort leaves a strictly ascending permutation |
| SpikeBatch.WalkBack | spikes/003-throughput-ceiling/main.go:271-281 | walking down from the final totals writes the forward fold's rows in reverse |
| SpikeBatch.ANewAccountStartsFromNothing | spikes/003-throughput-ceiling/main.go:248-270 | the first row of an account with no balance is numbered 1 and carries its own amount |
| SpikeBatch.TotalsAreTheWholeMove | spikes/003-throughput-ceiling/main.go:248-270 | one upsert by the totals leaves the balance the postings one by one would |
| SpikeBatch.DoBatch | spikes/003-throughput-ceiling/main.go:226-282 | accounts are locked in strictly ascending order, each balance moves by its whole share, and every row carries the number and the running balance that posting one at a time would give it |
| SpikeBatch.TheWalkWritesWhatOneAtATimeWould | spikes/003-throughput-ceiling/main.go:271-281 | the walk over every account writes the same rows as posting the whole batch in arrival order |

## Left out

- Stripes: every account has one balance row per currency, as with a stripe count of 1; the stripe choice, its affinity and its effect on numbering are not modelled.
- The Postgres adapter's SQL text, row-level security, roles, pools and timeouts, and the migrate, verify and reconcile tools; statements enter by what they do to a book.
- Isolation between brackets: openings, definitions and closes take effect one after another at their commit, apart from the closes of `LateWriters` and `SplitClose`; `Brackets` runs posting brackets beside one another over accounts that stay as they are.
- SerialOrder.BracketsLeaveWhatTheirOrderLeaves: says what the brackets leave in the book; a refusal that comes of an old snapshot, as of a target committed since, is a rollback there, and event ids, transaction ids and the commit position are drawn at the commit rather than when the statement inserts.
- Dispatchers.NoWakeUpIsEverLost: a drain and the baton it hands on are one step, because the baton is handed on under the queue's lock.
- Queue.NobodyWaitsForever: counts drains and says nothing of time; fairness between dispatchers is the runtime's.
- PinnedReads.WhatIsBelowTheHorizonIsSettled: transaction ids are issued one at a time at the bracket's first write and do not run out.
- Constructors.AnOpeningIsLetThroughExactly: metadata is the text of a JSON object, so the constructor's refusal of any other JSON value is not modelled.
- SHA-256 is the canonical bytes themselves, and the RFC 3339 text (section 5.6 of RFC 3339) is an injective, non-empty text of the instant; calendar arithmetic and the time-zone database are not modelled beyond the set of known zones.
- Instants are whole nanoseconds; the rounding a microsecond column would do to them is not modelled. A period shorter than a microsecond can be defined and then never closed, which the model shows as a storage failure of the close.
- JSON payloads and account metadata beyond the bytes that are hashed.
- Text is bytes, and UTF-8 validity is not modelled; white space is the encoded characters of Unicode's White_Space property.
- LateWriters.ACloseIsExactForGoodExactlyWithNobodyOlder: asks for one row an older writer could still write; the row locks a close holds until it commits only delay that writer, which the failing run respects by committing the close first.
- SplitClose.ACloseStoresZerosExactlyWithNobodyOlder: asks for one such row on a temporary account, and for rows under free keys for the sweep to write; an older writer that holds an account's balance row delays the sweep's write to it, not what the sweep read.
- ClaimKnots.StatementsDeadlockExactlyAtAKnot: says which statements can stop each other; the database's own deadlock timeout, which then fails one of them, is not modelled.
- Row ids are natural numbers issued in order rather than random or time-ordered identifiers; ids and entry counters are unbounded. In `RowLocks` and `KeyClaims` an account's id stands for its tenant too, which leads the batched statement's lock order.
- The reports' own aggregates (trial balance, balance sheet, income statement, balance, transaction), chart versions and the tenant check on a read; only the checkpoint reader, the cursor rule and the two listings are modelled.
- Entry and account columns that neither order nor filter a listing.
- SpikeBatch.DoBatch: the spike's 64-bit additions are unchecked there and unbounded here, its accounts compare as numbers where the program compares their fixed-width text, and each upsert is one step.
- axum handlers, wire types, the command line, process exit, `minor_units`, the dashboard and the other spikes: plumbing or easy members.
