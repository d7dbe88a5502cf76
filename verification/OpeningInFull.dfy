/** What opening an account does, in full: every answer it may be given, and everything an
    accepted one stores. */
module OpeningInFull {
  import opened Wrappers
  import opened Bytes
  import opened Accounts
  import opened Port
  import opened Book
  import opened BookInvariants
  import opened Writer
  import opened WriterInvariants

  /** Some account is held by this owner for this purpose in this currency. */
  ghost predicate IsTheirs(b: Book, c: OpenAccount, id: nat)
  {
    id in b.accounts && var held := b.accounts[id].nature;
    held.ownerType == c.ownerType && held.ownerId == c.ownerId && held.purpose == c.purpose && held.currency == c.currency
  }

  /** The answer to an opening, whatever the book: the first of these conditions that holds
      decides it. The House, and only the House, has no owner id; an account type with a
      counterparty per shard may not be the House's. */
  ghost predicate IsTheAnswer(d: Deployment, b: Book, c: OpenAccount, answer: OpenAnswer)
  {
    if c.purpose !in d.chart then answer == Err(OpenAccountError.AccountTypeUnknown(c.purpose))
    else if (c.ownerType == House && c.ownerId.Some?) || (c.ownerType != House && c.ownerId.None?) then
      answer == Err(OpenAccountError.AccountOwnerMismatched(c.ownerType, c.ownerId.Some?))
    else if c.ownerType == House && d.chart[c.purpose].scope == PerShard then answer == Err(OpenAccountError.AccountTypeRequiresAnOwner(c.purpose))
    else if c.idempotencyKey in b.events then
      if b.events[c.idempotencyKey].hash == CanonicalOpen(c) then
        answer.Ok? && answer.value.eventId == b.events[c.idempotencyKey].id && answer.value.replayed && IsTheirs(b, c, answer.value.accountId)
      else answer == Err(OpenAccountError.KeyReused)
    else if exists id :: IsTheirs(b, c, id) then answer == Err(OpenAccountError.AccountExists(c.purpose, c.currency))
    else answer == Ok(AccountOpened(b.nextId, b.nextId + 1, false))
  }

  /** The book with the account in it, under the chart's terms for its type, and nothing
      else changed. */
  ghost predicate IsStored(d: Deployment, b: Book, c: OpenAccount, after: Book)
  {
    var nature := Nature(c.ownerType, c.ownerId, c.purpose, c.currency);
    && c.purpose in d.chart && after.accounts == b.accounts[b.nextId + 1 := Account(nature, d.chart[c.purpose])]
    && after.register == b.register[nature := b.nextId + 1]
    && after.events == b.events[c.idempotencyKey := Event(b.nextId, CanonicalOpen(c))]
    && after.txns == b.txns && after.balances == b.balances && after.periods == b.periods && after.closes == b.closes
    && after.nextId == b.nextId + 2 && after.nextXact == b.nextXact + 1
  }

  lemma TheirsIsRegistered(b: Book, c: OpenAccount)
    requires RegisterIsExact(b.accounts, b.register)
    ensures NatureOf(c) in b.register <==> exists id :: IsTheirs(b, c, id)
    ensures NatureOf(c) in b.register ==> IsTheirs(b, c, b.register[NatureOf(c)])
  {
    if NatureOf(c) in b.register {
      assert IsTheirs(b, c, b.register[NatureOf(c)]);
    }
    if id :| IsTheirs(b, c, id) {
      assert b.accounts[id].nature == NatureOf(c);
    }
  }

  lemma AHeldKeyLeadsToTheirs(b: Book, c: OpenAccount, hash: Text)
    requires ValidStaged(b) && c.WellFormed() && hash == CanonicalOpen(c) && c.idempotencyKey in b.events && b.events[c.idempotencyKey].hash == hash
    ensures NatureOf(c) in b.register
  {
    assert LeadsSomewhere(b.events[c.idempotencyKey], b.txns, b.register, b.periods);
  }

  lemma TheAnswerUnderAHash(d: Deployment, b: Book, c: OpenAccount, hash: Text)
    requires hash == CanonicalOpen(c) && (NatureOf(c) in b.register <==> exists id :: IsTheirs(b, c, id))
    requires NatureOf(c) in b.register ==> IsTheirs(b, c, b.register[NatureOf(c)])
    requires c.idempotencyKey in b.events && b.events[c.idempotencyKey].hash == hash ==> NatureOf(c) in b.register
    ensures IsTheAnswer(d, b, c, OpenOutcome(d, b, c, hash).answer)
  {
  }

  /** Whatever the valid book, an opening is answered by the first condition that holds. */
  lemma AnOpeningIsAnsweredInFull(d: Deployment, b: Book, c: OpenAccount)
    requires ValidStaged(b) && c.WellFormed()
    ensures IsTheAnswer(d, b, c, OpenOutcome(d, b, c, CanonicalOpen(c)).answer)
  {
    var hash := CanonicalOpen(c);
    TheirsIsRegistered(b, c);
    if c.idempotencyKey in b.events && b.events[c.idempotencyKey].hash == hash {
      AHeldKeyLeadsToTheirs(b, c, hash);
    }
    TheAnswerUnderAHash(d, b, c, hash);
  }

  /** An accepted opening stores its account; anything else changes nothing. */
  lemma AnAcceptedOpeningIsStoredInFull(d: Deployment, b: Book, c: OpenAccount)
    requires ValidStaged(b) && c.WellFormed()
    ensures var o := OpenOutcome(d, b, c, CanonicalOpen(c));
            if o.answer.Ok? && !o.answer.value.replayed then IsStored(d, b, c, o.book) else o.book == b
  {
    WhatAnOpeningMeans(d, b, c);
  }
}
