/** What defining a period does, in full: every answer it may be given, and everything an
    accepted one stores. */
module DefinitionInFull {
  import opened Wrappers
  import opened Bytes
  import opened Domain
  import opened Periods
  import opened Port
  import opened Book
  import opened BookInvariants
  import opened Writer
  import opened WriterInvariants
  import PostingInFull

  predicate IsInside(period: Period, at: Instant)
  {
    period.startsAt <= at < period.endsAt
  }

  /** The asked period, and some stored one, hold this instant. */
  predicate IsContested(b: Book, c: DefinePeriod, code: Text, at: Instant)
  {
    code in b.periods && IsInside(b.periods[code], at) && c.startsAt.utc <= at < c.endsAt.utc
  }

  /** It has a text in UTC, for the hash, and at the offset it was written at, for the
      payload. */
  predicate HasBothTexts(at: OffsetDateTime)
  {
    -62_167_219_200_000_000_000 <= at.utc < 253_402_300_800_000_000_000 && PostingInFull.HasAText(at)
  }

  /** The answer to a definition, whatever the book: the first of these conditions that
      holds decides it. */
  ghost predicate IsTheAnswer(d: Deployment, b: Book, c: DefinePeriod, answer: DefineAnswer)
  {
    if !HasBothTexts(c.startsAt) || !HasBothTexts(c.endsAt) then answer == Err(DefinePeriodError.Internal)
    else if c.idempotencyKey in b.events then
      if CanonicalDefine(c) == Some(b.events[c.idempotencyKey].hash) then
        answer == Ok(PeriodDefined(b.events[c.idempotencyKey].id, Period(c.code, c.startsAt.utc, c.endsAt.utc, c.tz), true))
      else answer == Err(DefinePeriodError.KeyReused)
    else if c.tz !in d.zones then answer == Err(PeriodZoneUnknown(c.tz))
    else if c.code in b.periods then answer == Err(PeriodExists(c.code))
    else if exists code, at :: IsContested(b, c, code, at) then answer == Err(PeriodOverlaps(c.code))
    else answer == Ok(PeriodDefined(b.nextId, Period(c.code, c.startsAt.utc, c.endsAt.utc, c.tz), false))
  }

  ghost predicate IsStored(b: Book, c: DefinePeriod, after: Book)
  {
    && CanonicalDefine(c).Some? && after.events == b.events[c.idempotencyKey := Event(b.nextId, CanonicalDefine(c).value)]
    && after.periods == b.periods[c.code := Period(c.code, c.startsAt.utc, c.endsAt.utc, c.tz)]
    && after.accounts == b.accounts && after.register == b.register && after.txns == b.txns && after.balances == b.balances
    && after.closes == b.closes && after.nextId == b.nextId + 1 && after.nextXact == b.nextXact + 1
  }

  lemma OverlapIsASharedInstant(a: Period, b: Period)
    requires a.startsAt < a.endsAt && b.startsAt < b.endsAt
    ensures Overlap(a, b) <==> exists at :: IsInside(a, at) && IsInside(b, at)
  {
    if Overlap(a, b) {
      var at := if a.startsAt < b.startsAt then b.startsAt else a.startsAt;
      assert IsInside(a, at) && IsInside(b, at);
    }
  }

  lemma OverlappingIsContested(b: Book, c: DefinePeriod)
    requires PeriodsAreSound(b.periods) && c.WellFormed()
    ensures OverlapsAnother(b, PeriodOf(c)) <==> exists code, at :: IsContested(b, c, code, at)
  {
    if OverlapsAnother(b, PeriodOf(c)) {
      var code :| code in b.periods && Overlap(b.periods[code], PeriodOf(c));
      OverlapIsASharedInstant(b.periods[code], PeriodOf(c));
      var at :| IsInside(b.periods[code], at) && IsInside(PeriodOf(c), at);
      assert IsContested(b, c, code, at);
    }
    if code, at :| IsContested(b, c, code, at) {
      OverlapIsASharedInstant(b.periods[code], PeriodOf(c));
      assert IsInside(b.periods[code], at) && IsInside(PeriodOf(c), at);
    }
  }

  lemma AFreeKeysAnswer(d: Deployment, b: Book, c: DefinePeriod, hash: Text)
    requires c.idempotencyKey !in b.events && c.PayloadRenders()
    ensures DefineOutcome(d, b, c, Some(hash)).answer
         == if c.tz !in d.zones then Err(PeriodZoneUnknown(c.tz))
            else if c.code in b.periods then Err(PeriodExists(c.code))
            else if OverlapsAnother(b, PeriodOf(c)) then Err(PeriodOverlaps(c.code))
            else Ok(PeriodDefined(b.nextId, PeriodOf(c), false))
  {
  }

  lemma AHeldKeysAnswer(d: Deployment, b: Book, c: DefinePeriod)
    requires ValidStaged(b) && c.WellFormed() && c.idempotencyKey in b.events && CanonicalDefine(c).Some? && c.PayloadRenders()
    ensures IsTheAnswer(d, b, c, DefineOutcome(d, b, c, CanonicalDefine(c)).answer)
  {
    assert LeadsSomewhere(b.events[c.idempotencyKey], b.txns, b.register, b.periods);
  }

  /** Whatever the valid book, a definition is answered by the first condition that holds. */
  lemma ADefinitionIsAnsweredInFull(d: Deployment, b: Book, c: DefinePeriod)
    requires ValidStaged(b) && c.WellFormed()
    ensures IsTheAnswer(d, b, c, DefineOutcome(d, b, c, CanonicalDefine(c)).answer)
  {
    if CanonicalDefine(c).Some? && c.PayloadRenders() {
      if c.idempotencyKey in b.events {
        AHeldKeysAnswer(d, b, c);
      } else {
        AFreeKeysAnswer(d, b, c, CanonicalDefine(c).value);
        OverlappingIsContested(b, c);
      }
    }
  }

  /** An accepted definition stores its period; anything else changes nothing. */
  lemma AnAcceptedDefinitionIsStoredInFull(d: Deployment, b: Book, c: DefinePeriod)
    requires ValidStaged(b) && c.WellFormed()
    ensures var o := DefineOutcome(d, b, c, CanonicalDefine(c));
            if o.answer.Ok? && !o.answer.value.replayed then IsStored(b, c, o.book) else o.book == b
  {
    WhatADefinitionMeans(d, b, c);
  }

  /** In a valid book no instant is in two stored periods, and every stored one has some. */
  lemma NoInstantIsInTwoPeriods(b: Book, one: Text, other: Text, at: Instant)
    requires ValidStaged(b) && one in b.periods && other in b.periods && IsInside(b.periods[one], at) && IsInside(b.periods[other], at)
    ensures one == other
    ensures forall code :: code in b.periods ==> b.periods[code].startsAt < b.periods[code].endsAt
  {
    OverlapIsASharedInstant(b.periods[one], b.periods[other]);
  }
}
