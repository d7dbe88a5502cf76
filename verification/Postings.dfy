/** The posting math: what the writer computes before its statement runs. Legs,
    coalesced deltas, each leg's offset back from its account's counter. */
module Postings {
  import opened Wrappers
  import opened Bytes
  import opened Domain

  datatype Direction = Debit | Credit
  {
    function Flipped(): Direction
    {
      if Debit? then Credit else Debit
    }
  }

  /** What a balance row is keyed by, and a delta coalesced on. */
  datatype Key = Key(account: nat, currency: Text)
  {
    /** A `BTreeMap`'s order over these keys: account first, then currency. */
    function Rank(): seq<int>
    {
      [account] + currency
    }
  }

  datatype Leg = Leg(account: nat, currency: Text, direction: Direction, amountMinor: int)
  {
    /** The balance row it lands on. */
    function Row(): Key { Key(account, currency) }

    function Flipped(): Leg { this.(direction := direction.Flipped()) }
  }

  datatype Delta = Delta(input: int, output: int, legs: nat)

  datatype Overflow = Overflow

  // ---- what a run of legs amounts to -----------------------------------

  /** The total of one side of one key. */
  function Total(legs: seq<Leg>, key: Key, direction: Direction): int
  {
    if legs == [] then 0 else
    var last := legs[|legs| - 1];
    Total(legs[..|legs| - 1], key, direction)
      + if last.Row() == key && last.direction == direction then last.amountMinor else 0
  }

  /** How many legs land on one key. */
  function Count(legs: seq<Leg>, key: Key): nat
  {
    if legs == [] then 0 else
    Count(legs[..|legs| - 1], key) + if legs[|legs| - 1].Row() == key then 1 else 0
  }

  function KeysOf(legs: seq<Leg>): set<Key>
  {
    set i | 0 <= i < |legs| :: legs[i].Row()
  }

  function DeltaOf(legs: seq<Leg>, key: Key): Delta
  {
    Delta(Total(legs, key, Debit), Total(legs, key, Credit), Count(legs, key))
  }

  /** The coalesced deltas. */
  function Deltas(legs: seq<Leg>): (deltas: map<Key, Delta>)
    ensures deltas.Keys == KeysOf(legs)
  {
    map key | key in KeysOf(legs) :: DeltaOf(legs, key)
  }

  predicate AllPositive(legs: seq<Leg>)
  {
    forall i :: 0 <= i < |legs| ==> 0 < legs[i].amountMinor < I64_LIMIT
  }

  /** Some side of some account cannot be held in 64-bit minor units. */
  ghost predicate Overflows(legs: seq<Leg>)
  {
    exists key, direction :: Total(legs, key, direction) >= I64_LIMIT
  }

  lemma {:induction false} TotalConcat(a: seq<Leg>, b: seq<Leg>, key: Key, direction: Direction)
    ensures Total(a + b, key, direction) == Total(a, key, direction) + Total(b, key, direction)
    decreases |b|
  {
    if b == [] {
      assert a + b == a;
    } else {
      TotalConcat(a, b[..|b| - 1], key, direction);
      assert (a + b)[..|a + b| - 1] == a + b[..|b| - 1];
    }
  }

  lemma {:induction false} CountConcat(a: seq<Leg>, b: seq<Leg>, key: Key)
    ensures Count(a + b, key) == Count(a, key) + Count(b, key)
    decreases |b|
  {
    if b == [] {
      assert a + b == a;
    } else {
      CountConcat(a, b[..|b| - 1], key);
      assert (a + b)[..|a + b| - 1] == a + b[..|b| - 1];
    }
  }

  lemma {:induction false} TotalsAreNotNegative(legs: seq<Leg>, key: Key, direction: Direction)
    requires AllPositive(legs)
    ensures Total(legs, key, direction) >= 0
    decreases |legs|
  {
    if legs != [] {
      TotalsAreNotNegative(legs[..|legs| - 1], key, direction);
    }
  }

  lemma {:induction false} UntouchedKeysHaveNothing(legs: seq<Leg>, key: Key)
    requires key !in KeysOf(legs)
    ensures DeltaOf(legs, key) == Delta(0, 0, 0)
    decreases |legs|
  {
    if legs != [] {
      var n := |legs| - 1;
      assert legs[n].Row() in KeysOf(legs);
      forall k | k in KeysOf(legs[..n]) ensures k in KeysOf(legs) {
        var i :| 0 <= i < n && legs[..n][i].Row() == k;
        assert legs[i].Row() == k;
      }
      UntouchedKeysHaveNothing(legs[..n], key);
    }
  }

  lemma KeysConcat(a: seq<Leg>, b: seq<Leg>)
    ensures KeysOf(a + b) == KeysOf(a) + KeysOf(b)
  {
    forall k | k in KeysOf(a) + KeysOf(b) ensures k in KeysOf(a + b) {
      if k in KeysOf(a) {
        var i :| 0 <= i < |a| && a[i].Row() == k;
        assert (a + b)[i].Row() == k;
      } else {
        var i :| 0 <= i < |b| && b[i].Row() == k;
        assert (a + b)[|a| + i].Row() == k;
      }
    }
  }

  // ---- expansion -------------------------------------------------------

  /** A posting leaves its source as a credit and arrives as a debit. */
  function LegsOfPosting(p: Posting): (legs: seq<Leg>)
    ensures |legs| == 2
  {
    [Leg(p.source, p.currency, Credit, p.amountMinor), Leg(p.destination, p.currency, Debit, p.amountMinor)]
  }

  function LegsOf(postings: seq<Posting>): seq<Leg>
  {
    if postings == [] then [] else LegsOf(postings[..|postings| - 1]) + LegsOfPosting(postings[|postings| - 1])
  }

  method ExpandPostings(postings: seq<Posting>) returns (legs: seq<Leg>)
    ensures legs == LegsOf(postings)
  {
    legs := [];
    for i := 0 to |postings|
      invariant legs == LegsOf(postings[..i])
    {
      assert postings[..i + 1][..i] == postings[..i];
      legs := legs + [Leg(postings[i].source, postings[i].currency, Credit, postings[i].amountMinor)];
      legs := legs + [Leg(postings[i].destination, postings[i].currency, Debit, postings[i].amountMinor)];
    }
    assert postings[..|postings|] == postings;
  }

  lemma {:induction false} LegsOfPostingsArePositive(postings: seq<Posting>)
    requires forall i :: 0 <= i < |postings| ==> postings[i].WellFormed()
    ensures AllPositive(LegsOf(postings))
    decreases |postings|
  {
    if postings != [] {
      LegsOfPostingsArePositive(postings[..|postings| - 1]);
    }
  }

  // ---- coalescing ------------------------------------------------------

  /** `coalesce`: one checked addition per leg. The first that does not fit
      refuses the whole set. */
  method Coalesce(legs: seq<Leg>) returns (deltas: Result<map<Key, Delta>, Overflow>)
    requires AllPositive(legs)
    ensures deltas.Err? <==> Overflows(legs)
    ensures deltas.Ok? ==> deltas.value == Deltas(legs)
  {
    var soFar: map<Key, Delta> := map[];
    for i := 0 to |legs|
      invariant soFar == Deltas(legs[..i])
      invariant !Overflows(legs[..i])
    {
      var leg := legs[i];
      var delta := if leg.Row() in soFar then soFar[leg.Row()] else Delta(0, 0, 0);
      OneMoreLeg(legs, i);
      var side := if leg.direction == Debit then delta.input else delta.output;
      if side + leg.amountMinor >= I64_LIMIT {
        return Err(Overflow);
      }
      side := side + leg.amountMinor;
      delta := if leg.direction == Debit then delta.(input := side) else delta.(output := side);
      soFar := soFar[leg.Row() := delta.(legs := delta.legs + 1)];
    }
    assert legs[..|legs|] == legs;
    return Ok(soFar);
  }

  /** A delta with one more leg on it. */
  function Moved(delta: Delta, leg: Leg): Delta
  {
    if leg.direction == Debit then Delta(delta.input + leg.amountMinor, delta.output, delta.legs + 1)
    else Delta(delta.input, delta.output + leg.amountMinor, delta.legs + 1)
  }

  /** One more leg moves one side of one delta, and overflows the whole set exactly
      when it overflows that side. */
  lemma OneMoreLeg(legs: seq<Leg>, i: nat)
    requires i < |legs| && AllPositive(legs) && !Overflows(legs[..i])
    ensures var leg, before := legs[i], Deltas(legs[..i]);
            var delta := if leg.Row() in before then before[leg.Row()] else Delta(0, 0, 0);
            var side := if leg.direction == Debit then delta.input else delta.output;
            && Deltas(legs[..i + 1]) == before[leg.Row() := Moved(delta, leg)]
            && (side + leg.amountMinor < I64_LIMIT ==> !Overflows(legs[..i + 1]))
            && (side + leg.amountMinor >= I64_LIMIT ==> Overflows(legs))
  {
    var leg, before, after := legs[i], legs[..i], legs[..i + 1];
    assert after == before + [leg];
    DeltasOneMore(before, after, leg);
    if leg.Row() !in KeysOf(before) {
      UntouchedKeysHaveNothing(before, leg.Row());
    }
    var side := Total(before, leg.Row(), leg.direction);
    if side + leg.amountMinor < I64_LIMIT {
      StillFits(before, after, leg);
    } else {
      assert after[..i] == before;
      assert legs == after + legs[i + 1..];
      TotalConcat(after, legs[i + 1..], leg.Row(), leg.direction);
      TotalsAreNotNegative(legs[i + 1..], leg.Row(), leg.direction);
      assert Total(legs, leg.Row(), leg.direction) >= I64_LIMIT;
    }
  }

  lemma DeltasOneMore(before: seq<Leg>, after: seq<Leg>, leg: Leg)
    requires after == before + [leg]
    ensures Deltas(after) == Deltas(before)[leg.Row() := Moved(DeltaOf(before, leg.Row()), leg)]
  {
    assert after[..|before|] == before;
    KeysConcat(before, [leg]);
    assert KeysOf([leg]) == {leg.Row()} by {
      assert [leg][0].Row() == leg.Row();
    }
    forall key | key in KeysOf(before) && key != leg.Row() ensures DeltaOf(after, key) == DeltaOf(before, key) {
    }
  }

  lemma StillFits(before: seq<Leg>, after: seq<Leg>, leg: Leg)
    requires !Overflows(before) && after == before + [leg]
    requires Total(before, leg.Row(), leg.direction) + leg.amountMinor < I64_LIMIT
    ensures !Overflows(after)
  {
    forall key, direction ensures Total(after, key, direction) < I64_LIMIT {
      assert Total(before, key, direction) < I64_LIMIT;
      assert after[..|before|] == before;
    }
  }

  /** Neither the verdict nor the deltas depend on the order legs arrive in. */
  lemma CoalescingIgnoresOrder(a: seq<Leg>, b: seq<Leg>)
    requires multiset(a) == multiset(b)
    ensures Overflows(a) <==> Overflows(b)
    ensures Deltas(a) == Deltas(b)
  {
    forall key, direction ensures Total(a, key, direction) == Total(b, key, direction) && Count(a, key) == Count(b, key) {
      TotalsIgnoreOrder(a, b, key, direction);
    }
    forall key ensures key in KeysOf(a) <==> key in KeysOf(b) {
      SameLegsSameKeys(a, b, key);
      SameLegsSameKeys(b, a, key);
    }
  }

  lemma SameLegsSameKeys(a: seq<Leg>, b: seq<Leg>, key: Key)
    requires multiset(a) == multiset(b)
    ensures key in KeysOf(a) ==> key in KeysOf(b)
  {
    if key in KeysOf(a) {
      var i :| 0 <= i < |a| && a[i].Row() == key;
      assert a[i] in multiset(b);
      var j :| 0 <= j < |b| && b[j] == a[i];
      assert b[j].Row() == key;
    }
  }

  lemma {:induction false} TotalsIgnoreOrder(a: seq<Leg>, b: seq<Leg>, key: Key, direction: Direction)
    requires multiset(a) == multiset(b)
    ensures Total(a, key, direction) == Total(b, key, direction) && Count(a, key) == Count(b, key)
    decreases |a|
  {
    if a == [] {
      assert |multiset(b)| == |b|;
    } else {
      var n := |a| - 1;
      assert a == a[..n] + [a[n]];
      assert a[n] in multiset(b);
      var j :| 0 <= j < |b| && b[j] == a[n];
      WithoutOne(b, j, key, direction);
      WithoutOne(a, n, key, direction);
      assert a[..n] + a[n + 1..] == a[..n];
      TotalsIgnoreOrder(a[..n], b[..j] + b[j + 1..], key, direction);
    }
  }

  /** Taking one leg out, wherever it sits. */
  lemma WithoutOne(legs: seq<Leg>, i: nat, key: Key, direction: Direction)
    requires i < |legs|
    ensures multiset(legs[..i] + legs[i + 1..]) == multiset(legs) - multiset{legs[i]}
    ensures Total(legs, key, direction) == Total(legs[..i] + legs[i + 1..], key, direction) + Total([legs[i]], key, direction)
    ensures Count(legs, key) == Count(legs[..i] + legs[i + 1..], key) + Count([legs[i]], key)
  {
    var before, one, after := legs[..i], [legs[i]], legs[i + 1..];
    assert legs == before + (one + after);
    TotalConcat(before, one + after, key, direction);
    TotalConcat(one, after, key, direction);
    TotalConcat(before, after, key, direction);
    CountConcat(before, one + after, key);
    CountConcat(one, after, key);
    CountConcat(before, after, key);
  }

  /** Two runs of legs coalesce to the sum of what each coalesces to. */
  lemma DeltasAreAdditive(a: seq<Leg>, b: seq<Leg>, key: Key)
    ensures DeltaOf(a + b, key) == Delta(DeltaOf(a, key).input + DeltaOf(b, key).input,
                                         DeltaOf(a, key).output + DeltaOf(b, key).output,
                                         DeltaOf(a, key).legs + DeltaOf(b, key).legs)
  {
    TotalConcat(a, b, key, Debit);
    TotalConcat(a, b, key, Credit);
    CountConcat(a, b, key);
  }

  function Mirrored(legs: seq<Leg>): (mirror: seq<Leg>)
    ensures |mirror| == |legs|
  {
    seq(|legs|, i requires 0 <= i < |legs| => legs[i].Flipped())
  }

  /** Flipping every leg swaps every delta's sides and keeps its count. */
  lemma {:induction false} MirroringSwapsTheSides(legs: seq<Leg>, key: Key)
    ensures DeltaOf(Mirrored(legs), key) == Delta(DeltaOf(legs, key).output, DeltaOf(legs, key).input, DeltaOf(legs, key).legs)
    decreases |legs|
  {
    if legs != [] {
      var n := |legs| - 1;
      MirroringSwapsTheSides(legs[..n], key);
      assert Mirrored(legs)[..n] == Mirrored(legs[..n]);
    }
  }

  // ---- balance per currency --------------------------------------------

  /** The total of one side over every account holding one currency. */
  function CurrencyTotal(legs: seq<Leg>, currency: Text, direction: Direction): int
  {
    if legs == [] then 0 else
    var last := legs[|legs| - 1];
    CurrencyTotal(legs[..|legs| - 1], currency, direction)
      + if last.currency == currency && last.direction == direction then last.amountMinor else 0
  }

  ghost predicate Balanced(legs: seq<Leg>)
  {
    forall currency :: CurrencyTotal(legs, currency, Debit) == CurrencyTotal(legs, currency, Credit)
  }

  lemma {:induction false} CurrencyTotalConcat(a: seq<Leg>, b: seq<Leg>, currency: Text, direction: Direction)
    ensures CurrencyTotal(a + b, currency, direction) == CurrencyTotal(a, currency, direction) + CurrencyTotal(b, currency, direction)
    decreases |b|
  {
    if b == [] {
      assert a + b == a;
    } else {
      CurrencyTotalConcat(a, b[..|b| - 1], currency, direction);
      assert (a + b)[..|a + b| - 1] == a + b[..|b| - 1];
    }
  }

  lemma BalancedConcat(a: seq<Leg>, b: seq<Leg>)
    requires Balanced(a) && Balanced(b)
    ensures Balanced(a + b)
  {
    forall currency ensures CurrencyTotal(a + b, currency, Debit) == CurrencyTotal(a + b, currency, Credit) {
      CurrencyTotalConcat(a, b, currency, Debit);
      CurrencyTotalConcat(a, b, currency, Credit);
    }
  }

  lemma PairIsBalanced(first: Leg, second: Leg)
    requires first.currency == second.currency && first.amountMinor == second.amountMinor
    requires first.direction != second.direction
    ensures Balanced([first, second])
  {
    forall currency ensures CurrencyTotal([first, second], currency, Debit) == CurrencyTotal([first, second], currency, Credit) {
      assert [first, second] == [first] + [second];
      CurrencyTotalConcat([first], [second], currency, Debit);
      CurrencyTotalConcat([first], [second], currency, Credit);
      assert CurrencyTotal([first][..0], currency, Debit) == 0 == CurrencyTotal([first][..0], currency, Credit);
    }
  }

  /** Postings cannot express an unbalanced transaction. */
  lemma {:induction false} LegsOfPostingsBalance(postings: seq<Posting>)
    ensures Balanced(LegsOf(postings))
    decreases |postings|
  {
    if postings != [] {
      var n := |postings| - 1;
      LegsOfPostingsBalance(postings[..n]);
      var pair := LegsOfPosting(postings[n]);
      PairIsBalanced(pair[0], pair[1]);
      BalancedConcat(LegsOf(postings[..n]), pair);
    }
  }

  lemma {:induction false} MirrorCurrencyTotal(legs: seq<Leg>, currency: Text, direction: Direction)
    ensures CurrencyTotal(Mirrored(legs), currency, direction) == CurrencyTotal(legs, currency, direction.Flipped())
    decreases |legs|
  {
    if legs != [] {
      var n := |legs| - 1;
      MirrorCurrencyTotal(legs[..n], currency, direction);
      assert Mirrored(legs)[..n] == Mirrored(legs[..n]);
    }
  }

  lemma MirrorBalances(legs: seq<Leg>)
    requires Balanced(legs)
    ensures Balanced(Mirrored(legs))
  {
    forall currency ensures CurrencyTotal(Mirrored(legs), currency, Debit) == CurrencyTotal(Mirrored(legs), currency, Credit) {
      MirrorCurrencyTotal(legs, currency, Debit);
      MirrorCurrencyTotal(legs, currency, Credit);
    }
  }

  // ---- numbering -------------------------------------------------------

  /** How many later legs share leg `i`'s key. */
  function OffsetAt(legs: seq<Leg>, i: nat): nat
    requires i < |legs|
  {
    Count(legs[i + 1..], legs[i].Row())
  }

  /** `offsets_back_from_last_seq`: a backwards pass over the legs, counting as it
      goes, and the collected offsets turned round at the end. */
  method OffsetsBackFromLastSeq(legs: seq<Leg>) returns (offsets: seq<nat>)
    ensures |offsets| == |legs|
    ensures forall i :: 0 <= i < |legs| ==> offsets[i] == OffsetAt(legs, i)
  {
    var laterLegs: map<Key, nat> := map[];
    var backwards: seq<nat> := [];
    var i := |legs|;
    while i > 0
      invariant 0 <= i <= |legs| && |backwards| == |legs| - i
      invariant forall key :: (if key in laterLegs then laterLegs[key] else 0) == Count(legs[i..], key)
      invariant forall j :: i <= j < |legs| ==> backwards[|legs| - 1 - j] == OffsetAt(legs, j)
    {
      i := i - 1;
      var key := legs[i].Row();
      var count := if key in laterLegs then laterLegs[key] else 0;
      backwards := backwards + [count];
      OneMoreBehind(legs, i);
      laterLegs := laterLegs[key := count + 1];
    }
    offsets := seq(|legs|, j requires 0 <= j < |legs| => backwards[|legs| - 1 - j]);
  }

  lemma OneMoreBehind(legs: seq<Leg>, i: nat)
    requires i < |legs|
    ensures forall key :: Count(legs[i..], key) == Count(legs[i + 1..], key) + if legs[i].Row() == key then 1 else 0
  {
    forall key ensures Count(legs[i..], key) == Count(legs[i + 1..], key) + if legs[i].Row() == key then 1 else 0 {
      assert legs[i..] == [legs[i]] + legs[i + 1..];
      CountConcat([legs[i]], legs[i + 1..], key);
      assert [legs[i]][..0] == [];
    }
  }

  function Counter(counters: map<Key, nat>, key: Key): nat
  {
    if key in counters then counters[key] else 0
  }

  /** What posting the legs one at a time would issue: each takes its account's
      next number. */
  function IssuedOneAtATime(counters: map<Key, nat>, legs: seq<Leg>): (numbers: seq<nat>)
    ensures |numbers| == |legs|
    decreases |legs|
  {
    if legs == [] then [] else
    var next := Counter(counters, legs[0].Row()) + 1;
    [next] + IssuedOneAtATime(counters[legs[0].Row() := next], legs[1..])
  }

  lemma {:induction false} OneAtATimeCountsThePrefix(counters: map<Key, nat>, legs: seq<Leg>, i: nat)
    requires i < |legs|
    ensures IssuedOneAtATime(counters, legs)[i] == Counter(counters, legs[i].Row()) + Count(legs[..i], legs[i].Row()) + 1
    decreases |legs|
  {
    var next := Counter(counters, legs[0].Row()) + 1;
    if i > 0 {
      OneAtATimeCountsThePrefix(counters[legs[0].Row() := next], legs[1..], i - 1);
      assert legs[..i] == [legs[0]] + legs[1..][..i - 1];
      CountConcat([legs[0]], legs[1..][..i - 1], legs[i].Row());
      assert [legs[0]][..0] == [];
    }
  }

  /** A leg's row counts the legs before it, itself and the legs after it. */
  lemma ALegsRowIsCounted(legs: seq<Leg>, i: nat)
    requires i < |legs|
    ensures Count(legs, legs[i].Row()) == Count(legs[..i], legs[i].Row()) + 1 + OffsetAt(legs, i)
  {
    var key := legs[i].Row();
    assert legs == legs[..i] + ([legs[i]] + legs[i + 1..]);
    CountConcat(legs[..i], [legs[i]] + legs[i + 1..], key);
    CountConcat([legs[i]], legs[i + 1..], key);
    assert [legs[i]][..0] == [];
  }

  /** The walk-back numbers every leg as one-at-a-time posting would: the counter
      the upsert returned, less the offset, however the accounts interleave. */
  lemma WalkBackNumbersSequentially(counters: map<Key, nat>, legs: seq<Leg>, i: nat)
    requires i < |legs|
    ensures (if legs[i].Row() in counters then counters[legs[i].Row()] else 0) + Count(legs, legs[i].Row()) - OffsetAt(legs, i)
         == IssuedOneAtATime(counters, legs)[i]
  {
    OneAtATimeCountsThePrefix(counters, legs, i);
    ALegsRowIsCounted(legs, i);
  }

  // ---- the planned append ----------------------------------------------

  datatype Append = Append(legs: seq<Leg>, seqOffsets: seq<nat>, deltas: map<Key, Delta>)

  /** What the cache accumulates from a delta: nothing, while pending. */
  function Cached(delta: Delta, status: TransactionStatus): Delta
  {
    if status.Pending? then Delta(0, 0, delta.legs) else delta
  }

  ghost predicate IsPlanFor(append: Append, postings: seq<Posting>, status: TransactionStatus)
  {
    && append.legs == LegsOf(postings)
    && |append.seqOffsets| == |append.legs|
    && (forall i :: 0 <= i < |append.legs| ==> append.seqOffsets[i] == OffsetAt(append.legs, i))
    && append.deltas.Keys == KeysOf(append.legs)
    && forall key :: key in append.deltas ==> append.deltas[key] == Cached(DeltaOf(append.legs, key), status)
  }

  /** `plan_append`: overflow is refused before the withholding, so a pending set
      that could not post is refused now. */
  method PlanAppend(postings: seq<Posting>, status: TransactionStatus) returns (plan: Result<Append, Overflow>)
    requires forall i :: 0 <= i < |postings| ==> postings[i].WellFormed()
    ensures Overflows(LegsOf(postings)) ==> plan == Err(Overflow)
    ensures !Overflows(LegsOf(postings)) ==> plan.Ok? && IsPlanFor(plan.value, postings, status)
  {
    LegsOfPostingsArePositive(postings);
    var legs := ExpandPostings(postings);
    var coalesced := Coalesce(legs);
    if coalesced.Err? {
      return Err(Overflow);
    }
    var deltas := coalesced.value;
    if status == Pending {
      deltas := map key | key in deltas :: deltas[key].(input := 0, output := 0);
    }
    var offsets := OffsetsBackFromLastSeq(legs);
    return Ok(Append(legs, offsets, deltas));
  }
}
