/** The words the operations are described in when they are described in full: sums over
    a command's postings and a transaction's entries, and what a balance row holds. None of
    the writer's own definitions is among them. */
module InFull {
  import opened Wrappers
  import opened Bytes
  import opened Domain
  import opened Postings
  import opened KeyOrder
  import opened Book
  import opened BookInvariants
  import Order

  /** The least amount 64 signed bits cannot hold. */
  const TOO_LARGE := 9_223_372_036_854_775_808

  // ---- sums ------------------------------------------------------------

  /** What the postings take out of one account in one currency. */
  function TakenOut(postings: seq<Posting>, account: nat, currency: Text): int
  {
    if postings == [] then 0 else
    var p := postings[|postings| - 1];
    TakenOut(postings[..|postings| - 1], account, currency) + if p.source == account && p.currency == currency then p.amountMinor else 0
  }

  /** And what they put into it. */
  function PutIn(postings: seq<Posting>, account: nat, currency: Text): int
  {
    if postings == [] then 0 else
    var p := postings[|postings| - 1];
    PutIn(postings[..|postings| - 1], account, currency) + if p.destination == account && p.currency == currency then p.amountMinor else 0
  }

  /** One side of one account, over some entries. */
  function Entered(entries: seq<Entry>, account: nat, currency: Text, direction: Direction): int
  {
    if entries == [] then 0 else
    var leg := entries[|entries| - 1].leg;
    Entered(entries[..|entries| - 1], account, currency, direction)
      + if leg.account == account && leg.currency == currency && leg.direction == direction then leg.amountMinor else 0
  }

  function InputOf(balances: map<Key, Balance>, account: nat, currency: Text): int
  {
    if Key(account, currency) in balances then balances[Key(account, currency)].input else 0
  }

  function OutputOf(balances: map<Key, Balance>, account: nat, currency: Text): int
  {
    if Key(account, currency) in balances then balances[Key(account, currency)].output else 0
  }

  function CounterOf(balances: map<Key, Balance>, account: nat, currency: Text): int
  {
    if Key(account, currency) in balances then balances[Key(account, currency)].lastSeq else 0
  }

  /** An account, and it holds the currency. */
  predicate IsAnAccount(b: Book, account: nat, currency: Text)
  {
    account in b.accounts && b.accounts[account].nature.currency == currency
  }

  /** Bytes compared left to right, a prefix before what it begins. */
  predicate BytesBefore(a: seq<int>, b: seq<int>)
  {
    b != [] && (a == [] || a[0] < b[0] || (a[0] == b[0] && BytesBefore(a[1..], b[1..])))
  }

  /** Account first, then the currency's bytes. */
  predicate ComesBefore(account: nat, currency: Text, other: nat, otherCurrency: Text)
  {
    account < other || (account == other && BytesBefore(currency, otherCurrency))
  }

  // ---- which transaction -----------------------------------------------

  predicate IsAt(txns: seq<Txn>, id: nat, i: nat)
  {
    i < |txns| && txns[i].id == id
  }

  /** Some transaction resolves or reverses it already. */
  predicate IsTaken(txns: seq<Txn>, id: nat)
  {
    exists i :: 0 <= i < |txns| && (txns[i].resolvesId == Some(id) || txns[i].reversesId == Some(id))
  }

  // ---- the writer's own sums are these ---------------------------------

  lemma {:induction false} LegsTotalWhatPostingsMove(postings: seq<Posting>, account: nat, currency: Text)
    ensures Total(LegsOf(postings), Key(account, currency), Credit) == TakenOut(postings, account, currency)
    ensures Total(LegsOf(postings), Key(account, currency), Debit) == PutIn(postings, account, currency)
    decreases |postings|
  {
    if postings != [] {
      var front, p := postings[..|postings| - 1], postings[|postings| - 1];
      LegsTotalWhatPostingsMove(front, account, currency);
      var legs, row := LegsOfPosting(p), Key(account, currency);
      TotalConcat(LegsOf(front), legs, row, Credit);
      TotalConcat(LegsOf(front), legs, row, Debit);
      TwoLegsTotal(legs, row);
    }
  }

  lemma TwoLegsTotal(legs: seq<Leg>, row: Key)
    requires |legs| == 2
    ensures forall direction :: Total(legs, row, direction) == OneLegsTotal(legs[0], row, direction) + OneLegsTotal(legs[1], row, direction)
  {
    assert legs[..1] == [legs[0]] && legs[..1][..0] == [];
    forall direction ensures Total(legs[..1], row, direction) == OneLegsTotal(legs[0], row, direction) {
      assert Total(legs[..1][..0], row, direction) == 0;
    }
  }

  function OneLegsTotal(leg: Leg, row: Key, direction: Direction): int
  {
    if leg.Row() == row && leg.direction == direction then leg.amountMinor else 0
  }

  lemma {:induction false} LegsTotalWhatIsEntered(entries: seq<Entry>, account: nat, currency: Text, direction: Direction)
    ensures Total(LegsIn(entries), Key(account, currency), direction) == Entered(entries, account, currency, direction)
    decreases |entries|
  {
    if entries != [] {
      LegsTotalWhatIsEntered(entries[..|entries| - 1], account, currency, direction);
      assert LegsIn(entries)[..|entries| - 1] == LegsIn(entries[..|entries| - 1]);
    }
  }

  /** Each posting is two legs, a credit of its source and then a debit of its
      destination. */
  lemma {:induction false} EachPostingIsTwoLegs(postings: seq<Posting>, k: nat)
    requires k < |postings|
    ensures |LegsOf(postings)| == 2 * |postings|
    ensures LegsOf(postings)[2 * k] == Leg(postings[k].source, postings[k].currency, Credit, postings[k].amountMinor)
    ensures LegsOf(postings)[2 * k + 1] == Leg(postings[k].destination, postings[k].currency, Debit, postings[k].amountMinor)
    decreases |postings|
  {
    var n := |postings| - 1;
    if n > 0 {
      EachPostingIsTwoLegs(postings[..n], if k < n then k else 0);
    }
    assert LegsOfPosting(postings[n]) == [LegsOf(postings)[2 * n], LegsOf(postings)[2 * n + 1]];
  }

  lemma TheRowHolds(balances: map<Key, Balance>, account: nat, currency: Text)
    ensures BalanceOn(balances, Key(account, currency))
         == Balance(InputOf(balances, account, currency), OutputOf(balances, account, currency), CounterOf(balances, account, currency))
  {
  }

  lemma {:induction false} BytesBeforeIsLess(a: seq<int>, b: seq<int>)
    ensures BytesBefore(a, b) <==> Order.Less(a, b)
  {
    if a != [] && b != [] {
      BytesBeforeIsLess(a[1..], b[1..]);
    }
  }

  lemma ComesBeforeIsPrecedes(a: Key, b: Key)
    ensures ComesBefore(a.account, a.currency, b.account, b.currency) <==> Precedes(a, b)
  {
    BytesBeforeIsLess(a.currency, b.currency);
    assert a.Rank()[1..] == a.currency && b.Rank()[1..] == b.currency;
  }

  // ---- numbers ---------------------------------------------------------

  /** The places among the first `n` entries that fall on one row. */
  function PlacesOn(entries: seq<Entry>, n: nat, account: nat, currency: Text): set<nat>
    requires n <= |entries|
  {
    set j: nat | j < n && entries[j].leg.account == account && entries[j].leg.currency == currency
  }

  lemma {:induction false} PlacesAreCounted(entries: seq<Entry>, n: nat, account: nat, currency: Text)
    requires n <= |entries|
    ensures |PlacesOn(entries, n, account, currency)| == Count(LegsIn(entries)[..n], Key(account, currency))
    decreases n
  {
    if n == 0 {
      assert PlacesOn(entries, 0, account, currency) == {};
    } else {
      PlacesAreCounted(entries, n - 1, account, currency);
      var leg, before := entries[n - 1].leg, PlacesOn(entries, n - 1, account, currency);
      assert LegsIn(entries)[..n][..n - 1] == LegsIn(entries)[..n - 1];
      assert PlacesOn(entries, n, account, currency)
          == if leg.account == account && leg.currency == currency then before + {n - 1} else before;
    }
  }

  /** The entries are the postings', each a credit of its source and then a debit of its
      destination. */
  predicate AreThePostings(entries: seq<Entry>, postings: seq<Posting>)
  {
    && |entries| == 2 * |postings|
    && forall k :: 0 <= k < |postings| ==>
         && entries[2 * k].leg == Leg(postings[k].source, postings[k].currency, Credit, postings[k].amountMinor)
         && entries[2 * k + 1].leg == Leg(postings[k].destination, postings[k].currency, Debit, postings[k].amountMinor)
  }

  lemma LegsOfPostingsAreThePostings(entries: seq<Entry>, postings: seq<Posting>)
    requires LegsIn(entries) == LegsOf(postings)
    ensures AreThePostings(entries, postings)
  {
    if postings != [] {
      EachPostingIsTwoLegs(postings, 0);
    }
    forall k | 0 <= k < |postings|
      ensures entries[2 * k].leg == Leg(postings[k].source, postings[k].currency, Credit, postings[k].amountMinor)
      ensures entries[2 * k + 1].leg == Leg(postings[k].destination, postings[k].currency, Debit, postings[k].amountMinor) {
      EachPostingIsTwoLegs(postings, k);
      assert LegsIn(entries)[2 * k] == entries[2 * k].leg && LegsIn(entries)[2 * k + 1] == entries[2 * k + 1].leg;
    }
  }

  /** Every entry is numbered from its row's counter on, in order. */
  ghost predicate AreNumberedFrom(entries: seq<Entry>, balances: map<Key, Balance>)
  {
    forall k :: 0 <= k < |entries| ==> IsNumberedFrom(entries, balances, k)
  }

  ghost predicate IsNumberedFrom(entries: seq<Entry>, balances: map<Key, Balance>, k: nat)
    requires k < |entries|
  {
    var leg := entries[k].leg;
    entries[k].accountSeq == CounterOf(balances, leg.account, leg.currency) + |PlacesOn(entries, k, leg.account, leg.currency)| + 1
  }

  lemma NumberedIsNumberedFrom(balances: map<Key, Balance>, legs: seq<Leg>)
    ensures AreNumberedFrom(Numbered(balances, legs), balances)
  {
    var entries := Numbered(balances, legs);
    LegsOfNumbered(balances, legs);
    forall k | 0 <= k < |entries| ensures IsNumberedFrom(entries, balances, k) {
      NumberedForwards(balances, legs, k);
      PlacesAreCounted(entries, k, legs[k].account, legs[k].currency);
      TheRowHolds(balances, legs[k].account, legs[k].currency);
    }
  }
}
