/** A `BTreeMap`'s iteration order over coalesced keys: account first, then
    currency. It is the order a statement's upserts take their row locks in. */
module KeyOrder {
  import opened Postings
  import opened Bytes
  import Domain
  import Order

  predicate Precedes(a: Key, b: Key)
  {
    Order.Less(a.Rank(), b.Rank())
  }

  lemma RankNamesTheKey(a: Key, b: Key)
    requires a.Rank() == b.Rank()
    ensures a == b
  {
    assert a.Rank()[0] == a.account && b.Rank()[0] == b.account;
    assert a.Rank()[1..] == a.currency && b.Rank()[1..] == b.currency;
  }

  lemma PrecedesIsTotal(a: Key, b: Key)
    ensures Precedes(a, b) || a == b || Precedes(b, a)
  {
    Order.Trichotomy(a.Rank(), b.Rank());
    if a.Rank() == b.Rank() {
      RankNamesTheKey(a, b);
    }
  }

  predicate IsLeast(key: Key, keys: set<Key>)
  {
    key in keys && forall other :: other in keys && other != key ==> Precedes(key, other)
  }

  lemma {:induction false} LeastExists(keys: set<Key>) returns (least: Key)
    requires keys != {}
    ensures IsLeast(least, keys)
    decreases |keys|
  {
    var key :| key in keys;
    if keys == {key} {
      return key;
    }
    assert keys - {key} != {};
    var other := LeastExists(keys - {key});
    PrecedesIsTotal(key, other);
    if Precedes(key, other) {
      forall k | k in keys && k != key ensures Precedes(key, k) {
        if k != other {
          assert Precedes(other, k);
          Order.Transitive(key.Rank(), other.Rank(), k.Rank());
        }
      }
      least := key;
    } else {
      least := other;
    }
  }

  lemma ThereIsALeast(keys: set<Key>)
    requires keys != {}
    ensures exists key :: IsLeast(key, keys)
  {
    var least := LeastExists(keys);
  }

  lemma LeastIsUnique(a: Key, b: Key, keys: set<Key>)
    requires IsLeast(a, keys) && IsLeast(b, keys)
    ensures a == b
  {
    if a != b {
      Order.Asymmetric(a.Rank(), b.Rank());
    }
  }

  lemma OnlyOneIsLeast(keys: set<Key>)
    ensures forall a, b :: IsLeast(a, keys) && IsLeast(b, keys) ==> a == b
  {
    forall a, b | IsLeast(a, keys) && IsLeast(b, keys) ensures a == b {
      LeastIsUnique(a, b, keys);
    }
  }

  function LeastOf(keys: set<Key>): (least: Key)
    requires keys != {}
    ensures IsLeast(least, keys)
  {
    ThereIsALeast(keys);
    OnlyOneIsLeast(keys);
    var least :| least in keys && IsLeast(least, keys);
    least
  }

  ghost function Ranks(keys: seq<Key>): (ranks: seq<seq<int>>)
    ensures |ranks| == |keys|
  {
    seq(|keys|, i requires 0 <= i < |keys| => keys[i].Rank())
  }

  /** Every key once, strictly ascending. */
  function InKeyOrder(keys: set<Key>): seq<Key>
    decreases |keys|
  {
    if keys == {} then [] else
    var least := LeastOf(keys);
    [least] + InKeyOrder(keys - {least})
  }

  lemma {:induction false} InKeyOrderListsEveryKey(keys: set<Key>)
    ensures |InKeyOrder(keys)| == |keys|
    ensures forall key :: key in keys <==> key in InKeyOrder(keys)
    decreases |keys|
  {
    if keys != {} {
      InKeyOrderListsEveryKey(keys - {LeastOf(keys)});
    }
  }

  lemma {:induction false} InKeyOrderAscends(keys: set<Key>)
    ensures Order.Ascending(Ranks(InKeyOrder(keys)))
    decreases |keys|
  {
    if keys != {} {
      var least := LeastOf(keys);
      InKeyOrderAscends(keys - {least});
      InKeyOrderListsEveryKey(keys - {least});
      TheLeastGoesFirst(least, keys, InKeyOrder(keys - {least}));
    }
  }

  lemma TheLeastGoesFirst(least: Key, keys: set<Key>, rest: seq<Key>)
    requires IsLeast(least, keys)
    requires forall key :: key in rest ==> key in keys - {least}
    requires Order.Ascending(Ranks(rest))
    ensures Order.Ascending(Ranks([least] + rest))
  {
    forall j | 0 <= j < |rest| ensures Order.Less(least.Rank(), Ranks(rest)[j]) {
      assert rest[j] in keys - {least};
      assert Precedes(least, rest[j]);
    }
    Order.AscendingPrepend(least.Rank(), Ranks(rest));
    assert Ranks([least] + rest) == [least.Rank()] + Ranks(rest);
  }

  lemma TheFirstIsLeast(order: seq<Key>)
    requires order != [] && Order.Ascending(Ranks(order))
    ensures Order.Ascending(Ranks(order[1..]))
    ensures forall key :: key in order[1..] ==> Precedes(order[0], key) && key != order[0]
  {
    var rest := order[1..];
    forall i, j | 0 <= i < j < |rest| ensures Order.Less(Ranks(rest)[i], Ranks(rest)[j]) {
      assert Ranks(rest)[i] == Ranks(order)[i + 1] && Ranks(rest)[j] == Ranks(order)[j + 1];
    }
    forall key | key in rest ensures Precedes(order[0], key) && key != order[0] {
      var i :| 0 <= i < |rest| && rest[i] == key;
      assert Ranks(order)[0] == order[0].Rank() && Ranks(order)[i + 1] == key.Rank();
      Order.Irreflexive(key.Rank());
    }
  }

  /** Strictly ascending keys are the one such listing of their set. */
  lemma {:induction false} TheOrderIsUnique(order: seq<Key>, keys: set<Key>)
    requires forall key :: key in keys <==> key in order
    requires Order.Ascending(Ranks(order))
    ensures order == InKeyOrder(keys)
    decreases |order|
  {
    if order == [] {
      assert keys == {};
    } else {
      var first, rest := order[0], order[1..];
      assert order == [first] + rest;
      TheFirstIsLeast(order);
      assert IsLeast(first, keys);
      LeastIsUnique(first, LeastOf(keys), keys);
      TheOrderIsUnique(rest, keys - {first});
    }
  }

  /** One side of one currency, summed down the coalesced map in key order. */
  function MovedOn(order: seq<Key>, legs: seq<Leg>, currency: Text, direction: Direction): int
  {
    if order == [] then 0 else
    (if order[0].currency == currency then Total(legs, order[0], direction) else 0)
      + MovedOn(order[1..], legs, currency, direction)
  }

  lemma {:induction false} MovedOnOneMore(order: seq<Key>, before: seq<Leg>, leg: Leg, currency: Text, direction: Direction)
    requires forall i, j :: 0 <= i < j < |order| ==> order[i] != order[j]
    ensures MovedOn(order, before + [leg], currency, direction)
         == MovedOn(order, before, currency, direction)
            + if leg.Row() in order && leg.currency == currency && leg.direction == direction then leg.amountMinor else 0
    decreases |order|
  {
    if order != [] {
      var rest := order[1..];
      MovedOnOneMore(rest, before, leg, currency, direction);
      assert (before + [leg])[..|before|] == before;
      assert order == [order[0]] + rest;
      if leg.Row() == order[0] {
        assert leg.Row() !in rest;
      }
    }
  }

  /** A coalesced map moves, currency by currency, exactly what its legs move. */
  lemma {:induction false} CoalescingMovesWhatTheLegsMove(order: seq<Key>, legs: seq<Leg>, currency: Text, direction: Direction)
    requires forall i, j :: 0 <= i < j < |order| ==> order[i] != order[j]
    requires KeysOf(legs) <= set key | key in order
    ensures MovedOn(order, legs, currency, direction) == CurrencyTotal(legs, currency, direction)
    decreases |legs|
  {
    if legs == [] {
      NothingMoves(order, currency, direction);
    } else {
      var n := |legs| - 1;
      assert legs == legs[..n] + [legs[n]];
      KeysConcat(legs[..n], [legs[n]]);
      assert legs[n].Row() in KeysOf(legs);
      CoalescingMovesWhatTheLegsMove(order, legs[..n], currency, direction);
      MovedOnOneMore(order, legs[..n], legs[n], currency, direction);
    }
  }

  lemma {:induction false} NothingMoves(order: seq<Key>, currency: Text, direction: Direction)
    ensures MovedOn(order, [], currency, direction) == 0
    decreases |order|
  {
    if order != [] {
      NothingMoves(order[1..], currency, direction);
    }
  }

  /** On success the deltas of a posting set sum to equal inputs and outputs in
      every currency. */
  lemma DeltasBalancePerCurrency(postings: seq<Domain.Posting>, currency: Text)
    requires forall i :: 0 <= i < |postings| ==> postings[i].WellFormed()
    ensures var legs := LegsOf(postings);
            var order := InKeyOrder(Deltas(legs).Keys);
            MovedOn(order, legs, currency, Debit) == MovedOn(order, legs, currency, Credit)
  {
    var legs := LegsOf(postings);
    var order := InKeyOrder(Deltas(legs).Keys);
    InKeyOrderAscends(Deltas(legs).Keys);
    InKeyOrderListsEveryKey(Deltas(legs).Keys);
    AscendingKeysAreDistinct(order);
    CoalescingMovesWhatTheLegsMove(order, legs, currency, Debit);
    CoalescingMovesWhatTheLegsMove(order, legs, currency, Credit);
    LegsOfPostingsBalance(postings);
  }

  lemma AscendingKeysAreDistinct(order: seq<Key>)
    requires Order.Ascending(Ranks(order))
    ensures forall i, j :: 0 <= i < j < |order| ==> order[i] != order[j]
  {
    forall i, j | 0 <= i < j < |order| ensures order[i] != order[j] {
      assert Order.Less(Ranks(order)[i], Ranks(order)[j]);
      Order.Irreflexive(order[i].Rank());
    }
  }
}
