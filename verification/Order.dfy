/** The one ordering this ledger relies on: lexicographic order of tuples.

    A coalesced delta's `(account, currency)`, a page key's `(xact_id, id)` or
    `(effective_at, xact_id, id)` and a byte string are all compared component by
    component, so each is ranked as a sequence of integers and compared here. */
module Order {

  predicate Less(a: seq<int>, b: seq<int>)
  {
    b != [] && (a == [] || a[0] < b[0] || (a[0] == b[0] && Less(a[1..], b[1..])))
  }

  lemma {:induction false} Irreflexive(a: seq<int>)
    ensures !Less(a, a)
  {
    if a != [] {
      Irreflexive(a[1..]);
    }
  }

  lemma {:induction false} Transitive(a: seq<int>, b: seq<int>, c: seq<int>)
    requires Less(a, b) && Less(b, c)
    ensures Less(a, c)
  {
    if a != [] && a[0] == b[0] == c[0] {
      Transitive(a[1..], b[1..], c[1..]);
    }
  }

  lemma {:induction false} Trichotomy(a: seq<int>, b: seq<int>)
    ensures Less(a, b) || a == b || Less(b, a)
  {
    if a != [] && b != [] && a[0] == b[0] {
      Trichotomy(a[1..], b[1..]);
      if a[1..] == b[1..] {
        assert a == [a[0]] + a[1..] == b;
      }
    }
  }

  lemma Asymmetric(a: seq<int>, b: seq<int>)
    requires Less(a, b)
    ensures !Less(b, a) && a != b
  {
    Irreflexive(a);
    if Less(b, a) {
      Transitive(a, b, a);
    }
  }

  /** Ranks that strictly ascend along a sequence. */
  ghost predicate Ascending(ranks: seq<seq<int>>)
  {
    forall i, j :: 0 <= i < j < |ranks| ==> Less(ranks[i], ranks[j])
  }

  lemma AscendingPrepend(first: seq<int>, rest: seq<seq<int>>)
    requires Ascending(rest)
    requires forall j :: 0 <= j < |rest| ==> Less(first, rest[j])
    ensures Ascending([first] + rest)
  {
  }
}
