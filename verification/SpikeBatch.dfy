/** The throughput spike's batch: postings grouped by account, accounts locked in one
    order, and each account's entries numbered by walking backwards from its totals. */
module SpikeBatch {
  import opened Domain
  import opened Postings

  datatype Request = Request(txn: Uuid, account: Uuid, direction: Direction, amount: int)

  datatype Tally = Tally(input: int, output: int, lastSeq: int)

  const NOTHING := Tally(0, 0, 0)

  datatype Written = Written(request: Request, accountSeq: int, balanceAfter: int)

  // ---- the forward fold ------------------------------------------------

  function Of(posts: seq<Request>, account: Uuid): seq<Request>
  {
    if posts == [] then [] else
    var n := |posts| - 1;
    if posts[n].account == account then Of(posts[..n], account) + [posts[n]] else Of(posts[..n], account)
  }

  function Moved(t: Tally, p: Request): Tally
  {
    if p.direction.Debit? then Tally(t.input + p.amount, t.output, t.lastSeq + 1)
    else Tally(t.input, t.output + p.amount, t.lastSeq + 1)
  }

  function MovedAll(t: Tally, posts: seq<Request>): Tally
  {
    if posts == [] then t else Moved(MovedAll(t, posts[..|posts| - 1]), posts[|posts| - 1])
  }

  function Row(t: Tally, p: Request): Written
  {
    Written(p, t.lastSeq, t.input - t.output)
  }

  /** One account's rows, one posting at a time. */
  function Forward(t: Tally, posts: seq<Request>): (rows: seq<Written>)
    ensures |rows| == |posts|
  {
    if posts == [] then [] else
    var n := |posts| - 1;
    Forward(t, posts[..n]) + [Row(MovedAll(t, posts), posts[n])]
  }

  function TallyOf(balances: map<Uuid, Tally>, account: Uuid): Tally
  {
    if account in balances then balances[account] else NOTHING
  }

  /** Every row, in arrival order, each posting applied to its account's balance as
      the postings before it left it. */
  function OneAtATime(balances: map<Uuid, Tally>, posts: seq<Request>): (rows: seq<Written>)
    ensures |rows| == |posts|
  {
    if posts == [] then [] else
    var n := |posts| - 1;
    var p := posts[n];
    OneAtATime(balances, posts[..n]) + [Row(MovedAll(TallyOf(balances, p.account), Of(posts, p.account)), p)]
  }

  /** An account with no balance row yet starts from nothing: its first row is numbered 1
      and carries its own amount. */
  lemma ANewAccountStartsFromNothing(balances: map<Uuid, Tally>, p: Request)
    requires p.account !in balances
    ensures OneAtATime(balances, [p]) == [Written(p, 1, if p.direction.Debit? then p.amount else -p.amount)]
  {
    assert [p][..0] == [] && Of([], p.account) == [];
    assert Of([p], p.account) == [p] && MovedAll(NOTHING, []) == NOTHING;
  }

  // ---- walking backwards -----------------------------------------------

  function Reversed(rows: seq<Written>): seq<Written>
  {
    if rows == [] then [] else [rows[|rows| - 1]] + Reversed(rows[..|rows| - 1])
  }

  function Totals(posts: seq<Request>): Tally
  {
    MovedAll(NOTHING, posts)
  }

  function Plus(a: Tally, b: Tally): Tally
  {
    Tally(a.input + b.input, a.output + b.output, a.lastSeq + b.lastSeq)
  }

  /** One upsert by the totals leaves what the postings one by one would. */
  lemma {:induction false} TotalsAreTheWholeMove(t: Tally, posts: seq<Request>)
    ensures MovedAll(t, posts) == Plus(t, Totals(posts))
  {
    if posts != [] {
      TotalsAreTheWholeMove(t, posts[..|posts| - 1]);
    }
  }

  /** The balance once `k` postings are in, and the rows from the `k`-th down. */
  function TallyAt(t: Tally, posts: seq<Request>, k: nat): Tally
    requires k <= |posts|
  {
    MovedAll(t, posts[..k])
  }

  function DownFrom(t: Tally, posts: seq<Request>, k: nat): seq<Written>
    requires k <= |posts|
  {
    Reversed(Forward(t, posts[..k]))
  }

  lemma OneStepDown(t: Tally, posts: seq<Request>, k: nat, rows: seq<Written>)
    requires 0 < k <= |posts|
    ensures TallyAt(t, posts, k) == Moved(TallyAt(t, posts, k - 1), posts[k - 1])
    ensures rows + DownFrom(t, posts, k) == rows + [Row(TallyAt(t, posts, k), posts[k - 1])] + DownFrom(t, posts, k - 1)
  {
    assert posts[..k][..k - 1] == posts[..k - 1];
    assert Forward(t, posts[..k])[..k - 1] == Forward(t, posts[..k - 1]);
  }

  /** The walk itself: from the account's final totals down to its first posting. */
  method WalkBack(after: Tally, posts: seq<Request>, ghost t: Tally) returns (rows: seq<Written>)
    requires after == MovedAll(t, posts)
    ensures rows == Reversed(Forward(t, posts))
  {
    rows := [];
    var balance, seqNumber := after.input - after.output, after.lastSeq;
    var k := |posts|;
    assert posts[..k] == posts;
    while k > 0
      invariant 0 <= k <= |posts|
      invariant balance == TallyAt(t, posts, k).input - TallyAt(t, posts, k).output && seqNumber == TallyAt(t, posts, k).lastSeq
      invariant rows + DownFrom(t, posts, k) == DownFrom(t, posts, |posts|)
    {
      var p := posts[k - 1];
      OneStepDown(t, posts, k, rows);
      rows := rows + [Written(p, seqNumber, balance)];
      balance := if p.direction.Debit? then balance - p.amount else balance + p.amount;
      seqNumber := seqNumber - 1;
      k := k - 1;
    }
    assert posts[..0] == [];
  }

  /** The amounts on each side, and the count. */
  method SumUp(posts: seq<Request>) returns (totals: Tally)
    ensures totals == Totals(posts)
  {
    var debits, credits := 0, 0;
    var i := 0;
    while i < |posts|
      invariant 0 <= i <= |posts|
      invariant Totals(posts[..i]) == Tally(debits, credits, i)
    {
      assert posts[..i + 1][..i] == posts[..i];
      if posts[i].direction.Debit? {
        debits := debits + posts[i].amount;
      } else {
        credits := credits + posts[i].amount;
      }
      i := i + 1;
    }
    assert posts[..i] == posts;
    totals := Tally(debits, credits, |posts|);
  }

  // ---- grouping --------------------------------------------------------

  predicate Has(posts: seq<Request>, account: Uuid)
  {
    exists i :: 0 <= i < |posts| && posts[i].account == account
  }

  /** One account appears, and the other has not yet. */
  predicate ComesFirst(posts: seq<Request>, a: Uuid, b: Uuid)
  {
    exists i :: 0 <= i < |posts| && posts[i].account == a && forall j :: 0 <= j <= i ==> posts[j].account != b
  }

  predicate AppearInOrder(posts: seq<Request>, order: seq<Uuid>)
  {
    forall i, j :: 0 <= i < j < |order| ==> ComesFirst(posts, order[i], order[j])
  }

  /** Accounts in order of first appearance, each with its postings in arrival order. */
  method Group(posts: seq<Request>) returns (byAccount: map<Uuid, seq<Request>>, order: seq<Uuid>)
    ensures forall a :: a in order <==> Has(posts, a)
    ensures forall i, j :: 0 <= i < j < |order| ==> order[i] != order[j]
    ensures AppearInOrder(posts, order)
    ensures forall a :: a in byAccount <==> a in order
    ensures forall a :: a in byAccount ==> byAccount[a] == Of(posts, a)
  {
    byAccount, order := map[], [];
    var i := 0;
    while i < |posts|
      invariant 0 <= i <= |posts|
      invariant forall a :: a in order <==> Has(posts[..i], a)
      invariant forall j, k :: 0 <= j < k < |order| ==> order[j] != order[k]
      invariant AppearInOrder(posts, order)
      invariant forall a :: a in byAccount <==> a in order
      invariant forall a :: a in byAccount ==> byAccount[a] == Of(posts[..i], a)
    {
      var a := posts[i].account;
      HasOneMore(posts, i);
      assert posts[..i + 1][..i] == posts[..i];
      if a !in byAccount {
        NoneYet(posts[..i], a);
        TheNextToAppear(posts, i, order);
        order := order + [a];
        byAccount := byAccount[a := []];
      }
      byAccount := byAccount[a := byAccount[a] + [posts[i]]];
      i := i + 1;
    }
    assert posts[..i] == posts;
  }

  lemma HasOneMore(posts: seq<Request>, i: nat)
    requires i < |posts|
    ensures forall a: Uuid :: Has(posts[..i + 1], a) <==> Has(posts[..i], a) || a == posts[i].account
  {
    forall a: Uuid | Has(posts[..i], a) || a == posts[i].account ensures Has(posts[..i + 1], a) {
      if Has(posts[..i], a) {
        var k :| 0 <= k < i && posts[..i][k].account == a;
        assert posts[..i + 1][k].account == a;
      } else {
        assert posts[..i + 1][i].account == a;
      }
    }
    forall a: Uuid | Has(posts[..i + 1], a) && a != posts[i].account ensures Has(posts[..i], a) {
      var k :| 0 <= k <= i && posts[..i + 1][k].account == a;
      assert posts[..i][k].account == a;
    }
  }

  lemma HereItIsTheFirst(posts: seq<Request>, i: nat, a: Uuid, b: Uuid)
    requires i <= |posts| && Has(posts[..i], a) && !Has(posts[..i], b)
    ensures ComesFirst(posts, a, b)
  {
    var m :| 0 <= m < i && posts[..i][m].account == a;
    forall j | 0 <= j <= m ensures posts[j].account != b {
      assert posts[..i][j] == posts[j];
    }
    assert posts[m].account == a;
  }

  lemma TheNextToAppear(posts: seq<Request>, i: nat, order: seq<Uuid>)
    requires i < |posts| && AppearInOrder(posts, order)
    requires !Has(posts[..i], posts[i].account) && forall a :: a in order ==> Has(posts[..i], a)
    ensures AppearInOrder(posts, order + [posts[i].account])
  {
    forall k | 0 <= k < |order| ensures ComesFirst(posts, order[k], posts[i].account) {
      assert order[k] in order;
      HereItIsTheFirst(posts, i, order[k], posts[i].account);
    }
  }

  lemma {:induction false} NoneYet(posts: seq<Request>, a: Uuid)
    requires forall k :: 0 <= k < |posts| ==> posts[k].account != a
    ensures Of(posts, a) == []
  {
    if posts != [] {
      NoneYet(posts[..|posts| - 1], a);
    }
  }

  // ---- the lock order --------------------------------------------------

  predicate StrictlyAscends(order: seq<Uuid>)
  {
    forall i, j :: 0 <= i < j < |order| ==> order[i] < order[j]
  }

  predicate Distinct(order: seq<Uuid>)
  {
    forall i, j :: 0 <= i < j < |order| ==> order[i] != order[j]
  }

  function Swapped(order: seq<Uuid>, j: nat): (swapped: seq<Uuid>)
    requires 0 < j < |order|
    ensures |swapped| == |order|
  {
    order[..j - 1] + [order[j], order[j - 1]] + order[j + 1..]
  }

  lemma SwappingPermutes(order: seq<Uuid>, j: nat)
    requires 0 < j < |order|
    ensures multiset(Swapped(order, j)) == multiset(order)
  {
    assert order == order[..j - 1] + [order[j - 1], order[j]] + order[j + 1..];
  }

  /** Ascending up to `i`, apart from the one being moved down, now at `j`. */
  predicate MovedDownTo(order: seq<Uuid>, i: nat, j: nat)
  {
    && j <= i < |order|
    && (forall k, l :: 0 <= k < l <= i && k != j && l != j ==> order[k] < order[l])
    && (forall k :: j < k <= i ==> order[j] < order[k])
  }

  lemma ASwapMovesDown(order: seq<Uuid>, i: nat, j: nat)
    requires MovedDownTo(order, i, j) && j > 0 && order[j] < order[j - 1]
    ensures MovedDownTo(Swapped(order, j), i, j - 1)
  {
    var s := Swapped(order, j);
    assert s[j - 1] == order[j] && s[j] == order[j - 1];
    assert forall k :: 0 <= k < |s| && k != j && k != j - 1 ==> s[k] == order[k];
  }

  lemma Settled(order: seq<Uuid>, i: nat, j: nat)
    requires MovedDownTo(order, i, j) && Distinct(order) && (j > 0 ==> order[j - 1] <= order[j])
    ensures StrictlyAscends(order[..i + 1])
  {
    forall k, l | 0 <= k < l <= i ensures order[k] < order[l] {
      if l == j {
        assert order[j - 1] != order[j];
        assert k < j - 1 ==> order[k] < order[j - 1];
      }
    }
  }

  lemma PermutingKeepsDistinct(a: seq<Uuid>, b: seq<Uuid>)
    requires Distinct(a) && multiset(a) == multiset(b)
    ensures Distinct(b)
  {
    forall i, j | 0 <= i < j < |b| ensures b[i] != b[j] {
      if b[i] == b[j] {
        assert b == b[..i] + [b[i]] + b[i + 1..j] + [b[j]] + b[j + 1..];
        assert multiset(b)[b[i]] >= 2;
        AtMostOnce(a, b[i]);
      }
    }
  }

  lemma {:induction false} AtMostOnce(a: seq<Uuid>, x: Uuid)
    requires Distinct(a)
    ensures multiset(a)[x] <= 1
    decreases |a|
  {
    if a != [] {
      assert a == [a[0]] + a[1..];
      AtMostOnce(a[1..], x);
      if x == a[0] {
        assert x !in a[1..];
      }
    }
  }

  /** Insertion sort, in place: the batch-wide lock order. */
  method SortInPlace(order: array<Uuid>)
    requires Distinct(order[..])
    modifies order
    ensures StrictlyAscends(order[..])
    ensures multiset(order[..]) == multiset(old(order[..]))
  {
    var i := 1;
    while i < order.Length
      invariant 1 <= i
      invariant Distinct(order[..])
      invariant StrictlyAscends(order[..if i < order.Length then i else order.Length])
      invariant multiset(order[..]) == multiset(old(order[..]))
    {
      MoveDown(order, i);
      i := i + 1;
    }
  }

  method MoveDown(order: array<Uuid>, i: nat)
    requires i < order.Length && StrictlyAscends(order[..i])
    requires Distinct(order[..])
    modifies order
    ensures StrictlyAscends(order[..i + 1]) && Distinct(order[..])
    ensures multiset(order[..]) == multiset(old(order[..]))
  {
    var j: nat := i;
    assert order[..i] == order[..][..i];
    while j > 0 && order[j] < order[j - 1]
      invariant MovedDownTo(order[..], i, j)
      invariant multiset(order[..]) == multiset(old(order[..]))
    {
      ghost var before := order[..];
      order[j], order[j - 1] := order[j - 1], order[j];
      assert order[..] == Swapped(before, j);
      SwappingPermutes(before, j);
      ASwapMovesDown(before, i, j);
      j := j - 1;
    }
    PermutingKeepsDistinct(old(order[..]), order[..]);
    Settled(order[..], i, j);
    assert order[..][..i + 1] == order[..i + 1];
  }

  // ---- the batch -------------------------------------------------------

  /** What the walk writes, account by account. */
  function WalkedBack(balances: map<Uuid, Tally>, posts: seq<Request>, order: seq<Uuid>): seq<Written>
  {
    if order == [] then [] else
    var a := order[|order| - 1];
    WalkedBack(balances, posts, order[..|order| - 1]) + Reversed(Forward(TallyOf(balances, a), Of(posts, a)))
  }

  ghost predicate IsTheLockOrder(posts: seq<Request>, order: seq<Uuid>)
  {
    StrictlyAscends(order) && forall a :: a in order <==> Has(posts, a)
  }

  /** `after` is `before` with every posting applied, one at a time, on the accounts listed. */
  ghost predicate IsMoved(before: map<Uuid, Tally>, after: map<Uuid, Tally>, posts: seq<Request>, moved: seq<Uuid>)
  {
    forall a: Uuid :: TallyOf(after, a) == if a in moved then MovedAll(TallyOf(before, a), Of(posts, a)) else TallyOf(before, a)
  }

  lemma OneAccountMore(before: map<Uuid, Tally>, after: map<Uuid, Tally>, posts: seq<Request>, moved: seq<Uuid>, a: Uuid)
    requires IsMoved(before, after, posts, moved) && a !in moved
    ensures IsMoved(before, after[a := MovedAll(TallyOf(before, a), Of(posts, a))], posts, moved + [a])
    ensures TallyOf(after, a) == TallyOf(before, a)
  {
  }

  /** One upsert, and the walk down from what it leaves. */
  method PostTheAccount(t: Tally, mine: seq<Request>) returns (after: Tally, rows: seq<Written>)
    ensures after == MovedAll(t, mine) && rows == Reversed(Forward(t, mine))
  {
    var totals := SumUp(mine);
    TotalsAreTheWholeMove(t, mine);
    after := Plus(t, totals);
    rows := WalkBack(after, mine, t);
  }

  /** Accounts are locked in strictly ascending order, each moved once by its whole
      share, and every row is the one that posting one at a time would have written. */
  method DoBatch(balances: map<Uuid, Tally>, posts: seq<Request>) returns (after: map<Uuid, Tally>, locked: seq<Uuid>, out: seq<Written>)
    ensures IsTheLockOrder(posts, locked)
    ensures IsMoved(balances, after, posts, locked)
    ensures multiset(out) == multiset(OneAtATime(balances, posts))
  {
    var byAccount, order := Group(posts);
    locked := LockOrder(order);
    after, out := balances, [];
    var i := 0;
    while i < |locked|
      invariant 0 <= i <= |locked|
      invariant IsMoved(balances, after, posts, locked[..i])
      invariant out == WalkedBack(balances, posts, locked[..i])
    {
      var a := locked[i];
      NotAmongTheEarlier(locked, i);
      OneAccountMore(balances, after, posts, locked[..i], a);
      var moved, rows := PostTheAccount(TallyOf(after, a), byAccount[a]);
      after := after[a := moved];
      out := out + rows;
      i := i + 1;
    }
    assert locked[..i] == locked;
    EveryPostingsAccountIsLocked(posts, locked);
    TheWalkWritesWhatOneAtATimeWould(balances, posts, locked);
  }

  lemma NotAmongTheEarlier(locked: seq<Uuid>, i: nat)
    requires StrictlyAscends(locked) && i < |locked|
    ensures locked[i] !in locked[..i] && locked[..i + 1] == locked[..i] + [locked[i]]
    ensures locked[..i + 1][..i] == locked[..i]
  {
  }

  lemma EveryPostingsAccountIsLocked(posts: seq<Request>, locked: seq<Uuid>)
    requires IsTheLockOrder(posts, locked)
    ensures Distinct(locked) && forall p :: p in posts ==> p.account in locked
  {
    forall p | p in posts ensures p.account in locked {
      var i :| 0 <= i < |posts| && posts[i] == p;
      assert posts[i].account == p.account;
    }
  }

  method LockOrder(order: seq<Uuid>) returns (locked: seq<Uuid>)
    requires Distinct(order)
    ensures StrictlyAscends(locked) && forall a :: a in locked <==> a in order
  {
    var sorted := new Uuid[|order|](i requires 0 <= i < |order| => order[i]);
    assert sorted[..] == order;
    SortInPlace(sorted);
    locked := sorted[..];
    assert forall a :: a in locked <==> a in multiset(locked);
    assert forall a :: a in order <==> a in multiset(order);
  }

  // ---- both orders of counting write the same rows ---------------------

  lemma {:induction false} ReversingPermutes(rows: seq<Written>)
    ensures multiset(Reversed(rows)) == multiset(rows)
  {
    if rows != [] {
      ReversingPermutes(rows[..|rows| - 1]);
      assert rows == rows[..|rows| - 1] + [rows[|rows| - 1]];
    }
  }

  /** The row of the last posting, on the accounts named. */
  ghost function LastRow(balances: map<Uuid, Tally>, posts: seq<Request>, named: bool): multiset<Written>
    requires posts != []
  {
    var p := posts[|posts| - 1];
    if named then multiset{Row(MovedAll(TallyOf(balances, p.account), Of(posts, p.account)), p)} else multiset{}
  }

  lemma OneMoreRow(balances: map<Uuid, Tally>, posts: seq<Request>, a: Uuid)
    requires posts != []
    ensures var t, n := TallyOf(balances, a), |posts| - 1;
            multiset(Reversed(Forward(t, Of(posts, a))))
            == multiset(Reversed(Forward(t, Of(posts[..n], a)))) + LastRow(balances, posts, posts[n].account == a)
  {
    var t := TallyOf(balances, a);
    var mine, before := Of(posts, a), Of(posts[..|posts| - 1], a);
    ReversingPermutes(Forward(t, mine));
    ReversingPermutes(Forward(t, before));
    if posts[|posts| - 1].account == a {
      assert mine[..|mine| - 1] == before;
    }
  }

  lemma TheWalkSplits(balances: map<Uuid, Tally>, posts: seq<Request>, order: seq<Uuid>, n: nat)
    requires |order| == n + 1
    ensures multiset(WalkedBack(balances, posts, order))
            == multiset(WalkedBack(balances, posts, order[..n])) + multiset(Reversed(Forward(TallyOf(balances, order[n]), Of(posts, order[n]))))
  {
  }

  /** If each part gains its extra, so does the whole. */
  lemma PartsGain(whole: multiset<Written>, wholeBefore: multiset<Written>, early: multiset<Written>, earlyBefore: multiset<Written>,
                  late: multiset<Written>, lateBefore: multiset<Written>, x: multiset<Written>, y: multiset<Written>)
    requires whole == early + late && wholeBefore == earlyBefore + lateBefore
    requires early == earlyBefore + x && late == lateBefore + y
    ensures whole == wholeBefore + (x + y)
  {
  }

  /** One more posting adds one row to its own account's walk, and none elsewhere. */
  lemma {:induction false} OneMorePosting(balances: map<Uuid, Tally>, posts: seq<Request>, order: seq<Uuid>)
    requires posts != [] && Distinct(order)
    ensures multiset(WalkedBack(balances, posts, order))
            == multiset(WalkedBack(balances, posts[..|posts| - 1], order)) + LastRow(balances, posts, posts[|posts| - 1].account in order)
    decreases |order|
  {
    if order != [] {
      var n, before := |order| - 1, posts[..|posts| - 1];
      var a, t, account := order[n], TallyOf(balances, order[n]), posts[|posts| - 1].account;
      OneMorePosting(balances, posts, order[..n]);
      OneMoreRow(balances, posts, a);
      TheWalkSplits(balances, posts, order, n);
      TheWalkSplits(balances, before, order, n);
      PartsGain(multiset(WalkedBack(balances, posts, order)), multiset(WalkedBack(balances, before, order)),
                multiset(WalkedBack(balances, posts, order[..n])), multiset(WalkedBack(balances, before, order[..n])),
                multiset(Reversed(Forward(t, Of(posts, a)))), multiset(Reversed(Forward(t, Of(before, a)))),
                LastRow(balances, posts, account in order[..n]), LastRow(balances, posts, account == a));
      NamedOnce(balances, posts, order, n);
    }
  }

  lemma NamedOnce(balances: map<Uuid, Tally>, posts: seq<Request>, order: seq<Uuid>, n: nat)
    requires posts != [] && Distinct(order) && |order| == n + 1
    ensures var account := posts[|posts| - 1].account;
            LastRow(balances, posts, account in order[..n]) + LastRow(balances, posts, account == order[n])
            == LastRow(balances, posts, account in order)
  {
    assert order == order[..n] + [order[n]] && order[n] !in order[..n];
  }

  lemma {:induction false} NoPostingsNoRows(balances: map<Uuid, Tally>, order: seq<Uuid>)
    ensures WalkedBack(balances, [], order) == []
  {
    if order != [] {
      NoPostingsNoRows(balances, order[..|order| - 1]);
    }
  }

  /** Every row carries the number and the running balance that posting one at a
      time would have given it. */
  lemma {:induction false} TheWalkWritesWhatOneAtATimeWould(balances: map<Uuid, Tally>, posts: seq<Request>, order: seq<Uuid>)
    requires Distinct(order) && forall p :: p in posts ==> p.account in order
    ensures multiset(WalkedBack(balances, posts, order)) == multiset(OneAtATime(balances, posts))
    decreases |posts|
  {
    if posts == [] {
      NoPostingsNoRows(balances, order);
    } else {
      assert posts[|posts| - 1] in posts;
      TheWalkWritesWhatOneAtATimeWould(balances, posts[..|posts| - 1], order);
      OneMorePosting(balances, posts, order);
    }
  }
}
