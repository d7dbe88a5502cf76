/** Concurrent statements on idempotency keys and balance rows. Each asks for its
    members' keys one at a time, waiting on an uncommitted rival for the same key, and
    only then locks the rows of the members whose key it won. The rows are taken in one
    order; the keys are not. */
module KeyClaims {
  import opened Bytes
  import opened Postings
  import opened KeyOrder
  import Order
  import R = RowLocks

  /** What a statement claims: a key, within its tenant. */
  datatype Claim = Claim(tenant: Text, key: Text)

  /** An admissible member: its claim, and the rows its legs touch. */
  datatype Member = Member(key: Claim, rows: set<Key>)

  /** The first `asked` keys have been asked for; `won` are those nobody had claimed. */
  datatype Writer = Writer(members: seq<Member>, asked: nat, won: set<Claim>, taken: nat, committed: bool)
  {
    predicate IsClaiming() { !committed && asked < |members| }

    predicate HoldsKey(key: Claim) { !committed && key in won }

    /** The rows of the members whose key was won, in the order they are locked. */
    ghost function Rows(): seq<Key>
    {
      InKeyOrder(set i, row | 0 <= i < |members| && members[i].key in won && row in members[i].rows :: row)
    }

    /** What the rows see of it: nothing until every key is asked for. */
    ghost function OnRows(): R.Writer
    {
      if IsClaiming() then R.Writer([], 0, true) else R.Writer(Rows(), taken, committed)
    }
  }

  /** The writers, and the keys committed transactions hold. */
  datatype State = State(writers: seq<Writer>, durable: set<Claim>)

  ghost function OnRows(ws: seq<Writer>): R.Writers
  {
    seq(|ws|, i requires 0 <= i < |ws| => ws[i].OnRows())
  }

  ghost predicate CanStep(s: State, i: nat)
    requires i < |s.writers|
  {
    if s.writers[i].IsClaiming() then IsFree(s.writers, i) else R.CanStep(OnRows(s.writers), i)
  }

  /** No rival holds, uncommitted, the key writer `i` asks for next. */
  predicate IsFree(ws: seq<Writer>, i: nat)
    requires i < |ws| && ws[i].IsClaiming()
  {
    forall j :: 0 <= j < |ws| && j != i ==> !ws[j].HoldsKey(ws[i].members[ws[i].asked].key)
  }

  /** Ask for the next key, and win it unless it is durably held; then lock the rows one
      by one; then commit, which makes what was won durable. */
  ghost function Step(s: State, i: nat): State
    requires i < |s.writers| && CanStep(s, i)
  {
    var w := s.writers[i];
    if w.IsClaiming() then
      s.(writers := s.writers[i := Asked(w, s.durable)])
    else if w.taken < |w.Rows()| then
      s.(writers := s.writers[i := w.(taken := w.taken + 1)])
    else
      State(s.writers[i := w.(committed := true)], s.durable + w.won)
  }

  function Asked(w: Writer, durable: set<Claim>): Writer
    requires w.IsClaiming()
  {
    var key := w.members[w.asked].key;
    w.(asked := w.asked + 1, won := if key in durable then w.won else w.won + {key})
  }

  /** What a writer has won, it asked for. */
  ghost predicate WonWereAsked(w: Writer)
  {
    forall key :: key in w.won ==> exists m :: 0 <= m < w.asked && m < |w.members| && w.members[m].key == key
  }

  ghost predicate Valid(s: State)
  {
    && (forall i :: 0 <= i < |s.writers| ==> WonWereAsked(s.writers[i]))
    && (forall i :: 0 <= i < |s.writers| && s.writers[i].IsClaiming() ==> s.writers[i].taken == 0)
    && (forall i, j, key :: 0 <= i < j < |s.writers| && s.writers[i].HoldsKey(key) ==> !s.writers[j].HoldsKey(key))
    && R.Valid(OnRows(s.writers))
  }

  // ---- every step keeps the state valid --------------------------------

  lemma RowsAscend(w: Writer)
    ensures Order.Ascending(Ranks(w.Rows()))
  {
    InKeyOrderAscends(set i, row | 0 <= i < |w.members| && w.members[i].key in w.won && row in w.members[i].rows :: row);
  }

  lemma AskingKeepsValid(s: State, i: nat)
    requires Valid(s) && i < |s.writers| && s.writers[i].IsClaiming() && IsFree(s.writers, i)
    ensures Valid(Step(s, i))
  {
    var next, w := Step(s, i), Asked(s.writers[i], s.durable);
    AskingKeepsWon(s.writers[i], s.durable);
    RowsAscend(w);
    assert OnRows(next.writers) == OnRows(s.writers)[i := w.OnRows()];
    NobodyOnRowsJoins(OnRows(s.writers), i, w.OnRows());
  }

  lemma AskingKeepsWon(w: Writer, durable: set<Claim>)
    requires w.IsClaiming() && WonWereAsked(w)
    ensures WonWereAsked(Asked(w, durable))
  {
    forall key | key in Asked(w, durable).won ensures exists m :: 0 <= m < w.asked + 1 && m < |w.members| && w.members[m].key == key {
      if key in w.won {
        var m :| 0 <= m < w.asked && m < |w.members| && w.members[m].key == key;
        assert m < w.asked + 1;
      } else {
        assert w.members[w.asked].key == key;
      }
    }
  }

  /** A writer that held no row may arrive with none. */
  lemma NobodyOnRowsJoins(ws: R.Writers, i: nat, w: R.Writer)
    requires R.Valid(ws) && i < |ws| && w.taken == 0 && Order.Ascending(Ranks(w.rows))
    ensures R.Valid(ws[i := w])
  {
  }

  lemma LockingIsAStepOnRows(s: State, i: nat)
    requires i < |s.writers| && !s.writers[i].IsClaiming() && CanStep(s, i)
    ensures OnRows(Step(s, i).writers) == R.Step(OnRows(s.writers), i)
  {
    var w, ws := s.writers[i], OnRows(s.writers);
    assert ws[i] == R.Writer(w.Rows(), w.taken, w.committed) && !w.committed;
    var next := if w.taken < |w.Rows()| then w.(taken := w.taken + 1) else w.(committed := true);
    assert next.Rows() == w.Rows();
    assert R.Step(ws, i) == ws[i := next.OnRows()];
  }

  lemma LockingKeepsValid(s: State, i: nat)
    requires Valid(s) && i < |s.writers| && !s.writers[i].IsClaiming() && CanStep(s, i)
    ensures Valid(Step(s, i))
  {
    LockingIsAStepOnRows(s, i);
    R.SteppingKeepsExclusion(OnRows(s.writers), i);
    var next := Step(s, i);
    forall j, key | 0 <= j < |s.writers| && next.writers[j].HoldsKey(key) ensures s.writers[j].HoldsKey(key) {
    }
  }

  lemma EveryStepKeepsValid(s: State, i: nat)
    requires Valid(s) && i < |s.writers| && CanStep(s, i)
    ensures Valid(Step(s, i))
  {
    if s.writers[i].IsClaiming() {
      AskingKeepsValid(s, i);
    } else {
      LockingKeepsValid(s, i);
    }
  }

  // ---- whole runs ------------------------------------------------------

  /** Statements about to run, over the keys already durable. */
  ghost function Starting(statements: seq<seq<Member>>, durable: set<Claim>): State
  {
    State(seq(|statements|, i requires 0 <= i < |statements| => Writer(statements[i], 0, {}, 0, false)), durable)
  }

  /** Whichever writer the schedule names steps next. */
  ghost predicate Follows(s: State, schedule: seq<nat>, t: State)
    decreases |schedule|
  {
    if schedule == [] then s == t
    else schedule[0] < |s.writers| && CanStep(s, schedule[0]) && Follows(Step(s, schedule[0]), schedule[1..], t)
  }

  lemma {:induction false} OneAfterAnother(s: State, x: seq<nat>, t: State, y: seq<nat>, u: State)
    requires Follows(s, x, t) && Follows(t, y, u)
    ensures Follows(s, x + y, u)
    decreases |x|
  {
    if x == [] {
      assert x + y == y;
    } else {
      assert (x + y)[0] == x[0] && (x + y)[1..] == x[1..] + y;
      OneAfterAnother(Step(s, x[0]), x[1..], t, y, u);
    }
  }

  lemma StatementsStartValid(statements: seq<seq<Member>>, durable: set<Claim>)
    ensures Valid(Starting(statements, durable))
  {
    forall i | 0 <= i < |statements| ensures Order.Ascending(Ranks(Writer(statements[i], 0, {}, 0, false).Rows())) {
      RowsAscend(Writer(statements[i], 0, {}, 0, false));
    }
  }

  // ---- the work there is -----------------------------------------------

  /** Every row its members touch, won or not. */
  ghost function EveryRow(members: seq<Member>): set<Key>
  {
    set i, row | 0 <= i < |members| && row in members[i].rows :: row
  }

  /** The steps a writer has left, at most. */
  ghost function Remaining(w: Writer): int
  {
    if w.committed then 0
    else if w.IsClaiming() then 1 + |EveryRow(w.members)| + |w.members| - w.asked
    else 1 + |w.Rows()| - w.taken
  }

  lemma ItsRowsAreAmongThem(w: Writer)
    ensures |w.Rows()| <= |EveryRow(w.members)|
  {
    var won := set i, row | 0 <= i < |w.members| && w.members[i].key in w.won && row in w.members[i].rows :: row;
    assert won <= EveryRow(w.members);
    InKeyOrderListsEveryKey(won);
    R.CardinalityIsMonotone(won, EveryRow(w.members));
  }

  ghost function WorkLeft(ws: seq<Writer>): int
  {
    if ws == [] then 0 else WorkLeft(ws[..|ws| - 1]) + Remaining(ws[|ws| - 1])
  }

  ghost predicate HasWork(ws: seq<Writer>)
  {
    forall i :: 0 <= i < |ws| ==> Remaining(ws[i]) >= 0
  }

  lemma ThereIsWork(s: State)
    requires Valid(s)
    ensures HasWork(s.writers)
  {
    forall i | 0 <= i < |s.writers| ensures Remaining(s.writers[i]) >= 0 {
      assert OnRows(s.writers)[i] == s.writers[i].OnRows();
    }
  }

  lemma {:induction false} WorkIsNotNegative(ws: seq<Writer>)
    requires HasWork(ws)
    ensures WorkLeft(ws) >= 0
    decreases |ws|
  {
    if ws != [] {
      WorkIsNotNegative(ws[..|ws| - 1]);
    }
  }

  lemma {:induction false} OneWriterWorks(ws: seq<Writer>, i: nat, w: Writer)
    requires i < |ws|
    ensures WorkLeft(ws[i := w]) == WorkLeft(ws) - Remaining(ws[i]) + Remaining(w)
    decreases |ws|
  {
    var n := |ws| - 1;
    if i < n {
      OneWriterWorks(ws[..n], i, w);
      assert ws[i := w][..n] == ws[..n][i := w];
    } else {
      assert ws[i := w][..n] == ws[..n];
    }
  }

  lemma AStepIsWork(s: State, i: nat)
    requires Valid(s) && i < |s.writers| && CanStep(s, i)
    ensures Remaining(Step(s, i).writers[i]) < Remaining(s.writers[i])
  {
    var w, next := s.writers[i], Step(s, i).writers[i];
    assert OnRows(s.writers)[i] == w.OnRows();
    if w.IsClaiming() {
      ItsRowsAreAmongThem(next);
    } else if w.taken < |w.Rows()| {
      assert next.Rows() == w.Rows();
    }
  }

  lemma EveryStepIsProgress(s: State, i: nat)
    requires Valid(s) && i < |s.writers| && CanStep(s, i)
    ensures Valid(Step(s, i)) && 0 <= WorkLeft(Step(s, i).writers) < WorkLeft(s.writers)
  {
    EveryStepKeepsValid(s, i);
    AStepIsWork(s, i);
    OneWriterWorks(s.writers, i, Step(s, i).writers[i]);
    assert Step(s, i).writers == s.writers[i := Step(s, i).writers[i]];
    ThereIsWork(Step(s, i));
    WorkIsNotNegative(Step(s, i).writers);
  }

  lemma {:induction false} ARunIsNoLongerThanItsWork(s: State, schedule: seq<nat>, t: State)
    requires Valid(s) && Follows(s, schedule, t)
    ensures Valid(t) && |schedule| + WorkLeft(t.writers) <= WorkLeft(s.writers)
    decreases |schedule|
  {
    if schedule != [] {
      EveryStepIsProgress(s, schedule[0]);
      ARunIsNoLongerThanItsWork(Step(s, schedule[0]), schedule[1..], t);
    }
  }

  // ---- what every state of a run keeps ---------------------------------

  function KeysUpTo(members: seq<Member>, n: nat): set<Claim>
  {
    set m | 0 <= m < n && m < |members| :: members[m].key
  }

  function Keys(members: seq<Member>): set<Claim> { KeysUpTo(members, |members|) }

  lemma OneKeyMore(members: seq<Member>, n: nat)
    requires n < |members|
    ensures KeysUpTo(members, n + 1) == KeysUpTo(members, n) + {members[n].key}
  {
  }

  /** A key it asked for it holds, or somebody durably does; never both. */
  ghost predicate HoldsWhatItAskedFor(w: Writer, durable: set<Claim>)
  {
    !w.committed ==> w.asked <= |w.members| && KeysUpTo(w.members, w.asked) <= durable + w.won && w.won !! durable
  }

  /** The keys of the writers that committed. */
  ghost function CommittedKeys(ws: seq<Writer>): set<Claim>
  {
    set i, key | 0 <= i < |ws| && ws[i].committed && key in Keys(ws[i].members) :: key
  }

  ghost predicate ComesFrom(s: State, statements: seq<seq<Member>>, durable: set<Claim>)
  {
    && |s.writers| == |statements| && (forall i :: 0 <= i < |statements| ==> s.writers[i].members == statements[i])
    && Valid(s) && s.durable == durable + CommittedKeys(s.writers)
    && forall i :: 0 <= i < |statements| ==> HoldsWhatItAskedFor(s.writers[i], s.durable)
  }

  lemma StatementsComeFromThemselves(statements: seq<seq<Member>>, durable: set<Claim>)
    ensures ComesFrom(Starting(statements, durable), statements, durable)
  {
    StatementsStartValid(statements, durable);
  }

  lemma AskingHoldsIt(w: Writer, durable: set<Claim>)
    requires w.IsClaiming() && HoldsWhatItAskedFor(w, durable)
    ensures HoldsWhatItAskedFor(Asked(w, durable), durable)
  {
    OneKeyMore(w.members, w.asked);
  }

  lemma NobodyCommits(ws: seq<Writer>, i: nat, w: Writer)
    requires i < |ws| && !ws[i].committed && !w.committed
    ensures CommittedKeys(ws[i := w]) == CommittedKeys(ws)
  {
    var next := ws[i := w];
    forall key | key in CommittedKeys(ws) ensures key in CommittedKeys(next) {
      var j :| 0 <= j < |ws| && ws[j].committed && key in Keys(ws[j].members);
      assert next[j] == ws[j];
    }
    forall key | key in CommittedKeys(next) ensures key in CommittedKeys(ws) {
      var j :| 0 <= j < |ws| && next[j].committed && key in Keys(next[j].members);
      assert next[j] == ws[j];
    }
  }

  lemma AskingComesFrom(s: State, i: nat, statements: seq<seq<Member>>, durable: set<Claim>)
    requires ComesFrom(s, statements, durable) && i < |s.writers| && CanStep(s, i) && s.writers[i].IsClaiming()
    ensures ComesFrom(Step(s, i), statements, durable)
  {
    EveryStepKeepsValid(s, i);
    AskingHoldsIt(s.writers[i], s.durable);
    NobodyCommits(s.writers, i, Step(s, i).writers[i]);
  }

  /** What one more commit makes durable: exactly its keys. */
  lemma CommittingComesFrom(s: State, i: nat, statements: seq<seq<Member>>, durable: set<Claim>)
    requires ComesFrom(s, statements, durable) && i < |s.writers| && CanStep(s, i)
    requires !s.writers[i].IsClaiming() && s.writers[i].taken >= |s.writers[i].Rows()|
    ensures ComesFrom(Step(s, i), statements, durable)
  {
    var w, next := s.writers[i], Step(s, i);
    EveryStepKeepsValid(s, i);
    assert !w.committed && w.asked == |w.members| && Keys(w.members) <= s.durable + w.won;
    assert w.won <= Keys(w.members) by {
      assert WonWereAsked(w);
    }
    assert CommittedKeys(next.writers) == CommittedKeys(s.writers) + Keys(w.members) by {
      CommittingAddsItsKeys(s.writers, i);
    }
    forall j | 0 <= j < |s.writers| && !next.writers[j].committed ensures next.writers[j].won !! next.durable {
      assert next.writers[j] == s.writers[j];
      forall key | key in s.writers[j].won ensures key !in w.won {
        assert s.writers[j].HoldsKey(key);
        if key in w.won {
          assert w.HoldsKey(key);
        }
      }
    }
  }

  lemma CommittingAddsItsKeys(ws: seq<Writer>, i: nat)
    requires i < |ws|
    ensures CommittedKeys(ws[i := ws[i].(committed := true)]) == CommittedKeys(ws) + Keys(ws[i].members)
  {
    var next := ws[i := ws[i].(committed := true)];
    forall key | key in CommittedKeys(ws) + Keys(ws[i].members) ensures key in CommittedKeys(next) {
      if key in Keys(ws[i].members) {
        assert next[i].committed;
      } else {
        var j :| 0 <= j < |ws| && ws[j].committed && key in Keys(ws[j].members);
        assert next[j].committed && next[j].members == ws[j].members;
      }
    }
  }

  lemma LockingComesFrom(s: State, i: nat, statements: seq<seq<Member>>, durable: set<Claim>)
    requires ComesFrom(s, statements, durable) && i < |s.writers| && CanStep(s, i)
    requires !s.writers[i].IsClaiming() && s.writers[i].taken < |s.writers[i].Rows()|
    ensures ComesFrom(Step(s, i), statements, durable)
  {
    EveryStepKeepsValid(s, i);
    NobodyCommits(s.writers, i, Step(s, i).writers[i]);
  }

  lemma AStepComesFrom(s: State, i: nat, statements: seq<seq<Member>>, durable: set<Claim>)
    requires ComesFrom(s, statements, durable) && i < |s.writers| && CanStep(s, i)
    ensures ComesFrom(Step(s, i), statements, durable)
  {
    if s.writers[i].IsClaiming() {
      AskingComesFrom(s, i, statements, durable);
    } else if s.writers[i].taken < |s.writers[i].Rows()| {
      LockingComesFrom(s, i, statements, durable);
    } else {
      CommittingComesFrom(s, i, statements, durable);
    }
  }

  lemma {:induction false} ARunComesFrom(s: State, schedule: seq<nat>, t: State, statements: seq<seq<Member>>, durable: set<Claim>)
    requires ComesFrom(s, statements, durable) && Follows(s, schedule, t)
    ensures ComesFrom(t, statements, durable)
    decreases |schedule|
  {
    if schedule != [] {
      AStepComesFrom(s, schedule[0], statements, durable);
      ARunComesFrom(Step(s, schedule[0]), schedule[1..], t, statements, durable);
    }
  }

  // ---- writers that agree about their keys -----------------------------

  /** One ranking of the keys that every writer's own order follows. */
  ghost predicate AgreeOn(statements: seq<seq<Member>>, rank: Claim -> nat)
  {
    forall members: seq<Member>, m, n :: members in statements && 0 <= m < n < |members| ==> rank(members[m].key) < rank(members[n].key)
  }

  /** The last in rank of the keys still waited for is not held by anybody. */
  lemma {:induction false} SomebodyClaimingCanStep(s: State, statements: seq<seq<Member>>, rank: Claim -> nat, i: nat, bound: nat) returns (k: nat)
    requires Valid(s) && AgreeOn(statements, rank)
    requires |s.writers| == |statements| && forall j :: 0 <= j < |statements| ==> s.writers[j].members == statements[j]
    requires forall j :: 0 <= j < |s.writers| && !s.writers[j].committed ==> s.writers[j].IsClaiming()
    requires i < |s.writers| && s.writers[i].IsClaiming()
    requires forall j, m :: 0 <= j < |s.writers| && 0 <= m < |s.writers[j].members| ==> rank(s.writers[j].members[m].key) < bound
    ensures k < |s.writers| && CanStep(s, k)
    decreases bound - rank(s.writers[i].members[s.writers[i].asked].key)
  {
    if CanStep(s, i) {
      return i;
    }
    var key := s.writers[i].members[s.writers[i].asked].key;
    var j :| 0 <= j < |s.writers| && j != i && s.writers[j].HoldsKey(key);
    assert statements[j] in statements && WonWereAsked(s.writers[j]);
    k := SomebodyClaimingCanStep(s, statements, rank, j, bound);
  }

  lemma {:induction false} RanksOfOneAreBounded(members: seq<Member>, rank: Claim -> nat) returns (bound: nat)
    ensures forall m :: 0 <= m < |members| ==> rank(members[m].key) < bound
  {
    if members == [] {
      return 0;
    }
    bound := RanksOfOneAreBounded(members[1..], rank);
    bound := bound + rank(members[0].key) + 1;
  }

  lemma {:induction false} RanksAreBounded(ws: seq<Writer>, rank: Claim -> nat) returns (bound: nat)
    ensures forall j, m :: 0 <= j < |ws| && 0 <= m < |ws[j].members| ==> rank(ws[j].members[m].key) < bound
  {
    if ws == [] {
      return 0;
    }
    var first := RanksOfOneAreBounded(ws[0].members, rank);
    var rest := RanksAreBounded(ws[1..], rank);
    bound := first + rest;
    forall j, m | 0 <= j < |ws| && 0 <= m < |ws[j].members| ensures rank(ws[j].members[m].key) < bound {
      if j > 0 {
        assert ws[1..][j - 1] == ws[j];
      }
    }
  }

  /** Past the keys, the rows alone decide: some writer that has asked for all its keys
      can step. */
  lemma SomebodyOnRowsCanStep(s: State, i: nat) returns (k: nat)
    requires Valid(s) && i < |s.writers| && !s.writers[i].committed && !s.writers[i].IsClaiming()
    ensures k < |s.writers| && CanStep(s, k)
  {
    var ws := OnRows(s.writers);
    assert !ws[i].committed;
    R.RowLocksCannotDeadlock(ws);
    k :| 0 <= k < |ws| && R.CanStep(ws, k);
    assert !s.writers[k].IsClaiming();
  }

  ghost predicate AllCommitted(ws: seq<Writer>)
  {
    forall i :: 0 <= i < |ws| ==> ws[i].committed
  }

  /** No deadlock over keys and rows together, for any number of writers whose keys
      follow one order. */
  lemma KeysInOneOrderCannotDeadlock(s: State, statements: seq<seq<Member>>, durable: set<Claim>, rank: Claim -> nat)
    requires ComesFrom(s, statements, durable) && AgreeOn(statements, rank) && !AllCommitted(s.writers)
    ensures exists k :: 0 <= k < |s.writers| && CanStep(s, k)
  {
    var i :| 0 <= i < |s.writers| && !s.writers[i].committed;
    var k;
    if j :| 0 <= j < |s.writers| && !s.writers[j].committed && !s.writers[j].IsClaiming() {
      k := SomebodyOnRowsCanStep(s, j);
    } else {
      var bound := RanksAreBounded(s.writers, rank);
      k := SomebodyClaimingCanStep(s, statements, rank, i, bound);
    }
  }

  /** No run of statements, whatever their keys, is longer than the keys they ask for, the
      rows they touch and their commits. */
  lemma EveryRunIsBounded(statements: seq<seq<Member>>, durable: set<Claim>, schedule: seq<nat>, t: State)
    requires Follows(Starting(statements, durable), schedule, t)
    ensures ComesFrom(t, statements, durable) && |schedule| <= WorkLeft(Starting(statements, durable).writers)
  {
    StatementsComeFromThemselves(statements, durable);
    ARunComesFrom(Starting(statements, durable), schedule, t, statements, durable);
    ARunIsNoLongerThanItsWork(Starting(statements, durable), schedule, t);
    ThereIsWork(t);
    WorkIsNotNegative(t.writers);
  }

  /** Where their keys follow one order, a run is over only when all have committed. */
  lemma StatementsInOneOrderAlwaysFinish(statements: seq<seq<Member>>, durable: set<Claim>, rank: Claim -> nat, schedule: seq<nat>, t: State)
    requires AgreeOn(statements, rank) && Follows(Starting(statements, durable), schedule, t)
    ensures |schedule| <= WorkLeft(Starting(statements, durable).writers)
    ensures (forall k :: 0 <= k < |t.writers| ==> !CanStep(t, k)) <==> AllCommitted(t.writers)
  {
    EveryRunIsBounded(statements, durable, schedule, t);
    if !AllCommitted(t.writers) {
      KeysInOneOrderCannotDeadlock(t, statements, durable, rank);
    }
  }
}
