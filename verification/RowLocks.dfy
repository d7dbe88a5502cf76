/** Concurrent statements on shared balance rows. Each takes the rows of its
    coalesced deltas one at a time, in one order, and holds them until it commits. */
module RowLocks {
  import opened Bytes
  import opened Postings
  import opened KeyOrder
  import Order

  /** A statement with `taken` of its rows locked; committing releases them. */
  datatype Writer = Writer(rows: seq<Key>, taken: nat, committed: bool)
  {
    predicate Holds(row: Key)
    {
      !committed && taken <= |rows| && row in rows[..taken]
    }

    predicate Wants() { !committed && taken < |rows| }

    function Remaining(): nat
      requires taken <= |rows|
    {
      if committed then 0 else 1 + |rows| - taken
    }
  }

  type Writers = seq<Writer>

  /** Nobody else holds the row writer `i` wants next. */
  predicate IsFree(ws: Writers, i: nat)
    requires i < |ws| && ws[i].Wants()
  {
    forall j :: 0 <= j < |ws| && j != i ==> !ws[j].Holds(ws[i].rows[ws[i].taken])
  }

  predicate CanStep(ws: Writers, i: nat)
    requires i < |ws|
  {
    if ws[i].Wants() then IsFree(ws, i) else !ws[i].committed
  }

  /** Lock the next row, or commit once all are held. */
  function Step(ws: Writers, i: nat): Writers
    requires i < |ws| && CanStep(ws, i)
  {
    if ws[i].Wants() then ws[i := ws[i].(taken := ws[i].taken + 1)] else ws[i := ws[i].(committed := true)]
  }

  ghost predicate Valid(ws: Writers)
  {
    && (forall i :: 0 <= i < |ws| ==> ws[i].taken <= |ws[i].rows| && Order.Ascending(Ranks(ws[i].rows)))
    && forall i, j, row :: 0 <= i < j < |ws| && ws[i].Holds(row) ==> !ws[j].Holds(row)
  }

  /** A statement locks the rows of its deltas, in key order. */
  ghost function Starting(statements: seq<seq<Leg>>): Writers
  {
    seq(|statements|, i requires 0 <= i < |statements| => Writer(InKeyOrder(Deltas(statements[i]).Keys), 0, false))
  }

  lemma StatementsStartValid(statements: seq<seq<Leg>>)
    ensures Valid(Starting(statements))
  {
    forall i | 0 <= i < |statements| ensures Order.Ascending(Ranks(Starting(statements)[i].rows)) {
      InKeyOrderAscends(Deltas(statements[i]).Keys);
    }
  }

  lemma SteppingKeepsExclusion(ws: Writers, i: nat)
    requires Valid(ws) && i < |ws| && CanStep(ws, i)
    ensures Valid(Step(ws, i))
  {
    var next := Step(ws, i);
    forall row ensures next[i].Holds(row) ==> ws[i].Holds(row) || (ws[i].Wants() && row == ws[i].rows[ws[i].taken]) {
      if ws[i].Wants() {
        assert ws[i].rows[..ws[i].taken + 1] == ws[i].rows[..ws[i].taken] + [ws[i].rows[ws[i].taken]];
      }
    }
    forall a, b, row | 0 <= a < b < |next| && next[a].Holds(row) ensures !next[b].Holds(row) {
      if a != i && b != i {
        assert ws[a].Holds(row);
      }
    }
  }

  /** The writers waiting for a row past the one writer `i` wants. */
  ghost function WaitingBeyond(ws: Writers, i: nat): set<nat>
    requires i < |ws| && ws[i].Wants()
  {
    set j | 0 <= j < |ws| && ws[j].Wants() && Precedes(ws[i].rows[ws[i].taken], ws[j].rows[ws[j].taken])
  }

  /** Follow the chain of who blocks whom: the rows wanted only ascend along it,
      so it ends at a writer that can step. */
  lemma {:induction false} SomebodyAheadCanStep(ws: Writers, i: nat) returns (k: nat)
    requires Valid(ws) && i < |ws| && !ws[i].committed
    ensures k < |ws| && CanStep(ws, k)
    decreases if ws[i].Wants() then 1 + |WaitingBeyond(ws, i)| else 0
  {
    if CanStep(ws, i) {
      return i;
    }
    var wanted := ws[i].rows[ws[i].taken];
    var j :| 0 <= j < |ws| && j != i && ws[j].Holds(wanted);
    if ws[j].Wants() {
      WantsPastWhatItHolds(ws[j], wanted);
      var past := ws[j].rows[ws[j].taken];
      forall x | x in WaitingBeyond(ws, j) ensures x in WaitingBeyond(ws, i) {
        Order.Transitive(wanted.Rank(), past.Rank(), ws[x].rows[ws[x].taken].Rank());
      }
      Order.Irreflexive(past.Rank());
      assert j in WaitingBeyond(ws, i) && j !in WaitingBeyond(ws, j);
      SmallerSet(WaitingBeyond(ws, j), WaitingBeyond(ws, i), j);
    }
    k := SomebodyAheadCanStep(ws, j);
  }

  lemma WantsPastWhatItHolds(w: Writer, held: Key)
    requires w.Wants() && w.Holds(held) && Order.Ascending(Ranks(w.rows))
    ensures Precedes(held, w.rows[w.taken])
  {
    var at :| 0 <= at < w.taken && w.rows[at] == held;
    assert Ranks(w.rows)[at] == held.Rank() && Ranks(w.rows)[w.taken] == w.rows[w.taken].Rank();
  }

  lemma SmallerSet(small: set<nat>, large: set<nat>, missing: nat)
    requires small <= large && missing in large && missing !in small
    ensures |small| < |large|
  {
    assert small <= large - {missing};
    CardinalityIsMonotone(small, large - {missing});
  }

  lemma {:induction false} CardinalityIsMonotone<T>(a: set<T>, b: set<T>)
    requires a <= b
    ensures |a| <= |b|
    decreases |a|
  {
    if a != {} {
      var x :| x in a;
      CardinalityIsMonotone(a - {x}, b - {x});
    }
  }

  /** No deadlock: whatever the interleaving, while a writer is unfinished some
      writer can step. */
  lemma RowLocksCannotDeadlock(ws: Writers)
    requires Valid(ws)
    requires exists i :: 0 <= i < |ws| && !ws[i].committed
    ensures exists k :: 0 <= k < |ws| && CanStep(ws, k)
  {
    var i :| 0 <= i < |ws| && !ws[i].committed;
    var k := SomebodyAheadCanStep(ws, i);
  }

  /** And so every run of steps reaches the end: the work left only shrinks. */
  function WorkLeft(ws: Writers): nat
    requires forall i :: 0 <= i < |ws| ==> ws[i].taken <= |ws[i].rows|
  {
    if ws == [] then 0 else ws[0].Remaining() + WorkLeft(ws[1..])
  }

  lemma {:induction false} EveryStepIsProgress(ws: Writers, i: nat)
    requires Valid(ws) && i < |ws| && CanStep(ws, i)
    ensures Valid(Step(ws, i)) && WorkLeft(Step(ws, i)) == WorkLeft(ws) - 1
  {
    SteppingKeepsExclusion(ws, i);
    OneWriterSteps(ws, i, Step(ws, i)[i]);
  }

  lemma {:induction false} OneWriterSteps(ws: Writers, i: nat, w: Writer)
    requires i < |ws|
    requires forall j :: 0 <= j < |ws| ==> ws[j].taken <= |ws[j].rows|
    requires w.taken <= |w.rows| && w.Remaining() == ws[i].Remaining() - 1
    ensures WorkLeft(ws[i := w]) == WorkLeft(ws) - 1
    decreases i
  {
    if i == 0 {
      assert ws[0 := w][1..] == ws[1..];
    } else {
      assert ws[i := w][1..] == ws[1..][i - 1 := w];
      OneWriterSteps(ws[1..], i - 1, w);
    }
  }

  // ---- whole runs ------------------------------------------------------

  /** Whichever writer the schedule names steps next. */
  ghost predicate Follows(ws: Writers, schedule: seq<nat>, end: Writers)
    decreases |schedule|
  {
    if schedule == [] then ws == end
    else schedule[0] < |ws| && CanStep(ws, schedule[0]) && Follows(Step(ws, schedule[0]), schedule[1..], end)
  }

  ghost predicate AllCommitted(ws: Writers)
  {
    forall i :: 0 <= i < |ws| ==> ws[i].committed
  }

  /** Every step is one unit of the work there is. */
  lemma {:induction false} ARunIsAsLongAsItsWork(ws: Writers, schedule: seq<nat>, end: Writers)
    requires Valid(ws) && Follows(ws, schedule, end)
    ensures Valid(end) && |schedule| + WorkLeft(end) == WorkLeft(ws)
    decreases |schedule|
  {
    if schedule != [] {
      EveryStepIsProgress(ws, schedule[0]);
      ARunIsAsLongAsItsWork(Step(ws, schedule[0]), schedule[1..], end);
    }
  }

  /** Whatever was scheduled so far, the writers can all still finish. */
  lemma {:induction false} EverybodyCanFinish(ws: Writers) returns (schedule: seq<nat>, end: Writers)
    requires Valid(ws)
    ensures Follows(ws, schedule, end) && AllCommitted(end)
    decreases WorkLeft(ws)
  {
    if AllCommitted(ws) {
      schedule, end := [], ws;
    } else {
      RowLocksCannotDeadlock(ws);
      var k :| 0 <= k < |ws| && CanStep(ws, k);
      EveryStepIsProgress(ws, k);
      var rest;
      rest, end := EverybodyCanFinish(Step(ws, k));
      schedule := [k] + rest;
      assert schedule[1..] == rest;
    }
  }

  /** The statements' own runs: however they interleave, a run is never longer than the
      rows they lock and their commits, and it is over only when all have committed. */
  lemma StatementsAlwaysFinish(statements: seq<seq<Leg>>, schedule: seq<nat>, end: Writers)
    requires Follows(Starting(statements), schedule, end)
    ensures Valid(Starting(statements)) && |schedule| <= WorkLeft(Starting(statements))
    ensures (forall k :: 0 <= k < |end| ==> !CanStep(end, k)) <==> AllCommitted(end)
  {
    StatementsStartValid(statements);
    ARunIsAsLongAsItsWork(Starting(statements), schedule, end);
    if !AllCommitted(end) {
      RowLocksCannotDeadlock(end);
    }
  }

  /** And from wherever a run has come, some way on finishes them all. */
  lemma StatementsCanAlwaysFinish(statements: seq<seq<Leg>>, schedule: seq<nat>, end: Writers) returns (rest: seq<nat>, done: Writers)
    requires Follows(Starting(statements), schedule, end)
    ensures Follows(end, rest, done) && AllCommitted(done)
  {
    StatementsStartValid(statements);
    ARunIsAsLongAsItsWork(Starting(statements), schedule, end);
    rest, done := EverybodyCanFinish(end);
  }

  /** The order is load-bearing: two statements that disagree about it stop each
      other. */
  lemma DisagreeingOrdersDeadlock() returns (ws: Writers)
    ensures |ws| == 2 && !ws[0].committed && !ws[1].committed
    ensures forall i, j, row :: 0 <= i < j < |ws| && ws[i].Holds(row) ==> !ws[j].Holds(row)
    ensures !CanStep(ws, 0) && !CanStep(ws, 1)
  {
    var first, second := Key(1, Ascii("USD")), Key(2, Ascii("USD"));
    assert first.account != second.account;
    ws := [Writer([first, second], 1, false), Writer([second, first], 1, false)];
    assert ws[0].rows[..1] == [first] && ws[1].rows[..1] == [second];
    assert ws[0].Holds(first) && ws[1].Holds(second);
  }
}
