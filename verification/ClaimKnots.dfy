/** When statements that claim their keys in any order can stop each other for good:
    exactly where some of them can be stood, each at a key another already holds. */
module ClaimKnots {
  import opened KeyClaims

  ghost predicate IsStuck(s: State)
  {
    !AllCommitted(s.writers) && forall k :: 0 <= k < |s.writers| ==> !CanStep(s, k)
  }

  ghost predicate MayReach(s: State, t: State)
  {
    exists schedule :: Follows(s, schedule, t)
  }

  // ---- knots, of statements alone --------------------------------------

  /** A statement already over, or about to ask for its next key after `asked`. */
  datatype Stand = Finished | At(asked: nat)

  /** The keys of the statements already over. */
  ghost function SettledKeys(statements: seq<seq<Member>>, stands: seq<Stand>): set<Claim>
    requires |stands| == |statements|
  {
    set i, key | 0 <= i < |stands| && stands[i].Finished? && key in Keys(statements[i]) :: key
  }

  /** Statement `i` asks next for a key another one standing has asked for. */
  predicate IsTied(statements: seq<seq<Member>>, stands: seq<Stand>, settled: set<Claim>, i: nat)
    requires |stands| == |statements| && i < |stands| && stands[i].At?
  {
    && stands[i].asked < |statements[i]|
    && statements[i][stands[i].asked].key !in settled
    && exists j :: 0 <= j < |stands| && j != i && stands[j].At? && statements[i][stands[i].asked].key in KeysUpTo(statements[j], stands[j].asked)
  }

  ghost predicate AllTied(statements: seq<seq<Member>>, stands: seq<Stand>, settled: set<Claim>)
    requires |stands| == |statements|
  {
    forall i {:trigger IsTied(statements, stands, settled, i)} :: 0 <= i < |stands| && stands[i].At? ==> IsTied(statements, stands, settled, i)
  }

  /** What two have asked for so far is apart, but for keys already settled. */
  predicate AreApart(a: seq<Member>, m: nat, b: seq<Member>, n: nat, settled: set<Claim>)
  {
    KeysUpTo(a, m) * KeysUpTo(b, n) <= settled
  }

  /** Two that both stand are apart. */
  ghost predicate AllApart(statements: seq<seq<Member>>, stands: seq<Stand>, settled: set<Claim>)
    requires |stands| == |statements|
  {
    forall i, j :: 0 <= i < j < |stands| && stands[i].At? && stands[j].At?
      ==> AreApart(statements[i], stands[i].asked, statements[j], stands[j].asked, settled)
  }

  /** Some statements over, the others each tied to one another. */
  ghost predicate IsKnot(statements: seq<seq<Member>>, stands: seq<Stand>, durable: set<Claim>)
  {
    |stands| == |statements| && var settled := durable + SettledKeys(statements, stands);
    && (exists i :: 0 <= i < |stands| && stands[i].At?)
    && AllTied(statements, stands, settled)
    && AllApart(statements, stands, settled)
  }

  // ---- a stuck state is a knot -----------------------------------------

  /** Where the writers of a state stand. */
  function StandsOf(s: State): (stands: seq<Stand>)
    ensures |stands| == |s.writers|
  {
    seq(|s.writers|, i requires 0 <= i < |s.writers| => if s.writers[i].committed then Finished else At(s.writers[i].asked))
  }

  lemma WhatIsSettled(s: State, statements: seq<seq<Member>>, durable: set<Claim>)
    requires ComesFrom(s, statements, durable)
    ensures durable + SettledKeys(statements, StandsOf(s)) == s.durable
  {
    var stands := StandsOf(s);
    forall key | key in CommittedKeys(s.writers) ensures key in SettledKeys(statements, stands) {
      var i :| 0 <= i < |s.writers| && s.writers[i].committed && key in Keys(s.writers[i].members);
      assert stands[i].Finished? && key in Keys(statements[i]);
    }
    forall key | key in SettledKeys(statements, stands) ensures key in CommittedKeys(s.writers) {
      var i :| 0 <= i < |stands| && stands[i].Finished? && key in Keys(statements[i]);
      assert s.writers[i].committed && key in Keys(s.writers[i].members);
    }
  }

  /** A writer that cannot step waits for a key another one holds. */
  lemma WhoIsStuckWaits(s: State, i: nat) returns (j: nat)
    requires Valid(s) && IsStuck(s) && i < |s.writers| && !s.writers[i].committed
    ensures s.writers[i].IsClaiming()
    ensures j < |s.writers| && j != i && s.writers[j].HoldsKey(s.writers[i].members[s.writers[i].asked].key)
  {
    if !s.writers[i].IsClaiming() {
      var k := SomebodyOnRowsCanStep(s, i);
    }
    assert !CanStep(s, i);
    j :| 0 <= j < |s.writers| && j != i && s.writers[j].HoldsKey(s.writers[i].members[s.writers[i].asked].key);
  }

  lemma WonIsAmongAsked(w: Writer)
    requires WonWereAsked(w)
    ensures w.won <= KeysUpTo(w.members, w.asked)
  {
  }

  lemma AStuckWriterIsTied(s: State, statements: seq<seq<Member>>, durable: set<Claim>, i: nat)
    requires ComesFrom(s, statements, durable) && IsStuck(s) && i < |s.writers| && !s.writers[i].committed
    ensures IsTied(statements, StandsOf(s), s.durable, i)
  {
    var j := WhoIsStuckWaits(s, i);
    WonIsAmongAsked(s.writers[j]);
    assert StandsOf(s)[j].At? && StandsOf(s)[i].asked == s.writers[i].asked;
  }

  lemma WritersAreApart(s: State, statements: seq<seq<Member>>, durable: set<Claim>, i: nat, j: nat)
    requires ComesFrom(s, statements, durable) && i < j < |s.writers| && !s.writers[i].committed && !s.writers[j].committed
    ensures AreApart(statements[i], s.writers[i].asked, statements[j], s.writers[j].asked, s.durable)
  {
    var v, w := s.writers[i], s.writers[j];
    assert HoldsWhatItAskedFor(v, s.durable) && HoldsWhatItAskedFor(w, s.durable);
    forall key | key in KeysUpTo(v.members, v.asked) && key in KeysUpTo(w.members, w.asked) ensures key in s.durable {
      if key !in s.durable {
        assert v.HoldsKey(key) && w.HoldsKey(key);
      }
    }
  }

  lemma AStuckStateIsAKnot(s: State, statements: seq<seq<Member>>, durable: set<Claim>)
    requires ComesFrom(s, statements, durable) && IsStuck(s)
    ensures IsKnot(statements, StandsOf(s), durable)
  {
    var stands := StandsOf(s);
    WhatIsSettled(s, statements, durable);
    var first :| 0 <= first < |s.writers| && !s.writers[first].committed;
    assert stands[first].At?;
    forall i | 0 <= i < |stands| && stands[i].At? ensures IsTied(statements, stands, s.durable, i) {
      AStuckWriterIsTied(s, statements, durable, i);
    }
    forall i, j | 0 <= i < j < |stands| && stands[i].At? && stands[j].At?
      ensures AreApart(statements[i], stands[i].asked, statements[j], stands[j].asked, s.durable) {
      WritersAreApart(s, statements, durable, i, j);
    }
  }

  // ---- and every knot can be tied --------------------------------------

  predicate IsIdle(w: Writer) { !w.committed && w.asked == 0 && w.won == {} && w.taken == 0 }

  /** Nobody but writer `i` holds anything. */
  predicate IsAlone(s: State, i: nat)
  {
    forall j :: 0 <= j < |s.writers| && j != i ==> s.writers[j].committed || IsIdle(s.writers[j])
  }

  lemma AloneItCanStep(s: State, i: nat)
    requires Valid(s) && i < |s.writers| && !s.writers[i].committed && IsAlone(s, i)
    ensures CanStep(s, i)
  {
    var ws := OnRows(s.writers);
    if !s.writers[i].IsClaiming() {
      forall j, row | 0 <= j < |ws| && j != i ensures !ws[j].Holds(row) {
        assert s.writers[j].committed || IsIdle(s.writers[j]);
      }
    }
  }

  /** Alone, a statement runs to its commit. */
  lemma {:induction false} AloneItFinishes(s: State, i: nat, statements: seq<seq<Member>>, durable: set<Claim>) returns (schedule: seq<nat>, t: State)
    requires ComesFrom(s, statements, durable) && i < |s.writers| && !s.writers[i].committed && IsAlone(s, i)
    ensures Follows(s, schedule, t) && ComesFrom(t, statements, durable)
    ensures t.writers[i].committed && forall j :: 0 <= j < |s.writers| && j != i ==> t.writers[j] == s.writers[j]
    decreases WorkLeft(s.writers)
  {
    AloneItCanStep(s, i);
    EveryStepIsProgress(s, i);
    AStepComesFrom(s, i, statements, durable);
    var next := Step(s, i);
    assert forall j :: 0 <= j < |s.writers| && j != i ==> next.writers[j] == s.writers[j];
    var rest;
    if next.writers[i].committed {
      rest, t := [], next;
    } else {
      rest, t := AloneItFinishes(next, i, statements, durable);
    }
    schedule := [i] + rest;
    assert schedule[1..] == rest;
  }

  /** The first `n` of those that finish have, and nobody else has begun. */
  predicate AreOver(s: State, stands: seq<Stand>, n: nat)
    requires |stands| == |s.writers|
  {
    forall i :: 0 <= i < |stands| ==> if i < n && stands[i].Finished? then s.writers[i].committed else IsIdle(s.writers[i])
  }

  lemma OneMoreIsOver(s: State, stands: seq<Stand>, n: nat, statements: seq<seq<Member>>, durable: set<Claim>) returns (schedule: seq<nat>, t: State)
    requires ComesFrom(s, statements, durable) && n < |stands| == |statements| && AreOver(s, stands, n)
    ensures Follows(s, schedule, t) && ComesFrom(t, statements, durable) && AreOver(t, stands, n + 1)
  {
    schedule, t := [], s;
    if stands[n].Finished? {
      schedule, t := AloneItFinishes(s, n, statements, durable);
    }
  }

  lemma {:induction false} FinishTheFinished(s: State, statements: seq<seq<Member>>, durable: set<Claim>, stands: seq<Stand>, n: nat)
    returns (schedule: seq<nat>, t: State)
    requires n <= |stands| == |statements| && ComesFrom(s, statements, durable) && AreOver(s, stands, 0)
    ensures Follows(s, schedule, t) && ComesFrom(t, statements, durable) && AreOver(t, stands, n)
  {
    if n == 0 {
      schedule, t := [], s;
    } else {
      var before, more;
      schedule, before := FinishTheFinished(s, statements, durable, stands, n - 1);
      more, t := OneMoreIsOver(before, stands, n - 1, statements, durable);
      OneAfterAnother(s, schedule, before, more, t);
      schedule := schedule + more;
    }
  }

  /** A writer asks on for as long as nobody holds what it asks for. */
  lemma {:induction false} AskOn(s: State, i: nat, at: nat, statements: seq<seq<Member>>, durable: set<Claim>) returns (schedule: seq<nat>, t: State)
    requires ComesFrom(s, statements, durable) && i < |s.writers| && !s.writers[i].committed && s.writers[i].asked <= at <= |statements[i]|
    requires forall j, k :: 0 <= j < |s.writers| && j != i && 0 <= k < at ==> !s.writers[j].HoldsKey(statements[i][k].key)
    ensures Follows(s, schedule, t) && ComesFrom(t, statements, durable) && t.durable == s.durable
    ensures !t.writers[i].committed && t.writers[i].asked == at
    ensures forall j :: 0 <= j < |s.writers| && j != i ==> t.writers[j] == s.writers[j]
    decreases at - s.writers[i].asked
  {
    if s.writers[i].asked == at {
      schedule, t := [], s;
    } else {
      assert CanStep(s, i);
      AStepComesFrom(s, i, statements, durable);
      var rest;
      rest, t := AskOn(Step(s, i), i, at, statements, durable);
      schedule := [i] + rest;
      assert schedule[1..] == rest;
    }
  }

  /** The first `n` stand where they are to stand; the rest of those have not begun. */
  predicate AreStanding(s: State, stands: seq<Stand>, n: nat)
    requires |stands| == |s.writers|
  {
    forall i :: 0 <= i < |stands| ==>
      if stands[i].Finished? then s.writers[i].committed
      else if i < n then !s.writers[i].committed && s.writers[i].asked == stands[i].asked
      else IsIdle(s.writers[i])
  }

  lemma NobodyHoldsItYet(s: State, stands: seq<Stand>, n: nat, statements: seq<seq<Member>>, durable: set<Claim>, j: nat, k: nat)
    requires ComesFrom(s, statements, durable) && n < |stands| == |statements| && AreStanding(s, stands, n) && stands[n].At?
    requires j < |stands| && j != n && k < stands[n].asked < |statements[n]|
    requires j < n && stands[j].At? ==> AreApart(statements[j], stands[j].asked, statements[n], stands[n].asked, s.durable)
    ensures !s.writers[j].HoldsKey(statements[n][k].key)
  {
    var w, key := s.writers[j], statements[n][k].key;
    WonIsAmongAsked(w);
    assert HoldsWhatItAskedFor(w, s.durable);
    assert key in KeysUpTo(statements[n], stands[n].asked);
  }

  lemma OneMoreStands(s: State, stands: seq<Stand>, n: nat, statements: seq<seq<Member>>, durable: set<Claim>) returns (schedule: seq<nat>, t: State)
    requires ComesFrom(s, statements, durable) && n < |stands| == |statements| && AreStanding(s, stands, n)
    requires stands[n].At? ==> stands[n].asked < |statements[n]|
    requires AllApart(statements, stands, s.durable)
    ensures Follows(s, schedule, t) && ComesFrom(t, statements, durable) && AreStanding(t, stands, n + 1) && t.durable == s.durable
  {
    schedule, t := [], s;
    if stands[n].At? {
      var at := stands[n].asked;
      forall j, k | 0 <= j < |s.writers| && j != n && 0 <= k < at ensures !s.writers[j].HoldsKey(statements[n][k].key) {
        NobodyHoldsItYet(s, stands, n, statements, durable, j, k);
      }
      schedule, t := AskOn(s, n, at, statements, durable);
    }
  }

  lemma {:induction false} StandTheStanding(statements: seq<seq<Member>>, durable: set<Claim>, stands: seq<Stand>, s: State, n: nat)
    returns (schedule: seq<nat>, t: State)
    requires ComesFrom(s, statements, durable) && n <= |stands| == |statements| && AreStanding(s, stands, 0)
    requires forall i :: 0 <= i < |stands| && stands[i].At? ==> stands[i].asked < |statements[i]|
    requires AllApart(statements, stands, s.durable)
    ensures Follows(s, schedule, t) && ComesFrom(t, statements, durable) && AreStanding(t, stands, n) && t.durable == s.durable
  {
    if n == 0 {
      schedule, t := [], s;
    } else {
      var before, more;
      schedule, before := StandTheStanding(statements, durable, stands, s, n - 1);
      more, t := OneMoreStands(before, stands, n - 1, statements, durable);
      OneAfterAnother(s, schedule, before, more, t);
      schedule := schedule + more;
    }
  }

  lemma TiedMeansStuck(t: State, statements: seq<seq<Member>>, durable: set<Claim>, stands: seq<Stand>, i: nat)
    requires ComesFrom(t, statements, durable) && |stands| == |statements| && AreStanding(t, stands, |stands|)
    requires i < |stands| && stands[i].At? && IsTied(statements, stands, t.durable, i)
    ensures !CanStep(t, i)
  {
    var key := statements[i][stands[i].asked].key;
    var j :| 0 <= j < |stands| && j != i && stands[j].At? && key in KeysUpTo(statements[j], stands[j].asked);
    assert HoldsWhatItAskedFor(t.writers[j], t.durable);
    assert t.writers[j].HoldsKey(key);
  }

  lemma StandingInAKnotIsStuck(t: State, statements: seq<seq<Member>>, durable: set<Claim>, stands: seq<Stand>)
    requires ComesFrom(t, statements, durable) && |stands| == |statements| && AreStanding(t, stands, |stands|)
    requires exists i :: 0 <= i < |stands| && stands[i].At?
    requires AllTied(statements, stands, t.durable)
    ensures IsStuck(t)
  {
    var first :| 0 <= first < |stands| && stands[first].At?;
    assert !t.writers[first].committed;
    forall k | 0 <= k < |t.writers| ensures !CanStep(t, k) {
      if stands[k].At? {
        assert IsTied(statements, stands, t.durable, k);
        TiedMeansStuck(t, statements, durable, stands, k);
      }
    }
  }

  lemma AKnotCanBeTiedFrom(s: State, statements: seq<seq<Member>>, durable: set<Claim>, stands: seq<Stand>) returns (t: State)
    requires ComesFrom(s, statements, durable) && IsKnot(statements, stands, durable) && AreOver(s, stands, 0)
    ensures MayReach(s, t) && IsStuck(t)
  {
    var x, over := FinishTheFinished(s, statements, durable, stands, |stands|);
    WhatIsOver(over, statements, durable, stands);
    forall i | 0 <= i < |stands| && stands[i].At? ensures stands[i].asked < |statements[i]| {
      assert IsTied(statements, stands, over.durable, i);
    }
    var y;
    y, t := StandTheStanding(statements, durable, stands, over, |stands|);
    OneAfterAnother(s, x, over, y, t);
    StandingInAKnotIsStuck(t, statements, durable, stands);
  }

  lemma AKnotCanBeTied(statements: seq<seq<Member>>, durable: set<Claim>, stands: seq<Stand>) returns (t: State)
    requires IsKnot(statements, stands, durable)
    ensures MayReach(Starting(statements, durable), t) && IsStuck(t)
  {
    StatementsComeFromThemselves(statements, durable);
    t := AKnotCanBeTiedFrom(Starting(statements, durable), statements, durable, stands);
  }

  lemma WhatIsOver(s: State, statements: seq<seq<Member>>, durable: set<Claim>, stands: seq<Stand>)
    requires ComesFrom(s, statements, durable) && |stands| == |statements| && AreOver(s, stands, |stands|)
    ensures s.durable == durable + SettledKeys(statements, stands) && AreStanding(s, stands, 0)
  {
    WhatIsSettled(s, statements, durable);
    forall i | 0 <= i < |stands| ensures StandsOf(s)[i].Finished? == stands[i].Finished? {
    }
    SameFinishedSameSettled(statements, StandsOf(s), stands);
  }

  lemma SameFinishedSameSettled(statements: seq<seq<Member>>, one: seq<Stand>, other: seq<Stand>)
    requires |one| == |other| == |statements| && forall i :: 0 <= i < |one| ==> one[i].Finished? == other[i].Finished?
    ensures SettledKeys(statements, one) == SettledKeys(statements, other)
  {
  }

  /** Any number of statements can stop each other if and only if they can be stood in a
      knot: some of them over, every other one waiting for a key another standing one
      holds, and no two holding one. */
  lemma StatementsDeadlockExactlyAtAKnot(statements: seq<seq<Member>>, durable: set<Claim>)
    ensures (exists t :: MayReach(Starting(statements, durable), t) && IsStuck(t)) <==> (exists stands :: IsKnot(statements, stands, durable))
  {
    if stands :| IsKnot(statements, stands, durable) {
      var t := AKnotCanBeTied(statements, durable, stands);
    }
    if t :| MayReach(Starting(statements, durable), t) && IsStuck(t) {
      var schedule :| Follows(Starting(statements, durable), schedule, t);
      EveryRunIsBounded(statements, durable, schedule, t);
      AStuckStateIsAKnot(t, statements, durable);
    }
  }

  // ---- two statements --------------------------------------------------

  /** Both ask for it, and nobody holds it yet. */
  predicate IsContested(key: Claim, a: seq<Member>, b: seq<Member>, durable: set<Claim>)
  {
    key !in durable && key in Keys(a) && key in Keys(b)
  }

  /** The first contested key on the way of the one that asks for `members`. */
  function FirstContested(members: seq<Member>, a: seq<Member>, b: seq<Member>, durable: set<Claim>): (m: nat)
    ensures m <= |members|
    ensures forall k :: 0 <= k < m ==> !IsContested(members[k].key, a, b, durable)
    ensures m < |members| ==> IsContested(members[m].key, a, b, durable)
  {
    if members == [] then 0
    else if IsContested(members[0].key, a, b, durable) then 0
    else
      var rest := FirstContested(members[1..], a, b, durable);
      assert forall k :: 0 < k <= rest && k < |members| ==> members[k] == members[1..][k - 1];
      1 + rest
  }

  /** They contest some key, and each comes first to a different one. */
  predicate DisagreeOnTheFirst(a: seq<Member>, b: seq<Member>, durable: set<Claim>)
  {
    var m, n := FirstContested(a, a, b, durable), FirstContested(b, a, b, durable);
    m < |a| && n < |b| && a[m].key != b[n].key
  }

  /** Each stands at a key the other has asked for. */
  ghost predicate IsKnotOfTwo(a: seq<Member>, m: nat, b: seq<Member>, n: nat, durable: set<Claim>)
  {
    && m < |a| && a[m].key in KeysUpTo(b, n) && a[m].key !in durable
    && n < |b| && b[n].key in KeysUpTo(a, m) && b[n].key !in durable
    && AreApart(a, m, b, n, durable)
  }

  lemma AKnotOfTwoIsAKnot(a: seq<Member>, m: nat, b: seq<Member>, n: nat, durable: set<Claim>)
    requires IsKnotOfTwo(a, m, b, n, durable)
    ensures IsKnot([a, b], [At(m), At(n)], durable)
  {
    var stands := [At(m), At(n)];
    assert SettledKeys([a, b], stands) == {};
    assert durable + {} == durable;
    assert stands[0].At? && stands[1].At?;
  }

  lemma AKnotIsOfTwo(a: seq<Member>, b: seq<Member>, stands: seq<Stand>, durable: set<Claim>)
    requires IsKnot([a, b], stands, durable)
    ensures stands[0].At? && stands[1].At? && IsKnotOfTwo(a, stands[0].asked, b, stands[1].asked, durable)
  {
    var statements := [a, b];
    var settled := durable + SettledKeys(statements, stands);
    forall i | 0 <= i < 2 && stands[i].At? ensures IsTied(statements, stands, settled, i) && stands[1 - i].At? {
      assert IsTied(statements, stands, settled, i);
    }
    assert stands[0].At? && stands[1].At?;
    assert SettledKeys(statements, stands) == {};
    assert settled == durable;
    assert statements[0] == a && statements[1] == b;
  }

  lemma AKnotOfTwoDisagrees(a: seq<Member>, m: nat, b: seq<Member>, n: nat, durable: set<Claim>)
    requires IsKnotOfTwo(a, m, b, n, durable)
    ensures DisagreeOnTheFirst(a, b, durable)
  {
    var t :| 0 <= t < m && t < |a| && a[t].key == b[n].key;
    var u :| 0 <= u < n && u < |b| && b[u].key == a[m].key;
    assert IsContested(a[t].key, a, b, durable) && IsContested(b[u].key, a, b, durable);
    var first, second := FirstContested(a, a, b, durable), FirstContested(b, a, b, durable);
    assert first <= t && second <= u;
    assert a[first].key in KeysUpTo(a, m) && b[second].key in KeysUpTo(b, n);
  }

  /** The first key from an index on that is among some. */
  lemma {:induction false} TheFirstAmong(members: seq<Member>, from: nat, keys: set<Claim>, there: nat) returns (at: nat)
    requires from <= there < |members| && members[there].key in keys
    ensures from <= at < |members| && members[at].key in keys && forall k :: from <= k < at ==> members[k].key !in keys
    decreases there - from
  {
    if members[from].key in keys {
      at := from;
    } else {
      at := TheFirstAmong(members, from + 1, keys, there);
    }
  }

  lemma ApartUpToTheFirst(a: seq<Member>, b: seq<Member>, durable: set<Claim>, m: nat, n: nat)
    requires m < |a| && forall k :: 0 <= k < m ==> !IsContested(a[k].key, a, b, durable)
    requires n < |b| && forall k :: 0 <= k < n ==> !IsContested(b[k].key, a, b, durable)
    requires a[m].key != b[n].key
    ensures AreApart(a, m + 1, b, n + 1, durable)
  {
    forall key | key in KeysUpTo(a, m + 1) && key in KeysUpTo(b, n + 1) ensures key in durable {
      var j :| 0 <= j < m + 1 && a[j].key == key;
      var k :| 0 <= k < n + 1 && b[k].key == key;
      assert IsContested(a[j].key, a, b, durable) <==> key !in durable;
      assert IsContested(b[k].key, a, b, durable) <==> key !in durable;
    }
  }

  /** Going on to the first key the other has asked for keeps the two apart. */
  lemma ApartUpToTheNext(a: seq<Member>, from: nat, m: nat, b: seq<Member>, n: nat, durable: set<Claim>)
    requires from <= m <= |a| && AreApart(a, from, b, n, durable)
    requires forall k :: from <= k < m ==> a[k].key !in KeysUpTo(b, n) - durable
    ensures AreApart(a, m, b, n, durable) && AreApart(b, n, a, m, durable)
  {
    forall key | key in KeysUpTo(a, m) && key in KeysUpTo(b, n) ensures key in durable {
      var k :| 0 <= k < m && a[k].key == key;
      if k < from {
        assert key in KeysUpTo(a, from);
      }
    }
  }

  lemma WhereTheyDisagreeThereIsAKnot(a: seq<Member>, b: seq<Member>, durable: set<Claim>) returns (m: nat, n: nat)
    requires DisagreeOnTheFirst(a, b, durable)
    ensures IsKnotOfTwo(a, m, b, n, durable)
  {
    var first, second := FirstContested(a, a, b, durable), FirstContested(b, a, b, durable);
    ApartUpToTheFirst(a, b, durable, first, second);
    var there :| 0 <= there < |a| && a[there].key == b[second].key;
    assert there > first;
    m := TheFirstAmong(a, first + 1, KeysUpTo(b, second + 1) - durable, there);
    ApartUpToTheNext(a, first + 1, m, b, second + 1, durable);
    var back :| 0 <= back < |b| && b[back].key == a[first].key;
    assert back > second;
    n := TheFirstAmong(b, second + 1, KeysUpTo(a, m) - durable, back);
    ApartUpToTheNext(b, second + 1, n, a, m, durable);
  }

  /** Two statements can stop each other if and only if they contest some key and each
      comes first to a different one. */
  lemma TwoWritersDeadlockExactlyWhereTheyDisagree(a: seq<Member>, b: seq<Member>, durable: set<Claim>)
    ensures (exists t :: MayReach(Starting([a, b], durable), t) && IsStuck(t)) <==> DisagreeOnTheFirst(a, b, durable)
  {
    StatementsDeadlockExactlyAtAKnot([a, b], durable);
    if DisagreeOnTheFirst(a, b, durable) {
      var m, n := WhereTheyDisagreeThereIsAKnot(a, b, durable);
      AKnotOfTwoIsAKnot(a, m, b, n, durable);
    }
    if stands: seq<Stand> :| IsKnot([a, b], stands, durable) {
      AKnotIsOfTwo(a, b, stands, durable);
      AKnotOfTwoDisagrees(a, stands[0].asked, b, stands[1].asked, durable);
    }
  }
}
