/** The accumulator's queue: what one drain takes, and what it leaves. */
module Queue {
  import opened Bytes
  import opened Domain
  import Book
  import BatchRefinement

  /** One caller, waiting: its command, and the ticket its answer goes back to. */
  datatype Submission = Submission(ticket: nat, command: PostTransaction)

  /** Which commands may ride a shared statement. */
  datatype Batchability = RidesWithOthers | PostsAlone

  function BatchabilityOf(c: PostTransaction): (b: Batchability)
    ensures b.RidesWithOthers? <==> c.Plain()
  {
    if c.resolvesId.Some? || c.reversesId.Some? || c.status == Pending then PostsAlone else RidesWithOthers
  }

  predicate TravelsAlready(batch: seq<Submission>, key: Text)
  {
    exists i :: 0 <= i < |batch| && batch[i].command.idempotencyKey == key
  }

  /** The head's tenant, a plain posting, and a key not already travelling. */
  predicate RidesWithTheBatch(batch: seq<Submission>, tenant: Text, waiter: Submission)
  {
    && waiter.command.tenantId == tenant
    && BatchabilityOf(waiter.command) == RidesWithOthers
    && !TravelsAlready(batch, waiter.command.idempotencyKey)
  }

  datatype Drain = Drain(batch: seq<Submission>, left: seq<Submission>)

  /** The scan, waiter by waiter: taken into the batch, or stepped over. */
  function Scan(batch: seq<Submission>, passed: seq<Submission>, ahead: seq<Submission>, tenant: Text, ceiling: nat): Drain
    decreases |ahead|
  {
    if ahead == [] || |batch| >= ceiling then Drain(batch, passed + ahead)
    else if RidesWithTheBatch(batch, tenant, ahead[0]) then Scan(batch + [ahead[0]], passed, ahead[1..], tenant, ceiling)
    else Scan(batch, passed + [ahead[0]], ahead[1..], tenant, ceiling)
  }

  /** One drain: the head decides the batch, and a plain head collects company. */
  function Drained(waiting: seq<Submission>, ceiling: nat): Drain
  {
    if waiting == [] then Drain([], [])
    else if BatchabilityOf(waiting[0].command) == RidesWithOthers then
      Scan([waiting[0]], [], waiting[1..], waiting[0].command.tenantId, ceiling)
    else Drain([waiting[0]], waiting[1..])
  }

  class Queue {
    var waiting: seq<Submission>

    constructor ()
      ensures waiting == []
    {
      waiting := [];
    }

    method Push(s: Submission)
      modifies this
      ensures waiting == old(waiting) + [s]
    {
      waiting := waiting + [s];
    }

    /** Take whatever is waiting right now. */
    method TakeWhateverIsWaiting(ceiling: nat) returns (batch: seq<Submission>)
      modifies this
      ensures Drain(batch, waiting) == Drained(old(waiting), ceiling)
    {
      if waiting == [] {
        return [];
      }
      var head := waiting[0];
      waiting := waiting[1..];
      batch := [head];
      if BatchabilityOf(head.command) == RidesWithOthers {
        batch := CollectTheCompanyBehind(head.command.tenantId, batch, ceiling);
      }
    }

    /** The in-place scan: a waiter that joins is removed, and the next one slides
        into its position. */
    method CollectTheCompanyBehind(tenant: Text, riding: seq<Submission>, ceiling: nat) returns (batch: seq<Submission>)
      modifies this
      ensures Drain(batch, waiting) == Scan(riding, [], old(waiting), tenant, ceiling)
    {
      batch := riding;
      var position := 0;
      while position < |waiting| && |batch| < ceiling
        invariant 0 <= position <= |waiting|
        invariant Scan(batch, waiting[..position], waiting[position..], tenant, ceiling) == Scan(riding, [], old(waiting), tenant, ceiling)
        decreases |waiting| - position
      {
        var joining := waiting[position];
        assert waiting[position..] == [joining] + waiting[position + 1..];
        if !RidesWithTheBatch(batch, tenant, joining) {
          assert waiting[..position + 1] == waiting[..position] + [joining];
          position := position + 1;
        } else {
          var before := waiting;
          waiting := before[..position] + before[position + 1..];
          assert waiting[..position] == before[..position] && waiting[position..] == before[position + 1..];
          batch := batch + [joining];
        }
      }
      assert waiting[..position] + waiting[position..] == waiting;
    }
  }

  // ---- what one drain is -----------------------------------------------

  /** `batch` and `left` split `queue`, each in the queue's own order. */
  ghost predicate Splits(queue: seq<Submission>, batch: seq<Submission>, left: seq<Submission>)
    decreases |queue|
  {
    if queue == [] then batch == [] && left == []
    else
      || (batch != [] && batch[0] == queue[0] && Splits(queue[1..], batch[1..], left))
      || (left != [] && left[0] == queue[0] && Splits(queue[1..], batch, left[1..]))
  }

  ghost predicate OneTenantPlainDistinct(batch: seq<Submission>, tenant: Text)
  {
    && (forall i :: 0 <= i < |batch| ==> batch[i].command.tenantId == tenant && batch[i].command.Plain())
    && (forall i, j :: 0 <= i < j < |batch| ==> batch[i].command.idempotencyKey != batch[j].command.idempotencyKey)
  }

  /** What a scan does to what is ahead of it: it takes in order, leaves in order, and
      leaves only whom the batch bars. */
  ghost predicate ScansTo(batch: seq<Submission>, passed: seq<Submission>, ahead: seq<Submission>, tenant: Text, ceiling: nat,
                          taken: seq<Submission>, stepped: seq<Submission>)
  {
    && Scan(batch, passed, ahead, tenant, ceiling) == Drain(batch + taken, passed + stepped)
    && Splits(ahead, taken, stepped)
    && OneTenantPlainDistinct(batch + taken, tenant)
    && (|batch| <= ceiling ==> |batch + taken| <= ceiling)
    && (|batch| > ceiling ==> taken == [])
    && (|batch + taken| < ceiling ==> forall i :: 0 <= i < |stepped| ==> !RidesWithTheBatch(batch + taken, tenant, stepped[i]))
  }

  lemma {:induction false} TheScanIsExact(batch: seq<Submission>, passed: seq<Submission>, ahead: seq<Submission>, tenant: Text, ceiling: nat)
    returns (taken: seq<Submission>, stepped: seq<Submission>)
    requires OneTenantPlainDistinct(batch, tenant)
    ensures ScansTo(batch, passed, ahead, tenant, ceiling, taken, stepped)
    decreases |ahead|
  {
    if ahead == [] || |batch| >= ceiling {
      taken, stepped := [], ahead;
      assert batch + taken == batch;
      AllLeftBehind(ahead);
    } else if RidesWithTheBatch(batch, tenant, ahead[0]) {
      var later, behind := TheScanIsExact(batch + [ahead[0]], passed, ahead[1..], tenant, ceiling);
      taken, stepped := [ahead[0]] + later, behind;
      assert batch + taken == batch + [ahead[0]] + later;
      assert taken[1..] == later;
    } else {
      var later, behind := TheScanIsExact(batch, passed + [ahead[0]], ahead[1..], tenant, ceiling);
      taken, stepped := later, [ahead[0]] + behind;
      assert passed + stepped == passed + [ahead[0]] + behind;
      assert stepped[1..] == behind;
      StillBarred(batch, taken, tenant, ahead[0]);
    }
  }

  lemma {:induction false} AllLeftBehind(queue: seq<Submission>)
    ensures Splits(queue, [], queue)
    decreases |queue|
  {
    if queue != [] {
      AllLeftBehind(queue[1..]);
    }
  }

  /** A longer batch bars whoever a shorter one did. */
  lemma StillBarred(batch: seq<Submission>, more: seq<Submission>, tenant: Text, waiter: Submission)
    requires !RidesWithTheBatch(batch, tenant, waiter)
    ensures !RidesWithTheBatch(batch + more, tenant, waiter)
  {
    if TravelsAlready(batch, waiter.command.idempotencyKey) {
      var i :| 0 <= i < |batch| && batch[i].command.idempotencyKey == waiter.command.idempotencyKey;
      assert (batch + more)[i] == batch[i];
    }
  }

  /** A waiter left behind is barred: its tenant, its kind or its key. */
  predicate IsBarred(batch: seq<Submission>, waiter: Submission)
    requires batch != []
  {
    || !batch[0].command.Plain()
    || waiter.command.tenantId != batch[0].command.tenantId
    || !waiter.command.Plain()
    || TravelsAlready(batch, waiter.command.idempotencyKey)
  }

  /** One drain is exact. It is headed by the queue's head; it is one tenant, with
      distinct keys, all plain or a singleton; it has at most max(1, ceiling)
      members; batch and remainder split the queue in its own order; and below the
      ceiling every waiter left behind is barred. */
  lemma OneDrainIsExact(waiting: seq<Submission>, ceiling: nat)
    requires waiting != []
    ensures var d := Drained(waiting, ceiling);
            && d.batch != [] && d.batch[0] == waiting[0]
            && (|d.batch| == 1 || OneTenantPlainDistinct(d.batch, waiting[0].command.tenantId))
            && |d.batch| <= (if ceiling == 0 then 1 else ceiling)
            && Splits(waiting, d.batch, d.left) && Splits(waiting[1..], d.batch[1..], d.left)
            && (|d.batch| < ceiling ==> forall i :: 0 <= i < |d.left| ==> IsBarred(d.batch, d.left[i]))
  {
    var d := Drained(waiting, ceiling);
    if waiting[0].command.Plain() {
      var taken, stepped := TheScanIsExact([waiting[0]], [], waiting[1..], waiting[0].command.tenantId, ceiling);
      assert d == Drain([waiting[0]] + taken, [] + stepped);
      assert d.left == stepped && d.batch[1..] == taken;
    } else {
      AllLeftBehind(waiting[1..]);
      assert d.batch[1..] == [];
    }
  }

  /** A drained batch of two or more is what the shared statement may carry. */
  lemma ADrainMayShareAStatement(waiting: seq<Submission>, ceiling: nat)
    requires |Drained(waiting, ceiling).batch| >= 2
    requires forall s :: s in waiting ==> s.command.WellFormed()
    ensures var commands := CommandsOf(Drained(waiting, ceiling).batch);
            && (forall c :: c in commands ==> c.WellFormed() && c.tenantId == waiting[0].command.tenantId)
            && BatchRefinement.IsADrain(Book.PlannedAll(commands))
  {
    var batch := Drained(waiting, ceiling).batch;
    var commands := CommandsOf(batch);
    OneDrainIsExact(waiting, ceiling);
    TakenAreWaiting(waiting, batch, Drained(waiting, ceiling).left);
    forall c | c in commands ensures c.WellFormed() && c.tenantId == waiting[0].command.tenantId {
      var k :| 0 <= k < |batch| && commands[k] == c;
      assert batch[k] in batch;
    }
    forall p | p in Book.PlannedAll(commands) ensures p.command.Plain() && p.command.WellFormed() {
      var k :| 0 <= k < |commands| && Book.PlannedAll(commands)[k] == p;
      assert commands[k] in commands;
    }
  }

  function CommandsOf(batch: seq<Submission>): (commands: seq<PostTransaction>)
    ensures |commands| == |batch|
  {
    seq(|batch|, i requires 0 <= i < |batch| => batch[i].command)
  }

  lemma {:induction false} TakenAreWaiting(queue: seq<Submission>, batch: seq<Submission>, left: seq<Submission>)
    requires Splits(queue, batch, left)
    ensures forall s :: s in batch || s in left <==> s in queue
    decreases |queue|
  {
    if queue != [] {
      assert queue == [queue[0]] + queue[1..];
      if batch != [] && batch[0] == queue[0] && Splits(queue[1..], batch[1..], left) {
        assert batch == [batch[0]] + batch[1..];
        TakenAreWaiting(queue[1..], batch[1..], left);
      } else {
        assert left == [left[0]] + left[1..];
        TakenAreWaiting(queue[1..], batch, left[1..]);
      }
    }
  }

  // ---- waiting is bounded, and twins keep their order --------------------

  ghost predicate DistinctTickets(queue: seq<Submission>)
  {
    forall i, j :: 0 <= i < j < |queue| ==> queue[i].ticket != queue[j].ticket
  }

  /** A place of the queue, in the remainder. */
  ghost predicate LandsAt(queue: seq<Submission>, left: seq<Submission>, p: nat, at: nat)
  {
    p < |queue| && at < |left| && at <= p && left[at] == queue[p]
  }

  /** Whoever is not taken keeps no more than its place. */
  lemma {:induction false} WhereItLands(queue: seq<Submission>, batch: seq<Submission>, left: seq<Submission>, p: nat) returns (at: nat)
    requires Splits(queue, batch, left) && p < |queue| && queue[p] !in batch
    ensures LandsAt(queue, left, p, at)
    decreases |queue|
  {
    if batch != [] && batch[0] == queue[0] && Splits(queue[1..], batch[1..], left) {
      assert queue[p] != batch[0];
      at := WhereItLands(queue[1..], batch[1..], left, p - 1);
    } else if p == 0 {
      at := 0;
    } else {
      var behind := WhereItLands(queue[1..], batch, left[1..], p - 1);
      at := behind + 1;
    }
  }

  /** Two waiters neither of whom is taken stay in their order. */
  lemma {:induction false} TheyKeepTheirOrder(queue: seq<Submission>, batch: seq<Submission>, left: seq<Submission>, i: nat, j: nat)
    returns (at: nat, behind: nat)
    requires Splits(queue, batch, left) && i < j < |queue| && queue[i] !in batch && queue[j] !in batch
    ensures at < behind < |left| && left[at] == queue[i] && left[behind] == queue[j]
    decreases |queue|
  {
    if batch != [] && batch[0] == queue[0] && Splits(queue[1..], batch[1..], left) {
      assert queue[i] != batch[0];
      at, behind := TheyKeepTheirOrder(queue[1..], batch[1..], left, i - 1, j - 1);
    } else if i == 0 {
      var later := WhereItLands(queue[1..], batch, left[1..], j - 1);
      at, behind := 0, later + 1;
    } else {
      var a, b := TheyKeepTheirOrder(queue[1..], batch, left[1..], i - 1, j - 1);
      at, behind := a + 1, b + 1;
    }
  }

  /** Every non-empty drain moves whoever it does not take at least one place up. */
  lemma ADrainMovesEveryoneUp(waiting: seq<Submission>, ceiling: nat, p: nat) returns (at: nat)
    requires p < |waiting| && waiting[p] !in Drained(waiting, ceiling).batch
    ensures at < p && at < |Drained(waiting, ceiling).left| && Drained(waiting, ceiling).left[at] == waiting[p]
  {
    var d := Drained(waiting, ceiling);
    OneDrainIsExact(waiting, ceiling);
    assert d.batch[0] in d.batch;
    assert waiting[1..][p - 1] == waiting[p];
    forall s | s in d.batch[1..] ensures s in d.batch {
    }
    at := WhereItLands(waiting[1..], d.batch[1..], d.left, p - 1);
  }

  datatype QueueStep = Pushed(submission: Submission) | DrainedBy(ceiling: nat)

  function Drains(steps: seq<QueueStep>): nat
  {
    if steps == [] then 0 else (if steps[0].DrainedBy? then 1 else 0) + Drains(steps[1..])
  }

  /** Some drain of the run takes this submission. */
  predicate IsTakenDuring(queue: seq<Submission>, steps: seq<QueueStep>, s: Submission)
    decreases |steps|
  {
    steps != [] &&
    match steps[0]
    case Pushed(later) => IsTakenDuring(queue + [later], steps[1..], s)
    case DrainedBy(ceiling) =>
      s in Drained(queue, ceiling).batch || IsTakenDuring(Drained(queue, ceiling).left, steps[1..], s)
  }

  /** A waiter at position `p` is taken by the (p + 1)-th drain at the latest,
      whatever is pushed meanwhile. */
  lemma {:induction false} NobodyWaitsForever(queue: seq<Submission>, steps: seq<QueueStep>, p: nat)
    requires p < |queue| && p < Drains(steps)
    ensures IsTakenDuring(queue, steps, queue[p])
    decreases |steps|
  {
    match steps[0]
    case Pushed(later) =>
      NobodyWaitsForever(queue + [later], steps[1..], p);
    case DrainedBy(ceiling) =>
      if queue[p] !in Drained(queue, ceiling).batch {
        var at := ADrainMovesEveryoneUp(queue, ceiling, p);
        NobodyWaitsForever(Drained(queue, ceiling).left, steps[1..], at);
      }
  }

  /** Two plain postings racing for one key of one tenant. */
  predicate AreTwins(a: Submission, b: Submission)
  {
    && a.command.Plain() && b.command.Plain() && a.ticket != b.ticket
    && a.command.tenantId == b.command.tenantId && a.command.idempotencyKey == b.command.idempotencyKey
  }

  /** Once barred, a waiter is barred from everything the batch grows into. */
  lemma {:induction false} TheBarredStayOut(batch: seq<Submission>, passed: seq<Submission>, ahead: seq<Submission>, tenant: Text, ceiling: nat, w: Submission)
    requires !RidesWithTheBatch(batch, tenant, w) && w !in batch
    ensures w !in Scan(batch, passed, ahead, tenant, ceiling).batch
    decreases |ahead|
  {
    if ahead != [] && |batch| < ceiling {
      if RidesWithTheBatch(batch, tenant, ahead[0]) {
        StillBarred(batch, [ahead[0]], tenant, w);
        TheBarredStayOut(batch + [ahead[0]], passed, ahead[1..], tenant, ceiling, w);
      } else {
        TheBarredStayOut(batch, passed + [ahead[0]], ahead[1..], tenant, ceiling, w);
      }
    }
  }

  /** The earlier twin either joins, and bars the later one, or is barred by what bars
      them both. */
  lemma TheFirstTwinBarsTheSecond(batch: seq<Submission>, tenant: Text, first: Submission, second: Submission)
    requires AreTwins(first, second)
    ensures !RidesWithTheBatch(if RidesWithTheBatch(batch, tenant, first) then batch + [first] else batch, tenant, second)
  {
    assert (batch + [first])[|batch|] == first;
  }

  lemma {:induction false} TheLaterTwinIsSteppedOver(batch: seq<Submission>, passed: seq<Submission>, ahead: seq<Submission>, tenant: Text, ceiling: nat,
                                                     i: nat, j: nat)
    requires i < j < |ahead| && AreTwins(ahead[i], ahead[j]) && ahead[j] !in batch
    requires forall k :: 0 <= k < j ==> ahead[k] != ahead[j]
    ensures ahead[j] !in Scan(batch, passed, ahead, tenant, ceiling).batch
    decreases |ahead|
  {
    if |batch| < ceiling {
      var joins := RidesWithTheBatch(batch, tenant, ahead[0]);
      var riding, behind := if joins then batch + [ahead[0]] else batch, if joins then passed else passed + [ahead[0]];
      if i == 0 {
        TheFirstTwinBarsTheSecond(batch, tenant, ahead[0], ahead[j]);
        TheBarredStayOut(riding, behind, ahead[1..], tenant, ceiling, ahead[j]);
      } else {
        TheLaterTwinIsSteppedOver(riding, behind, ahead[1..], tenant, ceiling, i - 1, j - 1);
      }
    }
  }

  /** No drain takes the later of two twins while the earlier is still waiting. */
  lemma TwinsAreDrainedInOrder(waiting: seq<Submission>, ceiling: nat, i: nat, j: nat)
    requires i < j < |waiting| && AreTwins(waiting[i], waiting[j]) && DistinctTickets(waiting)
    ensures waiting[j] !in Drained(waiting, ceiling).batch
  {
    var ahead, head := waiting[1..], waiting[0];
    if head.command.Plain() {
      if i == 0 {
        TheFirstTwinBarsTheSecond([], head.command.tenantId, head, waiting[j]);
        assert [] + [head] == [head];
        TheBarredStayOut([head], [], ahead, head.command.tenantId, ceiling, waiting[j]);
      } else {
        TheLaterTwinIsSteppedOver([head], [], ahead, head.command.tenantId, ceiling, i - 1, j - 1);
      }
    }
  }

  /** Over a run, the earlier twin is taken before the later one. */
  predicate IsTakenFirst(queue: seq<Submission>, steps: seq<QueueStep>, first: Submission, second: Submission)
    decreases |steps|
  {
    steps == [] ||
    match steps[0]
    case Pushed(later) => IsTakenFirst(queue + [later], steps[1..], first, second)
    case DrainedBy(ceiling) =>
      var d := Drained(queue, ceiling);
      second !in d.batch && (first in d.batch || IsTakenFirst(d.left, steps[1..], first, second))
  }

  /** Every submission of a run carries a ticket of its own. */
  ghost predicate FreshTickets(queue: seq<Submission>, steps: seq<QueueStep>)
  {
    && DistinctTickets(queue)
    && (forall k :: 0 <= k < |steps| && steps[k].Pushed? ==> forall s :: s in queue ==> s.ticket != steps[k].submission.ticket)
    && (forall k, l :: 0 <= k < l < |steps| && steps[k].Pushed? && steps[l].Pushed? ==>
          steps[k].submission.ticket != steps[l].submission.ticket)
  }

  lemma {:induction false} TheLeftAreDistinct(queue: seq<Submission>, batch: seq<Submission>, left: seq<Submission>)
    requires Splits(queue, batch, left) && DistinctTickets(queue)
    ensures DistinctTickets(left)
    decreases |queue|
  {
    if queue != [] {
      forall i, j | 0 <= i < j < |queue| - 1 ensures queue[1..][i].ticket != queue[1..][j].ticket {
      }
      if batch != [] && batch[0] == queue[0] && Splits(queue[1..], batch[1..], left) {
        TheLeftAreDistinct(queue[1..], batch[1..], left);
      } else {
        TheLeftAreDistinct(queue[1..], batch, left[1..]);
        TakenAreWaiting(queue[1..], batch, left[1..]);
        forall j | 0 < j < |left| ensures left[0].ticket != left[j].ticket {
          assert left[1..][j - 1] in queue[1..];
        }
      }
    }
  }

  lemma FreshTicketsLater(queue: seq<Submission>, steps: seq<QueueStep>)
    requires steps != [] && FreshTickets(queue, steps)
    ensures steps[0].Pushed? ==> FreshTickets(queue + [steps[0].submission], steps[1..])
    ensures steps[0].DrainedBy? ==> FreshTickets(Drained(queue, steps[0].ceiling).left, steps[1..])
  {
    if steps[0].DrainedBy? && queue != [] {
      var d := Drained(queue, steps[0].ceiling);
      OneDrainIsExact(queue, steps[0].ceiling);
      TakenAreWaiting(queue, d.batch, d.left);
      TheLeftAreDistinct(queue, d.batch, d.left);
    }
  }

  /** Plain postings sharing a tenant and a key are drained in arrival order, in every
      run of pushes and drains. */
  lemma {:induction false} TwinsLeaveInArrivalOrder(queue: seq<Submission>, steps: seq<QueueStep>, i: nat, j: nat)
    requires i < j < |queue| && AreTwins(queue[i], queue[j]) && FreshTickets(queue, steps)
    ensures IsTakenFirst(queue, steps, queue[i], queue[j])
    decreases |steps|
  {
    if steps != [] {
      FreshTicketsLater(queue, steps);
      match steps[0]
      case Pushed(later) =>
        TwinsLeaveInArrivalOrder(queue + [later], steps[1..], i, j);
      case DrainedBy(ceiling) =>
        var d := Drained(queue, ceiling);
        TwinsAreDrainedInOrder(queue, ceiling, i, j);
        if queue[i] !in d.batch {
          OneDrainIsExact(queue, ceiling);
          var at, behind := TheyKeepTheirOrder(queue, d.batch, d.left, i, j);
          TwinsLeaveInArrivalOrder(d.left, steps[1..], at, behind);
        }
    }
  }
}
