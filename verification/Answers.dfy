/** Answer alignment: three sequences walked in step. Commands, the members that
    survived their plan, and the replay lookup's answers each keep one order. */
module Answers {
  import opened Wrappers
  import opened Port
  import opened Book
  import opened Writer
  import opened Stores

  type Stored = Option<(nat, Option<nat>)>

  // ---- a held key takes the next stored result --------------------------

  /** How many of the first `m` members found their key held. */
  function HeldBefore(outcomes: seq<MemberOutcome>, m: nat): nat
    requires m <= |outcomes|
  {
    if m == 0 then 0 else HeldBefore(outcomes, m - 1) + if outcomes[m - 1].KeyAlreadyClaimed? then 1 else 0
  }

  /** The next of the lookup's answers; running out of them is nobody's error. */
  function NextStored(replayed: seq<Stored>, next: nat): PostAnswer
  {
    if next < |replayed| then Replayed(replayed[next]) else Err(WriteError.Internal)
  }

  function AnswerFor(outcomes: seq<MemberOutcome>, replayed: seq<Stored>, m: nat): PostAnswer
    requires m < |outcomes|
  {
    match outcomes[m]
    case Appended(eventId, transactionId) => Ok(Port.Posted(eventId, Some(transactionId), false))
    case AccountUnknown(row) => Err(WriteError.AccountUnknown(row))
    case KeyAlreadyClaimed => NextStored(replayed, HeldBefore(outcomes, m))
  }

  /** `answers_for_members`: the lookup's answers are taken in turn, one per member
      whose key was held, so each takes the one at its rank among them. */
  method AnswersForMembers(outcomes: seq<MemberOutcome>, replayed: seq<Stored>) returns (answers: seq<PostAnswer>)
    ensures |answers| == |outcomes|
    ensures forall m :: 0 <= m < |outcomes| ==> answers[m] == AnswerFor(outcomes, replayed, m)
  {
    answers := [];
    var next := 0;
    for m := 0 to |outcomes|
      invariant next == HeldBefore(outcomes, m)
      invariant |answers| == m && forall k :: 0 <= k < m ==> answers[k] == AnswerFor(outcomes, replayed, k)
    {
      var answer: PostAnswer;
      match outcomes[m] {
        case Appended(eventId, transactionId) =>
          answer := Ok(Port.Posted(eventId, Some(transactionId), false));
        case AccountUnknown(row) =>
          answer := Err(WriteError.AccountUnknown(row));
        case KeyAlreadyClaimed =>
          answer := NextStored(replayed, next);
          next := next + 1;
      }
      answers := answers + [answer];
    }
  }

  /** The members an earlier caller beat to their key, in member order. */
  function Replaying(members: seq<Planned>, outcomes: seq<MemberOutcome>): seq<Planned>
    requires |members| == |outcomes|
  {
    if members == [] then [] else
    var n := |members| - 1;
    Replaying(members[..n], outcomes[..n]) + if outcomes[n].KeyAlreadyClaimed? then [members[n]] else []
  }

  method MembersReplayingAnEarlierWrite(members: seq<Planned>, outcomes: seq<MemberOutcome>) returns (replaying: seq<Planned>)
    requires |members| == |outcomes|
    ensures replaying == Replaying(members, outcomes)
  {
    replaying := [];
    for m := 0 to |members|
      invariant replaying == Replaying(members[..m], outcomes[..m])
    {
      assert members[..m + 1][..m] == members[..m] && outcomes[..m + 1][..m] == outcomes[..m];
      if outcomes[m].KeyAlreadyClaimed? {
        replaying := replaying + [members[m]];
      }
    }
    assert members[..|members|] == members && outcomes[..|outcomes|] == outcomes;
  }

  lemma {:induction false} HeldBeforeIsLocal(outcomes: seq<MemberOutcome>, n: nat, m: nat)
    requires m <= n <= |outcomes|
    ensures HeldBefore(outcomes[..n], m) == HeldBefore(outcomes, m)
    decreases m
  {
    if m > 0 {
      HeldBeforeIsLocal(outcomes, n, m - 1);
    }
  }

  /** A replaying member stands at its rank in the lookup's question. */
  lemma {:induction false} AReplayingMembersRank(members: seq<Planned>, outcomes: seq<MemberOutcome>, m: nat)
    requires |members| == |outcomes| && m < |members| && outcomes[m].KeyAlreadyClaimed?
    ensures HeldBefore(outcomes, m) < |Replaying(members, outcomes)|
    ensures Replaying(members, outcomes)[HeldBefore(outcomes, m)] == members[m]
    decreases |members|
  {
    var n := |members| - 1;
    ReplayingAreCounted(members, outcomes);
    HeldBeforeIsLocal(outcomes, n, m);
    if m < n {
      AReplayingMembersRank(members[..n], outcomes[..n], m);
    } else {
      ReplayingAreCounted(members[..n], outcomes[..n]);
    }
  }

  lemma {:induction false} ReplayingAreCounted(members: seq<Planned>, outcomes: seq<MemberOutcome>)
    requires |members| == |outcomes|
    ensures |Replaying(members, outcomes)| == HeldBefore(outcomes, |outcomes|)
    decreases |members|
  {
    if members != [] {
      var n := |members| - 1;
      ReplayingAreCounted(members[..n], outcomes[..n]);
      HeldBeforeIsLocal(outcomes, n, n);
    }
  }

  /** With one stored result per replaying member, every member's answer is its own:
      the lookup never runs out, and no member takes another's result. */
  lemma EveryMemberTakesItsOwnAnswer(staged: Store, members: seq<Planned>, outcomes: seq<MemberOutcome>, m: nat)
    requires |members| == |outcomes| && m < |members|
    ensures AnswerFor(outcomes, StoredResults(staged, Replaying(members, outcomes)), m)
         == MemberAnswer(BookOf(staged, members[m].command.tenantId), members[m], outcomes[m])
  {
    if outcomes[m].KeyAlreadyClaimed? {
      AReplayingMembersRank(members, outcomes, m);
    }
  }

  // ---- a surviving command takes the next member's answer ----------------

  type Plan = Result<Planned, WriteError>

  /** How many of the first `i` commands survived their plan. */
  function SurvivedBefore(planned: seq<Plan>, i: nat): nat
    requires i <= |planned|
  {
    if i == 0 then 0 else SurvivedBefore(planned, i - 1) + if planned[i - 1].Ok? then 1 else 0
  }

  function NextAnswer(answered: seq<PostAnswer>, next: nat): PostAnswer
  {
    if next < |answered| then answered[next] else Err(WriteError.Internal)
  }

  function AnswerInOrder(planned: seq<Plan>, answered: seq<PostAnswer>, i: nat): PostAnswer
    requires i < |planned|
  {
    if planned[i].Err? then Err(planned[i].error) else NextAnswer(answered, SurvivedBefore(planned, i))
  }

  /** `answers_in_arrival_order`: a refused plan keeps its refusal, and every other
      command takes the members' answers in turn. */
  method AnswersInArrivalOrder(planned: seq<Plan>, answered: seq<PostAnswer>) returns (answers: seq<PostAnswer>)
    ensures |answers| == |planned|
    ensures forall i :: 0 <= i < |planned| ==> answers[i] == AnswerInOrder(planned, answered, i)
  {
    answers := [];
    var next := 0;
    for i := 0 to |planned|
      invariant next == SurvivedBefore(planned, i)
      invariant |answers| == i && forall k :: 0 <= k < i ==> answers[k] == AnswerInOrder(planned, answered, k)
    {
      if planned[i].Err? {
        answers := answers + [Err(planned[i].error)];
      } else {
        answers := answers + [NextAnswer(answered, next)];
        next := next + 1;
      }
    }
  }

  ghost predicate IsPlanOf(plan: Plan, p: Planned)
  {
    plan == if PlanFails(p) then Err(PlanRefusal(p)) else Ok(p)
  }

  /** The plans of these commands, refusals in place. */
  ghost predicate ArePlansOf(planned: seq<Plan>, commands: seq<Planned>)
  {
    |planned| == |commands| && forall i :: 0 <= i < |commands| ==> IsPlanOf(planned[i], commands[i])
  }

  lemma {:induction false} SurvivorsAreRanked(planned: seq<Plan>, commands: seq<Planned>, i: nat)
    requires ArePlansOf(planned, commands) && i <= |commands|
    ensures SurvivedBefore(planned, i) == Rank(commands, i)
    decreases i
  {
    if i > 0 {
      SurvivorsAreRanked(planned, commands, i - 1);
      assert commands[..i][..i - 1] == commands[..i - 1];
    }
  }

  /** With one answer per surviving member, every command takes the answer at its
      rank among the survivors: the batch never runs out. */
  lemma EveryCommandTakesItsOwnAnswer(planned: seq<Plan>, commands: seq<Planned>, answered: seq<PostAnswer>, i: nat)
    requires ArePlansOf(planned, commands) && |answered| == |Survivors(commands)| && i < |commands|
    ensures AnswerInOrder(planned, answered, i) == InArrivalOrder(commands, answered)[i]
  {
    SurvivorsAreRanked(planned, commands, i);
    SurvivorsBefore(commands);
  }

  /** The commands' members: every plan that stands, in arrival order. */
  method MembersOf(planned: seq<Plan>, ghost commands: seq<Planned>) returns (members: seq<Planned>)
    requires ArePlansOf(planned, commands)
    ensures members == Survivors(commands)
  {
    members := [];
    for i := 0 to |planned|
      invariant members == Survivors(commands[..i])
    {
      assert commands[..i + 1][..i] == commands[..i];
      if planned[i].Ok? {
        members := members + [planned[i].value];
      }
    }
    assert commands[..|commands|] == commands;
  }

  lemma TheTwoOrdersAreOne(planned: seq<Plan>, commands: seq<Planned>, answered: seq<PostAnswer>, answers: seq<PostAnswer>)
    requires ArePlansOf(planned, commands) && |answered| == |Survivors(commands)|
    requires |answers| == |planned| && forall i :: 0 <= i < |planned| ==> answers[i] == AnswerInOrder(planned, answered, i)
    ensures answers == InArrivalOrder(commands, answered)
  {
    forall i | 0 <= i < |answers| ensures answers[i] == InArrivalOrder(commands, answered)[i] {
      EveryCommandTakesItsOwnAnswer(planned, commands, answered, i);
    }
  }

  lemma MembersTakeTheirOwnAnswers(staged: Store, members: seq<Planned>, outcomes: seq<MemberOutcome>, answers: seq<PostAnswer>)
    requires |members| == |outcomes| == |answers|
    requires forall m :: 0 <= m < |outcomes| ==> answers[m] == AnswerFor(outcomes, StoredResults(staged, Replaying(members, outcomes)), m)
    ensures answers == AnswersAcross(staged, members, outcomes)
  {
    forall m | 0 <= m < |answers| ensures answers[m] == MemberAnswer(BookOf(staged, members[m].command.tenantId), members[m], outcomes[m]) {
      EveryMemberTakesItsOwnAnswer(staged, members, outcomes, m);
    }
  }
}
