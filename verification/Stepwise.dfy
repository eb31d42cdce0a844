/** A sandbox as an environment that a policy steps through: what is recorded, when the environment
    says it is over, and that driving it always ends. */
module Stepwise {
  import opened Bytes
  import opened Wrappers

  type Png = Bytes

  datatype Action = Screenshot | Desktop(kind: string, arguments: string)

  type Batch = seq<Action>

  // --- trajectories ---

  /** `policy-<step>-<position>`. */
  datatype CallId = CallId(step: nat, position: nat)

  datatype Source = System | User | Agent

  datatype Call = Call(id: CallId, action: Action, accepted: bool)

  datatype Content = Image(png: Png) | Accepted | Rejected

  datatype Observed = Observed(call: Option<CallId>, content: Content)

  datatype TrajectoryStep = TrajectoryStep(
    number: nat, source: Source, message: string, calls: seq<Call>, results: seq<Observed>)

  /** Numbers from 1; in each step distinct calls, and at most one result for each, for a call it has. */
  ghost predicate Related(steps: seq<TrajectoryStep>) {
    forall i :: 0 <= i < |steps| ==> steps[i].number == i + 1 && Matched(steps[i])
  }

  ghost predicate Matched(s: TrajectoryStep) {
    && (forall j, k :: 0 <= j < k < |s.calls| ==> s.calls[j].id != s.calls[k].id)
    && (forall j, k :: 0 <= j < k < |s.results| && s.results[j].call.Some? ==> s.results[j].call != s.results[k].call)
    && (forall k :: 0 <= k < |s.results| && s.results[k].call.Some? ==> AnswersCall(s, s.results[k].call.value))
  }

  ghost predicate AnswersCall(s: TrajectoryStep, id: CallId) {
    exists k :: 0 <= k < |s.calls| && s.calls[k].id == id
  }

  function CallIds(calls: seq<Call>): set<CallId> { set k | 0 <= k < |calls| :: calls[k].id }

  /** Whether one step is consistent, as the finished trajectory checks it. */
  method CheckStep(s: TrajectoryStep) returns (ok: bool)
    ensures ok <==> Matched(s)
  {
    var ids: set<CallId> := {};
    var k := 0;
    while k < |s.calls|
      invariant 0 <= k <= |s.calls| && ids == CallIds(s.calls[..k])
      invariant forall i, j :: 0 <= i < j < k ==> s.calls[i].id != s.calls[j].id
    {
      if s.calls[k].id in ids {
        var i :| 0 <= i < k && s.calls[..k][i].id == s.calls[k].id;
        assert s.calls[i].id == s.calls[k].id;
        return false;
      }
      forall i | 0 <= i < k ensures s.calls[i].id != s.calls[k].id { assert s.calls[..k][i].id in ids; }
      AddsId(s.calls, k);
      ids := ids + {s.calls[k].id};
      k := k + 1;
    }
    assert s.calls[..k] == s.calls;
    ok := CheckResults(s, ids);
  }

  lemma {:induction false} AddsId(calls: seq<Call>, k: nat)
    requires k < |calls|
    ensures CallIds(calls[..k + 1]) == CallIds(calls[..k]) + {calls[k].id}
  {
    assert calls[..k + 1] == calls[..k] + [calls[k]];
    forall id | id in CallIds(calls[..k]) ensures id in CallIds(calls[..k + 1]) {
      var i :| 0 <= i < k && calls[..k][i].id == id;
      assert calls[..k + 1][i].id == id;
    }
    assert calls[..k + 1][k].id == calls[k].id;
  }

  method CheckResults(s: TrajectoryStep, ids: set<CallId>) returns (ok: bool)
    requires ids == CallIds(s.calls)
    ensures ok <==>
      && (forall j, k :: 0 <= j < k < |s.results| && s.results[j].call.Some? ==> s.results[j].call != s.results[k].call)
      && (forall k :: 0 <= k < |s.results| && s.results[k].call.Some? ==> AnswersCall(s, s.results[k].call.value))
  {
    var seen: set<CallId> := {};
    var k := 0;
    while k < |s.results|
      invariant 0 <= k <= |s.results|
      invariant forall id :: id in seen <==> exists i :: 0 <= i < k && s.results[i].call == Some(id)
      invariant forall i, j :: 0 <= i < j < k && s.results[i].call.Some? ==> s.results[i].call != s.results[j].call
      invariant forall i :: 0 <= i < k && s.results[i].call.Some? ==> AnswersCall(s, s.results[i].call.value)
    {
      var call := s.results[k].call;
      if call.Some? {
        if call.value in seen || call.value !in ids {
          return false;
        }
        seen := seen + {call.value};
      }
      k := k + 1;
    }
    return true;
  }

  class TrajectoryBuilder {
    var steps: seq<TrajectoryStep>

    constructor ()
      ensures steps == []
    {
      steps := [];
    }

    method Add(source: Source, message: string, calls: seq<Call>, results: seq<Observed>)
      modifies this
      ensures steps == old(steps) + [TrajectoryStep(|old(steps)| + 1, source, message, calls, results)]
    {
      steps := steps + [TrajectoryStep(|steps| + 1, source, message, calls, results)];
    }

    /** A step from elsewhere takes the next number. */
    method Append(step: TrajectoryStep)
      modifies this
      ensures steps == old(steps) + [step.(number := |old(steps)| + 1)]
    {
      steps := steps + [step.(number := |steps| + 1)];
    }

    method Build() returns (built: Option<seq<TrajectoryStep>>)
      ensures built == if |steps| > 0 && Related(steps) then Some(steps) else None
    {
      if |steps| == 0 { return None; }
      var i := 0;
      while i < |steps|
        invariant 0 <= i <= |steps|
        invariant forall k :: 0 <= k < i ==> steps[k].number == k + 1 && Matched(steps[k])
      {
        if steps[i].number != i + 1 { return None; }
        var ok := CheckStep(steps[i]);
        if !ok { return None; }
        i := i + 1;
      }
      return Some(steps);
    }
  }

  // --- progress ---

  /** What a step was asked and, if it looked, what it saw. */
  datatype Turn = Turn(actions: Batch, screen: Option<Png>)

  /** The last screen ever looked at. */
  function LastSeen(history: seq<Turn>): Option<Png> {
    if |history| == 0 then None
    else if history[|history| - 1].screen.Some? then history[|history| - 1].screen
    else LastSeen(history[..|history| - 1])
  }

  /** Whether the last turn made no difference: the screen it looked at is the last one seen before,
      or, if it did not look, its batch is the one before. */
  predicate Unchanged(history: seq<Turn>)
    requires |history| > 0
  {
    var (n, turn) := (|history| - 1, history[|history| - 1]);
    if turn.screen.Some? then LastSeen(history[..n]) == turn.screen
    else n > 0 && history[n - 1].actions == turn.actions
  }

  /** How many turns at the end made no difference. */
  function Stalled(history: seq<Turn>): nat {
    if |history| == 0 || !Unchanged(history) then 0 else 1 + Stalled(history[..|history| - 1])
  }

  lemma {:induction false} SamePrefix(history: seq<Turn>, k: nat)
    requires k < |history|
    ensures history[..|history| - 1][..k] == history[..k]
  {}

  /** It is the longest suffix of turns that made no difference. */
  lemma {:induction false} StalledIsLongest(history: seq<Turn>)
    ensures Stalled(history) <= |history|
    ensures forall n :: |history| - Stalled(history) < n <= |history| ==> Unchanged(history[..n])
    ensures |history| > 0 ==> Stalled(history) < |history| && !Unchanged(history[..|history| - Stalled(history)])
  {
    var n := |history|;
    assert history[..n] == history;
    if n > 0 && Unchanged(history) {
      var before := history[..n - 1];
      StalledIsLongest(before);
      forall k | n - Stalled(history) < k <= n ensures Unchanged(history[..k]) {
        if k < n { SamePrefix(history, k); }
      }
      if n > 1 { SamePrefix(history, n - Stalled(history)); }
    }
  }

  // --- the environment ---

  datatype Observation = Observation(step: nat, screen: Option<Png>, instruction: Option<string>)

  datatype Ending = Going | Finished | Ceiling | NoProgress

  datatype StepResult = StepResult(observation: Observation, ending: Ending)

  /** What the guest did with a batch: how many dispatched actions it applied and what it showed, or an error. */
  datatype Reply = Reply(applied: int, png: Png) | Fails

  function Dispatched(actions: Batch): nat {
    if |actions| == 0 then 0
    else Dispatched(actions[..|actions| - 1]) + if actions[|actions| - 1].Screenshot? then 0 else 1
  }

  /** An action took effect if it asks for a screenshot or the guest got as far as it. */
  predicate TookEffect(actions: Batch, k: nat, applied: int)
    requires k < |actions|
  {
    actions[k].Screenshot? || Dispatched(actions[..k]) < applied
  }

  /** How many of the first `n` calls were accepted, screenshots apart. */
  function AcceptedCalls(calls: seq<Call>, actions: Batch, n: nat): nat
    requires n <= |actions| && n <= |calls|
  {
    if n == 0 then 0
    else AcceptedCalls(calls, actions, n - 1)
         + if !actions[n - 1].Screenshot? && calls[n - 1].accepted then 1 else 0
  }

  function Least(a: int, b: int): int { if a < b then a else b }

  /** As many calls are accepted as the guest applied, and no more than there are; a screenshot always is. */
  lemma {:induction false} AppliedIsAccepted(actions: Batch, step: nat, applied: int, n: nat)
    requires n <= |actions|
    ensures AcceptedCalls(RecordedCalls(actions, step, applied), actions, n)
         == if applied < 0 then 0 else Least(applied, Dispatched(actions[..n]))
    ensures forall k :: 0 <= k < n && actions[k].Screenshot? ==> RecordedCalls(actions, step, applied)[k].accepted
  {
    if n > 0 {
      AppliedIsAccepted(actions, step, applied, n - 1);
      assert actions[..n][..n - 1] == actions[..n - 1];
    }
  }

  /** They are the first ones. */
  lemma {:induction false} FirstOnesAreAccepted(actions: Batch, step: nat, applied: int, i: nat, k: nat)
    requires i < k < |actions| && !actions[i].Screenshot? && !actions[k].Screenshot?
    requires RecordedCalls(actions, step, applied)[k].accepted
    ensures RecordedCalls(actions, step, applied)[i].accepted
  {
    DispatchedGrows(actions, i, k);
  }

  lemma {:induction false} DispatchedGrows(actions: Batch, i: nat, n: nat)
    requires i <= n <= |actions|
    ensures Dispatched(actions[..i]) <= Dispatched(actions[..n])
    decreases n
  {
    if i < n {
      DispatchedGrows(actions, i, n - 1);
      assert actions[..n][..n - 1] == actions[..n - 1];
    }
  }

  function RecordedCalls(actions: Batch, step: nat, applied: int): seq<Call> {
    seq(|actions|, k requires 0 <= k < |actions| =>
      Call(CallId(step, k + 1), actions[k], TookEffect(actions, k, applied)))
  }

  function RecordedResults(actions: Batch, step: nat, reply: Reply): seq<Observed>
    requires reply.Reply?
  {
    seq(|actions|, k requires 0 <= k < |actions| =>
      Observed(Some(CallId(step, k + 1)),
               if actions[k].Screenshot? then Image(reply.png)
               else if TookEffect(actions, k, reply.applied) then Accepted else Rejected))
  }

  function TurnOf(actions: Batch, reply: Reply): Turn
    requires reply.Reply?
  {
    Turn(actions, if Screenshot in actions then Some(reply.png) else None)
  }

  class SandboxEnv {
    const instruction: string
    const maxSteps: int
    const stallLimit: int
    const trajectory: TrajectoryBuilder
    var stepIndex: nat
    var previous: Option<Png>
    var previousActions: Option<Batch>
    var stalled: nat
    var last: Observation
    /** Since the last reset. */
    ghost var history: seq<Turn>

    ghost predicate Valid()
      reads this
    {
      && stepIndex == |history|
      && previous == LastSeen(history)
      && previousActions == (if |history| == 0 then None else Some(history[|history| - 1].actions))
      && stalled == Stalled(history)
    }

    constructor (instruction: string, trajectory: TrajectoryBuilder, maxSteps: int, stallLimit: int)
      ensures Valid() && history == [] && this.trajectory == trajectory
      ensures this.instruction == instruction && this.maxSteps == maxSteps && this.stallLimit == stallLimit
    {
      this.instruction, this.trajectory := instruction, trajectory;
      this.maxSteps, this.stallLimit := maxSteps, stallLimit;
      stepIndex, previous, previousActions, stalled := 0, None, None, 0;
      last, history := Observation(0, None, None), [];
    }

    method Reset() returns (observation: Observation)
      modifies this
      ensures Valid() && history == []
      ensures observation == last == Observation(0, None, Some(instruction))
    {
      stepIndex, previous, previousActions, stalled := 0, None, None, 0;
      last, history := Observation(0, None, Some(instruction)), [];
      return last;
    }

    method NoteProgress(actions: Batch, screen: Option<Png>)
      requires previous == LastSeen(history) && stalled == Stalled(history)
      requires previousActions == (if |history| == 0 then None else Some(history[|history| - 1].actions))
      modifies this`previous, this`previousActions, this`stalled
      ensures var longer := history + [Turn(actions, screen)];
        previous == LastSeen(longer) && previousActions == Some(actions) && stalled == Stalled(longer)
    {
      ghost var longer := history + [Turn(actions, screen)];
      assert longer[..|history|] == history;
      var earlier := previousActions;
      previousActions := Some(actions);
      var same;
      if screen.Some? {
        same := previous.Some? && previous == screen;
        previous := screen;
      } else {
        same := earlier == Some(actions);
      }
      stalled := if same then stalled + 1 else 0;
    }

    /** The calls and results of a batch, in order. */
    method Record(actions: Batch, reply: Reply) returns (calls: seq<Call>, results: seq<Observed>)
      requires reply.Reply?
      ensures calls == RecordedCalls(actions, stepIndex + 1, reply.applied)
      ensures results == RecordedResults(actions, stepIndex + 1, reply)
    {
      var index := 0;
      calls, results := [], [];
      while |calls| < |actions|
        invariant |calls| == |results| <= |actions| && index == Dispatched(actions[..|calls|])
        invariant forall k :: 0 <= k < |calls| ==> calls[k] == RecordedCalls(actions, stepIndex + 1, reply.applied)[k]
        invariant forall k :: 0 <= k < |calls| ==> results[k] == RecordedResults(actions, stepIndex + 1, reply)[k]
        decreases |actions| - |calls|
      {
        var k := |calls|;
        var action := actions[k];
        var id := CallId(stepIndex + 1, k + 1);
        assert actions[..k + 1][..k] == actions[..k];
        var accepted := true;
        if !action.Screenshot? {
          accepted := index < reply.applied;
          index := index + 1;
        }
        var content := if action.Screenshot? then Image(reply.png) else if accepted then Accepted else Rejected;
        calls := calls + [Call(id, action, accepted)];
        results := results + [Observed(Some(id), content)];
      }
    }

    /** One batch. Nothing is recorded when the guest fails, and an empty batch ends the episode. */
    method Step(actions: Batch, reply: Reply) returns (result: Option<StepResult>)
      requires Valid()
      modifies this, trajectory
      ensures Valid()
      ensures |actions| == 0 ==>
        && history == old(history) && last == old(last) && trajectory.steps == old(trajectory.steps)
        && result == Some(StepResult(last, Finished))
      ensures |actions| > 0 && reply.Fails? ==>
        && history == old(history) && last == old(last) && trajectory.steps == old(trajectory.steps)
        && result.None?
      ensures |actions| > 0 && reply.Reply? ==>
        && history == old(history) + [TurnOf(actions, reply)]
        && last == Observation(|history|, history[|history| - 1].screen, None)
        && trajectory.steps == old(trajectory.steps)
             + [TrajectoryStep(|old(trajectory.steps)| + 1, Agent, "",
                     RecordedCalls(actions, |history|, reply.applied), RecordedResults(actions, |history|, reply))]
        && result == Some(StepResult(last,
             if |history| >= maxSteps then Ceiling else if Stalled(history) >= stallLimit then NoProgress else Going))
    {
      if |actions| == 0 { return Some(StepResult(last, Finished)); }
      if reply.Fails? { return None; }
      var wants := Screenshot in actions;
      var calls, results := Record(actions, reply);
      trajectory.Add(Agent, "", calls, results);
      stepIndex := stepIndex + 1;
      last := Observation(stepIndex, if wants then Some(reply.png) else None, None);
      NoteProgress(actions, last.screen);
      history := history + [TurnOf(actions, reply)];
      if stepIndex >= maxSteps { return Some(StepResult(last, Ceiling)); }
      if stalled >= stallLimit { return Some(StepResult(last, NoProgress)); }
      return Some(StepResult(last, Going));
    }
  }

  // --- driving it ---

  function Most(maxSteps: int): nat { if maxSteps > 1 then maxSteps else 1 }

  /** Every step before the last one was to be followed by another. */
  ghost predicate WentOn(history: seq<Turn>, maxSteps: int, stallLimit: int) {
    forall n :: 0 < n < |history| ==> n < maxSteps && Stalled(history[..n]) < stallLimit
  }

  lemma {:induction false} WentOneFurther(history: seq<Turn>, turn: Turn, maxSteps: int, stallLimit: int)
    requires WentOn(history, maxSteps, stallLimit)
    requires |history| > 0 ==> |history| < maxSteps && Stalled(history) < stallLimit
    ensures WentOn(history + [turn], maxSteps, stallLimit)
  {
    var longer := history + [turn];
    forall n | 0 < n < |longer| ensures n < maxSteps && Stalled(longer[..n]) < stallLimit {
      assert longer[..n] == history[..n];
      assert history[..|history|] == history;
    }
  }

  ghost predicate Tells(step: TrajectoryStep, turn: Turn) {
    && step.source == Agent && |step.calls| == |turn.actions|
    && forall k :: 0 <= k < |step.calls| ==> step.calls[k].action == turn.actions[k]
  }

  /** After what was there before, the trajectory has one step for each turn, and would be accepted. */
  ghost predicate TellsAll(steps: seq<TrajectoryStep>, before: seq<TrajectoryStep>, history: seq<Turn>) {
    && Related(steps) && before <= steps && |steps| == |before| + |history|
    && forall i :: 0 <= i < |history| ==> Tells(steps[|before| + i], history[i])
  }

  lemma {:induction false} RecordedStepIsMatched(s: TrajectoryStep, actions: Batch, step: nat, reply: Reply)
    requires reply.Reply?
    requires s.calls == RecordedCalls(actions, step, reply.applied)
    requires s.results == RecordedResults(actions, step, reply)
    ensures Matched(s)
  {
    forall k | 0 <= k < |s.results| ensures AnswersCall(s, s.results[k].call.value) {
      assert s.calls[k].id == s.results[k].call.value;
    }
  }

  lemma {:induction false} TellsOneMore(
    steps: seq<TrajectoryStep>, before: seq<TrajectoryStep>, history: seq<Turn>, s: TrajectoryStep, actions: Batch,
    reply: Reply)
    requires TellsAll(steps, before, history) && reply.Reply?
    requires s.number == |steps| + 1 && s.source == Agent
    requires s.calls == RecordedCalls(actions, |history| + 1, reply.applied)
    requires s.results == RecordedResults(actions, |history| + 1, reply)
    ensures TellsAll(steps + [s], before, history + [TurnOf(actions, reply)])
  {
    RecordedStepIsMatched(s, actions, |history| + 1, reply);
  }

  /** One question, its answer and its step. */
  method TakeTurn(env: SandboxEnv, actions: Batch, reply: Reply, ghost before: seq<TrajectoryStep>)
    returns (result: Option<StepResult>)
    requires env.Valid() && TellsAll(env.trajectory.steps, before, env.history)
    modifies env, env.trajectory
    ensures env.Valid() && TellsAll(env.trajectory.steps, before, env.history)
    ensures env.history == old(env.history) + if |actions| > 0 && reply.Reply? then [TurnOf(actions, reply)] else []
    ensures result ==
      if |actions| == 0 then Some(StepResult(env.last, Finished))
      else if reply.Fails? then None
      else Some(StepResult(env.last,
        if |env.history| >= env.maxSteps then Ceiling
        else if Stalled(env.history) >= env.stallLimit then NoProgress else Going))
    ensures |actions| == 0 ==> env.last == old(env.last)
  {
    ghost var (steps, history) := (env.trajectory.steps, env.history);
    result := env.Step(actions, reply);
    if |actions| > 0 && reply.Reply? {
      TellsOneMore(steps, before, history, env.trajectory.steps[|steps|], actions, reply);
    } else {
      assert history + [] == history;
    }
  }

  /** Ask the policy, step, and stop when the environment says so. `decide` and `guest` answer the
      `n`-th question; a guest that fails ends the rollout with its error. */
  method Rollout(env: SandboxEnv, decide: (nat, Observation) -> Batch, guest: nat -> Reply)
    returns (result: Option<StepResult>)
    requires Related(env.trajectory.steps)
    modifies env, env.trajectory
    ensures env.Valid() && |env.history| <= Most(env.maxSteps) && WentOn(env.history, env.maxSteps, env.stallLimit)
    ensures TellsAll(env.trajectory.steps, old(env.trajectory.steps), env.history)
    ensures result.None? ==> guest(|env.history|).Fails?
    ensures result.Some? ==>
      && result.value.observation == env.last
      && match result.value.ending
         case Going => false
         case Finished => |decide(|env.history|, env.last)| == 0
         case Ceiling => |env.history| >= env.maxSteps
         case NoProgress => |env.history| < env.maxSteps && Stalled(env.history) >= env.stallLimit
  {
    var observation := env.Reset();
    while true
      invariant env.Valid() && observation == env.last && |env.history| < Most(env.maxSteps)
      invariant |env.history| > 0 ==> |env.history| < env.maxSteps && Stalled(env.history) < env.stallLimit
      invariant WentOn(env.history, env.maxSteps, env.stallLimit)
      invariant TellsAll(env.trajectory.steps, old(env.trajectory.steps), env.history)
      decreases Most(env.maxSteps) - |env.history|
    {
      var n := env.stepIndex;
      var (actions, reply) := (decide(n, observation), guest(n));
      if |actions| > 0 && reply.Reply? {
        WentOneFurther(env.history, TurnOf(actions, reply), env.maxSteps, env.stallLimit);
      }
      ghost var history := env.history;
      assert history + [] == history;
      result := TakeTurn(env, actions, reply, old(env.trajectory.steps));
      if result.None? || result.value.ending != Going { return; }
      observation := result.value.observation;
    }
  }

  /** A whole stepwise phase: the instruction, the rollout, perhaps a closing message, and the
      trajectory, which is always fit to be built. `limited` tells that a limit, and no other error,
      ended a rollout whose guest failed. */
  method RunPhase(
    instruction: string, maxSteps: int, stallLimit: int, decide: (nat, Observation) -> Batch, guest: nat -> Reply,
    limited: bool, closing: string)
    returns (built: Option<seq<TrajectoryStep>>)
    ensures built.Some? ==>
      Related(built.value) && |built.value| > 0 && built.value[0] == TrajectoryStep(1, User, instruction, [], [])
    ensures limited || (forall n :: guest(n).Reply?) ==> built.Some?
  {
    var builder := new TrajectoryBuilder();
    builder.Add(User, instruction, [], []);
    var env := new SandboxEnv(instruction, builder, maxSteps, stallLimit);
    var result := Rollout(env, decide, guest);
    if result.None? && !limited { return None; }
    if result.Some? && |closing| > 0 { builder.Add(Agent, closing, [], []); }
    built := builder.Build();
  }
}
