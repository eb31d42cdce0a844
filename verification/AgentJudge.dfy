/** The agent Judge's loop: repairs continue the agent's own session, retries start a new one. */
module AgentJudge {
  import opened Wrappers
  import opened Judge

  datatype Adapter = Codex | Claude

  type Session = string

  /** What one command did. `Bad` is a final response that is no verdict. */
  datatype Final = NoFinal | Bad | Good

  datatype Outcome =
    | TimedOut
    | CannotStart
    | Exited(broken: bool, observed: Option<Session>, final: Final)

  /** One command: the session it was given, whether it resumes it, and the session it left. */
  datatype Try = Try(
    index: nat, mode: Mode, session: Option<Session>, resume: bool, outcome: Outcome, left: Option<Session>,
    verdict: Result)

  datatype Result = WasCompleted | WasInvalid | WasBroken | WasTimedOut | WasFatal

  /** The session after a command that exited well: the one it was given, or the one it reports. */
  function Confirmed(adapter: Adapter, given: Option<Session>, observed: Option<Session>): Option<Session> {
    if adapter.Codex? && given.None? then observed else given
  }

  /** A resumed or requested session that the agent does not confirm is fatal. */
  predicate Strays(adapter: Adapter, given: Option<Session>, observed: Option<Session>) {
    observed != given && (adapter.Claude? || given.Some?)
  }

  predicate Named(s: Option<Session>) { s.Some? && |s.value| > 0 }

  function Judged(adapter: Adapter, given: Option<Session>, outcome: Outcome): Result {
    match outcome
    case TimedOut => WasTimedOut
    case CannotStart => WasFatal
    case Exited(broken, observed, final) =>
      if broken then WasBroken
      else if Strays(adapter, given, observed) then WasFatal
      else if Named(Confirmed(adapter, given, observed)) && final.Good? then WasCompleted
      else WasInvalid
  }

  predicate Faulty(r: Result) { r.WasBroken? || r.WasTimedOut? }

  function Faults(tries: seq<Try>): nat {
    if |tries| == 0 then 0
    else Faults(tries[..|tries| - 1]) + if Faulty(tries[|tries| - 1].verdict) then 1 else 0
  }

  function Invalids(tries: seq<Try>): nat {
    if |tries| == 0 then 0
    else Invalids(tries[..|tries| - 1]) + if tries[|tries| - 1].verdict.WasInvalid? then 1 else 0
  }

  /** What comes after `before`: a command resumes exactly the session that the invalid answer just
      before it came from; any other command is given a new session, or none. */
  ghost predicate Continues(adapter: Adapter, uuid: nat -> Session, before: seq<Try>, t: Try) {
    && t.index == |before| + 1
    && t.mode == (if |before| == 0 then Initial else if t.resume then SchemaRepair else Retry)
    && (t.resume <==> |before| > 0 && before[|before| - 1].verdict.WasInvalid?)
    && t.session == (if t.resume then before[|before| - 1].left
                     else if adapter.Claude? then Some(uuid(t.index)) else None)
    && (t.resume ==> Named(t.session))
    && t.verdict == Judged(adapter, t.session, t.outcome)
    && (t.outcome.Exited? && !t.outcome.broken ==> t.left == Confirmed(adapter, t.session, t.outcome.observed))
  }

  /** Commands that were all to be followed by another. */
  ghost predicate AllContinue(adapter: Adapter, uuid: nat -> Session, tries: seq<Try>) {
    |tries| > 0 ==>
      var (before, last) := (tries[..|tries| - 1], tries[|tries| - 1]);
      && AllContinue(adapter, uuid, before)
      && Continues(adapter, uuid, before, last)
      && (Faulty(last.verdict) || (last.verdict.WasInvalid? && Named(last.left)))
  }

  ghost predicate Ongoing(adapter: Adapter, uuid: nat -> Session, tries: seq<Try>, budget: Option<int>) {
    && AllContinue(adapter, uuid, tries)
    && Invalids(tries) <= REPAIRS
    && (budget.None? ==> Faults(tries) <= RETRIES_WITHOUT_DEADLINE)
    && |tries| == Invalids(tries) + Faults(tries)
  }

  lemma {:induction false} OneMoreTry(
    adapter: Adapter, uuid: nat -> Session, tries: seq<Try>, t: Try, budget: Option<int>)
    requires Ongoing(adapter, uuid, tries, budget) && Continues(adapter, uuid, tries, t)
    requires t.verdict.WasInvalid? ==> Invalids(tries) < REPAIRS && Named(t.left)
    requires Faulty(t.verdict) && budget.None? ==> Faults(tries) < RETRIES_WITHOUT_DEADLINE
    requires Faulty(t.verdict) || t.verdict.WasInvalid?
    ensures Ongoing(adapter, uuid, tries + [t], budget)
    ensures Invalids(tries + [t]) == Invalids(tries) + if t.verdict.WasInvalid? then 1 else 0
    ensures Faults(tries + [t]) == Faults(tries) + if Faulty(t.verdict) then 1 else 0
  {
    var more := tries + [t];
    assert more[..|tries|] == tries && more[|tries|] == t;
  }

  /** Nothing is resumed without the session of the invalid answer just before. */
  lemma {:induction false} ResumesOnlyNamedSessions(adapter: Adapter, uuid: nat -> Session, tries: seq<Try>, i: nat)
    requires AllContinue(adapter, uuid, tries) && i < |tries|
    ensures Continues(adapter, uuid, tries[..i], tries[i])
    ensures tries[i].resume ==>
      && i > 0 && tries[i].session.Some? && tries[i].session.value != ""
      && tries[i].session == tries[i - 1].left && tries[i - 1].verdict.WasInvalid?
    ensures tries[i].index == i + 1 && !tries[i].verdict.WasCompleted?
  {
    if i < |tries| - 1 {
      var before := tries[..|tries| - 1];
      ResumesOnlyNamedSessions(adapter, uuid, before, i);
      assert before[..i] == tries[..i];
    }
  }

  /** Why the loop stops with this command as its last one. */
  ghost predicate Stops(before: seq<Try>, last: Try, left: Option<int>, jitter: int) {
    match last.verdict
    case WasCompleted => false
    case WasFatal => true
    case WasInvalid => !Named(last.left) || Invalids(before) == REPAIRS
    case _ =>
      var failures := Faults(before) + 1;
      !Covered(left, failures, Backoff(failures, None, jitter))
  }

  /** How the commands end: the last one completes, or stops the loop; or the time is up before the next. */
  ghost predicate Finishes(
    adapter: Adapter, uuid: nat -> Session, tries: seq<Try>, completed: bool, clock: Clock, jitter: int)
    requires |tries| > 0
    reads clock
  {
    var (before, last) := (tries[..|tries| - 1], tries[|tries| - 1]);
    || (Ongoing(adapter, uuid, tries, clock.budget) && !completed && clock.Left().Some? && clock.Left().value <= 0)
    || (&& Ongoing(adapter, uuid, before, clock.budget) && Continues(adapter, uuid, before, last)
        && if completed then last.verdict.WasCompleted? else Stops(before, last, clock.Left(), jitter))
  }

  /** What one command did, given its session. */
  method RunOne(adapter: Adapter, uuid: nat -> Session, ghost before: seq<Try>, index: nat, session: Option<Session>,
                repair: bool, outcome: Outcome)
    returns (t: Try)
    requires index == |before| + 1
    requires repair <==> |before| > 0 && before[|before| - 1].verdict.WasInvalid?
    requires session ==
      if repair then before[|before| - 1].left else if adapter.Claude? then Some(uuid(index)) else None
    requires repair ==> Named(session)
    ensures t.outcome == outcome && t.session == session && t.resume == repair && Continues(adapter, uuid, before, t)
    ensures t.verdict.WasInvalid? || t.verdict.WasCompleted? ==>
      outcome.Exited? && t.left == Confirmed(adapter, session, outcome.observed)
    ensures t.verdict.WasBroken? && outcome.observed.Some? && outcome.observed.value != "" ==>
      t.left == outcome.observed
    ensures t.verdict.WasTimedOut? ==> t.left == session
  {
    var mode := if index == 1 then Initial else if repair then SchemaRepair else Retry;
    match outcome {
      case TimedOut =>
        t := Try(index, mode, session, repair, outcome, session, WasTimedOut);
      case CannotStart =>
        t := Try(index, mode, session, repair, outcome, session, WasFatal);
      case Exited(broken, observed, final) =>
        if broken {
          var named := if Named(observed) then observed else session;
          t := Try(index, mode, session, repair, outcome, named, WasBroken);
        } else {
          var left := session;
          if adapter.Codex? {
            if session.None? {
              left := observed;
            } else if observed != session {
              return Try(index, mode, session, repair, outcome, left, WasFatal);
            }
          } else if observed != session {
            return Try(index, mode, session, repair, outcome, left, WasFatal);
          }
          var verdict := if !Named(left) || !final.Good? then WasInvalid else WasCompleted;
          t := Try(index, mode, session, repair, outcome, left, verdict);
        }
    }
  }

  /** After a fault, whether to go on. */
  method AfterFault(clock: Clock, ghost before: seq<Try>, t: Try, failures: nat, jitter: int) returns (again: bool)
    requires Faulty(t.verdict) && failures == Faults(before) + 1 && jitter >= LEAST_JITTER
    modifies clock
    ensures !again ==> Stops(before, t, clock.Left(), jitter)
    ensures again ==>
      && (clock.budget.None? ==> failures <= RETRIES_WITHOUT_DEADLINE)
      && clock.elapsed > old(clock.elapsed)
      && (clock.Left().Some? ==> clock.Left().value >= 0)
  {
    BackoffIsAWait(failures, jitter);
    var w := WaitToRetry(clock, failures, None, jitter);
    return w.Again?;
  }

  /** What the loop knows before a command. */
  ghost predicate Prepared(tries: seq<Try>, session: Option<Session>, repair: bool, repairs: nat, failures: nat) {
    && repairs == Invalids(tries) && failures == Faults(tries)
    && (repair <==> |tries| > 0 && tries[|tries| - 1].verdict.WasInvalid?)
    && session == (if repair then tries[|tries| - 1].left else None)
    && (repair ==> Named(session))
  }

  /** Each command did what running it with its session does. */
  ghost predicate Ran(tries: seq<Try>, run: (nat, Option<Session>, bool) -> Outcome) {
    forall i :: 0 <= i < |tries| ==> tries[i].outcome == run(i + 1, tries[i].session, tries[i].resume)
  }

  datatype Next = Over | GoOn(session: Option<Session>, repair: bool, repairs: nat, failures: nat)

  /** Another command may follow `t`: to repair in its session, or in a new one after a fault. */
  predicate MayFollow(before: seq<Try>, t: Try, budget: Option<int>, session: Option<Session>, repair: bool) {
    if repair then t.verdict.WasInvalid? && Invalids(before) < REPAIRS && Named(t.left) && session == t.left
    else Faulty(t.verdict) && (budget.None? ==> Faults(before) < RETRIES_WITHOUT_DEADLINE) && session.None?
  }

  lemma {:induction false} ReadyForNext(
    adapter: Adapter, uuid: nat -> Session, before: seq<Try>, t: Try, budget: Option<int>,
    session: Option<Session>, repair: bool)
    requires Ongoing(adapter, uuid, before, budget) && Continues(adapter, uuid, before, t)
    requires MayFollow(before, t, budget, session, repair)
    ensures Ongoing(adapter, uuid, before + [t], budget)
    ensures Prepared(before + [t], session, repair,
      Invalids(before) + if repair then 1 else 0, Faults(before) + if repair then 0 else 1)
  {
    OneMoreTry(adapter, uuid, before, t, budget);
    assert (before + [t])[|before|] == t;
  }

  /** After a command: stop, repair in its session, or retry in a new one. */
  method Decide(clock: Clock, ghost before: seq<Try>, t: Try, repairs: nat, failures: nat, jitter: int)
    returns (d: Next)
    requires repairs == Invalids(before) <= REPAIRS && failures == Faults(before) && jitter >= LEAST_JITTER
    modifies clock
    ensures d.Over? ==> t.verdict.WasCompleted? || Stops(before, t, clock.Left(), jitter)
    ensures d.GoOn? ==>
      && MayFollow(before, t, clock.budget, d.session, d.repair)
      && d.repairs == repairs + (if d.repair then 1 else 0) && d.failures == failures + (if d.repair then 0 else 1)
      && clock.elapsed >= old(clock.elapsed)
      && (d.repair || (clock.elapsed > old(clock.elapsed) && (clock.Left().Some? ==> clock.Left().value >= 0)))
  {
    if t.verdict.WasCompleted? || t.verdict.WasFatal? { return Over; }
    if Faulty(t.verdict) {
      var again := AfterFault(clock, before, t, failures + 1, jitter);
      if !again { return Over; }
      d := Next.GoOn(None, false, repairs, failures + 1);
    } else {
      if !Named(t.left) || repairs >= REPAIRS { return Over; }
      d := Next.GoOn(t.left, true, repairs + 1, failures);
    }
  }

  /** The next command: a new session for an agent that is told its own, unless one is resumed. */
  method RunNext(
    adapter: Adapter, uuid: nat -> Session, run: (nat, Option<Session>, bool) -> Outcome, ghost before: seq<Try>,
    index: nat, session: Option<Session>, repair: bool, ghost repairs: nat, ghost failures: nat)
    returns (t: Try)
    requires index == |before| + 1 && Ran(before, run) && Prepared(before, session, repair, repairs, failures)
    ensures Continues(adapter, uuid, before, t) && Ran(before + [t], run)
  {
    var given := if adapter.Claude? && session.None? then Some(uuid(index)) else session;
    t := RunOne(adapter, uuid, before, index, given, repair, run(index, given, repair));
  }

  /** What to do after a command. */
  method Choose(
    adapter: Adapter, uuid: nat -> Session, clock: Clock, ghost before: seq<Try>, t: Try, repairs: nat,
    failures: nat, jitter: int)
    returns (d: Next)
    requires Ongoing(adapter, uuid, before, clock.budget) && Continues(adapter, uuid, before, t)
    requires repairs == Invalids(before) && failures == Faults(before) && jitter >= LEAST_JITTER
    modifies clock
    ensures d.Over? ==> t.verdict.WasCompleted? || Stops(before, t, clock.Left(), jitter)
    ensures d.GoOn? ==>
      && Ongoing(adapter, uuid, before + [t], clock.budget)
      && Prepared(before + [t], d.session, d.repair, d.repairs, d.failures)
      && clock.elapsed >= old(clock.elapsed)
      && (d.repairs > repairs || (d.repairs == repairs && d.failures == failures + 1
                                  && clock.elapsed > old(clock.elapsed)
                                  && (clock.Left().Some? ==> clock.Left().value >= 0)))
  {
    d := Decide(clock, before, t, repairs, failures, jitter);
    if d.Over? { return; }
    ReadyForNext(adapter, uuid, before, t, clock.budget, d.session, d.repair);
  }

  /** What the loop knows, and what it is about to do. */
  ghost predicate Underway(
    adapter: Adapter, uuid: nat -> Session, tries: seq<Try>, budget: Option<int>, next: Next)
  {
    && next.GoOn? && Ongoing(adapter, uuid, tries, budget)
    && Prepared(tries, next.session, next.repair, next.repairs, next.failures)
  }

  /** One command and what to do after it. */
  method OneRound(
    adapter: Adapter, uuid: nat -> Session, run: (nat, Option<Session>, bool) -> Outcome, clock: Clock,
    ghost before: seq<Try>, index: nat, now: Next, time: nat, jitter: int)
    returns (t: Try, d: Next)
    requires index == |before| + 1 && jitter >= LEAST_JITTER
    requires Ran(before, run) && Underway(adapter, uuid, before, clock.budget, now)
    modifies clock
    ensures Ran(before + [t], run)
    ensures d.Over? ==> Finishes(adapter, uuid, before + [t], t.verdict.WasCompleted?, clock, jitter)
    ensures d.GoOn? ==>
      && Underway(adapter, uuid, before + [t], clock.budget, d)
      && (d.repairs > now.repairs
          || (d.repairs == now.repairs && Remaining(clock, d.failures) < old(Remaining(clock, now.failures))))
  {
    clock.Pass(time);
    t := RunNext(adapter, uuid, run, before, index, now.session, now.repair, now.repairs, now.failures);
    d := Choose(adapter, uuid, clock, before, t, now.repairs, now.failures, jitter);
    if d.GoOn? { return; }
    assert (before + [t])[..|before|] == before && (before + [t])[|before|] == t;
  }

  lemma {:induction false} OngoingIsShort(adapter: Adapter, uuid: nat -> Session, tries: seq<Try>, budget: Option<int>)
    requires Ongoing(adapter, uuid, tries, budget) && budget.None?
    ensures |tries| <= REPAIRS + RETRIES_WITHOUT_DEADLINE
  {}

  method RunAgent(
    adapter: Adapter, clock: Clock, uuid: nat -> Session, run: (nat, Option<Session>, bool) -> Outcome,
    time: nat -> nat, jitter: nat -> int)
    returns (tries: seq<Try>, completed: bool)
    requires forall n :: jitter(n) >= LEAST_JITTER
    modifies clock
    ensures |tries| > 0 && Finishes(adapter, uuid, tries, completed, clock, jitter(|tries|)) && Ran(tries, run)
    ensures clock.budget.None? ==> |tries| <= 1 + REPAIRS + RETRIES_WITHOUT_DEADLINE
  {
    tries := [];
    var next, index := Next.GoOn(None, false, 0, 0), 0;
    while true
      invariant index == |tries| && Ran(tries, run) && Underway(adapter, uuid, tries, clock.budget, next)
      decreases REPAIRS - next.repairs, Remaining(clock, next.failures)
    {
      index := index + 1;
      if clock.budget.None? { OngoingIsShort(adapter, uuid, tries, clock.budget); }
      var left := clock.Left();
      if index > 1 && left.Some? && left.value <= 0 { return tries, false; }
      var t, d := OneRound(adapter, uuid, run, clock, tries, index, next, time(index), jitter(index));
      tries := tries + [t];
      if d.Over? { return tries, t.verdict.WasCompleted?; }
      next := d;
    }
  }
}
