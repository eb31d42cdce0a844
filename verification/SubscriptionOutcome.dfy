/** What a refresh leaves behind: the credential's token after a call that reports success, and what a call
    reports after a failure. */
module SubscriptionOutcome {
  import opened Wrappers
  import opened Subscription

  /** The credential of `t` carries the login that the profile holds. */
  predicate Credited(st: State, t: nat) {
    && |st.stored| > 0 && At(st, t)
    && Own(st, t).token == Profile(st).access && Own(st, t).expires == Profile(st).expires
  }

  /** A token that is not the stale one and lasts for more than five minutes yet. */
  predicate Good(c: Credential, stale: string, now: int) {
    c.token != stale && (c.expires.Some? ==> c.expires.value > now + 300)
  }

  /** How a failing step of a call is reported, if `a` is one of `t`. */
  function Reported(a: Action, t: nat): Option<Outcome> {
    match a
    case LoadFails(u, _) => if u == t then Some(Raised) else None
    case NotSent(u, raised) => if u == t then Some(if raised then Raised else NotRefreshed) else None
    case NoAnswer(u, raised) => if u == t then Some(if raised then Raised else NotRefreshed) else None
    case NotWritten(u, _) => if u == t then Some(NotRefreshed) else None
    case _ => None
  }

  /** How a call is about to end, or has ended. */
  function Ending(s: Stage): Option<Outcome> {
    match s
    case Leaving(o) => Some(o)
    case Exiting(o) => Some(o)
    case Done(o) => Some(o)
    case _ => None
  }

  ghost predicate Failed(past: seq<Action>, t: nat) { exists a :: a in past && Reported(a, t).Some? }

  /** A call ends as its failing step is reported, and as refreshed if none failed; a login that it stores or
      has stored was the provider's answer to it. */
  ghost predicate EndsAsTold(st: State, past: seq<Action>, t: nat)
    requires t < |st.tasks|
  {
    var stage := st.tasks[t].stage;
    && (forall a :: a in past && Reported(a, t).Some? ==> Ending(stage) == Reported(a, t))
    && (Ending(stage).Some? && Ending(stage).value != Refreshed ==> Failed(past, t))
    && (stage.Storing? ==> Answer(t, stage.updated) in past)
    && (stage.Written? ==> Answer(t, stage.kept) in past)
  }

  predicate LeavesCredited(st: State, t: nat)
    requires t < |st.tasks|
  {
    st.tasks[t].stage == Leaving(Refreshed) ==> Credited(st, t)
  }

  ghost predicate Told(st: State, past: seq<Action>) {
    && (forall a, u: nat :: a in past && Reported(a, u).Some? ==> u < |st.tasks|)
    && forall t :: 0 <= t < |st.tasks| ==> EndsAsTold(st, past, t)
  }

  // --- the credential of a call that succeeds ---

  lemma {:induction false} StepKeepsCredited(st: State, a: Action, t: nat)
    requires Excluding(st) && Enabled(st, a) && t < |st.tasks| && LeavesCredited(st, t)
    ensures LeavesCredited(Next(st, a), t)
  {
    assert TaskFits(st, t);
    if !a.Call? && !a.Tick? {
      assert TaskFits(st, a.task);
      if a.task == t {
        MoverLeavesCredited(st, a);
      } else if st.tasks[t].stage == Leaving(Refreshed) {
        OthersKeepCredited(st, a, t);
      }
    }
  }

  lemma {:induction false} MoverLeavesCredited(st: State, a: Action)
    requires Enabled(st, a) && !a.Call? && !a.Tick? && TaskFits(st, a.task)
    ensures LeavesCredited(Next(st, a), a.task)
  {}

  /** Whoever is inside the file lock keeps its credential and the profile to itself. */
  lemma {:induction false} OthersKeepCredited(st: State, a: Action, t: nat)
    requires Enabled(st, a) && !a.Call? && !a.Tick? && a.task != t
    requires |st.stored| > 0 && t < |st.tasks| && TaskFits(st, t) && TaskFits(st, a.task)
    requires InSection(st.tasks[t].stage) && Credited(st, t)
    ensures Credited(Next(st, a), t)
  {}

  lemma {:induction false} RunKeepsCredited(st: State, actions: seq<Action>, t: nat)
    requires Excluding(st) && Runs(st, actions) && (t < |st.tasks| ==> LeavesCredited(st, t))
    ensures t < |After(st, actions).tasks| ==> LeavesCredited(After(st, actions), t)
    decreases |actions|
  {
    if |actions| > 0 {
      StepKeepsExclusion(st, actions[0]);
      if t < |st.tasks| { StepKeepsCredited(st, actions[0], t); }
      RunKeepsCredited(Next(st, actions[0]), actions[1..], t);
    }
  }

  /** In every reachable state, a call about to report success has left in its credential the token and expiry
      of the login that the profile holds. */
  lemma {:induction false} SuccessLeavesTheProfilesToken(start: State, actions: seq<Action>, t: nat)
    requires Initial(start) && Runs(start, actions) && t < |After(start, actions).tasks|
    requires After(start, actions).tasks[t].stage == Leaving(Refreshed)
    ensures Credited(After(start, actions), t)
  {
    RunKeepsCredited(start, actions, t);
  }

  /** A call that comes to report success has either stored an answer of its own just before, or finds in its
      credential, at that moment, a token that is not the stale one and is not about to expire. */
  lemma {:induction false} SuccessIsServed(st: State, a: Action, t: nat)
    requires Enabled(st, a) && t < |Next(st, a).tasks|
    requires Ending(Next(st, a).tasks[t].stage) == Some(Refreshed)
    requires t < |st.tasks| ==> Ending(st.tasks[t].stage).None?
    ensures t < |st.tasks| && At(Next(st, a), t)
    ensures a == Apply(t) || Good(Own(Next(st, a), t), st.tasks[t].stale, st.now)
  {}

  // --- how a call ends ---

  lemma {:induction false} OneMoreReport(past: seq<Action>, a: Action, t: nat)
    ensures Failed(past + [a], t) <==> Failed(past, t) || Reported(a, t).Some?
  {
    if Failed(past, t) {
      var b :| b in past && Reported(b, t).Some?;
      assert b in past + [a];
    }
    if Reported(a, t).Some? { assert a in past + [a]; }
  }

  lemma {:induction false} MoverEndsAsTold(st: State, past: seq<Action>, a: Action)
    requires Enabled(st, a) && !a.Call? && !a.Tick? && EndsAsTold(st, past, a.task)
    ensures EndsAsTold(Next(st, a), past + [a], a.task)
  {
    var t := a.task;
    OneMoreReport(past, a, t);
    forall b | b in past + [a] && Reported(b, t).Some?
      ensures Ending(Next(st, a).tasks[t].stage) == Reported(b, t)
    {
      if b in past { assert Ending(st.tasks[t].stage) == Reported(b, t); }
    }
  }

  lemma {:induction false} OthersEndAsTold(st: State, past: seq<Action>, a: Action, t: nat)
    requires Enabled(st, a) && (a.Call? || a.Tick? || a.task != t)
    requires t < |st.tasks| && EndsAsTold(st, past, t)
    ensures EndsAsTold(Next(st, a), past + [a], t)
  {
    assert Reported(a, t).None?;
    assert Next(st, a).tasks[t] == st.tasks[t];
    OneMoreReport(past, a, t);
  }

  lemma {:induction false} StepKeepsTold(st: State, past: seq<Action>, a: Action)
    requires Told(st, past) && Enabled(st, a)
    ensures Told(Next(st, a), past + [a])
  {
    var st' := Next(st, a);
    forall t | 0 <= t < |st'.tasks| ensures EndsAsTold(st', past + [a], t) {
      if t < |st.tasks| {
        assert EndsAsTold(st, past, t);
        if a.Call? || a.Tick? || a.task != t {
          OthersEndAsTold(st, past, a, t);
        } else {
          MoverEndsAsTold(st, past, a);
        }
      }
    }
  }

  lemma {:induction false} RunKeepsTold(st: State, past: seq<Action>, actions: seq<Action>)
    requires Told(st, past) && Runs(st, actions)
    ensures Told(After(st, actions), past + actions)
    decreases |actions|
  {
    if |actions| == 0 {
      assert past + actions == past;
    } else {
      StepKeepsTold(st, past, actions[0]);
      RunKeepsTold(Next(st, actions[0]), past + [actions[0]], actions[1..]);
      assert (past + [actions[0]]) + actions[1..] == past + actions;
    }
  }

  /** A call ends refreshed if and only if none of its steps failed, and otherwise as the failing step is
      reported. */
  lemma {:induction false} CallsEndAsTold(start: State, actions: seq<Action>, t: nat)
    requires Initial(start) && Runs(start, actions) && t < |After(start, actions).tasks|
    ensures var end := Ending(After(start, actions).tasks[t].stage);
      && (end == Some(Refreshed) ==> !Failed(actions, t))
      && (end.Some? && !Failed(actions, t) ==> end == Some(Refreshed))
      && forall a :: a in actions && Reported(a, t).Some? ==> end == Reported(a, t)
  {
    RunKeepsTold(start, [], actions);
    assert [] + actions == actions;
    assert EndsAsTold(After(start, actions), actions, t);
    forall a | a in actions && Reported(a, t).Some? ensures Reported(a, t) != Some(Refreshed) {}
  }

  /** After its own exchange, a call leaves in its credential and in the profile what the provider answered it. */
  lemma {:induction false} OwnAnswerIsUsed(start: State, actions: seq<Action>, t: nat)
    requires Initial(start) && Runs(start, actions) && Enabled(After(start, actions), Apply(t))
    ensures var end := Next(After(start, actions), Apply(t));
      && Answer(t, Profile(end)) in actions && Credited(end, t) && end.tasks[t].stage == Leaving(Refreshed)
  {
    RunKeepsTold(start, [], actions);
    RunKeepsAll(start, actions, "");
    assert [] + actions == actions;
    var st := After(start, actions);
    assert EndsAsTold(st, actions, t) && TaskFits(st, t);
  }

  lemma {:induction false} TasksStay(st: State, actions: seq<Action>, t: nat)
    requires Runs(st, actions) && t < |st.tasks|
    ensures t < |After(st, actions).tasks|
    ensures After(st, actions).tasks[t] == st.tasks[t].(stage := After(st, actions).tasks[t].stage)
    decreases |actions|
  {
    if |actions| > 0 { TasksStay(Next(st, actions[0]), actions[1..], t); }
  }

  /** What a call counts as stale is, for good, the token that its credential had when it was made. */
  lemma {:induction false} StaleIsTheTokenAtCall(st: State, c: nat, later: seq<Action>)
    requires Enabled(st, Call(c)) && Runs(Next(st, Call(c)), later)
    ensures var (t, end) := (|st.tasks|, After(Next(st, Call(c)), later));
      t < |end.tasks| && end.tasks[t].credential == c && end.tasks[t].stale == st.credentials[c].token
  {
    TasksStay(Next(st, Call(c)), later, |st.tasks|);
  }

  // --- what is lost and what is stored ---

  predicate Loses(a: Action) { a.NoAnswer? || a.NotWritten? }

  predicate Stores(a: Action) { a.Write? || (a.NotWritten? && a.replaced) }

  function LossesIn(actions: seq<Action>): nat {
    if |actions| == 0 then 0 else (if Loses(actions[0]) then 1 else 0) + LossesIn(actions[1..])
  }

  function StoresIn(actions: seq<Action>): nat {
    if |actions| == 0 then 0 else (if Stores(actions[0]) then 1 else 0) + StoresIn(actions[1..])
  }

  /** An answer is lost when none comes or it cannot be written, and the profile changes when one is written,
      even if the write is reported to have failed. */
  lemma {:induction false} RunTellsLosses(st: State, actions: seq<Action>)
    requires Runs(st, actions)
    ensures After(st, actions).lost == st.lost + LossesIn(actions)
    ensures |After(st, actions).stored| == |st.stored| + StoresIn(actions)
    decreases |actions|
  {
    if |actions| > 0 { RunTellsLosses(Next(st, actions[0]), actions[1..]); }
  }
}
