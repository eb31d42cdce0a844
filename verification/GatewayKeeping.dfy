/** What becomes of a provider's reply: which answers are kept for retries, which are asked for again,
    and what a call is recorded and charged with. All of it is told by the actions of the run. */
module GatewayKeeping {
  import opened Wrappers
  import opened Session
  import opened Gateway
  import opened GatewayReplay

  // --- what the run tells ---

  /** The provider's reply to the call of handler `h`, if there was one. */
  function ReplyTo(past: seq<Action>, h: nat): (r: Option<Action>)
    ensures r.Some? ==> r.value in past && r.value.Reply? && r.value.h == h
    ensures r.None? ==> forall a :: a in past && a.Reply? ==> a.h != h
  {
    if |past| == 0 then None
    else
      var (before, last) := (past[..|past| - 1], past[|past| - 1]);
      if last.Reply? && last.h == h then Some(last) else ReplyTo(before, h)
  }

  /** A success, and all of it. */
  predicate Whole(a: Action)
    requires a.Reply?
  {
    200 <= a.status && a.status <= 299 && (!a.streaming || a.complete)
  }

  /** `r` is the reply `a`, as the client gets it. */
  predicate IsReply(r: Response, a: Action)
    requires a.Reply?
  {
    && r.status == a.status && r.body == Provider(a.digest) && r.streaming == a.streaming
    && r.callId == a.h && !r.noRetry
  }

  /** The gateway's own answer to a call over a ceiling. */
  predicate IsRefusal(r: Response) { r.status == 429 && r.body.Refusing? && !r.streaming && r.noRetry }

  /** What the call of `h` costs: the tokens of a reply with status 200, and nothing otherwise. */
  function Cost(past: seq<Action>, h: nat): CallUsage {
    match ReplyTo(past, h)
    case Some(a) => if a.status == 200 then a.tokens else NO_TOKENS
    case None => NO_TOKENS
  }

  predicate Succeeded(past: seq<Action>, h: nat) {
    ReplyTo(past, h).Some? && ReplyTo(past, h).value.status == 200
  }

  lemma {:induction false} OneMoreAction(past: seq<Action>, a: Action, h: nat)
    ensures ReplyTo(past + [a], h) == if a.Reply? && a.h == h then Some(a) else ReplyTo(past, h)
  {
    assert (past + [a])[..|past|] == past;
  }

  // --- what is charged and recorded ---

  /** A handler is due what its reply costs, and has one only once it is past the provider. */
  predicate DueFits(g: Gateway, past: seq<Action>, h: nat)
    requires h < |g.handlers|
  {
    match g.handlers[h].pc
    case Committing(usage, _) => usage == Cost(past, h)
    case Done(_) => true
    case _ => ReplyTo(past, h).None?
  }

  /** A record of a call that reached the provider tells whether it succeeded, and its cost. */
  predicate RecordFits(past: seq<Action>, r: Record) {
    r.disposition.WasForwarded? || r.disposition.WasFailed? ==>
      && (r.disposition.WasForwarded? <==> Succeeded(past, r.callId))
      && r.usage == Cost(past, r.callId)
  }

  predicate PastProvider(pc: Pc) { pc.Committing? || pc.Done? }

  ghost predicate Charged(g: Gateway, past: seq<Action>) {
    && (forall a :: a in past && a.Reply? ==> a.h < |g.handlers|)
    && (forall h :: 0 <= h < |g.handlers| ==> DueFits(g, past, h))
    && (forall i :: 0 <= i < |g.trace| ==> RecordFits(past, g.trace[i]))
    && (forall i :: 0 <= i < |g.trace| ==> RecordIsPast(g, g.trace[i]))
  }

  /** Records of calls that reached the provider name handlers that are past it. */
  predicate RecordIsPast(g: Gateway, r: Record) {
    r.disposition.WasForwarded? || r.disposition.WasFailed? ==>
      r.callId < |g.handlers| && PastProvider(g.handlers[r.callId].pc)
  }

  /** What a step of handler `h` does for the record: it alone moves, and at most one record is added. */
  ghost predicate Adds(g: Gateway, g': Gateway, h: nat) {
    && h < |g.handlers| == |g'.handlers|
    && g'.handlers == g.handlers[h := g'.handlers[h]]
    && (PastProvider(g.handlers[h].pc) ==> PastProvider(g'.handlers[h].pc))
    && (g'.trace == g.trace
        || (|g'.trace| == |g.trace| + 1 && g'.trace[..|g.trace|] == g.trace))
  }

  lemma {:induction false} StepAdds(g: Gateway, a: Action)
    requires Enabled(g, a) && !a.Arrive? && !a.Close?
    ensures Adds(g, Next(g, a), a.h)
  {}

  /** The record that a step adds, if it is one of a call that reached the provider. */
  lemma {:induction false} AddedRecordFits(g: Gateway, past: seq<Action>, a: Action)
    requires Enabled(g, a) && !a.Arrive? && !a.Close? && DueFits(g, past, a.h)
    ensures |Next(g, a).trace| > |g.trace| ==>
      var r := Next(g, a).trace[|g.trace|];
      RecordFits(past + [a], r) && RecordIsPast(Next(g, a), r)
  {
    OneMoreAction(past, a, a.h);
  }

  lemma {:induction false} MoverFits(g: Gateway, past: seq<Action>, a: Action)
    requires Enabled(g, a) && !a.Arrive? && !a.Close? && DueFits(g, past, a.h)
    ensures DueFits(Next(g, a), past + [a], a.h)
  {
    OneMoreAction(past, a, a.h);
  }

  lemma {:induction false} OlderRecordFits(g: Gateway, past: seq<Action>, a: Action, r: Record)
    requires RecordFits(past, r) && RecordIsPast(g, r) && Enabled(g, a)
    ensures RecordFits(past + [a], r)
  {
    OneMoreAction(past, a, r.callId);
  }

  lemma {:induction false} StepKeepsCharges(g: Gateway, past: seq<Action>, a: Action)
    requires Charged(g, past) && Enabled(g, a)
    ensures Charged(Next(g, a), past + [a])
  {
    var g' := Next(g, a);
    if a.Arrive? || a.Close? {
      QuietStepKeepsCharges(g, past, a);
    } else {
      StepAdds(g, a);
      MoverFits(g, past, a);
      AddedRecordFits(g, past, a);
      forall h | 0 <= h < |g'.handlers| ensures DueFits(g', past + [a], h) {
        OneMoreAction(past, a, h);
        if h != a.h { assert g'.handlers[h] == g.handlers[h] && DueFits(g, past, h); }
      }
      forall i | 0 <= i < |g'.trace| ensures RecordFits(past + [a], g'.trace[i]) && RecordIsPast(g', g'.trace[i]) {
        if i < |g.trace| {
          assert g'.trace[i] == g.trace[i];
          OlderRecordFits(g, past, a, g.trace[i]);
        }
      }
    }
  }

  lemma {:induction false} QuietStepKeepsCharges(g: Gateway, past: seq<Action>, a: Action)
    requires Charged(g, past) && Enabled(g, a) && (a.Arrive? || a.Close?)
    ensures Charged(Next(g, a), past + [a])
  {
    var g' := Next(g, a);
    forall h | 0 <= h < |g'.handlers| ensures DueFits(g', past + [a], h) {
      OneMoreAction(past, a, h);
      if h < |g.handlers| { assert g'.handlers[h] == g.handlers[h] && DueFits(g, past, h); }
    }
    forall i | 0 <= i < |g'.trace| ensures RecordFits(past + [a], g'.trace[i]) && RecordIsPast(g', g'.trace[i]) {
      OlderRecordFits(g, past, a, g.trace[i]);
    }
  }

  lemma {:induction false} RunKeepsCharges(g: Gateway, past: seq<Action>, actions: seq<Action>)
    requires Charged(g, past) && Runs(g, actions)
    ensures Charged(After(g, actions), past + actions)
    decreases |actions|
  {
    if |actions| == 0 {
      assert past + actions == past;
    } else {
      StepKeepsCharges(g, past, actions[0]);
      RunKeepsCharges(Next(g, actions[0]), past + [actions[0]], actions[1..]);
      assert (past + [actions[0]]) + actions[1..] == past + actions;
    }
  }

  /** A commit charges what the call's reply cost, and every record of a call that reached the provider
      tells the same: the tokens of a reply with status 200, and nothing for any other call. */
  lemma {:induction false} OnlySuccessCosts(limits: Limits, agent: bool, actions: seq<Action>, h: nat)
    requires Runs(Start(limits, agent), actions)
    ensures var g := After(Start(limits, agent), actions);
      && (Enabled(g, Commit(h)) ==> Next(g, Commit(h)).session.usage == g.session.usage.Charge(Cost(actions, h)))
      && forall i :: 0 <= i < |g.trace| ==> RecordFits(actions, g.trace[i])
  {
    RunKeepsCharges(Start(limits, agent), [], actions);
    assert [] + actions == actions;
    var g := After(Start(limits, agent), actions);
    if Enabled(g, Commit(h)) { assert DueFits(g, actions, h); }
  }

  // --- what is kept for retries ---

  /** What an answered or answering call of an agent was answered with, and whether that is kept. */
  predicate AnswerFits(g: Gateway, past: seq<Action>, h: nat)
    requires h < |g.handlers|
  {
    var Handler(key, pc) := g.handlers[h];
    match pc
    case Committing(_, Settle(Answer(r, keep))) =>
      && ReplyTo(past, h).Some? && IsReply(r, ReplyTo(past, h).value)
      && (keep <==> Whole(ReplyTo(past, h).value))
    case Committing(_, Settle(Error(e))) => ReplyTo(past, h).None? && Break(h, e) in past
    case Committing(_, Abandon) => ReplyTo(past, h).None?
    case Done(Raised(e)) => ReplyTo(past, h).None? && Break(h, e) in past
    case Done(Answered(r)) =>
      && (ReplyTo(past, h).None? ==> IsRefusal(r) && IsKept(g, key, r))
      && (ReplyTo(past, h).Some? ==>
            IsReply(r, ReplyTo(past, h).value) && (IsKept(g, key, r) <==> Whole(ReplyTo(past, h).value)))
    case _ => ReplyTo(past, h).None?
  }

  predicate IsKept(g: Gateway, key: Key, r: Response) { key in g.session.replay && g.session.replay[key] == r }

  ghost predicate Told(g: Gateway, past: seq<Action>) {
    && (forall a :: a in past && a.Reply? ==> a.h < |g.handlers|)
    && forall h :: 0 <= h < |g.handlers| ==> AnswerFits(g, past, h)
  }

  /** A step changes what is kept only for the key of an owner that settles, which was not kept before. */
  lemma {:induction false} StepKeepsOthersKept(g: Gateway, a: Action, i: nat)
    requires Coherent(g) && Enabled(g, a) && i < |g.handlers| && !(!a.Arrive? && !a.Close? && a.h == i)
    requires g.handlers[i].pc.Done? && g.handlers[i].pc.outcome.Answered?
    ensures var Handler(key, pc) := g.handlers[i];
      IsKept(Next(g, a), key, pc.outcome.response) <==> IsKept(g, key, pc.outcome.response)
  {
    assert HandlerCoherent(g, i);
    match a
    case Reserve(h) => OwnerHoldsItsKey(g, h);
    case Commit(h) =>
      OwnerHoldsItsKey(g, h);
      assert HandlerCoherent(g, h);
    case _ =>
  }

  lemma {:induction false} MoverIsTold(g: Gateway, past: seq<Action>, a: Action)
    requires Coherent(g) && Enabled(g, a) && !a.Arrive? && !a.Close? && AnswerFits(g, past, a.h)
    ensures AnswerFits(Next(g, a), past + [a], a.h)
  {
    OneMoreAction(past, a, a.h);
    match a
    case Commit(h) =>
      OwnerHoldsItsKey(g, h);
    case _ =>
  }

  lemma {:induction false} StepKeepsTold(g: Gateway, past: seq<Action>, a: Action)
    requires Coherent(g) && Told(g, past) && Enabled(g, a)
    ensures Told(Next(g, a), past + [a])
  {
    var g' := Next(g, a);
    if !a.Arrive? && !a.Close? {
      StepAdds(g, a);
      MoverIsTold(g, past, a);
    }
    forall h | 0 <= h < |g'.handlers| ensures AnswerFits(g', past + [a], h) {
      OneMoreAction(past, a, h);
      if h < |g.handlers| && !(!a.Arrive? && !a.Close? && a.h == h) {
        assert g'.handlers[h] == g.handlers[h] && AnswerFits(g, past, h);
        if g.handlers[h].pc.Done? && g.handlers[h].pc.outcome.Answered? { StepKeepsOthersKept(g, a, h); }
      }
    }
  }

  lemma {:induction false} RunKeepsTold(g: Gateway, past: seq<Action>, actions: seq<Action>)
    requires Coherent(g) && Told(g, past) && Runs(g, actions)
    ensures Told(After(g, actions), past + actions)
    decreases |actions|
  {
    if |actions| == 0 {
      assert past + actions == past;
    } else {
      StepKeepsCoherence(g, actions[0]);
      StepKeepsTold(g, past, actions[0]);
      RunKeepsTold(Next(g, actions[0]), past + [actions[0]], actions[1..]);
      assert (past + [actions[0]]) + actions[1..] == past + actions;
    }
  }

  lemma {:induction false} ReachedIsTold(limits: Limits, actions: seq<Action>)
    requires Runs(Start(limits, true), actions)
    ensures Coherent(After(Start(limits, true), actions)) && Told(After(Start(limits, true), actions), actions)
  {
    StartIsCoherent(limits);
    RunKeepsCoherence(Start(limits, true), actions);
    RunKeepsTold(Start(limits, true), [], actions);
    assert [] + actions == actions;
  }

  // --- main results ---

  /** Everything kept for retries is the gateway's own refusal, or a whole success that the provider sent. */
  lemma {:induction false} OnlyWholeSuccessesAreKept(limits: Limits, actions: seq<Action>, key: Key)
    requires Runs(Start(limits, true), actions) && key in After(Start(limits, true), actions).session.replay
    ensures var r := After(Start(limits, true), actions).session.replay[key];
      IsRefusal(r) || exists a :: a in actions && a.Reply? && IsReply(r, a) && Whole(a)
  {
    ReachedIsTold(limits, actions);
    var g := After(Start(limits, true), actions);
    assert KeyCoherent(g, key);
    var h := g.session.replay[key].callId;
    assert AnswerFits(g, actions, h);
    if ReplyTo(actions, h).Some? { assert ReplyTo(actions, h).value in actions; }
  }

  /** An answered call's answer is kept if and only if it is a refusal or the reply was a whole success. */
  lemma {:induction false} WholeSuccessesAreKept(limits: Limits, actions: seq<Action>, h: nat)
    requires Runs(Start(limits, true), actions)
    requires h < |After(Start(limits, true), actions).handlers|
    requires var pc := After(Start(limits, true), actions).handlers[h].pc; pc.Done? && pc.outcome.Answered?
    ensures var g := After(Start(limits, true), actions);
      var r := g.handlers[h].pc.outcome.response;
      IsKept(g, g.handlers[h].key, r) <==>
        IsRefusal(r) || (ReplyTo(actions, h).Some? && Whole(ReplyTo(actions, h).value))
  {
    ReachedIsTold(limits, actions);
    assert AnswerFits(After(Start(limits, true), actions), actions, h);
  }

  /** A call raises what its exchange with the provider raised. */
  lemma {:induction false} ErrorsAreTheProviders(limits: Limits, actions: seq<Action>, h: nat)
    requires Runs(Start(limits, true), actions)
    requires h < |After(Start(limits, true), actions).handlers|
    requires var pc := After(Start(limits, true), actions).handlers[h].pc; pc.Done? && pc.outcome.Raised?
    ensures Break(h, After(Start(limits, true), actions).handlers[h].pc.outcome.error) in actions
  {
    ReachedIsTold(limits, actions);
    assert AnswerFits(After(Start(limits, true), actions), actions, h);
  }

  /** A key that nobody keeps or works on. */
  predicate Free(g: Gateway, key: Key) { key !in g.session.replay && key !in g.session.inflight }

  /** Once a call has ended that the provider did not answer with a whole success, its key is free, and the
      next request for it is forwarded. Only a cancelled owner leaves its key in flight. */
  lemma {:induction false} FailuresAreAskedAgain(limits: Limits, actions: seq<Action>, h: nat, again: nat)
    requires Runs(Start(limits, true), actions) && Enabled(After(Start(limits, true), actions), Commit(h))
    requires ReplyTo(actions, h).Some? ==> !Whole(ReplyTo(actions, h).value)
    ensures var g := After(Start(limits, true), actions);
      var (key, end) := (g.handlers[h].key, Next(g, Commit(h)));
      && (end.handlers[h].pc != Done(Gone) ==> Free(end, key))
      && (Free(end, key) && At(end, again, Arrived) && end.handlers[again].key == key ==>
            At(Next(end, Call(again)), again, Reserving))
  {
    ReachedIsTold(limits, actions);
    var g := After(Start(limits, true), actions);
    OwnerHoldsItsKey(g, h);
    assert AnswerFits(g, actions, h);
  }

  // --- Judge sessions ---

  /** A call that is neither answered from the cache nor made to wait for another. */
  predicate OnItsOwn(pc: Pc) {
    match pc
    case Waiting(_) => false
    case Done(Replayed(_)) => false
    case Done(Coalesced(_)) => false
    case Done(Reraised(_, _)) => false
    case _ => true
  }

  ghost predicate AllOnTheirOwn(g: Gateway) {
    !g.agent && forall h :: 0 <= h < |g.handlers| ==> OnItsOwn(g.handlers[h].pc)
  }

  lemma {:induction false} StepStaysOnItsOwn(g: Gateway, a: Action)
    requires AllOnTheirOwn(g) && Enabled(g, a)
    ensures AllOnTheirOwn(Next(g, a))
  {
    if !a.Arrive? && !a.Close? {
      assert OnItsOwn(g.handlers[a.h].pc);
      StepAdds(g, a);
    }
  }

  lemma {:induction false} RunStaysOnItsOwn(g: Gateway, actions: seq<Action>)
    requires AllOnTheirOwn(g) && Runs(g, actions)
    ensures AllOnTheirOwn(After(g, actions))
    decreases |actions|
  {
    if |actions| > 0 {
      StepStaysOnItsOwn(g, actions[0]);
      RunStaysOnItsOwn(Next(g, actions[0]), actions[1..]);
    }
  }

  /** A Judge's calls are never replayed or coalesced. */
  lemma {:induction false} JudgesSampleAgain(limits: Limits, actions: seq<Action>, h: nat)
    requires Runs(Start(limits, false), actions) && h < |After(Start(limits, false), actions).handlers|
    ensures OnItsOwn(After(Start(limits, false), actions).handlers[h].pc)
  {
    RunStaysOnItsOwn(Start(limits, false), actions);
  }
}
