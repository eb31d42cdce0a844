/** Accounting of one session over every interleaving of its handlers: reservations are settled
    once, counters agree with the trace, ceilings bind and a refusal is final. These hold for
    agent and Judge sessions alike, and with handler cancellation. */
module GatewayAccounting {
  import opened Wrappers
  import opened Session
  import opened Gateway

  // --- what the handlers and the trace add up to ---

  predicate Holds(pc: Pc) { pc.Upstream? || pc.Committing? }

  /** How many handlers hold a reservation. */
  ghost function Held(hs: seq<Handler>): nat {
    if |hs| == 0 then 0
    else Held(hs[..|hs| - 1]) + if Holds(hs[|hs| - 1].pc) then 1 else 0
  }

  /** The five counters of a session. */
  datatype Counter = Calls | Input | CacheRead | CacheWrite | Output

  function Of(u: CallUsage, c: Counter): nat {
    match c
    case Calls => 1
    case Input => u.input
    case CacheRead => u.cacheRead
    case CacheWrite => u.cacheWrite
    case Output => u.output
  }

  function Counted(u: Usage, c: Counter): nat {
    match c
    case Calls => u.modelCalls
    case Input => u.input
    case CacheRead => u.cacheRead
    case CacheWrite => u.cacheWrite
    case Output => u.output
  }

  /** What a handler has recorded but not yet committed to the counters. */
  function Due(pc: Pc, c: Counter): nat {
    if pc.Committing? then Of(pc.usage, c) else 0
  }

  ghost function Outstanding(hs: seq<Handler>, c: Counter): nat {
    if |hs| == 0 then 0 else Outstanding(hs[..|hs| - 1], c) + Due(hs[|hs| - 1].pc, c)
  }

  /** A record of a call that reached the upstream counts as one model call. */
  function Charged(r: Record, c: Counter): nat {
    if r.disposition.WasForwarded? || r.disposition.WasFailed? then Of(r.usage, c) else 0
  }

  ghost function Tally(trace: seq<Record>, c: Counter): nat {
    if |trace| == 0 then 0 else Tally(trace[..|trace| - 1], c) + Charged(trace[|trace| - 1], c)
  }

  lemma {:induction false} MoveChangesTotals(hs: seq<Handler>, h: nat, x: Handler, c: Counter)
    requires h < |hs|
    ensures Held(hs[h := x]) + (if Holds(hs[h].pc) then 1 else 0) == Held(hs) + (if Holds(x.pc) then 1 else 0)
    ensures Outstanding(hs[h := x], c) + Due(hs[h].pc, c) == Outstanding(hs, c) + Due(x.pc, c)
  {
    var last := |hs| - 1;
    var moved := hs[h := x];
    if h == last {
      assert moved[..last] == hs[..last];
    } else {
      assert moved[..last] == hs[..last][h := x];
      MoveChangesTotals(hs[..last], h, x, c);
    }
  }

  // --- the invariant ---

  ghost predicate Balanced(g: Gateway, c: Counter) {
    Counted(g.session.usage, c) + Outstanding(g.handlers, c) == Tally(g.trace, c)
  }

  ghost predicate Accounted(g: Gateway) {
    var s := g.session;
    && s.reserved == Held(g.handlers)
    && (g.open ==> forall c :: Balanced(g, c))
    && Bounded(g)
    && Marked(g)
  }

  /** Every granted reservation is in the counters or still held, under the call ceiling. */
  ghost predicate Bounded(g: Gateway) {
    var s := g.session;
    && s.seqNo == s.usage.modelCalls
    && |g.forwarded| == s.usage.modelCalls + s.reserved
    && (s.limits.modelCalls.Some? ==> s.usage.modelCalls + s.reserved <= s.limits.modelCalls.value)
  }

  /** A refusal, remembered or cached for replay, is one that still holds. */
  ghost predicate Marked(g: Gateway) {
    var s := g.session;
    && (s.refusal.Some? ==> !WithinLimits(s))
    && (forall key :: key in s.replay && s.replay[key].noRetry ==> s.refusal.Some?)
    && (forall h :: 0 <= h < |g.handlers| ==> MayRetry(g.handlers[h].pc))
  }

  /** Only the gateway's own refusal tells the client not to retry. */
  predicate MayRetry(pc: Pc) {
    pc.Committing? && pc.ending.Settle? && pc.ending.settlement.Answer? ==> !pc.ending.settlement.response.noRetry
  }

  lemma {:induction false} StartIsAccounted(limits: Limits, agent: bool)
    ensures Accounted(Start(limits, agent))
  {}

  /** What a step of handler `h` does to the totals: it alone moves; it takes or gives back at most
      its own reservation; a commit charges what was recorded; the trace gains what is left due. */
  ghost predicate Moved(g: Gateway, g': Gateway, h: nat, c: Counter) {
    && h < |g.handlers| == |g'.handlers|
    && g'.handlers == g.handlers[h := g'.handlers[h]]
    && g'.open == g.open
    && g'.session.reserved - g.session.reserved
       == (if Holds(g'.handlers[h].pc) then 1 else 0) - (if Holds(g.handlers[h].pc) then 1 else 0)
    && Counted(g'.session.usage, c) == Counted(g.session.usage, c) + Due(g.handlers[h].pc, c)
    && (g.open ==> Tally(g'.trace, c) == Tally(g.trace, c) + Due(g'.handlers[h].pc, c))
  }

  lemma {:induction false} NoteAddsToTally(g: Gateway, callId: nat, key: Key, d: Disposition, u: CallUsage, c: Counter)
    requires g.open
    ensures Tally(Note(g, callId, key, d, u).trace, c) == Tally(g.trace, c) + Charged(Record(callId, key, d, u), c)
  {
    var t := Note(g, callId, key, d, u).trace;
    assert t[..|t| - 1] == g.trace;
  }

  lemma {:induction false} CallMoves(g: Gateway, h: nat, c: Counter)
    requires At(g, h, Arrived)
    ensures Moved(g, AfterCall(g, h), h, c)
  {
    var key := g.handlers[h].key;
    if g.agent && key in g.session.replay {
      if g.open { NoteAddsToTally(g, g.session.replay[key].callId, key, WasReplayed(true), NO_TOKENS, c); }
    } else if g.agent && key in g.session.inflight {
      assert AfterCall(g, h).session == g.session;
    } else {
      BeginMovesNothing(g.session, key, h, c);
    }
  }

  lemma {:induction false} BeginMovesNothing(s: State, key: Key, h: nat, c: Counter)
    ensures var s' := AfterBegin(s, key, h); s'.reserved == s.reserved && Counted(s'.usage, c) == Counted(s.usage, c)
  {}

  lemma {:induction false} AdmissionMoves(g: Gateway, h: nat, c: Counter)
    requires At(g, h, Reserving)
    ensures Moved(g, AfterAdmission(g, h), h, c)
  {
    var refused := Admission(g.session);
    if g.open && refused.Some? {
      NoteAddsToTally(g, h, g.handlers[h].key, WasRefused(refused.value.limit), NO_TOKENS, c);
    }
  }

  lemma {:induction false} ReplyMoves(
    g: Gateway, h: nat, status: nat, tokens: CallUsage, response: Response, complete: bool, c: Counter)
    requires At(g, h, Upstream)
    ensures Moved(g, AfterReply(g, h, status, tokens, response, complete), h, c)
  {
    var usage := if status == 200 then tokens else NO_TOKENS;
    var keep := Replayable(status) && (response.streaming ==> complete);
    RecordedMoves(g, h, if status == 200 then WasForwarded else WasFailed, usage, Settle(Answer(response, keep)), c);
  }

  /** A call that reached the upstream is recorded and becomes due. */
  lemma {:induction false} RecordedMoves(
    g: Gateway, h: nat, d: Disposition, usage: CallUsage, ending: Ending, c: Counter)
    requires At(g, h, Upstream) && (d.WasForwarded? || d.WasFailed?)
    ensures Moved(g, Move(Note(g, h, g.handlers[h].key, d, usage), h, Committing(usage, ending)), h, c)
  {
    if g.open { NoteAddsToTally(g, h, g.handlers[h].key, d, usage, c); }
  }

  lemma {:induction false} FailureMoves(g: Gateway, h: nat, ending: Ending, c: Counter)
    requires At(g, h, Upstream)
    ensures Moved(g, AfterFailure(g, h, ending), h, c)
  {
    RecordedMoves(g, h, WasFailed, NO_TOKENS, ending, c);
  }

  lemma {:induction false} SettlingMoves(g: Gateway, h: nat, c: Counter)
    requires h < |g.handlers| && g.handlers[h].pc.Committing?
    ensures Moved(g, AfterSettling(g, h), h, c)
  {}

  lemma {:induction false} WakeMoves(g: Gateway, h: nat, c: Counter)
    requires IsWaiting(g, h)
    ensures Moved(g, AfterWake(g, h), h, c)
  {
    var future := g.session.futures[g.handlers[h].pc.on];
    if g.open && future.Resolved? {
      NoteAddsToTally(g, future.response.callId, g.handlers[h].key, WasReplayed(false), NO_TOKENS, c);
    }
  }

  lemma {:induction false} WaiterCancelledMoves(g: Gateway, h: nat, c: Counter)
    requires IsWaiting(g, h)
    ensures Moved(g, AfterWaiterCancelled(g, h), h, c)
  {}

  lemma {:induction false} StepMoves(g: Gateway, a: Action, c: Counter)
    requires Enabled(g, a) && !a.Arrive? && !a.Close?
    ensures Moved(g, Next(g, a), a.h, c)
  {
    match a
    case Call(h) => CallMoves(g, h, c);
    case Reserve(h) => AdmissionMoves(g, h, c);
    case Reply(h, status, digest, tokens, streaming, complete) =>
      ReplyMoves(g, h, status, tokens, Response(status, Provider(digest), streaming, h, false), complete, c);
    case Break(h, error) => FailureMoves(g, h, Settle(Error(error)), c);
    case CancelOwner(h) => FailureMoves(g, h, Abandon, c);
    case Commit(h) => SettlingMoves(g, h, c);
    case Wake(h) => WakeMoves(g, h, c);
    case CancelWaiter(h) => WaiterCancelledMoves(g, h, c);
  }

  lemma {:induction false} StepKeepsBalance(g: Gateway, a: Action, c: Counter)
    requires g.session.reserved == Held(g.handlers)
    requires g.open ==> Balanced(g, c)
    requires Enabled(g, a)
    ensures Next(g, a).session.reserved == Held(Next(g, a).handlers)
    ensures Next(g, a).open ==> Balanced(Next(g, a), c)
  {
    var g' := Next(g, a);
    if a.Arrive? {
      assert g'.handlers[..|g'.handlers| - 1] == g.handlers;
    } else if !a.Close? {
      StepMoves(g, a, c);
      MoveChangesTotals(g.handlers, a.h, g'.handlers[a.h], c);
    }
  }

  lemma {:induction false} AdmissionKeepsBound(g: Gateway, h: nat)
    requires Bounded(g) && h < |g.handlers|
    ensures Bounded(AfterAdmission(g, h))
  {}

  lemma {:induction false} SettlingKeepsBound(g: Gateway, h: nat)
    requires Bounded(g) && h < |g.handlers| && g.handlers[h].pc.Committing?
    ensures Bounded(AfterSettling(g, h))
  {}

  lemma {:induction false} StepKeepsBound(g: Gateway, a: Action)
    requires Bounded(g) && Enabled(g, a)
    ensures Bounded(Next(g, a))
  {
    match a
    case Reserve(h) => AdmissionKeepsBound(g, h);
    case Commit(h) => SettlingKeepsBound(g, h);
    case _ =>
  }

  lemma {:induction false} CallKeepsMarks(g: Gateway, h: nat)
    requires Marked(g) && h < |g.handlers|
    ensures Marked(AfterCall(g, h))
  {}

  lemma {:induction false} AdmissionKeepsMarks(g: Gateway, h: nat)
    requires Marked(g) && h < |g.handlers|
    ensures Marked(AfterAdmission(g, h))
  {}

  lemma {:induction false} SettlingKeepsMarks(g: Gateway, h: nat)
    requires Marked(g) && h < |g.handlers| && g.handlers[h].pc.Committing?
    ensures Marked(AfterSettling(g, h))
  {}

  lemma {:induction false} WakeKeepsMarks(g: Gateway, h: nat)
    requires Marked(g) && IsWaiting(g, h)
    ensures Marked(AfterWake(g, h))
  {}

  lemma {:induction false} WaiterCancelledKeepsMarks(g: Gateway, h: nat)
    requires Marked(g) && IsWaiting(g, h)
    ensures Marked(AfterWaiterCancelled(g, h))
  {}

  lemma {:induction false} StepKeepsMarks(g: Gateway, a: Action)
    requires Marked(g) && Enabled(g, a)
    ensures Marked(Next(g, a))
  {
    match a
    case Reserve(h) => AdmissionKeepsMarks(g, h);
    case Commit(h) => SettlingKeepsMarks(g, h);
    case Call(h) => CallKeepsMarks(g, h);
    case Wake(h) => WakeKeepsMarks(g, h);
    case CancelWaiter(h) => WaiterCancelledKeepsMarks(g, h);
    case _ =>
  }

  lemma {:induction false} StepKeepsAccounts(g: Gateway, a: Action)
    requires Accounted(g) && Enabled(g, a)
    ensures Accounted(Next(g, a))
  {
    forall c ensures Next(g, a).open ==> Balanced(Next(g, a), c) { StepKeepsBalance(g, a, c); }
    StepKeepsBalance(g, a, Calls);
    StepKeepsBound(g, a);
    StepKeepsMarks(g, a);
  }

  lemma {:induction false} RunKeepsAccounts(g: Gateway, actions: seq<Action>)
    requires Accounted(g) && Runs(g, actions)
    ensures Accounted(After(g, actions))
    decreases |actions|
  {
    if |actions| > 0 {
      StepKeepsAccounts(g, actions[0]);
      RunKeepsAccounts(Next(g, actions[0]), actions[1..]);
    }
  }

  // --- main results ---

  /** In every reachable state as many reservations are out as handlers hold one, every granted
      call is either committed or held, and the call ceiling is never exceeded. */
  lemma {:induction false} ReservationsAreSettledOnce(limits: Limits, agent: bool, actions: seq<Action>)
    requires Runs(Start(limits, agent), actions)
    ensures var g := After(Start(limits, agent), actions);
      && Accounted(g)
      && g.session.reserved == Held(g.handlers)
      && |g.forwarded| == g.session.usage.modelCalls + Held(g.handlers)
      && (g.session.limits.modelCalls.Some? ==> |g.forwarded| <= g.session.limits.modelCalls.value)
  {
    StartIsAccounted(limits, agent);
    RunKeepsAccounts(Start(limits, agent), actions);
  }

  /** Once no handler holds a reservation, each counter of an open session is the sum over its
      trace; in particular the model calls are its records that were not refused. */
  lemma {:induction false} CountersAgreeWithTrace(limits: Limits, agent: bool, actions: seq<Action>, c: Counter)
    requires Runs(Start(limits, agent), actions)
    requires After(Start(limits, agent), actions).open
    ensures var g := After(Start(limits, agent), actions);
      && Counted(g.session.usage, c) <= Tally(g.trace, c)
      && (Held(g.handlers) == 0 ==> Counted(g.session.usage, c) == Tally(g.trace, c))
  {
    ReservationsAreSettledOnce(limits, agent, actions);
    var g := After(Start(limits, agent), actions);
    assert Balanced(g, c);
    if Held(g.handlers) == 0 { NothingHeldNothingDue(g.handlers, c); }
  }

  lemma {:induction false} NothingHeldNothingDue(hs: seq<Handler>, c: Counter)
    requires Held(hs) == 0
    ensures Outstanding(hs, c) == 0
  {
    if |hs| > 0 { NothingHeldNothingDue(hs[..|hs| - 1], c); }
  }

  lemma {:induction false} StepUsesUpRoom(g: Gateway, a: Action)
    requires Enabled(g, a)
    ensures var (s, s') := (g.session, Next(g, a).session);
      && s'.limits == s.limits
      && s'.usage.modelCalls + s'.reserved >= s.usage.modelCalls + s.reserved
      && s'.usage.input >= s.usage.input
      && s'.usage.output >= s.usage.output
  {
    if !a.Arrive? && !a.Close? {
      StepKeepsLimits(g, a);
      StepMoves(g, a, Calls);
      StepMoves(g, a, Input);
      StepMoves(g, a, Output);
    }
  }

  lemma {:induction false} StepKeepsLimits(g: Gateway, a: Action)
    requires Enabled(g, a)
    ensures Next(g, a).session.limits == g.session.limits
  {}

  lemma {:induction false} StepAfterRefusalForwardsNothing(g: Gateway, a: Action)
    requires Enabled(g, a) && g.session.refusal.Some? && !WithinLimits(g.session)
    ensures Next(g, a).session.refusal == g.session.refusal
    ensures Next(g, a).forwarded == g.forwarded
  {
    AdmissionIffWithinLimits(g.session);
  }

  /** A refusal is final: whatever follows, no call is forwarded, the first refusal stays the one
      remembered, and the ceiling that caused it stays reached. Replaying a cached refusal
      therefore never hides a call that would now be allowed. */
  lemma {:induction false} RefusalIsFinal(g: Gateway, actions: seq<Action>)
    requires Accounted(g) && g.session.refusal.Some? && Runs(g, actions)
    ensures var g' := After(g, actions);
      g'.session.refusal == g.session.refusal && g'.forwarded == g.forwarded && !WithinLimits(g'.session)
    decreases |actions|
  {
    if |actions| > 0 {
      StepKeepsAccounts(g, actions[0]);
      StepAfterRefusalForwardsNothing(g, actions[0]);
      RefusalIsFinal(Next(g, actions[0]), actions[1..]);
    }
  }

  /** A cached refusal means that no call would be admitted now or later. */
  lemma {:induction false} CachedRefusalStillHolds(g: Gateway, key: Key, actions: seq<Action>)
    requires Accounted(g) && Runs(g, actions)
    requires key in g.session.replay && g.session.replay[key].noRetry
    ensures Admission(g.session).Some?
    ensures Admission(After(g, actions).session).Some?
    ensures After(g, actions).forwarded == g.forwarded
  {
    AdmissionIffWithinLimits(g.session);
    AdmissionIffWithinLimits(After(g, actions).session);
    RefusalIsFinal(g, actions);
  }

  // --- how far completed usage may overshoot a token ceiling ---

  datatype TokenLimit = InputLimit | OutputLimit | TotalLimit

  function Ceiling(l: Limits, t: TokenLimit): Option<nat> {
    match t case InputLimit => l.inputTokens case OutputLimit => l.outputTokens case TotalLimit => l.totalTokens
  }

  function Spent(u: Usage, t: TokenLimit): nat {
    match t case InputLimit => u.input case OutputLimit => u.output case TotalLimit => u.Total()
  }

  function Cost(u: CallUsage, t: TokenLimit): nat {
    match t case InputLimit => u.input case OutputLimit => u.output case TotalLimit => u.input + u.output
  }

  /** Tokens spent, plus `m` for every call still out, stay within the ceiling `l` plus one full
      round of `p` concurrent calls. */
  ghost predicate Overshoots(g: Gateway, t: TokenLimit, l: nat, m: nat, p: nat) {
    && Ceiling(g.session.limits, t) == Some(l)
    && Spent(g.session.usage, t) + m * g.session.reserved <= l - 1 + m * p
    && (forall h :: 0 <= h < |g.handlers| ==> DueAtMost(g.handlers[h].pc, t, m))
  }

  predicate DueAtMost(pc: Pc, t: TokenLimit, m: nat) {
    pc.Committing? ==> Cost(pc.usage, t) <= m
  }

  /** No call costs more than `m`, and at most `p` calls are out at once, all along the run. */
  ghost predicate Modest(g: Gateway, actions: seq<Action>, t: TokenLimit, m: nat, p: nat)
    requires Runs(g, actions)
    decreases |actions|
  {
    && g.session.reserved <= p
    && (|actions| > 0 ==>
          && (actions[0].Reply? ==> Cost(actions[0].tokens, t) <= m)
          && Modest(Next(g, actions[0]), actions[1..], t, m, p))
  }

  lemma {:induction false} StepKeepsCosts(g: Gateway, a: Action, t: TokenLimit, m: nat)
    requires Enabled(g, a) && (a.Reply? ==> Cost(a.tokens, t) <= m)
    requires forall h :: 0 <= h < |g.handlers| ==> DueAtMost(g.handlers[h].pc, t, m)
    ensures forall h :: 0 <= h < |Next(g, a).handlers| ==> DueAtMost(Next(g, a).handlers[h].pc, t, m)
  {}

  /** What one step does to the tokens spent and to the calls out: a grant finds room under the
      ceiling, a commit gives its reservation back for what its call cost. */
  ghost predicate Spends(g: Gateway, g': Gateway, a: Action, t: TokenLimit) {
    var (r, r') := (g.session.reserved, g'.session.reserved);
    var (x, x') := (Spent(g.session.usage, t), Spent(g'.session.usage, t));
    if a.Commit? then
      a.h < |g.handlers| && g.handlers[a.h].pc.Committing? && r' == r - 1 && x' == x + Cost(g.handlers[a.h].pc.usage, t)
    else
      x' == x && (r' == r || (r' == r + 1 && WithinLimits(g.session)))
  }

  lemma {:induction false} SettlingSpends(g: Gateway, h: nat, t: TokenLimit)
    requires h < |g.handlers| && g.handlers[h].pc.Committing?
    ensures Spends(g, AfterSettling(g, h), Commit(h), t)
  {}

  lemma {:induction false} AdmissionSpends(g: Gateway, h: nat, t: TokenLimit)
    requires At(g, h, Reserving)
    ensures Spends(g, AfterAdmission(g, h), Reserve(h), t)
  {
    AdmissionIffWithinLimits(g.session);
  }

  lemma {:induction false} OtherStepSpendsNothing(g: Gateway, a: Action)
    requires Enabled(g, a) && !a.Reserve? && !a.Commit?
    ensures Next(g, a).session.reserved == g.session.reserved && Next(g, a).session.usage == g.session.usage
  {}

  lemma {:induction false} StepSpends(g: Gateway, a: Action, t: TokenLimit)
    requires Enabled(g, a)
    ensures Spends(g, Next(g, a), a, t)
  {
    match a
    case Commit(h) => SettlingSpends(g, h, t);
    case Reserve(h) => AdmissionSpends(g, h, t);
    case _ => OtherStepSpendsNothing(g, a);
  }

  lemma {:induction false} OvershootArithmetic(x: nat, x': nat, r: int, r': int, cost: nat, l: nat, m: nat, p: nat)
    requires x + m * r <= l - 1 + m * p && r' <= p
    requires
      || (r' == r && x' == x)
      || (r' == r + 1 && x' == x && x < l)
      || (r' == r - 1 && x' == x + cost && cost <= m)
    ensures x' + m * r' <= l - 1 + m * p
  {
    if r' == r - 1 {
      assert m * r' == m * r - m;
    } else if r' == r + 1 {
      assert m * r' <= m * p by { MulMonotone(m, r', p); }
    }
  }

  lemma {:induction false} MulMonotone(m: nat, x: int, y: int)
    requires x <= y
    ensures m * x <= m * y
  {}

  lemma {:induction false} StepKeepsOvershoot(g: Gateway, a: Action, t: TokenLimit, l: nat, m: nat, p: nat)
    requires Overshoots(g, t, l, m, p) && Enabled(g, a) && l >= 1
    requires a.Reply? ==> Cost(a.tokens, t) <= m
    requires Next(g, a).session.reserved <= p
    ensures Overshoots(Next(g, a), t, l, m, p)
  {
    var g' := Next(g, a);
    StepKeepsCosts(g, a, t, m);
    StepKeepsLimits(g, a);
    StepSpends(g, a, t);
    var cost := if a.Commit? then Cost(g.handlers[a.h].pc.usage, t) else 0;
    assert cost <= m by { if a.Commit? { assert DueAtMost(g.handlers[a.h].pc, t, m); } }
    OvershootArithmetic(Spent(g.session.usage, t), Spent(g'.session.usage, t),
                        g.session.reserved, g'.session.reserved, cost, l, m, p);
  }

  /** Completed usage overshoots a token ceiling by less than one full round of concurrent calls,
      and no call is admitted once the ceiling is reached. */
  lemma {:induction false} OvershootIsBounded(
    g: Gateway, actions: seq<Action>, t: TokenLimit, l: nat, m: nat, p: nat)
    requires Overshoots(g, t, l, m, p) && l >= 1 && Runs(g, actions) && Modest(g, actions, t, m, p)
    ensures Overshoots(After(g, actions), t, l, m, p)
    ensures Spent(After(g, actions).session.usage, t) >= l ==> Admission(After(g, actions).session).Some?
    decreases |actions|
  {
    if |actions| > 0 {
      StepKeepsOvershoot(g, actions[0], t, l, m, p);
      OvershootIsBounded(Next(g, actions[0]), actions[1..], t, l, m, p);
    } else {
      AdmissionIffWithinLimits(g.session);
    }
  }

  lemma {:induction false} StartOvershootsNothing(limits: Limits, agent: bool, t: TokenLimit, l: nat, m: nat, p: nat)
    requires Ceiling(limits, t) == Some(l) && l >= 1
    ensures Overshoots(Start(limits, agent), t, l, m, p)
  {
    MulMonotone(m, 0, p);
  }
}
