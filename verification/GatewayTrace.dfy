/** The trace of an open session tells every answer that the provider was not asked for: each replay, each
    coalesced answer and each refusal has its one record. */
module GatewayTrace {
  import opened Wrappers
  import opened Session
  import opened Gateway

  /** The record of an answer that the provider was not asked for. */
  function Telling(x: Handler): Option<Record> {
    match x.pc
    case Done(Replayed(r)) => Some(Record(r.callId, x.key, WasReplayed(true), NO_TOKENS))
    case Done(Coalesced(r)) => Some(Record(r.callId, x.key, WasReplayed(false), NO_TOKENS))
    case Done(Answered(r)) =>
      if r.body.Refusing? then Some(Record(r.callId, x.key, WasRefused(r.body.limit.limit), NO_TOKENS)) else None
    case _ => None
  }

  function Once(x: Option<Record>, r: Record): nat { if x == Some(r) then 1 else 0 }

  /** How many handlers' answers call for the record `r`. */
  ghost function Called(hs: seq<Handler>, r: Record): nat {
    if |hs| == 0 then 0 else Called(hs[..|hs| - 1], r) + Once(Telling(hs[|hs| - 1]), r)
  }

  predicate Unforwarded(r: Record) { r.disposition.WasReplayed? || r.disposition.WasRefused? }

  /** How often `r` stands in the trace. */
  ghost function Noted(trace: seq<Record>, r: Record): nat {
    if |trace| == 0 then 0 else Noted(trace[..|trace| - 1], r) + if trace[|trace| - 1] == r then 1 else 0
  }

  lemma {:induction false} MoveChangesCalled(hs: seq<Handler>, h: nat, x: Handler, r: Record)
    requires h < |hs|
    ensures Called(hs[h := x], r) + Once(Telling(hs[h]), r) == Called(hs, r) + Once(Telling(x), r)
  {
    var last := |hs| - 1;
    var moved := hs[h := x];
    if h == last {
      assert moved[..last] == hs[..last];
    } else {
      assert moved[..last] == hs[..last][h := x];
      MoveChangesCalled(hs[..last], h, x, r);
    }
  }

  /** Only the gateway itself refuses. */
  predicate FromProvider(x: Handler) {
    x.pc.Committing? && x.pc.ending.Settle? && x.pc.ending.settlement.Answer? ==>
      x.pc.ending.settlement.response.body.Provider?
  }

  ghost predicate Recorded(g: Gateway, r: Record) {
    && (g.open ==> Noted(g.trace, r) == Called(g.handlers, r))
    && forall h :: 0 <= h < |g.handlers| ==> FromProvider(g.handlers[h])
  }

  /** What a step of handler `h` adds to the trace is what its answer calls for. */
  ghost predicate Notes(g: Gateway, g': Gateway, h: nat, r: Record) {
    && h < |g.handlers| && !g.handlers[h].pc.Done?
    && |g'.handlers| == |g.handlers| && g'.handlers == g.handlers[h := g'.handlers[h]]
    && g'.open == g.open && FromProvider(g'.handlers[h])
    && (g.open ==> Noted(g'.trace, r) == Noted(g.trace, r) + Once(Telling(g'.handlers[h]), r))
  }

  lemma {:induction false} NoteAdds(g: Gateway, callId: nat, key: Key, d: Disposition, u: CallUsage, r: Record)
    requires g.open
    ensures Noted(Note(g, callId, key, d, u).trace, r)
         == Noted(g.trace, r) + Once(Some(Record(callId, key, d, u)), r)
  {
    var t := Note(g, callId, key, d, u).trace;
    assert t[..|t| - 1] == g.trace;
  }

  lemma {:induction false} CallNotes(g: Gateway, h: nat, r: Record)
    requires At(g, h, Arrived)
    ensures Notes(g, AfterCall(g, h), h, r)
  {
    var key := g.handlers[h].key;
    if g.open && g.agent && key in g.session.replay {
      NoteAdds(g, g.session.replay[key].callId, key, WasReplayed(true), NO_TOKENS, r);
    }
  }

  lemma {:induction false} AdmissionNotes(g: Gateway, h: nat, r: Record)
    requires At(g, h, Reserving)
    ensures Notes(g, AfterAdmission(g, h), h, r)
  {
    var refused := Admission(g.session);
    if g.open && refused.Some? {
      NoteAdds(g, h, g.handlers[h].key, WasRefused(refused.value.limit), NO_TOKENS, r);
    }
  }

  lemma {:induction false} ExchangeNotes(g: Gateway, a: Action, r: Record)
    requires Enabled(g, a) && (a.Reply? || a.Break? || a.CancelOwner?) && Unforwarded(r)
    ensures Notes(g, Next(g, a), a.h, r)
  {
    if g.open {
      var last := Next(g, a).trace[|g.trace|];
      NoteAdds(g, a.h, g.handlers[a.h].key, last.disposition, last.usage, r);
    }
  }

  lemma {:induction false} WakeNotes(g: Gateway, h: nat, r: Record)
    requires IsWaiting(g, h)
    ensures Notes(g, AfterWake(g, h), h, r)
  {
    var future := g.session.futures[g.handlers[h].pc.on];
    if g.open && future.Resolved? {
      NoteAdds(g, future.response.callId, g.handlers[h].key, WasReplayed(false), NO_TOKENS, r);
    }
  }

  lemma {:induction false} StepNotes(g: Gateway, a: Action, r: Record)
    requires Enabled(g, a) && !a.Arrive? && !a.Close? && FromProvider(g.handlers[a.h]) && Unforwarded(r)
    ensures Notes(g, Next(g, a), a.h, r)
  {
    match a
    case Call(h) => CallNotes(g, h, r);
    case Reserve(h) => AdmissionNotes(g, h, r);
    case Wake(h) => WakeNotes(g, h, r);
    case Commit(h) =>
    case CancelWaiter(h) =>
    case _ => ExchangeNotes(g, a, r);
  }

  lemma {:induction false} ArrivalKeepsRecorded(g: Gateway, key: Key, r: Record)
    requires Recorded(g, r)
    ensures Recorded(Next(g, Arrive(key)), r)
  {
    var g' := Next(g, Arrive(key));
    assert g'.handlers[..|g'.handlers| - 1] == g.handlers;
  }

  lemma {:induction false} StepKeepsRecorded(g: Gateway, a: Action, r: Record)
    requires Recorded(g, r) && Enabled(g, a) && Unforwarded(r)
    ensures Recorded(Next(g, a), r)
  {
    if a.Arrive? {
      ArrivalKeepsRecorded(g, a.key, r);
    } else if !a.Close? {
      StepNotes(g, a, r);
      MoveChangesCalled(g.handlers, a.h, Next(g, a).handlers[a.h], r);
    }
  }

  lemma {:induction false} RunKeepsRecorded(g: Gateway, actions: seq<Action>, r: Record)
    requires Recorded(g, r) && Runs(g, actions) && Unforwarded(r)
    ensures Recorded(After(g, actions), r)
    decreases |actions|
  {
    if |actions| > 0 {
      StepKeepsRecorded(g, actions[0], r);
      RunKeepsRecorded(Next(g, actions[0]), actions[1..], r);
    }
  }

  /** While the session is open, the records of replays, coalesced answers and refusals are those of the
      handlers that were answered so, one each. */
  lemma {:induction false} EveryAnswerIsRecorded(limits: Limits, agent: bool, actions: seq<Action>, r: Record)
    requires Runs(Start(limits, agent), actions) && After(Start(limits, agent), actions).open && Unforwarded(r)
    ensures var g := After(Start(limits, agent), actions); Noted(g.trace, r) == Called(g.handlers, r)
  {
    RunKeepsRecorded(Start(limits, agent), actions, r);
  }

  lemma {:induction false} ClosedStaysClosed(g: Gateway, actions: seq<Action>)
    requires !g.open && Runs(g, actions)
    ensures !After(g, actions).open && After(g, actions).trace == g.trace
    decreases |actions|
  {
    if |actions| > 0 { ClosedStaysClosed(Next(g, actions[0]), actions[1..]); }
  }

  /** Whatever handlers do once the session is closed, the trace stays as it was. */
  lemma {:induction false} NothingIsRecordedAfterClosing(g: Gateway, later: seq<Action>)
    requires Enabled(g, Close) && Runs(Next(g, Close), later)
    ensures After(Next(g, Close), later).trace == g.trace
  {
    ClosedStaysClosed(Next(g, Close), later);
  }
}
