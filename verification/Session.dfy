/** One episode's slice of the model gateway: ceilings, counters, replay cache and the calls in
    flight. The value-level operations are the specification; the class updates its fields in
    place as the gateway does and is proved to perform exactly those operations. */
module Session {
  import opened Wrappers

  /** A request key: the digest of the authoritative request, taken to be injective. */
  type Key = nat

  /** Futures are named by the handler that created them. */
  type Future = nat

  datatype Limits = Limits(
    modelCalls: Option<nat>, inputTokens: Option<nat>, outputTokens: Option<nat>, totalTokens: Option<nat>)

  datatype LimitName = MaxModelCalls | MaxInputTokens | MaxOutputTokens | MaxTotalTokens

  datatype LimitReached = LimitReached(limit: LimitName, value: nat, observed: int)

  datatype CallUsage = CallUsage(input: nat, cacheRead: nat, cacheWrite: nat, output: nat)

  const NO_TOKENS := CallUsage(0, 0, 0, 0)

  datatype Usage = Usage(modelCalls: nat, input: nat, cacheRead: nat, cacheWrite: nat, output: nat) {
    function Total(): nat { input + output }

    /** These counters after one more call that used `u`. */
    function Charge(u: CallUsage): Usage {
      Usage(modelCalls + 1, input + u.input, cacheRead + u.cacheRead, cacheWrite + u.cacheWrite, output + u.output)
    }
  }

  const NO_USAGE := Usage(0, 0, 0, 0, 0)

  /** What a response carries: the provider's bytes, named by their digest, or the gateway's own
      refusal of a reached limit. */
  datatype Body = Provider(digest: nat) | Refusing(limit: LimitReached)

  /** `noRetry` is the header that only a refusal carries. */
  datatype Response = Response(status: nat, body: Body, streaming: bool, callId: nat, noRetry: bool)

  datatype FutureState = Pending | Resolved(response: Response) | Failed(error: nat) | Cancelled

  datatype State = State(
    limits: Limits, usage: Usage, reserved: int, seqNo: nat, refusal: Option<LimitReached>,
    replay: map<Key, Response>, inflight: map<Key, Future>, futures: map<Future, FutureState>)

  function Opened(limits: Limits): State {
    State(limits, NO_USAGE, 0, 0, None, map[], map[], map[])
  }

  // --- ceilings ---

  function Reached(limit: Option<nat>, observed: nat): bool {
    limit.Some? && observed >= limit.value
  }

  /** The limit that refuses the next call, or None when it may be reserved. */
  function Admission(s: State): Option<LimitReached> {
    var (l, u) := (s.limits, s.usage);
    var calls := u.modelCalls + s.reserved + 1;
    if l.modelCalls.Some? && calls > l.modelCalls.value then
      Some(LimitReached(MaxModelCalls, l.modelCalls.value, calls))
    else if Reached(l.inputTokens, u.input) then Some(LimitReached(MaxInputTokens, l.inputTokens.value, u.input))
    else if Reached(l.outputTokens, u.output) then Some(LimitReached(MaxOutputTokens, l.outputTokens.value, u.output))
    else if Reached(l.totalTokens, u.Total()) then Some(LimitReached(MaxTotalTokens, l.totalTokens.value, u.Total()))
    else None
  }

  /** The counters leave room under every ceiling. */
  predicate WithinLimits(s: State) {
    && (s.limits.modelCalls.Some? ==> s.usage.modelCalls + s.reserved < s.limits.modelCalls.value)
    && (s.limits.inputTokens.Some? ==> s.usage.input < s.limits.inputTokens.value)
    && (s.limits.outputTokens.Some? ==> s.usage.output < s.limits.outputTokens.value)
    && (s.limits.totalTokens.Some? ==> s.usage.Total() < s.limits.totalTokens.value)
  }

  /** A call is refused exactly when some ceiling is reached. */
  lemma {:induction false} AdmissionIffWithinLimits(s: State)
    ensures Admission(s).None? <==> WithinLimits(s)
  {}

  // --- operations on values ---

  function AfterReserve(s: State): State {
    if Admission(s).None? then s.(reserved := s.reserved + 1) else s
  }

  function AfterCommit(s: State, u: CallUsage): State {
    s.(reserved := s.reserved - 1, usage := s.usage.Charge(u), seqNo := s.seqNo + 1)
  }

  function AfterBegin(s: State, key: Key, future: Future): State {
    s.(inflight := s.inflight[key := future], futures := s.futures[future := Pending])
  }

  /** What a call that was in flight ended with. */
  datatype Settlement = Answer(response: Response, replayable: bool) | Error(error: nat)

  function Settled(e: Settlement): FutureState {
    match e
    case Answer(response, _) => Resolved(response)
    case Error(error) => Failed(error)
  }

  /** Settling wakes the waiters once; only a replayable answer is kept for retries. */
  function AfterFinish(s: State, key: Key, e: Settlement): State {
    var futures :=
      if key in s.inflight && s.inflight[key] in s.futures && s.futures[s.inflight[key]].Pending?
      then s.futures[s.inflight[key] := Settled(e)] else s.futures;
    s.(inflight := s.inflight - {key},
       futures := futures,
       replay := if e.Answer? && e.replayable then s.replay[key := e.response] else s.replay)
  }

  // --- the session object ---

  class GatewaySession {
    const limits: Limits
    var usage: Usage
    var reservedCalls: int
    var seqNo: nat
    var refusal: Option<LimitReached>
    var replay: map<Key, Response>
    var inflightCalls: map<Key, Future>
    var futures: map<Future, FutureState>

    ghost function Value(): State
      reads this
    {
      State(limits, usage, reservedCalls, seqNo, refusal, replay, inflightCalls, futures)
    }

    constructor (limits: Limits)
      ensures Value() == Opened(limits)
    {
      this.limits := limits;
      usage, reservedCalls, seqNo, refusal := NO_USAGE, 0, 0, None;
      replay, inflightCalls, futures := map[], map[], map[];
    }

    /** The first ceiling that is reached, if any; else one more call is held against the limit. */
    method Reserve() returns (refused: Option<LimitReached>)
      modifies this`reservedCalls
      ensures refused == old(Admission(Value()))
      ensures Value() == old(AfterReserve(Value()))
    {
      var calls := usage.modelCalls + reservedCalls + 1;
      if limits.modelCalls.Some? && calls > limits.modelCalls.value {
        return Some(LimitReached(MaxModelCalls, limits.modelCalls.value, calls));
      }
      var completed := [(MaxInputTokens, limits.inputTokens, usage.input),
                        (MaxOutputTokens, limits.outputTokens, usage.output),
                        (MaxTotalTokens, limits.totalTokens, usage.Total())];
      var i := 0;
      while i < |completed|
        invariant 0 <= i <= |completed|
        invariant i > 0 ==> !Reached(limits.inputTokens, usage.input)
        invariant i > 1 ==> !Reached(limits.outputTokens, usage.output)
        invariant i > 2 ==> !Reached(limits.totalTokens, usage.Total())
      {
        var (name, limit, observed) := completed[i];
        if limit.Some? && observed >= limit.value {
          return Some(LimitReached(name, limit.value, observed));
        }
        i := i + 1;
      }
      reservedCalls := reservedCalls + 1;
      return None;
    }

    /** The held call becomes a counted one, numbered and charged with its tokens. */
    method Commit(u: Option<CallUsage>) returns (n: nat)
      modifies this`reservedCalls, this`usage, this`seqNo
      ensures Value() == old(AfterCommit(Value(), if u.Some? then u.value else NO_TOKENS))
      ensures n == seqNo == old(seqNo) + 1
    {
      var tokens := if u.Some? then u.value else NO_TOKENS;
      reservedCalls := reservedCalls - 1;
      usage := usage.(modelCalls := usage.modelCalls + 1);
      usage := usage.(input := usage.input + tokens.input);
      usage := usage.(cacheRead := usage.cacheRead + tokens.cacheRead);
      usage := usage.(cacheWrite := usage.cacheWrite + tokens.cacheWrite);
      usage := usage.(output := usage.output + tokens.output);
      seqNo := seqNo + 1;
      n := seqNo;
    }

    method Begin(key: Key, future: Future)
      modifies this`inflightCalls, this`futures
      ensures Value() == old(AfterBegin(Value(), key, future))
    {
      futures := futures[future := Pending];
      inflightCalls := inflightCalls[key := future];
    }

    method Finish(key: Key, ending: Settlement)
      modifies this`inflightCalls, this`futures, this`replay
      ensures Value() == old(AfterFinish(Value(), key, ending))
    {
      if key in inflightCalls {
        var future := inflightCalls[key];
        inflightCalls := inflightCalls - {key};
        if future in futures && futures[future].Pending? {
          match ending
          case Error(error) => futures := futures[future := Failed(error)];
          case Answer(response, _) => futures := futures[future := Resolved(response)];
        }
      }
      if ending.Answer? && ending.replayable {
        replay := replay[key := ending.response];
      }
    }
  }
}
