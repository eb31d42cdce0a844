/** The request handlers of the model gateway on one session, as a step relation. A step is what
    one handler does between two points where another handler may run; the lock around `reserve`
    and `commit` counts as such a point, so more interleavings are covered than the event loop
    schedules. Handler `h` names its own call and its own future: both are created at most once
    per handler. */
module Gateway {
  import opened Wrappers
  import opened Session

  /** Where a handler is suspended, and what it still has to do. */
  datatype Pc =
    | Arrived
    | Waiting(on: Future)
    | Reserving
    | Upstream
    | Committing(usage: CallUsage, ending: Ending)
    | Done(outcome: Outcome)

  /** How the upstream exchange ended; a cancelled handler settles nothing. */
  datatype Ending = Settle(settlement: Settlement) | Abandon

  /** A forwarded call is answered or raises; a coalesced one gets the same answer or the same
      exception from its owner; a cancelled one gets nothing. */
  datatype Outcome =
    | Answered(response: Response)
    | Replayed(response: Response)
    | Coalesced(response: Response)
    | Raised(error: nat)
    | Reraised(error: nat, owner: nat)
    | Gone

  datatype Handler = Handler(key: Key, pc: Pc)

  datatype Disposition = WasForwarded | WasFailed | WasRefused(limit: LimitName) | WasReplayed(fromCache: bool)

  datatype Record = Record(callId: nat, key: Key, disposition: Disposition, usage: CallUsage)

  /** `forwarded` is the history of requests sent upstream; the gateway does not keep it. */
  datatype Gateway = Gateway(
    agent: bool, session: State, handlers: seq<Handler>, trace: seq<Record>, open: bool, forwarded: seq<Key>)

  function Start(limits: Limits, agent: bool): Gateway {
    Gateway(agent, Opened(limits), [], [], true, [])
  }

  // --- steps ---

  datatype Action =
    | Arrive(key: Key)
    | Call(h: nat)
    | Reserve(h: nat)
    | Reply(h: nat, status: nat, digest: nat, tokens: CallUsage, streaming: bool, complete: bool)
    | Break(h: nat, error: nat)
    | Commit(h: nat)
    | Wake(h: nat)
    | CancelOwner(h: nat)
    | CancelWaiter(h: nat)
    | Close

  predicate At(g: Gateway, h: nat, pc: Pc) {
    h < |g.handlers| && g.handlers[h].pc == pc
  }

  predicate IsWaiting(g: Gateway, h: nat) {
    h < |g.handlers| && g.handlers[h].pc.Waiting? && g.handlers[h].pc.on in g.session.futures
  }

  predicate Enabled(g: Gateway, a: Action) {
    match a
    case Arrive(_) => true
    case Call(h) => At(g, h, Arrived)
    case Reserve(h) => At(g, h, Reserving)
    case Reply(h, _, _, _, _, _) => At(g, h, Upstream)
    case Break(h, _) => At(g, h, Upstream)
    case Commit(h) => h < |g.handlers| && g.handlers[h].pc.Committing?
    case Wake(h) => IsWaiting(g, h) && !g.session.futures[g.handlers[h].pc.on].Pending?
    case CancelOwner(h) => At(g, h, Upstream)
    case CancelWaiter(h) => IsWaiting(g, h)
    case Close => g.open
  }

  function Move(g: Gateway, h: nat, pc: Pc): Gateway
    requires h < |g.handlers|
  {
    g.(handlers := g.handlers[h := g.handlers[h].(pc := pc)])
  }

  /** A closed session's records are dropped. */
  function Note(g: Gateway, callId: nat, key: Key, disposition: Disposition, usage: CallUsage): Gateway {
    if g.open then g.(trace := g.trace + [Record(callId, key, disposition, usage)]) else g
  }

  predicate Replayable(status: nat) { 200 <= status < 300 }

  function Next(g: Gateway, a: Action): Gateway
    requires Enabled(g, a)
  {
    match a
    case Arrive(key) => g.(handlers := g.handlers + [Handler(key, Arrived)])
    case Call(h) => AfterCall(g, h)
    case Reserve(h) => AfterAdmission(g, h)
    case Reply(h, status, digest, tokens, streaming, complete) =>
      AfterReply(g, h, status, tokens, Response(status, Provider(digest), streaming, h, false), complete)
    case Break(h, error) => AfterFailure(g, h, Settle(Error(error)))
    case CancelOwner(h) => AfterFailure(g, h, Abandon)
    case Commit(h) => AfterSettling(g, h)
    case Wake(h) => AfterWake(g, h)
    case CancelWaiter(h) => AfterWaiterCancelled(g, h)
    case Close => g.(open := false)
  }

  /** Replay, coalesce or begin forwarding one authorized request. */
  function AfterCall(g: Gateway, h: nat): Gateway
    requires h < |g.handlers|
  {
    var key := g.handlers[h].key;
    if g.agent && key in g.session.replay then
      var response := g.session.replay[key];
      Move(Note(g, response.callId, key, WasReplayed(true), NO_TOKENS), h, Done(Replayed(response)))
    else if g.agent && key in g.session.inflight then
      Move(g, h, Waiting(g.session.inflight[key]))
    else
      Move(g.(session := AfterBegin(g.session, key, h)), h, Reserving)
  }

  /** The cached answer to a refused call; 429 in every dialect. */
  function Refusal(h: nat, limit: LimitReached): Response {
    Response(429, Refusing(limit), false, h, true)
  }

  function AfterAdmission(g: Gateway, h: nat): Gateway
    requires h < |g.handlers|
  {
    var refused := Admission(g.session);
    if refused.None? then
      Move(g.(session := AfterReserve(g.session), forwarded := g.forwarded + [g.handlers[h].key]), h, Upstream)
    else
      var key := g.handlers[h].key;
      var response := Refusal(h, refused.value);
      var session := g.session.(refusal := if g.session.refusal.None? then refused else g.session.refusal);
      Move(Note(g.(session := AfterFinish(session, key, Answer(response, true))), h, key,
                WasRefused(refused.value.limit), NO_TOKENS),
           h, Done(Answered(response)))
  }

  /** A provider answer is recorded before its reservation is settled; only a success is counted
      with tokens and only a whole success is kept for retries. */
  function AfterReply(
    g: Gateway, h: nat, status: nat, tokens: CallUsage, response: Response, complete: bool): Gateway
    requires h < |g.handlers|
  {
    var usage := if status == 200 then tokens else NO_TOKENS;
    var keep := Replayable(status) && (response.streaming ==> complete);
    Move(Note(g, h, g.handlers[h].key, if status == 200 then WasForwarded else WasFailed, usage),
         h, Committing(usage, Settle(Answer(response, keep))))
  }

  /** An upstream exception or a cancellation is still a call. */
  function AfterFailure(g: Gateway, h: nat, ending: Ending): Gateway
    requires h < |g.handlers|
  {
    Move(Note(g, h, g.handlers[h].key, WasFailed, NO_TOKENS), h, Committing(NO_TOKENS, ending))
  }

  function AfterSettling(g: Gateway, h: nat): Gateway
    requires h < |g.handlers| && g.handlers[h].pc.Committing?
  {
    var Committing(usage, ending) := g.handlers[h].pc;
    var session := AfterCommit(g.session, usage);
    match ending
    case Abandon => Move(g.(session := session), h, Done(Gone))
    case Settle(settlement) =>
      Move(g.(session := AfterFinish(session, g.handlers[h].key, settlement)), h,
           Done(match settlement case Answer(response, _) => Answered(response) case Error(error) => Raised(error)))
  }

  function AfterWake(g: Gateway, h: nat): Gateway
    requires IsWaiting(g, h)
  {
    match g.session.futures[g.handlers[h].pc.on]
    case Resolved(response) =>
      Move(Note(g, response.callId, g.handlers[h].key, WasReplayed(false), NO_TOKENS), h, Done(Coalesced(response)))
    case Failed(error) => Move(g, h, Done(Reraised(error, g.handlers[h].pc.on)))
    case _ => Move(g, h, Done(Gone))
  }

  /** Cancelling a handler that awaits a future cancels the future it shares with the others. */
  function AfterWaiterCancelled(g: Gateway, h: nat): Gateway
    requires IsWaiting(g, h)
  {
    var f := g.handlers[h].pc.on;
    var futures := if g.session.futures[f].Pending? then g.session.futures[f := Cancelled] else g.session.futures;
    Move(g.(session := g.session.(futures := futures)), h, Done(Gone))
  }

  // --- runs ---

  ghost predicate Runs(g: Gateway, actions: seq<Action>)
    decreases |actions|
  {
    actions == [] || (Enabled(g, actions[0]) && Runs(Next(g, actions[0]), actions[1..]))
  }

  ghost function After(g: Gateway, actions: seq<Action>): Gateway
    requires Runs(g, actions)
    decreases |actions|
  {
    if actions == [] then g else After(Next(g, actions[0]), actions[1..])
  }
}
