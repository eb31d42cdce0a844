/** Retry idempotency of an agent's session: over every interleaving a request is outstanding at
    most once, and every replayed or coalesced answer is the one its own call received. */
module GatewayReplay {
  import opened Wrappers
  import opened Session
  import opened Gateway

  /** The handler that forwards a call, from the moment its key is in flight until it settles. */
  predicate Owner(pc: Pc) { pc.Reserving? || pc.Upstream? || pc.Committing? }

  /** `r` is what the call for this key that it names was answered with. */
  predicate Genuine(g: Gateway, key: Key, r: Response) {
    r.callId < |g.handlers| && g.handlers[r.callId] == Handler(key, Done(Answered(r)))
  }

  /** `e` is what the call for this key of handler `f` raised. */
  predicate RaisedBy(g: Gateway, key: Key, e: nat, f: nat) {
    f < |g.handlers| && g.handlers[f] == Handler(key, Done(Raised(e)))
  }

  predicate KeyCoherent(g: Gateway, key: Key) {
    && (key in g.session.replay ==> key !in g.session.inflight && Genuine(g, key, g.session.replay[key]))
    && (key in g.session.inflight ==>
          var f := g.session.inflight[key];
          && f < |g.handlers|
          && g.handlers[f].key == key
          && (Owner(g.handlers[f].pc) || g.handlers[f].pc == Done(Gone))
          && f in g.session.futures
          && (g.session.futures[f].Pending? || g.session.futures[f].Cancelled?))
  }

  predicate HandlerCoherent(g: Gateway, h: nat)
    requires h < |g.handlers|
  {
    var Handler(key, pc) := g.handlers[h];
    && (Owner(pc) ==> key in g.session.inflight && g.session.inflight[key] == h)
    && match pc
       case Waiting(f) => f < |g.handlers| && f in g.session.futures && g.handlers[f].key == key
       case Committing(_, Settle(Answer(r, _))) => r.callId == h
       case Done(Answered(r)) => r.callId == h
       case Done(Coalesced(r)) => Genuine(g, key, r)
       case Done(Replayed(r)) => Genuine(g, key, r)
       case Done(Reraised(e, f)) => RaisedBy(g, key, e, f)
       case _ => true
  }

  predicate FutureCoherent(g: Gateway, f: Future)
    requires f in g.session.futures
  {
    && f < |g.handlers|
    && match g.session.futures[f]
       case Pending => g.handlers[f].key in g.session.inflight && g.session.inflight[g.handlers[f].key] == f
       case Resolved(r) => g.handlers[f].pc == Done(Answered(r))
       case Failed(e) => g.handlers[f].pc == Done(Raised(e))
       case Cancelled => Owner(g.handlers[f].pc) || g.handlers[f].pc.Done?
  }

  ghost predicate Coherent(g: Gateway) {
    && g.agent
    && (forall key :: KeyCoherent(g, key))
    && (forall h :: 0 <= h < |g.handlers| ==> HandlerCoherent(g, h))
    && (forall f :: f in g.session.futures ==> FutureCoherent(g, f))
  }

  lemma {:induction false} ArrivalKeepsCoherence(g: Gateway, key: Key)
    requires Coherent(g)
    ensures Coherent(Next(g, Arrive(key)))
  {
    var g' := Next(g, Arrive(key));
    forall k ensures KeyCoherent(g', k) { assert KeyCoherent(g, k); }
    forall h | 0 <= h < |g'.handlers| ensures HandlerCoherent(g', h) {
      if h < |g.handlers| { assert HandlerCoherent(g, h); }
    }
    forall f | f in g'.session.futures ensures FutureCoherent(g', f) { assert FutureCoherent(g, f); }
  }

  // --- what a step of one handler leaves alone ---

  /** A step of the unfinished handler `h` that changes the in-flight table and the futures only
      where they concern `h`, or cancels a pending future. */
  ghost predicate Local(g: Gateway, g': Gateway, h: nat) {
    && h < |g.handlers| == |g'.handlers|
    && !g.handlers[h].pc.Done?
    && g'.agent == g.agent
    && g'.handlers == g.handlers[h := g'.handlers[h]]
    && g'.handlers[h].key == g.handlers[h].key
    && (forall k :: k in g.session.inflight && g.session.inflight[k] != h ==>
          k in g'.session.inflight && g'.session.inflight[k] == g.session.inflight[k])
    && (forall k :: k in g'.session.inflight ==>
          (k in g.session.inflight && g'.session.inflight[k] == g.session.inflight[k]) || g'.session.inflight[k] == h)
    && (forall f :: f in g.session.futures ==>
          f in g'.session.futures
          && (f != h ==> g'.session.futures[f] == g.session.futures[f]
                         || (g.session.futures[f].Pending? && g'.session.futures[f].Cancelled?)))
    && (forall f :: f in g'.session.futures ==> f in g.session.futures || f == h)
  }

  lemma {:induction false} OthersStayCoherent(g: Gateway, g': Gateway, h: nat, i: nat)
    requires Coherent(g) && Local(g, g', h) && i < |g.handlers| && i != h
    ensures HandlerCoherent(g', i)
  {
    assert HandlerCoherent(g, i);
    var pc := g.handlers[i].pc;
    if pc.Done? && (pc.outcome.Coalesced? || pc.outcome.Replayed?) {
      assert pc.outcome.response.callId != h;
    } else if pc.Done? && pc.outcome.Reraised? {
      assert pc.outcome.owner != h;
    }
  }

  lemma {:induction false} OtherFuturesStayCoherent(g: Gateway, g': Gateway, h: nat, f: Future)
    requires Coherent(g) && Local(g, g', h) && f in g'.session.futures && f != h
    ensures FutureCoherent(g', f)
  {
    assert FutureCoherent(g, f);
    assert KeyCoherent(g, g.handlers[f].key);
  }

  lemma {:induction false} OtherKeysStayCoherent(g: Gateway, g': Gateway, h: nat, k: Key)
    requires Coherent(g) && Local(g, g', h) && k != g.handlers[h].key
    requires k in g.session.replay <==> k in g'.session.replay
    requires k in g.session.replay ==> g'.session.replay[k] == g.session.replay[k]
    requires k in g'.session.inflight ==> g'.session.inflight[k] != h
    ensures KeyCoherent(g', k)
  {
    assert KeyCoherent(g, k);
  }

  /** Local steps keep the session coherent when the mover, its key and its future are. */
  lemma {:induction false} LocalStepKeepsCoherence(g: Gateway, g': Gateway, h: nat)
    requires Coherent(g) && Local(g, g', h)
    requires HandlerCoherent(g', h) && KeyCoherent(g', g.handlers[h].key)
    requires h in g'.session.futures ==> FutureCoherent(g', h)
    requires forall k :: k != g.handlers[h].key ==>
      && (k in g.session.replay <==> k in g'.session.replay)
      && (k in g.session.replay ==> g'.session.replay[k] == g.session.replay[k])
      && (k in g'.session.inflight ==> g'.session.inflight[k] != h)
    ensures Coherent(g')
  {
    forall k ensures KeyCoherent(g', k) {
      if k != g.handlers[h].key { OtherKeysStayCoherent(g, g', h, k); }
    }
    forall i | 0 <= i < |g'.handlers| ensures HandlerCoherent(g', i) {
      if i != h { OthersStayCoherent(g, g', h, i); }
    }
    forall f | f in g'.session.futures ensures FutureCoherent(g', f) {
      if f != h { OtherFuturesStayCoherent(g, g', h, f); }
    }
  }

  // --- every step keeps coherence ---

  lemma {:induction false} NoFutureBeforeCall(g: Gateway, h: nat)
    requires Coherent(g) && h < |g.handlers| && (g.handlers[h].pc.Arrived? || g.handlers[h].pc.Waiting?)
    ensures h !in g.session.futures
    ensures forall k :: k in g.session.inflight ==> g.session.inflight[k] != h
  {
    assert KeyCoherent(g, g.handlers[h].key);
    assert h in g.session.futures ==> FutureCoherent(g, h);
    forall k | k in g.session.inflight ensures g.session.inflight[k] != h { assert KeyCoherent(g, k); }
  }

  lemma {:induction false} BeginKeepsCoherence(g: Gateway, h: nat)
    requires Coherent(g) && At(g, h, Arrived)
    requires g.handlers[h].key !in g.session.replay && g.handlers[h].key !in g.session.inflight
    ensures Coherent(AfterCall(g, h))
  {
    NoFutureBeforeCall(g, h);
    var g' := AfterCall(g, h);
    assert g'.session == AfterBegin(g.session, g.handlers[h].key, h);
    assert Local(g, g', h);
    LocalStepKeepsCoherence(g, g', h);
  }

  lemma {:induction false} CallKeepsCoherence(g: Gateway, h: nat)
    requires Coherent(g) && At(g, h, Arrived)
    ensures Coherent(AfterCall(g, h))
  {
    var key := g.handlers[h].key;
    assert KeyCoherent(g, key);
    NoFutureBeforeCall(g, h);
    if key !in g.session.replay && key !in g.session.inflight {
      BeginKeepsCoherence(g, h);
    } else {
      var g' := AfterCall(g, h);
      assert g'.session == g.session;
      LocalStepKeepsCoherence(g, g', h);
    }
  }

  /** An owner holds its key and its future. */
  lemma {:induction false} OwnerHoldsItsKey(g: Gateway, h: nat)
    requires Coherent(g) && h < |g.handlers| && Owner(g.handlers[h].pc)
    ensures var key := g.handlers[h].key;
      && key in g.session.inflight && g.session.inflight[key] == h
      && key !in g.session.replay
      && h in g.session.futures && (g.session.futures[h].Pending? || g.session.futures[h].Cancelled?)
    ensures forall k :: k in g.session.inflight && k != g.handlers[h].key ==> g.session.inflight[k] != h
  {
    assert HandlerCoherent(g, h);
    assert KeyCoherent(g, g.handlers[h].key);
    forall k | k in g.session.inflight && k != g.handlers[h].key ensures g.session.inflight[k] != h {
      assert KeyCoherent(g, k);
    }
  }

  /** A step that leaves the key in flight: the owner only moves on. */
  lemma {:induction false} OwnerMovingKeepsCoherence(g: Gateway, g': Gateway, h: nat)
    requires Coherent(g) && h < |g.handlers| == |g'.handlers| && Owner(g.handlers[h].pc)
    requires g'.agent && g'.handlers == g.handlers[h := g'.handlers[h]] && g'.handlers[h].key == g.handlers[h].key
    requires g'.session.inflight == g.session.inflight && g'.session.replay == g.session.replay
    requires g'.session.futures == g.session.futures
    requires Owner(g'.handlers[h].pc) || g'.handlers[h].pc == Done(Gone)
    requires HandlerCoherent(g', h)
    ensures Coherent(g')
  {
    OwnerHoldsItsKey(g, h);
    LocalStepKeepsCoherence(g, g', h);
  }

  /** A step that settles the call of an owner. */
  lemma {:induction false} FinishKeepsCoherence(g: Gateway, g': Gateway, h: nat, e: Settlement, outcome: Outcome)
    requires Coherent(g) && h < |g.handlers| == |g'.handlers| && Owner(g.handlers[h].pc)
    requires g'.agent && g'.handlers == g.handlers[h := Handler(g.handlers[h].key, Done(outcome))]
    requires var s := AfterFinish(g.session, g.handlers[h].key, e);
      g'.session.inflight == s.inflight && g'.session.replay == s.replay && g'.session.futures == s.futures
    requires match e case Answer(r, _) => r.callId == h && outcome == Answered(r) case Error(m) => outcome == Raised(m)
    ensures Coherent(g')
  {
    OwnerHoldsItsKey(g, h);
    LocalStepKeepsCoherence(g, g', h);
  }

  lemma {:induction false} AdmissionKeepsCoherence(g: Gateway, h: nat)
    requires Coherent(g) && At(g, h, Reserving)
    ensures Coherent(AfterAdmission(g, h))
  {
    var refused := Admission(g.session);
    var g' := AfterAdmission(g, h);
    assert HandlerCoherent(g, h);
    if refused.None? {
      OwnerMovingKeepsCoherence(g, g', h);
    } else {
      var response := Refusal(h, refused.value);
      FinishKeepsCoherence(g, g', h, Answer(response, true), Answered(response));
    }
  }

  lemma {:induction false} ReplyKeepsCoherence(
    g: Gateway, h: nat, status: nat, tokens: CallUsage, response: Response, complete: bool)
    requires Coherent(g) && At(g, h, Upstream) && response.callId == h
    ensures Coherent(AfterReply(g, h, status, tokens, response, complete))
  {
    assert HandlerCoherent(g, h);
    OwnerMovingKeepsCoherence(g, AfterReply(g, h, status, tokens, response, complete), h);
  }

  lemma {:induction false} FailureKeepsCoherence(g: Gateway, h: nat, ending: Ending)
    requires Coherent(g) && At(g, h, Upstream)
    requires ending.Settle? ==> ending.settlement.Error?
    ensures Coherent(AfterFailure(g, h, ending))
  {
    assert HandlerCoherent(g, h);
    OwnerMovingKeepsCoherence(g, AfterFailure(g, h, ending), h);
  }

  lemma {:induction false} SettlingKeepsCoherence(g: Gateway, h: nat)
    requires Coherent(g) && h < |g.handlers| && g.handlers[h].pc.Committing?
    ensures Coherent(AfterSettling(g, h))
  {
    assert HandlerCoherent(g, h);
    var g' := AfterSettling(g, h);
    match g.handlers[h].pc.ending
    case Abandon => OwnerMovingKeepsCoherence(g, g', h);
    case Settle(Answer(r, keep)) => FinishKeepsCoherence(g, g', h, Answer(r, keep), Answered(r));
    case Settle(Error(m)) => FinishKeepsCoherence(g, g', h, Error(m), Raised(m));
  }

  lemma {:induction false} WakeKeepsCoherence(g: Gateway, h: nat)
    requires Coherent(g) && IsWaiting(g, h) && !g.session.futures[g.handlers[h].pc.on].Pending?
    ensures Coherent(AfterWake(g, h))
  {
    NoFutureBeforeCall(g, h);
    assert HandlerCoherent(g, h);
    assert FutureCoherent(g, g.handlers[h].pc.on);
    assert HandlerCoherent(g, g.handlers[h].pc.on);
    assert KeyCoherent(g, g.handlers[h].key);
    var g' := AfterWake(g, h);
    assert g'.session == g.session;
    LocalStepKeepsCoherence(g, g', h);
  }

  lemma {:induction false} WaiterCancelledKeepsCoherence(g: Gateway, h: nat)
    requires Coherent(g) && IsWaiting(g, h)
    ensures Coherent(AfterWaiterCancelled(g, h))
  {
    NoFutureBeforeCall(g, h);
    assert KeyCoherent(g, g.handlers[h].key);
    LocalStepKeepsCoherence(g, AfterWaiterCancelled(g, h), h);
  }

  lemma {:induction false} StepKeepsCoherence(g: Gateway, a: Action)
    requires Coherent(g) && Enabled(g, a)
    ensures Coherent(Next(g, a))
  {
    match a
    case Arrive(key) => ArrivalKeepsCoherence(g, key);
    case Call(h) => CallKeepsCoherence(g, h);
    case Reserve(h) => AdmissionKeepsCoherence(g, h);
    case Reply(h, status, digest, tokens, streaming, complete) =>
      ReplyKeepsCoherence(g, h, status, tokens, Response(status, Provider(digest), streaming, h, false), complete);
    case Break(h, error) => FailureKeepsCoherence(g, h, Settle(Error(error)));
    case CancelOwner(h) => FailureKeepsCoherence(g, h, Abandon);
    case Commit(h) => SettlingKeepsCoherence(g, h);
    case Wake(h) => WakeKeepsCoherence(g, h);
    case CancelWaiter(h) => WaiterCancelledKeepsCoherence(g, h);
    case Close => CloseKeepsCoherence(g);
  }

  lemma {:induction false} CloseKeepsCoherence(g: Gateway)
    requires Coherent(g) && g.open
    ensures Coherent(Next(g, Close))
  {
    var g' := Next(g, Close);
    forall k ensures KeyCoherent(g', k) { assert KeyCoherent(g, k); }
    forall h | 0 <= h < |g'.handlers| ensures HandlerCoherent(g', h) { assert HandlerCoherent(g, h); }
    forall f | f in g'.session.futures ensures FutureCoherent(g', f) { assert FutureCoherent(g, f); }
  }

  // --- main results ---

  lemma {:induction false} RunKeepsCoherence(g: Gateway, actions: seq<Action>)
    requires Coherent(g) && Runs(g, actions)
    ensures Coherent(After(g, actions))
    decreases |actions|
  {
    if |actions| > 0 {
      StepKeepsCoherence(g, actions[0]);
      RunKeepsCoherence(Next(g, actions[0]), actions[1..]);
    }
  }

  lemma {:induction false} StartIsCoherent(limits: Limits)
    ensures Coherent(Start(limits, true))
  {}

  /** At most one handler works on a key at any time, and never while the key is cached. */
  lemma {:induction false} OneCallPerKey(limits: Limits, actions: seq<Action>, i: nat, j: nat)
    requires Runs(Start(limits, true), actions)
    requires i < |After(Start(limits, true), actions).handlers| && j < |After(Start(limits, true), actions).handlers|
    ensures var g := After(Start(limits, true), actions);
      && (g.session.replay.Keys !! g.session.inflight.Keys)
      && (Owner(g.handlers[i].pc) ==> g.handlers[i].key !in g.session.replay)
      && (Owner(g.handlers[i].pc) && Owner(g.handlers[j].pc) && g.handlers[i].key == g.handlers[j].key ==> i == j)
  {
    StartIsCoherent(limits);
    RunKeepsCoherence(Start(limits, true), actions);
    var g := After(Start(limits, true), actions);
    if Owner(g.handlers[i].pc) { OwnerHoldsItsKey(g, i); }
    if Owner(g.handlers[j].pc) { OwnerHoldsItsKey(g, j); }
    forall k | k in g.session.replay ensures k !in g.session.inflight { assert KeyCoherent(g, k); }
  }

  /** Every answer or exception that was not forwarded is, unchanged, that of the one call it names,
      which was a call for the same request. */
  lemma {:induction false} AnswersAreGenuine(limits: Limits, actions: seq<Action>, h: nat)
    requires Runs(Start(limits, true), actions)
    requires h < |After(Start(limits, true), actions).handlers|
    ensures var g := After(Start(limits, true), actions);
      match g.handlers[h].pc
      case Done(Coalesced(r)) => Genuine(g, g.handlers[h].key, r)
      case Done(Replayed(r)) => Genuine(g, g.handlers[h].key, r)
      case Done(Reraised(e, f)) => RaisedBy(g, g.handlers[h].key, e, f)
      case Done(Answered(r)) => r.callId == h
      case _ => true
  {
    StartIsCoherent(limits);
    RunKeepsCoherence(Start(limits, true), actions);
    assert HandlerCoherent(After(Start(limits, true), actions), h);
  }

  ghost predicate KeepsCached(g: Gateway, g': Gateway, key: Key) {
    && (key in g.session.replay ==> key in g'.session.replay && g'.session.replay[key] == g.session.replay[key])
    && (key in g.session.replay ==> multiset(g'.forwarded)[key] == multiset(g.forwarded)[key])
  }

  lemma {:induction false} AdmissionKeepsCached(g: Gateway, h: nat, key: Key)
    requires Coherent(g) && At(g, h, Reserving)
    ensures KeepsCached(g, AfterAdmission(g, h), key)
  {
    OwnerHoldsItsKey(g, h);
  }

  lemma {:induction false} SettlingKeepsCached(g: Gateway, h: nat, key: Key)
    requires Coherent(g) && h < |g.handlers| && g.handlers[h].pc.Committing?
    ensures KeepsCached(g, AfterSettling(g, h), key)
  {
    OwnerHoldsItsKey(g, h);
  }

  /** The steps that neither reserve nor settle leave the cache and the forwarded calls alone. */
  lemma {:induction false} OtherStepsKeepCached(g: Gateway, a: Action, key: Key)
    requires Enabled(g, a) && !a.Reserve? && !a.Commit?
    ensures Next(g, a).session.replay == g.session.replay && Next(g, a).forwarded == g.forwarded
  {}

  lemma {:induction false} StepNeverForwardsCachedKey(g: Gateway, a: Action, key: Key)
    requires Coherent(g) && Enabled(g, a)
    ensures KeepsCached(g, Next(g, a), key)
  {
    match a
    case Reserve(h) => AdmissionKeepsCached(g, h, key);
    case Commit(h) => SettlingKeepsCached(g, h, key);
    case _ => OtherStepsKeepCached(g, a, key);
  }

  /** Once an answer is cached it stays the answer of its request, and that request is never
      forwarded again, whatever the handlers do. */
  lemma {:induction false} CachedKeyIsNeverForwardedAgain(g: Gateway, actions: seq<Action>, key: Key)
    requires Coherent(g) && Runs(g, actions) && key in g.session.replay
    ensures var g' := After(g, actions);
      && key in g'.session.replay && g'.session.replay[key] == g.session.replay[key]
      && multiset(g'.forwarded)[key] == multiset(g.forwarded)[key]
    decreases |actions|
  {
    if |actions| > 0 {
      StepKeepsCoherence(g, actions[0]);
      StepNeverForwardsCachedKey(g, actions[0], key);
      CachedKeyIsNeverForwardedAgain(Next(g, actions[0]), actions[1..], key);
    }
  }
}
