/** Delivery of coalesced answers. A waiter can be given its owner's answer exactly when nobody has
    cancelled it: neither the owner, whose key is then dead for every later request, nor another
    waiter, which cancels the future they share. Without cancellations every run of the handlers is
    bounded and ends with every request answered. */
module GatewayDelivery {
  import opened Wrappers
  import opened Session
  import opened Gateway
  import opened GatewayReplay

  /** How many steps a handler may still take. */
  function Rank(pc: Pc): nat {
    match pc
    case Arrived => 4
    case Reserving => 3
    case Upstream => 2
    case Committing(_, _) => 1
    case Waiting(_) => 1
    case Done(_) => 0
  }

  ghost function Work(hs: seq<Handler>): nat {
    if |hs| == 0 then 0 else Work(hs[..|hs| - 1]) + Rank(hs[|hs| - 1].pc)
  }

  lemma {:induction false} MoveChangesWork(hs: seq<Handler>, h: nat, x: Handler)
    requires h < |hs|
    ensures Work(hs[h := x]) + Rank(hs[h].pc) == Work(hs) + Rank(x.pc)
  {
    var last := |hs| - 1;
    if h == last {
      assert hs[h := x][..last] == hs[..last];
    } else {
      assert hs[h := x][..last] == hs[..last][h := x];
      MoveChangesWork(hs[..last], h, x);
    }
  }

  /** Actions of the handlers themselves, none of them cancelled. */
  predicate Ordinary(a: Action) {
    !a.Arrive? && !a.Close? && !a.CancelOwner? && !a.CancelWaiter?
  }

  lemma {:induction false} OrdinaryStepWorks(g: Gateway, a: Action)
    requires Enabled(g, a) && !a.Arrive? && !a.Close?
    ensures |Next(g, a).handlers| == |g.handlers|
    ensures Work(Next(g, a).handlers) < Work(g.handlers)
  {
    var g' := Next(g, a);
    assert g'.handlers == g.handlers[a.h := g'.handlers[a.h]];
    assert Rank(g'.handlers[a.h].pc) < Rank(g.handlers[a.h].pc);
    MoveChangesWork(g.handlers, a.h, g'.handlers[a.h]);
  }

  predicate Cancels(a: Action) { a.CancelOwner? || a.CancelWaiter? }

  /** Nobody is cancelled, though requests may arrive and the session may be closed. */
  ghost predicate Calm(actions: seq<Action>) {
    forall i :: 0 <= i < |actions| ==> !Cancels(actions[i])
  }

  ghost predicate NobodyCanMove(g: Gateway) { forall a :: Ordinary(a) ==> !Enabled(g, a) }

  // --- bounded runs ---

  ghost predicate AllOrdinary(actions: seq<Action>) {
    forall i :: 0 <= i < |actions| ==> Ordinary(actions[i])
  }

  /** Handlers left to themselves take only so many steps. */
  lemma {:induction false} RunsAreBounded(g: Gateway, actions: seq<Action>)
    requires Runs(g, actions) && AllOrdinary(actions)
    ensures |After(g, actions).handlers| == |g.handlers|
    ensures |actions| + Work(After(g, actions).handlers) <= Work(g.handlers)
    decreases |actions|
  {
    if |actions| > 0 {
      OrdinaryStepWorks(g, actions[0]);
      RunsAreBounded(Next(g, actions[0]), actions[1..]);
    }
  }

  // --- abandoned futures ---

  /** The future of a cancelled owner: nobody will settle it. */
  predicate Hangs(g: Gateway, f: Future) {
    && f < |g.handlers|
    && f in g.session.futures && g.session.futures[f].Pending?
    && (g.handlers[f].pc == Done(Gone) || (g.handlers[f].pc.Committing? && g.handlers[f].pc.ending.Abandon?))
  }

  predicate Stranded(g: Gateway, h: nat) {
    h < |g.handlers| && g.handlers[h].pc.Waiting? && Hangs(g, g.handlers[h].pc.on)
  }

  /** Every handler that is not done is waiting for an abandoned future, or somebody can move. */
  lemma {:induction false} SomebodyCanMove(g: Gateway, h: nat)
    requires Coherent(g) && h < |g.handlers| && !g.handlers[h].pc.Done? && !Stranded(g, h)
    ensures exists a :: Ordinary(a) && Enabled(g, a)
  {
    match g.handlers[h].pc
    case Arrived => assert Enabled(g, Call(h)) && Ordinary(Call(h));
    case Waiting(f) =>
      assert HandlerCoherent(g, h);
      if g.session.futures[f].Pending? {
        assert FutureCoherent(g, f) && KeyCoherent(g, g.handlers[f].key);
        OwnerCanMove(g, f);
      } else {
        assert Enabled(g, Wake(h)) && Ordinary(Wake(h));
      }
    case _ => OwnerCanMove(g, h);
  }

  lemma {:induction false} OwnerCanMove(g: Gateway, h: nat)
    requires h < |g.handlers| && Owner(g.handlers[h].pc)
    ensures exists a :: Ordinary(a) && Enabled(g, a)
  {
    match g.handlers[h].pc
    case Reserving => assert Enabled(g, Reserve(h)) && Ordinary(Reserve(h));
    case Upstream => assert Enabled(g, Break(h, 0)) && Ordinary(Break(h, 0));
    case Committing(_, _) => assert Enabled(g, Commit(h)) && Ordinary(Commit(h));
  }

  /** Only cancelling an owner strands a future. */
  lemma {:induction false} StepStrandsNothing(g: Gateway, a: Action, f: Future)
    requires Coherent(g) && Enabled(g, a) && f in g.session.futures && !a.CancelOwner?
    requires !Hangs(g, f)
    ensures f in Next(g, a).session.futures && !Hangs(Next(g, a), f)
  {
    assert FutureCoherent(g, f);
    assert KeyCoherent(g, g.handlers[f].key);
    match a
    case Reserve(h) => AdmissionStrandsNothing(g, h, f);
    case Commit(h) => SettlingStrandsNothing(g, h, f);
    case _ => OtherMovesStrandNothing(g, a, f);
  }

  lemma {:induction false} AdmissionStrandsNothing(g: Gateway, h: nat, f: Future)
    requires At(g, h, Reserving) && f in g.session.futures && !Hangs(g, f)
    requires FutureCoherent(g, f) && KeyCoherent(g, g.handlers[f].key)
    ensures f in AfterAdmission(g, h).session.futures && !Hangs(AfterAdmission(g, h), f)
  {}

  lemma {:induction false} SettlingStrandsNothing(g: Gateway, h: nat, f: Future)
    requires h < |g.handlers| && g.handlers[h].pc.Committing? && f in g.session.futures && !Hangs(g, f)
    requires FutureCoherent(g, f) && KeyCoherent(g, g.handlers[f].key)
    ensures f in AfterSettling(g, h).session.futures && !Hangs(AfterSettling(g, h), f)
  {}

  lemma {:induction false} OtherMovesStrandNothing(g: Gateway, a: Action, f: Future)
    requires Enabled(g, a) && f in g.session.futures && !Hangs(g, f)
    requires !a.CancelOwner? && !a.Reserve? && !a.Commit?
    requires FutureCoherent(g, f) && KeyCoherent(g, g.handlers[f].key)
    ensures f in Next(g, a).session.futures && !Hangs(Next(g, a), f)
  {}

  /** Only cancelling a waiter frees an abandoned future. */
  lemma {:induction false} StepFreesNothing(g: Gateway, a: Action, f: Future)
    requires Coherent(g) && Enabled(g, a) && !a.CancelWaiter?
    requires Hangs(g, f)
    ensures Hangs(Next(g, a), f)
  {
    if !a.Arrive? && !a.Close? { LeavesHanging(g, a, f); }
  }

  lemma {:induction false} LeavesHanging(g: Gateway, a: Action, f: Future)
    requires Coherent(g) && Enabled(g, a) && !a.CancelWaiter? && !a.Arrive? && !a.Close?
    requires Hangs(g, f)
    ensures Hangs(Next(g, a), f)
  {
    if a.h != f {
      match a
      case Reserve(h) => OwnerHoldsItsKey(g, h);
      case Commit(h) => OwnerHoldsItsKey(g, h);
      case _ =>
    }
  }

  lemma {:induction false} StepLeavesStranded(g: Gateway, a: Action, w: nat)
    requires Coherent(g) && Enabled(g, a) && !a.CancelWaiter? && Stranded(g, w)
    ensures Stranded(Next(g, a), w)
  {
    StepFreesNothing(g, a, g.handlers[w].pc.on);
  }

  /** A stranded request stays stranded while no waiter is cancelled, even if others arrive. */
  lemma {:induction false} StrandedForever(g: Gateway, actions: seq<Action>, w: nat)
    requires Coherent(g) && Runs(g, actions) && Stranded(g, w)
    requires forall i :: 0 <= i < |actions| ==> !actions[i].CancelWaiter?
    ensures Stranded(After(g, actions), w)
    decreases |actions|
  {
    if |actions| > 0 {
      StepKeepsCoherence(g, actions[0]);
      StepLeavesStranded(g, actions[0], w);
      StrandedForever(Next(g, actions[0]), actions[1..], w);
    }
  }

  // --- what a waiter gets ---

  /** Handler `w` was given what its owner `f` was answered with, or raised. */
  predicate AnsweredAs(g: Gateway, w: nat, f: nat) {
    && w < |g.handlers| && f < |g.handlers| && g.handlers[w].key == g.handlers[f].key
    && match g.handlers[w].pc
       case Done(Coalesced(r)) => g.handlers[f].pc == Done(Answered(r))
       case Done(Reraised(e, owner)) => owner == f && g.handlers[f].pc == Done(Raised(e))
       case _ => false
  }

  /** A future that will not be settled: another waiter cancelled it, or its owner was cancelled. */
  predicate Doomed(g: Gateway, f: Future) {
    Hangs(g, f) || (f in g.session.futures && g.session.futures[f].Cancelled?)
  }

  predicate Waits(g: Gateway, w: nat) { w < |g.handlers| && g.handlers[w].pc.Waiting? }

  predicate WaitsFor(g: Gateway, w: nat, f: Future) {
    w < |g.handlers| && g.handlers[w].pc == Waiting(f)
  }

  /** A waiter that has not been and will not be given anything. */
  predicate Lost(g: Gateway, w: nat, f: Future) {
    w < |g.handlers| && (g.handlers[w].pc == Done(Gone) || (g.handlers[w].pc == Waiting(f) && Doomed(g, f)))
  }

  predicate Hopeful(g: Gateway, w: nat, f: Future) {
    WaitsFor(g, w, f) && f in g.session.futures && !Doomed(g, f)
  }

  /** A cancelled future stays cancelled. */
  lemma {:induction false} StepKeepsCancelled(g: Gateway, a: Action, f: Future)
    requires Coherent(g) && Enabled(g, a) && f in g.session.futures && g.session.futures[f].Cancelled?
    ensures f in Next(g, a).session.futures && Next(g, a).session.futures[f].Cancelled?
  {
    assert FutureCoherent(g, f);
    if a.Call? { NoFutureBeforeCall(g, a.h); }
  }

  lemma {:induction false} StepKeepsDoom(g: Gateway, a: Action, f: Future)
    requires Coherent(g) && Enabled(g, a) && Doomed(g, f)
    ensures Doomed(Next(g, a), f)
  {
    if Hangs(g, f) {
      if a.CancelWaiter? && g.handlers[a.h].pc.on == f {
        assert Next(g, a).session.futures[f].Cancelled?;
      } else if a.CancelWaiter? {
        CancellingElsewhereLeavesHanging(g, a.h, f);
      } else {
        StepFreesNothing(g, a, f);
      }
    } else {
      StepKeepsCancelled(g, a, f);
    }
  }

  lemma {:induction false} CancellingElsewhereLeavesHanging(g: Gateway, h: nat, f: Future)
    requires IsWaiting(g, h) && g.handlers[h].pc.on != f && Hangs(g, f)
    ensures Hangs(AfterWaiterCancelled(g, h), f)
  {}

  /** Waking from a doomed future gives nothing. */
  lemma {:induction false} StepKeepsLost(g: Gateway, a: Action, w: nat, f: Future)
    requires Coherent(g) && Enabled(g, a) && Lost(g, w, f)
    ensures Lost(Next(g, a), w, f)
  {
    if WaitsFor(g, w, f) { StepKeepsDoom(g, a, f); }
  }

  /** Whatever happens, cancellations included, a waiter for a doomed future is never answered. */
  lemma {:induction false} LostForever(g: Gateway, actions: seq<Action>, w: nat, f: Future)
    requires Coherent(g) && Runs(g, actions) && Lost(g, w, f)
    ensures Lost(After(g, actions), w, f)
    decreases |actions|
  {
    if |actions| > 0 {
      StepKeepsCoherence(g, actions[0]);
      StepKeepsLost(g, actions[0], w, f);
      LostForever(Next(g, actions[0]), actions[1..], w, f);
    }
  }

  lemma {:induction false} CalmStepCancelsNothing(g: Gateway, a: Action, f: Future)
    requires Coherent(g) && Enabled(g, a) && !Cancels(a) && f in g.session.futures && !g.session.futures[f].Cancelled?
    ensures f in Next(g, a).session.futures && !Next(g, a).session.futures[f].Cancelled?
  {}

  lemma {:induction false} WakingAnswers(g: Gateway, w: nat, f: Future)
    requires Coherent(g) && Hopeful(g, w, f) && !g.session.futures[f].Pending?
    ensures AnsweredAs(AfterWake(g, w), w, f)
  {
    assert FutureCoherent(g, f) && HandlerCoherent(g, w);
  }

  lemma {:induction false} CalmStepKeepsHope(g: Gateway, a: Action, w: nat, f: Future)
    requires Coherent(g) && Enabled(g, a) && !Cancels(a) && Hopeful(g, w, f)
    ensures AnsweredAs(Next(g, a), w, f) || Hopeful(Next(g, a), w, f)
  {
    if a == Wake(w) {
      WakingAnswers(g, w, f);
    } else {
      OthersLeaveWaiter(g, a, w);
      StepStrandsNothing(g, a, f);
      CalmStepCancelsNothing(g, a, f);
    }
  }

  lemma {:induction false} AnswersStay(g: Gateway, a: Action, w: nat, f: Future)
    requires Enabled(g, a) && AnsweredAs(g, w, f)
    ensures AnsweredAs(Next(g, a), w, f)
  {
    DoneStays(g, a, w);
    DoneStays(g, a, f);
  }

  lemma {:induction false} DoneStays(g: Gateway, a: Action, h: nat)
    requires Enabled(g, a) && h < |g.handlers| && g.handlers[h].pc.Done?
    ensures h < |Next(g, a).handlers| && Next(g, a).handlers[h] == g.handlers[h]
  {}

  /** While nobody is cancelled, a waiter that can be answered stays so, whoever was cancelled before. */
  lemma {:induction false} CalmRunKeepsHope(g: Gateway, actions: seq<Action>, w: nat, f: Future)
    requires Coherent(g) && Runs(g, actions) && Calm(actions) && (AnsweredAs(g, w, f) || Hopeful(g, w, f))
    ensures AnsweredAs(After(g, actions), w, f) || Hopeful(After(g, actions), w, f)
    decreases |actions|
  {
    if |actions| > 0 {
      StepKeepsCoherence(g, actions[0]);
      if AnsweredAs(g, w, f) { AnswersStay(g, actions[0], w, f); } else { CalmStepKeepsHope(g, actions[0], w, f); }
      CalmRunKeepsHope(Next(g, actions[0]), actions[1..], w, f);
    }
  }

  /** Only a waiter's own step moves it. */
  lemma {:induction false} OthersLeaveWaiter(g: Gateway, a: Action, w: nat)
    requires Enabled(g, a) && w < |g.handlers| && g.handlers[w].pc.Waiting? && a != Wake(w) && a != CancelWaiter(w)
    ensures w < |Next(g, a).handlers| && Next(g, a).handlers[w] == g.handlers[w]
  {}

  /** A waiter for a future that is not doomed can be driven to its owner's answer. */
  lemma {:induction false} WaiterCanBeAnswered(g: Gateway, w: nat, f: Future) returns (actions: seq<Action>)
    requires Coherent(g) && (AnsweredAs(g, w, f) || Hopeful(g, w, f))
    ensures Runs(g, actions) && AllOrdinary(actions) && AnsweredAs(After(g, actions), w, f)
    decreases Work(g.handlers)
  {
    if AnsweredAs(g, w, f) {
      actions := [];
    } else {
      SomebodyCanMove(g, w);
      var a :| Ordinary(a) && Enabled(g, a);
      StepKeepsCoherence(g, a);
      OrdinaryStepWorks(g, a);
      CalmStepKeepsHope(g, a, w, f);
      var rest := WaiterCanBeAnswered(Next(g, a), w, f);
      actions := [a] + rest;
      assert actions[1..] == rest;
    }
  }

  // --- main results ---

  /** A coalesced request can be given its owner's answer or exception, without cancelling anything,
      if and only if its future is neither cancelled nor left hanging; and otherwise nothing that
      happens, further cancellations included, ever answers it. */
  lemma {:induction false} DeliveryIffNotDoomed(limits: Limits, before: seq<Action>, w: nat)
    requires Runs(Start(limits, true), before)
    requires Waits(After(Start(limits, true), before), w)
    ensures var g := After(Start(limits, true), before); var f := g.handlers[w].pc.on;
      (exists actions :: Runs(g, actions) && AllOrdinary(actions) && AnsweredAs(After(g, actions), w, f))
      <==> !Doomed(g, f)
    ensures var g := After(Start(limits, true), before); var f := g.handlers[w].pc.on;
      Doomed(g, f) ==> forall actions, owner :: Runs(g, actions) ==> !AnsweredAs(After(g, actions), w, owner)
  {
    StartIsCoherent(limits);
    RunKeepsCoherence(Start(limits, true), before);
    var g := After(Start(limits, true), before);
    var f := g.handlers[w].pc.on;
    assert HandlerCoherent(g, w);
    if Doomed(g, f) {
      forall actions, owner | Runs(g, actions) ensures !AnsweredAs(After(g, actions), w, owner) {
        LostForever(g, actions, w, f);
      }
    } else {
      var actions := WaiterCanBeAnswered(g, w, f);
    }
  }

  /** It is not only possible: wherever the handlers end up when nobody else is cancelled, a coalesced
      request has its owner's answer or exception if its future was neither cancelled nor left hanging,
      and nothing otherwise. */
  lemma {:induction false} EveryEndDeliversIff(limits: Limits, before: seq<Action>, w: nat, actions: seq<Action>)
    requires Runs(Start(limits, true), before)
    requires Waits(After(Start(limits, true), before), w)
    requires Runs(After(Start(limits, true), before), actions) && Calm(actions)
    requires NobodyCanMove(After(After(Start(limits, true), before), actions))
    ensures var g := After(Start(limits, true), before); var f := g.handlers[w].pc.on;
      AnsweredAs(After(g, actions), w, f) <==> !Doomed(g, f)
  {
    StartIsCoherent(limits);
    RunKeepsCoherence(Start(limits, true), before);
    var g := After(Start(limits, true), before);
    var f := g.handlers[w].pc.on;
    assert HandlerCoherent(g, w);
    if Doomed(g, f) {
      LostForever(g, actions, w, f);
    } else {
      RunKeepsCoherence(g, actions);
      CalmRunKeepsHope(g, actions, w, f);
      if Hopeful(After(g, actions), w, f) { SomebodyCanMove(After(g, actions), w); }
    }
  }

  /** Handler `h` has an answer or an exception: its own, or the one of the call it names. */
  predicate Delivered(g: Gateway, h: nat) {
    && h < |g.handlers| && g.handlers[h].pc.Done?
    && match g.handlers[h].pc.outcome
       case Answered(r) => r.callId == h
       case Replayed(r) => Genuine(g, g.handlers[h].key, r)
       case Coalesced(r) => Genuine(g, g.handlers[h].key, r)
       case Raised(_) => true
       case Reraised(e, f) => RaisedBy(g, g.handlers[h].key, e, f)
       case Gone => false
  }

  /** When no handler can move any more, every request is delivered, was itself cancelled or lost its
      answer to a cancellation; with bounded runs, this is where every run of the handlers ends. */
  lemma {:induction false} WhereRunsEnd(limits: Limits, actions: seq<Action>, h: nat)
    requires Runs(Start(limits, true), actions)
    requires h < |After(Start(limits, true), actions).handlers|
    requires NobodyCanMove(After(Start(limits, true), actions))
    ensures var g := After(Start(limits, true), actions);
      Delivered(g, h) || g.handlers[h].pc == Done(Gone) || Stranded(g, h)
  {
    StartIsCoherent(limits);
    RunKeepsCoherence(Start(limits, true), actions);
    var g := After(Start(limits, true), actions);
    assert HandlerCoherent(g, h);
    if !g.handlers[h].pc.Done? && !Stranded(g, h) { SomebodyCanMove(g, h); }
  }

  // --- without cancellations ---

  ghost predicate NobodyCancelled(g: Gateway) {
    && (forall f :: f in g.session.futures ==> !g.session.futures[f].Cancelled?)
    && (forall h :: 0 <= h < |g.handlers| ==> !Abandoned(g.handlers[h].pc))
  }

  /** Cancelled, or about to be done so. */
  predicate Abandoned(pc: Pc) { pc == Done(Gone) || (pc.Committing? && pc.ending.Abandon?) }

  lemma {:induction false} StepCancelsNobody(g: Gateway, a: Action)
    requires NobodyCancelled(g) && Enabled(g, a) && !Cancels(a)
    ensures NobodyCancelled(Next(g, a))
  {
    var g' := Next(g, a);
    forall h | 0 <= h < |g'.handlers| ensures !Abandoned(g'.handlers[h].pc) {
      if h < |g.handlers| { assert !Abandoned(g.handlers[h].pc); }
    }
  }

  lemma {:induction false} RunCancelsNobody(g: Gateway, actions: seq<Action>)
    requires NobodyCancelled(g) && Runs(g, actions) && Calm(actions)
    ensures NobodyCancelled(After(g, actions))
    decreases |actions|
  {
    if |actions| > 0 {
      StepCancelsNobody(g, actions[0]);
      RunCancelsNobody(Next(g, actions[0]), actions[1..]);
    }
  }

  /** Without a cancellation no request is ever left with nothing, and where no handler can move any
      more every request is delivered. */
  lemma {:induction false} EverybodyIsAnswered(limits: Limits, actions: seq<Action>, h: nat)
    requires Runs(Start(limits, true), actions) && Calm(actions)
    requires h < |After(Start(limits, true), actions).handlers|
    ensures var g := After(Start(limits, true), actions);
      && g.handlers[h].pc != Done(Gone) && !Stranded(g, h)
      && (NobodyCanMove(g) ==> Delivered(g, h))
  {
    var g := After(Start(limits, true), actions);
    RunCancelsNobody(Start(limits, true), actions);
    assert !Abandoned(g.handlers[h].pc);
    assert g.handlers[h].pc.Waiting? && g.handlers[h].pc.on < |g.handlers| ==>
        !Abandoned(g.handlers[g.handlers[h].pc.on].pc);
    if NobodyCanMove(g) { WhereRunsEnd(limits, actions, h); }
  }

  // --- what a cancellation does ---

  /** A key in flight whose owner was cancelled. */
  predicate Dead(g: Gateway, key: Key, f: Future) {
    key in g.session.inflight && g.session.inflight[key] == f && f < |g.handlers| && Abandoned(g.handlers[f].pc)
  }

  /** A request for a dead key that has no answer. */
  predicate WithoutAnswer(g: Gateway, h: nat, f: Future) {
    && h < |g.handlers|
    && (g.handlers[h].pc == Arrived || g.handlers[h].pc == Waiting(f) || g.handlers[h].pc == Done(Gone))
  }

  lemma {:induction false} DeadFutureIsDoomed(g: Gateway, key: Key, f: Future)
    requires Coherent(g) && Dead(g, key, f)
    ensures f in g.session.futures && Doomed(g, f) && key !in g.session.replay && g.handlers[f].key == key
  {
    assert KeyCoherent(g, key);
  }

  lemma {:induction false} StepKeepsDead(g: Gateway, a: Action, key: Key, f: Future)
    requires Coherent(g) && Enabled(g, a) && Dead(g, key, f)
    ensures Dead(Next(g, a), key, f)
  {
    DeadFutureIsDoomed(g, key, f);
    match a
    case Reserve(h) => OwnerHoldsItsKey(g, h);
    case Commit(h) => OwnerHoldsItsKey(g, h);
    case _ =>
  }

  lemma {:induction false} StepAnswersNobody(g: Gateway, a: Action, key: Key, f: Future, h: nat)
    requires Coherent(g) && Enabled(g, a) && Dead(g, key, f)
    requires WithoutAnswer(g, h, f) && g.handlers[h].key == key
    ensures WithoutAnswer(Next(g, a), h, f) && Next(g, a).handlers[h].key == key
  {
    DeadFutureIsDoomed(g, key, f);
  }

  /** Once its owner was cancelled a key is dead for good: whatever happens, neither those who wait
      for it nor those who come later are ever answered. */
  lemma {:induction false} DeadKeyAnswersNobody(g: Gateway, actions: seq<Action>, key: Key, f: Future, h: nat)
    requires Coherent(g) && Runs(g, actions) && Dead(g, key, f)
    requires h < |g.handlers| ==> g.handlers[h].key == key && WithoutAnswer(g, h, f)
    ensures var end := After(g, actions);
      Dead(end, key, f) && (h < |end.handlers| && end.handlers[h].key == key ==> WithoutAnswer(end, h, f))
    decreases |actions|
  {
    if |actions| > 0 {
      var (a, g') := (actions[0], Next(g, actions[0]));
      StepKeepsCoherence(g, a);
      StepKeepsDead(g, a, key, f);
      if h < |g.handlers| { StepAnswersNobody(g, a, key, f, h); }
      if h < |g'.handlers| && g'.handlers[h].key != key {
        KeysStay(g', actions[1..], h);
        DeadKeyStaysDead(g', actions[1..], key, f);
      } else {
        DeadKeyAnswersNobody(g', actions[1..], key, f, h);
      }
    }
  }

  lemma {:induction false} DeadKeyStaysDead(g: Gateway, actions: seq<Action>, key: Key, f: Future)
    requires Coherent(g) && Runs(g, actions) && Dead(g, key, f)
    ensures Dead(After(g, actions), key, f)
    decreases |actions|
  {
    if |actions| > 0 {
      StepKeepsCoherence(g, actions[0]);
      StepKeepsDead(g, actions[0], key, f);
      DeadKeyStaysDead(Next(g, actions[0]), actions[1..], key, f);
    }
  }

  lemma {:induction false} KeysStay(g: Gateway, actions: seq<Action>, h: nat)
    requires Runs(g, actions) && h < |g.handlers|
    ensures h < |After(g, actions).handlers| && After(g, actions).handlers[h].key == g.handlers[h].key
    decreases |actions|
  {
    if |actions| > 0 { KeysStay(Next(g, actions[0]), actions[1..], h); }
  }

  /** Without cancelled owners nothing is ever stranded. */
  lemma {:induction false} NothingStrandedWithoutCancellation(g: Gateway, actions: seq<Action>, f: Future)
    requires Coherent(g) && Runs(g, actions)
    requires forall f' :: f' in g.session.futures ==> !Hangs(g, f')
    requires forall i :: 0 <= i < |actions| ==> !actions[i].CancelOwner?
    ensures !Hangs(After(g, actions), f)
    decreases |actions|
  {
    if |actions| > 0 {
      var g' := Next(g, actions[0]);
      StepKeepsCoherence(g, actions[0]);
      forall f' | f' in g'.session.futures ensures !Hangs(g', f') {
        if f' in g.session.futures {
          StepStrandsNothing(g, actions[0], f');
        } else {
          assert FutureCoherent(g', f');
          NewFutureIsOwned(g, actions[0], f');
        }
      }
      NothingStrandedWithoutCancellation(g', actions[1..], f);
    }
  }

  lemma {:induction false} NewFutureIsOwned(g: Gateway, a: Action, f: Future)
    requires Coherent(g) && Enabled(g, a)
    requires f !in g.session.futures && f in Next(g, a).session.futures
    ensures f < |Next(g, a).handlers| && Next(g, a).handlers[f].pc.Reserving?
  {}

  /** Two identical requests; the first is cancelled while its upstream call is out. The second
      waits for ever: the key stays in flight with nobody to settle it. */
  lemma {:induction false} CancelledOwnerStrandsItsRetry(key: Key)
    ensures var actions := [Arrive(key), Arrive(key), Call(0), Reserve(0), Call(1), CancelOwner(0), Commit(0)];
      var g := Start(Limits(None, None, None, None), true);
      Runs(g, actions) && Stranded(After(g, actions), 1)
  {
    var g0 := Start(Limits(None, None, None, None), true);
    var g1 := Next(g0, Arrive(key));
    var g2 := Next(g1, Arrive(key));
    var g3 := Next(g2, Call(0));
    var g4 := Next(g3, Reserve(0));
    var g5 := Next(g4, Call(1));
    var g6 := Next(g5, CancelOwner(0));
    var g7 := Next(g6, Commit(0));
    assert Stranded(g7, 1);
    Unroll(g7, [], g7);
    Unroll(g6, [Commit(0)], g7);
    Unroll(g5, [CancelOwner(0), Commit(0)], g7);
    Unroll(g4, [Call(1), CancelOwner(0), Commit(0)], g7);
    Unroll(g3, [Reserve(0), Call(1), CancelOwner(0), Commit(0)], g7);
    Unroll(g2, [Call(0), Reserve(0), Call(1), CancelOwner(0), Commit(0)], g7);
    Unroll(g1, [Arrive(key), Call(0), Reserve(0), Call(1), CancelOwner(0), Commit(0)], g7);
    Unroll(g0, [Arrive(key), Arrive(key), Call(0), Reserve(0), Call(1), CancelOwner(0), Commit(0)], g7);
  }

  /** Two requests wait for a third one's call, and one of the two is cancelled. */
  lemma {:induction false} WaiterCancelledLast(g: Gateway)
    requires g.agent && |g.handlers| == 3 && g.handlers[0].pc == Upstream
    requires forall h :: 1 <= h < 3 ==> At(g, h, Arrived) && g.handlers[h].key == g.handlers[0].key
    requires var key := g.handlers[0].key;
      key !in g.session.replay && key in g.session.inflight && g.session.inflight[key] == 0
    requires 0 in g.session.futures && g.session.futures[0].Pending?
    ensures var actions := [Call(1), Call(2), CancelWaiter(1)];
      && Runs(g, actions)
      && var end := After(g, actions);
         && |end.handlers| == 3 && end.handlers[0].pc == Upstream && end.handlers[2].pc == Waiting(0)
         && 0 in end.session.futures && end.session.futures[0].Cancelled?
  {
    var g1 := Next(g, Call(1));
    var g2 := Next(g1, Call(2));
    var g3 := Next(g2, CancelWaiter(1));
    Unroll(g3, [], g3);
    Unroll(g2, [CancelWaiter(1)], g3);
    Unroll(g1, [Call(2), CancelWaiter(1)], g3);
    Unroll(g, [Call(1), Call(2), CancelWaiter(1)], g3);
  }

  /** Three identical requests, and the first one's call is out. */
  lemma {:induction false} ThreeRequests(key: Key)
    ensures
      var actions := [Arrive(key), Arrive(key), Arrive(key), Call(0), Reserve(0)];
      var start := Start(Limits(None, None, None, None), true);
      && Runs(start, actions)
      && var g := After(start, actions);
         && g.agent && |g.handlers| == 3 && g.handlers[0] == Handler(key, Upstream)
         && (forall h :: 1 <= h < 3 ==> g.handlers[h] == Handler(key, Arrived))
         && key !in g.session.replay && key in g.session.inflight && g.session.inflight[key] == 0
         && 0 in g.session.futures && g.session.futures[0].Pending?
  {
    var g0 := Start(Limits(None, None, None, None), true);
    var g1 := Next(g0, Arrive(key));
    var g2 := Next(g1, Arrive(key));
    var g3 := Next(g2, Arrive(key));
    var g4 := Next(g3, Call(0));
    var g5 := Next(g4, Reserve(0));
    Unroll(g5, [], g5);
    Unroll(g4, [Reserve(0)], g5);
    Unroll(g3, [Call(0), Reserve(0)], g5);
    Unroll(g2, [Arrive(key), Call(0), Reserve(0)], g5);
    Unroll(g1, [Arrive(key), Arrive(key), Call(0), Reserve(0)], g5);
    Unroll(g0, [Arrive(key), Arrive(key), Arrive(key), Call(0), Reserve(0)], g5);
  }

  lemma {:induction false} RunsJoin(g: Gateway, before: seq<Action>, after: seq<Action>)
    requires Runs(g, before) && Runs(After(g, before), after)
    ensures Runs(g, before + after) && After(g, before + after) == After(After(g, before), after)
    decreases |before|
  {
    if |before| == 0 {
      assert before + after == after;
    } else {
      assert (before + after)[1..] == before[1..] + after;
      RunsJoin(Next(g, before[0]), before[1..], after);
    }
  }

  /** Three identical requests; the second is cancelled while the first one's call is out. The third
      is not, nor is the first, and yet nothing that happens ever answers the third. */
  lemma {:induction false} CancelledWaiterTakesTheOthers(key: Key)
    ensures
      var actions := [Arrive(key), Arrive(key), Arrive(key), Call(0), Reserve(0)] + [Call(1), Call(2), CancelWaiter(1)];
      var start := Start(Limits(None, None, None, None), true);
      && Runs(start, actions)
      && var g := After(start, actions);
         && |g.handlers| == 3 && g.handlers[0].pc == Upstream && g.handlers[2].pc == Waiting(0)
         && !Hangs(g, 0) && Doomed(g, 0)
         && forall more, owner :: Runs(g, more) ==> !AnsweredAs(After(g, more), 2, owner)
  {
    var head := [Arrive(key), Arrive(key), Arrive(key), Call(0), Reserve(0)];
    var tail := [Call(1), Call(2), CancelWaiter(1)];
    var limits := Limits(None, None, None, None);
    ThreeRequests(key);
    WaiterCancelledLast(After(Start(limits, true), head));
    RunsJoin(Start(limits, true), head, tail);
    DeliveryIffNotDoomed(limits, head + tail, 2);
  }

  /** One unrolling of a run. */
  lemma {:induction false} Unroll(g: Gateway, actions: seq<Action>, end: Gateway)
    requires |actions| > 0 ==>
      && Enabled(g, actions[0]) && Runs(Next(g, actions[0]), actions[1..])
      && After(Next(g, actions[0]), actions[1..]) == end
    requires |actions| == 0 ==> g == end
    ensures Runs(g, actions) && After(g, actions) == end
  {}
}
