/** The two Judges' retry loops. Time is counted in milliseconds; what a provider or an agent does,
    and how long it takes, is a parameter. */
module Judge {
  import opened Wrappers

  const REPAIRS: nat := 3
  const RETRIES_WITHOUT_DEADLINE: nat := 3
  const DEADLINE_MARGIN: int := 30_000
  const BACKOFF_CAP_SECONDS: int := 60
  const RETRY_AFTER_CAP: int := 600_000

  // --- the budget ---

  class Clock {
    /** Verification's own deadline, if it has one. */
    const budget: Option<int>
    var elapsed: int

    constructor (budget: Option<int>)
      ensures this.budget == budget && elapsed == 0
    {
      this.budget, elapsed := budget, 0;
    }

    function Left(): Option<int>
      reads this
    {
      match budget case None => None case Some(b) => Some(b - elapsed - DEADLINE_MARGIN)
    }

    method Pass(time: nat)
      modifies this
      ensures elapsed == old(elapsed) + time
    {
      elapsed := elapsed + time;
    }
  }

  /** `first * 2 ** failures`. */
  function Doubled(first: int, failures: nat): int {
    if failures == 0 then first else 2 * Doubled(first, failures - 1)
  }

  function Least(a: int, b: int): int { if a < b then a else b }

  /** The provider's own wish up to a cap, or else between half and all of a second doubled with every
      failure, up to a cap; `jitter` is in thousandths, and so the first wait itself. */
  function Backoff(failures: nat, retryAfter: Option<int>, jitter: int): int {
    match retryAfter
    case Some(wish) => Least(wish, RETRY_AFTER_CAP)
    case None => Least(BACKOFF_CAP_SECONDS * jitter, Doubled(jitter, if failures < 6 then failures else 6))
  }

  const LEAST_JITTER: int := 500

  /** Without a wish, the wait is at least half a second. */
  lemma {:induction false} BackoffIsAWait(failures: nat, jitter: int)
    requires jitter >= LEAST_JITTER
    ensures Backoff(failures, None, jitter) >= 500
  {
    DoublingGrows(jitter, if failures < 6 then failures else 6);
  }

  lemma {:induction false} DoublingGrows(first: int, n: nat)
    requires first >= 0
    ensures Doubled(first, n) >= first
  {
    if n > 0 { DoublingGrows(first, n - 1); }
  }

  /** The wait grows from one second to one minute with the failures, when the whole of it is taken. */
  const FULL_WAITS: seq<int> := [1000, 2000, 4000, 8000, 16_000, 32_000, 60_000]

  /** A wish is kept to the millisecond, up to ten minutes; without one the wait is between half and all of a
      doubling step. */
  lemma {:induction false} WaitsAreAsWished(failures: nat, wish: Option<int>, jitter: int)
    ensures wish.Some? ==>
      var wait := Backoff(failures, wish, jitter);
      if wish.value <= 600_000 then wait == wish.value else wait == 600_000
    ensures wish.None? && 500 <= jitter <= 1000 ==>
      var full := FULL_WAITS[if failures < 6 then failures else 6];
      full <= 2 * Backoff(failures, wish, jitter) && Backoff(failures, wish, jitter) <= full
  {
    assert Doubled(jitter, 0) == jitter && Doubled(jitter, 1) == 2 * jitter && Doubled(jitter, 2) == 4 * jitter;
    assert Doubled(jitter, 3) == 8 * jitter && Doubled(jitter, 4) == 16 * jitter;
    assert Doubled(jitter, 5) == 32 * jitter && Doubled(jitter, 6) == 64 * jitter;
  }

  /** Sleeping for a negative time raises. */
  datatype Wait = Again | GiveUp | Crash

  predicate Covered(left: Option<int>, failures: nat, delay: int) {
    match left case None => failures <= RETRIES_WITHOUT_DEADLINE case Some(l) => l >= delay
  }

  method WaitToRetry(clock: Clock, failures: nat, retryAfter: Option<int>, jitter: int) returns (w: Wait)
    modifies clock
    ensures var delay := Backoff(failures, retryAfter, jitter);
      && (w.GiveUp? <==> !Covered(old(clock.Left()), failures, delay))
      && (w.Crash? ==> delay < 0)
      && clock.elapsed == old(clock.elapsed) + (if w.Again? then delay else 0)
      && (w.Again? ==> delay >= 0)
  {
    var delay := Backoff(failures, retryAfter, jitter);
    var left := clock.Left();
    if left.None? && failures > RETRIES_WITHOUT_DEADLINE { return GiveUp; }
    if left.Some? && left.value < delay { return GiveUp; }
    if delay < 0 { return Crash; }
    clock.Pass(delay);
    return Again;
  }

  // --- the model Judge ---

  datatype Reply = Verdict | Invalid | Refused | Broken | Transient(timedOut: bool, retryAfter: Option<int>)

  datatype Mode = Initial | Retry | SchemaRepair

  /** `quoted` is the attempt whose error the prompt quotes. */
  datatype Attempt = Attempt(index: nat, mode: Mode, quoted: Option<nat>, reply: Reply)

  datatype Ending = Completed | Failed | Crashed

  predicate Wrong(r: Reply) { r.Invalid? || r.Refused? }

  function Wrongs(attempts: seq<Attempt>): nat {
    if |attempts| == 0 then 0
    else Wrongs(attempts[..|attempts| - 1]) + if Wrong(attempts[|attempts| - 1].reply) then 1 else 0
  }

  function Transients(attempts: seq<Attempt>): nat {
    if |attempts| == 0 then 0
    else Transients(attempts[..|attempts| - 1]) + if attempts[|attempts| - 1].reply.Transient? then 1 else 0
  }

  /** Whether the last answer that could be judged at all was invalid, not refused. */
  predicate LastWasInvalid(attempts: seq<Attempt>) {
    if |attempts| == 0 then false
    else
      var last := attempts[|attempts| - 1].reply;
      if last.Invalid? then true else if last.Refused? then false else LastWasInvalid(attempts[..|attempts| - 1])
  }

  /** The attempt that follows `before`: numbered on, and a schema repair, quoting the last error,
      exactly while an invalid answer waits to be repaired. */
  predicate Follows(before: seq<Attempt>, a: Attempt) {
    && a.index == |before| + 1
    && a.mode == (if |before| == 0 then Initial else if LastWasInvalid(before) then SchemaRepair else Retry)
    && a.quoted == if LastWasInvalid(before) then Some(|before|) else None
  }

  /** A run of attempts that were all to be followed by another. */
  ghost predicate Continuing(attempts: seq<Attempt>, budget: Option<int>) {
    && (forall i :: 0 <= i < |attempts| ==> Follows(attempts[..i], attempts[i]))
    && (forall i :: 0 <= i < |attempts| ==> Wrong(attempts[i].reply) || attempts[i].reply.Transient?)
    && Wrongs(attempts) <= REPAIRS
    && (budget.None? ==> Transients(attempts) <= RETRIES_WITHOUT_DEADLINE)
    && |attempts| == Wrongs(attempts) + Transients(attempts)
  }

  lemma {:induction false} OneMoreAttempt(attempts: seq<Attempt>, a: Attempt, budget: Option<int>)
    requires Continuing(attempts, budget) && Follows(attempts, a)
    requires Wrong(a.reply) ==> Wrongs(attempts) < REPAIRS
    requires a.reply.Transient? && budget.None? ==> Transients(attempts) < RETRIES_WITHOUT_DEADLINE
    requires Wrong(a.reply) || a.reply.Transient?
    ensures Continuing(attempts + [a], budget)
    ensures Wrongs(attempts + [a]) == Wrongs(attempts) + if Wrong(a.reply) then 1 else 0
    ensures Transients(attempts + [a]) == Transients(attempts) + if a.reply.Transient? then 1 else 0
    ensures LastWasInvalid(attempts + [a]) == if Wrong(a.reply) then a.reply.Invalid? else LastWasInvalid(attempts)
  {
    var more := attempts + [a];
    assert more[..|attempts|] == attempts;
    forall i | 0 <= i < |more| ensures Follows(more[..i], more[i]) {
      if i < |attempts| { assert more[..i] == attempts[..i]; }
    }
  }

  /** Why a run of attempts ended without a verdict. */
  ghost predicate Spent(before: seq<Attempt>, reply: Reply, left: Option<int>, jitter: int) {
    match reply
    case Verdict => false
    case Broken => true
    case Transient(_, retryAfter) =>
      var failures := Transients(before) + 1;
      !Covered(left, failures, Backoff(failures, retryAfter, jitter))
    case _ => Wrongs(before) == REPAIRS
  }

  /** The provider asks for a retry at once. */
  predicate AtOnce(r: Reply) { r.Transient? && r.retryAfter == Some(0) }

  /** How much longer the loop can go on for: a failed attempt and the wait after it take some time, and no
      retry is started that the budget does not cover. */
  ghost function Remaining(clock: Clock, transient: nat): nat
    reads clock
  {
    match clock.Left()
    case None => if transient <= RETRIES_WITHOUT_DEADLINE then RETRIES_WITHOUT_DEADLINE + 1 - transient else 0
    case Some(left) => if left >= 0 then left + 1 else 0
  }

  /** How a run of attempts ends: with a verdict, or for one of the reasons to stop. */
  ghost predicate Ends(before: seq<Attempt>, last: Attempt, ending: Ending, clock: Clock, jitter: int)
    reads clock
  {
    && Continuing(before, clock.budget) && Follows(before, last)
    && match ending
       case Completed => last.reply.Verdict?
       case Failed => Spent(before, last.reply, clock.Left(), jitter)
       case Crashed => last.reply.Transient? && Backoff(Transients(before) + 1, last.reply.retryAfter, jitter) < 0
  }

  /** After a transient failure, whether to go on. */
  method AfterTransient(clock: Clock, ghost before: seq<Attempt>, attempt: Attempt, transient: nat, jitter: int)
    returns (w: Wait)
    requires Continuing(before, clock.budget) && Follows(before, attempt) && attempt.reply.Transient?
    requires transient == Transients(before) + 1 && jitter >= LEAST_JITTER
    modifies clock
    ensures w.GiveUp? ==> Ends(before, attempt, Failed, clock, jitter)
    ensures w.Crash? ==> Ends(before, attempt, Crashed, clock, jitter)
    ensures w.Again? ==>
      && (clock.budget.None? ==> transient <= RETRIES_WITHOUT_DEADLINE)
      && clock.elapsed >= old(clock.elapsed)
      && (AtOnce(attempt.reply) || clock.elapsed > old(clock.elapsed))
      && (clock.Left().Some? ==> clock.Left().value >= 0)
  {
    BackoffIsAWait(transient, jitter);
    w := WaitToRetry(clock, transient, attempt.reply.retryAfter, jitter);
  }

  /** What the loop knows before an attempt. */
  ghost predicate Ready(attempts: seq<Attempt>, repair: bool, repairs: nat, transient: nat) {
    repair == LastWasInvalid(attempts) && repairs == Wrongs(attempts) && transient == Transients(attempts)
  }

  datatype Decision = Stop(ending: Ending) | GoOn(repair: bool, repairs: nat, transient: nat)

  /** After an attempt: stop, or go on with or without a repair. */
  method Decide(
    clock: Clock, ghost before: seq<Attempt>, attempt: Attempt, repair: bool, repairs: nat, transient: nat, jitter: int)
    returns (d: Decision)
    requires Continuing(before, clock.budget) && Follows(before, attempt) && Ready(before, repair, repairs, transient)
    requires jitter >= LEAST_JITTER
    modifies clock
    ensures d.Stop? ==> Ends(before, attempt, d.ending, clock, jitter)
    ensures d.GoOn? ==>
      && Continuing(before + [attempt], clock.budget) && Ready(before + [attempt], d.repair, d.repairs, d.transient)
      && clock.elapsed >= old(clock.elapsed)
      && (d.repairs > repairs || (d.repairs == repairs && d.transient == transient + 1
                                  && (AtOnce(attempt.reply) || clock.elapsed > old(clock.elapsed))
                                  && (clock.Left().Some? ==> clock.Left().value >= 0)))
  {
    if attempt.reply.Verdict? { return Stop(Completed); }
    if attempt.reply.Transient? {
      var w := AfterTransient(clock, before, attempt, transient + 1, jitter);
      if w.GiveUp? { return Stop(Failed); }
      if w.Crash? { return Stop(Crashed); }
      d := GoOn(repair, repairs, transient + 1);
    } else {
      if !Wrong(attempt.reply) || repairs >= REPAIRS { return Stop(Failed); }
      d := GoOn(attempt.reply.Invalid?, repairs + 1, transient);
    }
    OneMoreAttempt(before, attempt, clock.budget);
  }

  /** Each attempt got the reply to its request. */
  ghost predicate Heard(attempts: seq<Attempt>, reply: nat -> Reply) {
    forall i :: 0 <= i < |attempts| ==> attempts[i].reply == reply(i + 1)
  }

  /** What the loop knows, and what it is about to do. */
  ghost predicate Underway(attempts: seq<Attempt>, budget: Option<int>, next: Decision) {
    next.GoOn? && Continuing(attempts, budget) && Ready(attempts, next.repair, next.repairs, next.transient)
  }

  method NextAttempt(ghost before: seq<Attempt>, index: nat, now: Decision, reply: Reply) returns (attempt: Attempt)
    requires index == |before| + 1 && now.GoOn? && now.repair == LastWasInvalid(before)
    ensures Follows(before, attempt) && attempt.reply == reply
  {
    var mode := if index == 1 then Initial else if now.repair then SchemaRepair else Retry;
    attempt := Attempt(index, mode, if now.repair then Some(index - 1) else None, reply);
  }

  /** One attempt and what to do after it. */
  method AttemptOne(
    clock: Clock, reply: nat -> Reply, ghost before: seq<Attempt>, index: nat, now: Decision, time: nat, jitter: int)
    returns (attempt: Attempt, d: Decision)
    requires index == |before| + 1 && jitter >= LEAST_JITTER && Heard(before, reply)
    requires clock.budget.Some? && AtOnce(reply(index)) ==> time > 0
    requires Underway(before, clock.budget, now)
    modifies clock
    ensures Heard(before + [attempt], reply)
    ensures d.Stop? ==> Ends(before, attempt, d.ending, clock, jitter)
    ensures d.GoOn? ==>
      && Underway(before + [attempt], clock.budget, d)
      && (d.repairs > now.repairs
          || (d.repairs == now.repairs && Remaining(clock, d.transient) < old(Remaining(clock, now.transient))))
  {
    clock.Pass(time);
    attempt := NextAttempt(before, index, now, reply(index));
    d := Decide(clock, before, attempt, now.repair, now.repairs, now.transient, jitter);
    if d.Stop? { return; }
  }

  method RunLlm(clock: Clock, reply: nat -> Reply, time: nat -> nat, jitter: nat -> int)
    returns (attempts: seq<Attempt>, ending: Ending)
    requires forall n :: jitter(n) >= LEAST_JITTER
    requires clock.budget.Some? ==> forall n :: AtOnce(reply(n)) ==> time(n) > 0
    modifies clock
    ensures |attempts| > 0 && Heard(attempts, reply)
    ensures Ends(attempts[..|attempts| - 1], attempts[|attempts| - 1], ending, clock, jitter(|attempts|))
    ensures clock.budget.None? ==> |attempts| <= 1 + REPAIRS + RETRIES_WITHOUT_DEADLINE
  {
    attempts := [];
    var next, index := GoOn(false, 0, 0), 0;
    while true
      invariant index == |attempts| && Heard(attempts, reply) && Underway(attempts, clock.budget, next)
      decreases REPAIRS - next.repairs, Remaining(clock, next.transient)
    {
      index := index + 1;
      ghost var before := attempts;
      var attempt, d := AttemptOne(clock, reply, before, index, next, time(index), jitter(index));
      attempts := attempts + [attempt];
      assert attempts[..|before|] == before;
      if d.Stop? { return attempts, d.ending; }
      next := d;
    }
  }

  // --- the output ceiling one provider insists on ---

  const LOWEST_CEILING: nat := 4096

  /** A provider takes a ceiling, refuses it, perhaps stating its own, or fails otherwise. */
  datatype Response = Takes | TooHigh(stated: Option<nat>) | Fails

  /** The next ceiling to try, if any. */
  function Supported(stated: Option<nat>, tried: nat): Option<nat> {
    if stated.Some? && stated.value < tried then stated
    else if tried <= LOWEST_CEILING then None
    else Some(if tried / 2 > LOWEST_CEILING then tried / 2 else LOWEST_CEILING)
  }

  /** A stated ceiling is taken if it is lower; otherwise half the tried one, but not below the lowest. */
  lemma {:induction false} NextCeiling(stated: Option<nat>, tried: nat)
    ensures Supported(stated, tried) ==
      if stated.Some? && stated.value < tried then stated
      else if tried <= 4096 then None
      else if tried <= 8192 then Some(4096)
      else Some(tried / 2)
  {}

  /** Each ceiling tried is the one after a refusal, and lower. */
  ghost predicate Descends(tried: seq<nat>, answer: nat -> Response) {
    forall i :: 0 <= i < |tried| - 1 ==>
      && answer(tried[i]).TooHigh?
      && Supported(answer(tried[i]).stated, tried[i]) == Some(tried[i + 1])
      && tried[i + 1] < tried[i]
  }

  /** Try lower and lower ceilings until one is taken; the last one tried is remembered. */
  method Request(maximum: nat, answer: nat -> Response) returns (taken: bool, tried: seq<nat>, remembered: nat)
    ensures |tried| > 0 && tried[0] == maximum && Descends(tried, answer) && remembered == tried[|tried| - 1]
    ensures taken <==> answer(remembered).Takes?
    ensures !taken && answer(remembered).TooHigh? ==> remembered <= LOWEST_CEILING
    ensures (forall n :: !answer(n).Fails?) && (forall n: nat :: n <= LOWEST_CEILING ==> answer(n).Takes?) ==> taken
  {
    tried, remembered := [maximum], maximum;
    while true
      invariant |tried| > 0 && tried[0] == maximum && Descends(tried, answer) && remembered == tried[|tried| - 1]
      decreases remembered
    {
      match answer(remembered) {
        case Takes => return true, tried, remembered;
        case Fails => return false, tried, remembered;
        case TooHigh(stated) =>
          var next := Supported(stated, remembered);
          if next.None? { return false, tried, remembered; }
          remembered := next.value;
          tried := tried + [remembered];
      }
    }
  }
}
