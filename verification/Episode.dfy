/** The end of an episode: retention is decided, every sandbox is accounted for, and the verdict and
    the outcomes are written down; and the loop that repeats an episode the platform failed. */
module Episode {
  import opened Wrappers
  import opened Lease

  datatype Status =
    Completed | AgentError | EnvError | TaskError | Timeout | BudgetExceeded | CancelledRun | Refused

  datatype Failure = Failure(errorClass: string, message: string, phase: Option<string>)

  type Rewards = map<string, real>

  datatype Verdict = Verdict(status: Status, rewards: Option<Rewards>, failure: Option<Failure>)

  /** What the verdict type checks when it is built. */
  predicate Consistent(v: Verdict) {
    if v.status.Completed? then v.rewards.Some? && v.failure.None? else v.failure.Some?
  }

  function FailedVerdict(status: Status, failure: Failure): Verdict
    requires !status.Completed?
  {
    Verdict(status, None, Some(failure))
  }

  datatype ResultRecord = ResultRecord(
    status: Status, rewards: Option<Rewards>, failure: Option<Failure>, sandboxes: seq<Outcome>)

  /** The consistency rule of the written record. */
  predicate Terminal(r: ResultRecord) {
    if r.status.Completed? then r.rewards.Some? && r.failure.None? else r.failure.Some?
  }

  /** What recording the provenance of the episode came to: a lock or none was wanted, or an
      exception before or after the lock was built. */
  datatype Recording = Recorded(wanted: bool) | NotBuilt(error: string) | NotWritten(error: string)

  datatype Ending = Ending(record: ResultRecord, lockOutcomes: Option<seq<Outcome>>)

  function Teardown(sandbox: nat): Failure {
    Failure("RetentionFinalizationError", "could not destroy sandbox", Some("teardown"))
  }

  function Unrecorded(error: string): Failure {
    Failure(error, "could not finalize the recording", Some("finalize"))
  }

  /** Whether sandboxes may be kept at all. */
  predicate MayKeep(v: Verdict, destroyFailed: bool) {
    !v.status.Timeout? && (v.status.Completed? || !destroyFailed)
  }

  /** Keep what may be kept, then destroy whatever is still live. */
  method SettleAll(lease: Lease, allow: bool, f: Faults) returns (problem: Option<nat>)
    requires lease.Valid()
    modifies lease
    ensures lease.Valid() && lease.live == [] && lease.leased == old(lease.leased)
    ensures lease.outcomes == old(lease.outcomes) + Settled(old(lease.live), allow, f)
    ensures problem == FirstRaised(old(lease.live), allow, f)
  {
    NothingBeyond(lease.live, allow, f);
    problem := lease.Finalize(allow, f);
    var other := lease.ReleaseAll(f);
    problem := if problem.Some? then problem else other;
    assert lease.outcomes == old(lease.outcomes) + Settled(old(lease.live), allow, f);
  }

  /** The end of the leases: what is kept was allowed and earned. */
  method CloseSandboxes(lease: Lease, allow: bool, f: Faults) returns (problem: Option<nat>)
    requires lease.Valid() && lease.retained == []
    modifies lease
    ensures lease.Valid() && lease.live == [] && lease.leased == old(lease.leased)
    ensures lease.outcomes == old(lease.outcomes) + Settled(old(lease.live), allow, f)
    ensures problem == FirstRaised(old(lease.live), allow, f)
    ensures forall o :: o in lease.outcomes && Kept(o) ==> allow && exists e :: e in old(lease.live) && Earned((e, o))
    ensures !allow ==> KeptOnly(lease.outcomes) == []
  {
    WhatIsKept(lease.outcomes, lease.live, allow, f);
    problem := SettleAll(lease, allow, f);
  }

  /** No sandbox before the `i`-th failed to be destroyed. */
  predicate GotTo(live: seq<Entry>, allow: bool, f: Faults, i: nat)
    requires i < |live|
  {
    forall j :: 0 <= j < i ==> !Raises(live[j], allow, f)
  }

  /** The outcome of an entry: about its sandbox, kept in the way asked for if and only if it deserves it and
      finalization got to it. */
  ghost predicate AsAsked(live: seq<Entry>, allow: bool, f: Faults, i: nat, o: Outcome)
    requires i < |live|
  {
    var e := live[i];
    && o.sandbox == e.sandbox && o.role == e.role && o.requested == e.requested
    && (Kept(o) <==> Deserves(e, allow, f) && GotTo(live, allow, f, i))
    && (Kept(o) ==> (o.fate.Snapshotted? <==> e.requested.Snapshot?) && o.handle == Some(e.sandbox))
    && (e.requested.Destroy? || !allow ==> o.fate.Destroyed?)
  }

  ghost predicate SettledAsAsked(live: seq<Entry>, allow: bool, f: Faults) {
    && |Settled(live, allow, f)| == |live|
    && forall i :: 0 <= i < |live| ==> AsAsked(live, allow, f, i, Settled(live, allow, f)[i])
  }

  lemma {:induction false} NothingBeyond(live: seq<Entry>, allow: bool, f: Faults)
    ensures FirstRaised(live, allow, f).None? ==> Beyond(live, allow, f) == []
  {}

  /** Every sandbox settles as it was asked for. */
  lemma {:induction false} EverySandboxSettles(live: seq<Entry>, allow: bool, f: Faults)
    ensures SettledAsAsked(live, allow, f)
  {
    var n := Reached(live, allow, f);
    forall i | 0 <= i < |live| ensures AsAsked(live, allow, f, i, Settled(live, allow, f)[i]) {
      if i >= n { assert Raises(live[n - 1], allow, f); }
    }
  }

  // --- the record ---

  /** Whether keeping is undone: the episode is not completed, and then nothing is to be left. */
  predicate Undoes(v: Verdict, teardown: Option<nat>, recording: Recording, destroyFailed: bool) {
    destroyFailed && !(v.status.Completed? && teardown.None? && recording.Recorded?)
  }

  /** The record tells `v`. */
  predicate Tells(r: ResultRecord, v: Verdict) {
    r.status == v.status && r.rewards == v.rewards && r.failure == v.failure
  }

  /** The record tells of `failure`, which is the platform's. */
  predicate Blames(r: ResultRecord, failure: Failure) {
    r.status.EnvError? && r.rewards.None? && r.failure == Some(failure)
  }

  /** What the record says of the verdict `v`: a sandbox that could not be destroyed takes a completed
      verdict's place only, a recording that failed takes any other's, and undoing that failed takes all. */
  ghost predicate Told(
    r: ResultRecord, v: Verdict, teardown: Option<nat>, recording: Recording, undo: Option<nat>)
  {
    if undo.Some? then Blames(r, Teardown(undo.value))
    else match recording
      case Recorded(_) =>
        if v.status.Completed? && teardown.Some? then Blames(r, Teardown(teardown.value)) else Tells(r, v)
      case NotBuilt(error) => Blames(r, Unrecorded(error))
      case NotWritten(error) => Blames(r, Unrecorded(error))
  }

  /** Write the outcomes down. What goes wrong takes the verdict's place. */
  method RecordOutcomes(verdict: Verdict, problem: Option<nat>, recording: Recording, outcomes: seq<Outcome>)
    returns (v: Verdict, lock: Option<seq<Outcome>>)
    requires Consistent(verdict)
    ensures Consistent(v)
    ensures Told(ResultRecord(v.status, v.rewards, v.failure, outcomes), verdict, problem, recording, None)
    ensures lock == if recording == Recorded(true) || recording.NotWritten? then Some(outcomes) else None
  {
    v, lock := verdict, None;
    if problem.Some? && v.status.Completed? {
      v := FailedVerdict(EnvError, Teardown(problem.value));
    }
    match recording {
      case Recorded(wanted) =>
        if wanted { lock := Some(outcomes); }
      case NotBuilt(error) =>
        v := FailedVerdict(EnvError, Unrecorded(error));
      case NotWritten(error) =>
        lock := Some(outcomes);
        v := FailedVerdict(EnvError, Unrecorded(error));
    }
  }

  /** The part of `run_episode` after the protocol returned `verdict`. `early` are the faults before
      recording, `late` those of undoing retention. */
  method FinishEpisode(lease: Lease, verdict: Verdict, destroyFailed: bool,
                       early: Faults, recording: Recording, late: Faults)
      returns (end: Ending)
    requires lease.Valid() && lease.retained == [] && Consistent(verdict)
    modifies lease
    // every sandbox has exactly one outcome, and the record and the lock tell the same
    ensures lease.Valid() && lease.live == [] && lease.leased == old(lease.leased)
    ensures multiset(Subjects(lease.outcomes)) == multiset(lease.leased)
    ensures end.record.sandboxes == lease.outcomes
    ensures end.lockOutcomes ==
      if recording == Recorded(true) || recording.NotWritten? then Some(lease.outcomes) else None
    // the record is consistent, and tells the verdict or what went wrong after it
    ensures Terminal(end.record)
    ensures var allow := MayKeep(verdict, destroyFailed);
      var teardown := FirstRaised(old(lease.live), allow, early);
      var decided := old(lease.outcomes) + Settled(old(lease.live), allow, early);
      if Undoes(verdict, teardown, recording, destroyFailed) then
           && Told(end.record, verdict, teardown, recording, FirstUndoRaised(KeptOnly(decided), late))
           && lease.outcomes == GoneOnly(decided) + AllUndone(KeptOnly(decided))
         else Told(end.record, verdict, teardown, recording, None) && lease.outcomes == decided
    ensures end.record.status.Completed? <==>
      && verdict.status.Completed? && recording.Recorded?
      && FirstRaised(old(lease.live), MayKeep(verdict, destroyFailed), early).None?
    // what stays behind
    ensures verdict.status.Timeout? ==> KeptOnly(lease.outcomes) == []
    ensures destroyFailed && !end.record.status.Completed? ==> KeptOnly(lease.outcomes) == []
    ensures forall o :: o in lease.outcomes && Kept(o) ==> exists e :: e in old(lease.live) && Earned((e, o))
  {
    var v;
    var allow := !verdict.status.Timeout? && (verdict.status.Completed? || !destroyFailed);
    var problem := CloseSandboxes(lease, allow, early);
    var lock;
    v, lock := RecordOutcomes(verdict, problem, recording, lease.outcomes);

    if destroyFailed && !v.status.Completed? {
      var undo := lease.DestroyRetained(late);
      if undo.Some? {
        v := FailedVerdict(EnvError, Teardown(undo.value));
      }
      if lock.Some? { lock := Some(lease.outcomes); }
      KeptAreListed(lease.outcomes);
    }
    end := Ending(ResultRecord(v.status, v.rewards, v.failure, lease.outcomes), lock);
  }

  /** Every leased sandbox that was still live: as far as finalization gets, then destroyed. */
  function Settled(live: seq<Entry>, allow: bool, f: Faults): seq<Outcome> {
    Decided(live, allow, f) + Fates(Beyond(live, allow, f), false, f)
  }

  lemma {:induction false} KeptAreListed(os: seq<Outcome>)
    ensures forall o :: o in os && Kept(o) ==> o in KeptOnly(os)
  {
    if |os| > 0 { KeptAreListed(os[1..]); }
  }

  lemma {:induction false} NoneKept(os: seq<Outcome>)
    requires forall o :: o in os ==> !Kept(o)
    ensures KeptOnly(os) == []
  {
    if |os| > 0 { NoneKept(os[1..]); }
  }

  lemma {:induction false} WhatIsKept(before: seq<Outcome>, live: seq<Entry>, allow: bool, f: Faults)
    requires KeptOnly(before) == []
    ensures forall o :: o in before + Settled(live, allow, f) && Kept(o) ==>
      allow && exists e :: e in live && Earned((e, o))
    ensures !allow ==> KeptOnly(before + Settled(live, allow, f)) == []
  {
    KeptAreListed(before);
    forall o | o in before + Settled(live, allow, f) && Kept(o)
      ensures allow && exists e :: e in live && Earned((e, o))
    {
      assert o in Fates(live, allow, f);
      var i :| 0 <= i < |live| && o == OutcomeOf(live[i], FateOf(live[i], allow, f));
      assert live[i] in live && Earned((live[i], o));
    }
    if !allow { NoneKept(before + Settled(live, allow, f)); }
  }

  // --- retries ---

  /** Outcomes another attempt must not replace. */
  predicate Final(s: Status) {
    s.Completed? || s.Timeout? || s.BudgetExceeded? || s.Refused?
  }

  predicate VerifierFault(errorClass: string) {
    errorClass in {"VerificationInfrastructureError", "VerificationConfigurationError",
                   "VerificationProviderError", "VerificationAdapterError", "VerificationVerdictError"}
  }

  predicate Stands(r: ResultRecord) {
    Final(r.status) || (r.failure.Some? && VerifierFault(r.failure.value.errorClass))
  }

  /** Statuses that do not measure the agent against its limits. */
  predicate Repeatable(s: Status) { s.AgentError? || s.EnvError? || s.TaskError? || s.CancelledRun? }

  /** A score, a limit or a refusal that was recorded, and after which nothing failed, stands. */
  lemma {:induction false} MeasuredResultsStand(
    r: ResultRecord, v: Verdict, teardown: Option<nat>, recording: Recording)
    requires Told(r, v, teardown, recording, None) && recording.Recorded?
    requires !Repeatable(v.status) && (v.status.Completed? ==> teardown.None?)
    ensures Tells(r, v) && Stands(r)
  {}

  const VERIFIER_PARTS: seq<string> := ["Infrastructure", "Configuration", "Provider", "Adapter", "Verdict"]

  predicate VerificationFailed(errorClass: string) {
    exists k :: 0 <= k < |VERIFIER_PARTS| && errorClass == "Verification" + VERIFIER_PARTS[k] + "Error"
  }

  /** A failure of verification, whatever its status, stands too. */
  lemma {:induction false} VerificationFailuresStand(r: ResultRecord)
    ensures Stands(r) <==>
      !Repeatable(r.status) || (r.failure.Some? && VerificationFailed(r.failure.value.errorClass))
  {
    assert "Verification" + VERIFIER_PARTS[0] + "Error" == "VerificationInfrastructureError";
    assert "Verification" + VERIFIER_PARTS[1] + "Error" == "VerificationConfigurationError";
    assert "Verification" + VERIFIER_PARTS[2] + "Error" == "VerificationProviderError";
    assert "Verification" + VERIFIER_PARTS[3] + "Error" == "VerificationAdapterError";
    assert "Verification" + VERIFIER_PARTS[4] + "Error" == "VerificationVerdictError";
  }

  /** Run an episode again while its failure is the platform's, at most `retries` times more. What an
      attempt wrote is moved, whole, into the archive numbered after it. */
  method RunWithRetries(execute: nat -> ResultRecord, retries: nat)
      returns (result: ResultRecord, archives: seq<ResultRecord>)
    ensures |archives| <= retries
    ensures forall i :: 0 <= i < |archives| ==> archives[i] == execute(i) && !Stands(archives[i])
    ensures forall i :: 0 <= i < |archives| ==> Repeatable(archives[i].status)
    ensures !Repeatable(result.status) || |archives| == retries || result.failure.Some?
    ensures result == execute(|archives|)
    ensures Stands(result) || |archives| == retries
  {
    archives := [];
    var attempt := 0;
    while true
      invariant 0 <= attempt <= retries && |archives| == attempt
      invariant forall i :: 0 <= i < attempt ==> archives[i] == execute(i) && !Stands(archives[i])
      decreases retries - attempt
    {
      result := execute(attempt);
      if Final(result.status) || attempt == retries
         || (result.failure.Some? && VerifierFault(result.failure.value.errorClass)) {
        return;
      }
      archives := archives + [result];
      attempt := attempt + 1;
    }
  }
}
