/** The sandboxes an episode leases, and what becomes of each: destroyed, retained, saved as a
    snapshot, or destroyed because retention failed. Any destroy, retain or snapshot may raise. */
module Lease {
  import opened Wrappers

  datatype Policy = Destroy | Keep | Snapshot

  datatype Role = Solver | Verifier | Shared

  datatype Sanitation = NotRun | Succeeded | Unsanitary

  datatype Fate = Destroyed | Retained | Snapshotted | RetentionFailed

  datatype Retention = Retention(solver: Policy, verifier: Policy)

  /** A sandbox object is named by a number; leasing one yields an object not leased before. */
  datatype Entry = Entry(sandbox: nat, role: Role, requested: Policy, sanitation: Sanitation)

  /** `sandbox` says which sandbox the outcome is about; the written record does not hold it. */
  datatype Outcome = Outcome(sandbox: nat, role: Role, requested: Policy, fate: Fate, handle: Option<nat>)

  /** The sandboxes whose operation raises. `discard` deletes a snapshot. */
  datatype Faults = Faults(destroy: set<nat>, retain: set<nat>, snapshot: set<nat>, discard: set<nat>)

  predicate Kept(o: Outcome) { o.fate.Retained? || o.fate.Snapshotted? }

  /** The solver's policy wins over the verifier's for a sandbox they share, unless it is destroy. */
  function PolicyFor(role: Role, retention: Retention): Policy {
    match role
    case Shared => if retention.solver.Destroy? then retention.verifier else retention.solver
    case Verifier => retention.verifier
    case Solver => retention.solver
  }

  /** A sandbox of one role is treated as asked for that role; a shared one goes only if both sides want it
      to, and otherwise the solver is heard first. */
  lemma {:induction false} PolicyIsAskedFor(r: Retention, other: Policy)
    ensures PolicyFor(Solver, r) == PolicyFor(Solver, r.(verifier := other)) == r.solver
    ensures PolicyFor(Verifier, r) == PolicyFor(Verifier, r.(solver := other)) == r.verifier
    ensures PolicyFor(Shared, r).Destroy? <==> r.solver.Destroy? && r.verifier.Destroy?
    ensures !r.solver.Destroy? ==> PolicyFor(Shared, r) == r.solver
    ensures PolicyFor(Shared, r) in {r.solver, r.verifier}
  {}

  // --- sequences of entries and outcomes ---

  function Ids(es: seq<Entry>): seq<nat> {
    seq(|es|, i requires 0 <= i < |es| => es[i].sandbox)
  }

  function Subjects(os: seq<Outcome>): seq<nat> {
    seq(|os|, i requires 0 <= i < |os| => os[i].sandbox)
  }

  function Find(es: seq<Entry>, sandbox: nat): (e: Option<Entry>)
    ensures e.Some? ==> e.value in es && e.value.sandbox == sandbox
    ensures e.None? ==> forall i :: 0 <= i < |es| ==> es[i].sandbox != sandbox
  {
    if |es| == 0 then None else if es[0].sandbox == sandbox then Some(es[0]) else Find(es[1..], sandbox)
  }

  function Without(es: seq<Entry>, sandbox: nat): seq<Entry> {
    if |es| == 0 then [] else if es[0].sandbox == sandbox then es[1..] else [es[0]] + Without(es[1..], sandbox)
  }

  function Minus(os: seq<Outcome>, o: Outcome): seq<Outcome> {
    if |os| == 0 then [] else if os[0] == o then os[1..] else [os[0]] + Minus(os[1..], o)
  }

  function KeptOnly(os: seq<Outcome>): seq<Outcome> {
    if |os| == 0 then [] else (if Kept(os[0]) then [os[0]] else []) + KeptOnly(os[1..])
  }

  function GoneOnly(os: seq<Outcome>): seq<Outcome> {
    if |os| == 0 then [] else (if Kept(os[0]) then [] else [os[0]]) + GoneOnly(os[1..])
  }

  // --- what finalization decides for one entry ---

  function FateOf(e: Entry, allow: bool, f: Faults): Fate {
    if !allow || e.requested.Destroy? then Destroyed
    else if !e.sanitation.Succeeded? then RetentionFailed
    else if e.requested.Snapshot? then (if e.sandbox in f.snapshot then RetentionFailed else Snapshotted)
    else if e.sandbox in f.retain then RetentionFailed
    else Retained
  }

  function OutcomeOf(e: Entry, fate: Fate): Outcome {
    Outcome(e.sandbox, e.role, e.requested, fate,
            if fate.Retained? || fate.Snapshotted? then Some(e.sandbox) else None)
  }

  /** It was asked for, may be, is safe to keep, and keeping it does not raise. */
  predicate Deserves(e: Entry, allow: bool, f: Faults) {
    && allow && !e.requested.Destroy? && e.sanitation.Succeeded?
    && e.sandbox !in if e.requested.Snapshot? then f.snapshot else f.retain
  }

  /** Only a retained sandbox is left running, so any other one may fail to be destroyed. */
  predicate Raises(e: Entry, allow: bool, f: Faults) {
    !(Deserves(e, allow, f) && e.requested.Keep?) && e.sandbox in f.destroy
  }

  predicate NoneRaises(es: seq<Entry>, allow: bool, f: Faults) {
    forall i :: 0 <= i < |es| ==> !Raises(es[i], allow, f)
  }

  /** The first sandbox that cannot be destroyed. */
  function FirstRaised(es: seq<Entry>, allow: bool, f: Faults): (s: Option<nat>)
    ensures s.None? <==> NoneRaises(es, allow, f)
    ensures s.Some? ==> exists i :: 0 <= i < |es| && s.value == es[i].sandbox && FailsFirst(es, allow, f, i)
  {
    if |es| == 0 then None
    else if Raises(es[0], allow, f) then
      assert FailsFirst(es, allow, f, 0);
      Some(es[0].sandbox)
    else
      var s := FirstRaised(es[1..], allow, f);
      assert forall i :: 0 < i < |es| ==> es[i] == es[1..][i - 1];
      assert forall i :: 0 <= i < |es| - 1 && FailsFirst(es[1..], allow, f, i) ==> FailsFirst(es, allow, f, i + 1);
      s
  }

  predicate FailsFirst(es: seq<Entry>, allow: bool, f: Faults, i: nat)
    requires i < |es|
  {
    Raises(es[i], allow, f) && forall j :: 0 <= j < i ==> !Raises(es[j], allow, f)
  }

  function Fates(es: seq<Entry>, allow: bool, f: Faults): seq<Outcome> {
    seq(|es|, i requires 0 <= i < |es| => OutcomeOf(es[i], FateOf(es[i], allow, f)))
  }

  /** Finalization stops after the first sandbox it cannot destroy. */
  function Reached(es: seq<Entry>, allow: bool, f: Faults): (n: nat)
    ensures n <= |es|
    ensures forall i :: 0 <= i < n - 1 ==> !Raises(es[i], allow, f)
    ensures n < |es| ==> n > 0 && Raises(es[n - 1], allow, f)
  {
    if |es| == 0 then 0 else if Raises(es[0], allow, f) then 1 else 1 + Reached(es[1..], allow, f)
  }

  /** The outcomes finalization gets to, and the entries it does not. */
  function Decided(es: seq<Entry>, allow: bool, f: Faults): seq<Outcome> {
    Fates(es, allow, f)[..Reached(es, allow, f)]
  }

  function Beyond(es: seq<Entry>, allow: bool, f: Faults): seq<Entry> {
    es[Reached(es, allow, f)..]
  }

  function Or(s: Option<nat>, t: Option<nat>): Option<nat> { if s.Some? then s else t }

  function Undone(o: Outcome): Outcome { o.(fate := Destroyed, handle := None) }

  function AllUndone(os: seq<Outcome>): seq<Outcome> {
    if |os| == 0 then [] else [Undone(os[0])] + AllUndone(os[1..])
  }

  /** Undoing retention deletes a snapshot, or destroys the sandbox kept running. */
  predicate UndoRaises(o: Outcome, f: Faults) {
    if o.fate.Snapshotted? && o.handle.Some? then o.handle.value in f.discard else o.sandbox in f.destroy
  }

  /** Each leased sandbox is either live, once, or has exactly one outcome; what is kept was
      sanitized first and is remembered, in order, so that it can be undone. */
  ghost predicate Sound(live: seq<Entry>, outcomes: seq<Outcome>, retained: seq<(Entry, Outcome)>, leased: set<nat>) {
    && multiset(Ids(live)) + multiset(Subjects(outcomes)) == multiset(leased)
    && KeptOnly(outcomes) == Seconds(retained)
    && (forall r :: r in retained ==> Earned(r))
  }

  predicate NoUndoRaises(os: seq<Outcome>, f: Faults) {
    forall i :: 0 <= i < |os| ==> !UndoRaises(os[i], f)
  }

  predicate UndoFailsFirst(os: seq<Outcome>, f: Faults, i: nat)
    requires i < |os|
  {
    UndoRaises(os[i], f) && forall j :: 0 <= j < i ==> !UndoRaises(os[j], f)
  }

  /** The first sandbox whose keeping cannot be undone. */
  function FirstUndoRaised(os: seq<Outcome>, f: Faults): (s: Option<nat>)
    ensures s.None? <==> NoUndoRaises(os, f)
    ensures s.Some? ==> exists i :: 0 <= i < |os| && s.value == os[i].sandbox && UndoFailsFirst(os, f, i)
  {
    if |os| == 0 then None
    else if UndoRaises(os[0], f) then
      assert UndoFailsFirst(os, f, 0);
      Some(os[0].sandbox)
    else
      var s := FirstUndoRaised(os[1..], f);
      assert forall i :: 0 < i < |os| ==> os[i] == os[1..][i - 1];
      assert forall i :: 0 <= i < |os| - 1 && UndoFailsFirst(os[1..], f, i) ==> UndoFailsFirst(os, f, i + 1);
      s
  }

  // --- the lease ---

  class Lease {
    const retention: Retention
    var live: seq<Entry>
    var outcomes: seq<Outcome>
    var retained: seq<(Entry, Outcome)>
    /** Every sandbox ever leased. */
    ghost var leased: set<nat>

    ghost predicate Valid()
      reads this
    {
      Sound(live, outcomes, retained, leased)
    }

    constructor (retention: Retention)
      ensures Valid() && live == [] && outcomes == [] && retained == [] && leased == {}
    {
      this.retention := retention;
      live, outcomes, retained, leased := [], [], [], {};
    }

    /** `acquire` and `adopt` differ only in where the sandbox comes from. */
    method Acquire(role: Role, created: Result<nat, nat>) returns (r: Result<nat, nat>)
      requires Valid()
      requires created.Ok? ==> created.value !in leased
      modifies this`live, this`leased
      ensures Valid() && r == created
      ensures created.Err? ==> live == old(live) && leased == old(leased)
      ensures created.Ok? ==>
        && live == old(live) + [Entry(created.value, role, PolicyFor(role, retention), NotRun)]
        && leased == old(leased) + {created.value}
    {
      r := created;
      if created.Ok? {
        var policy := PolicyFor(role, retention);
        live := live + [Entry(created.value, role, policy, NotRun)];
        leased := leased + {created.value};
        assert Ids(live) == Ids(old(live)) + [created.value];
        assert multiset(leased) == multiset(old(leased)) + multiset{created.value};
      }
    }

    method MarkSanitized(sandbox: nat, succeeded: bool)
      requires Valid()
      modifies this`live
      ensures Valid() && |live| == |old(live)|
      ensures forall i :: 0 <= i < |live| ==>
        live[i] == if old(live)[i].sandbox == sandbox
                   then old(live)[i].(sanitation := if succeeded then Succeeded else Unsanitary)
                   else old(live)[i]
    {
      var i := 0;
      while i < |live| && live[i].sandbox != sandbox
        invariant 0 <= i <= |live|
        invariant forall j :: 0 <= j < i ==> live[j].sandbox != sandbox
      {
        i := i + 1;
      }
      if i < |live| {
        LiveOnce(live, outcomes, leased, i);
        live := live[i := live[i].(sanitation := if succeeded then Succeeded else Unsanitary)];
        assert Ids(live) == Ids(old(live));
      }
    }

    /** Destroy an entry's sandbox, recording `fate` unless an outcome is recorded already. */
    method DestroyEntry(e: Entry, fate: Option<Fate>, f: Faults) returns (failure: Option<nat>)
      modifies this`live, this`outcomes
      ensures live == Without(old(live), e.sandbox)
      ensures outcomes == old(outcomes) + (if fate.Some? then [OutcomeOf(e, fate.value)] else [])
      ensures failure == if e.sandbox in f.destroy then Some(e.sandbox) else None
    {
      failure := if e.sandbox in f.destroy then Some(e.sandbox) else None;
      live := Without(live, e.sandbox);
      if fate.Some? {
        outcomes := outcomes + [OutcomeOf(e, fate.value)];
      }
    }

    /** A sandbox that is to be kept, and was sanitized, stays live; any other one is destroyed. */
    method Release(sandbox: nat, f: Faults) returns (failure: Option<nat>)
      requires Valid()
      modifies this`live, this`outcomes
      ensures Valid() && leased == old(leased) && retained == old(retained)
      ensures var e := Find(old(live), sandbox);
        if e.None? || (!e.value.requested.Destroy? && e.value.sanitation.Succeeded?) then
          live == old(live) && outcomes == old(outcomes) && failure.None?
        else
          && live == Without(old(live), sandbox)
          && outcomes == old(outcomes)
               + [OutcomeOf(e.value, if e.value.requested.Destroy? then Destroyed else RetentionFailed)]
          && failure == (if sandbox in f.destroy then Some(sandbox) else None)
    {
      var entry := Find(live, sandbox);
      if entry.None? { return None; }
      var e := entry.value;
      if !e.requested.Destroy? && e.sanitation.Succeeded? { return None; }
      ghost var i := PositionOf(live, e);
      failure := DestroyEntry(e, Some(if e.requested.Destroy? then Destroyed else RetentionFailed), f);
      LiveOnce(old(live), old(outcomes), leased, i);
      WithoutAt(old(live), i);
      GoneOutcomeKeepsNothing(old(outcomes), outcomes[|old(outcomes)|]);
      OneMovesToOutcomes(old(live), i, old(outcomes), outcomes[|old(outcomes)|]);
    }

    /** Decide the first live entry: keep it if it may be kept, destroy it otherwise. */
    method FinalizeFirst(allow: bool, f: Faults) returns (failure: Option<nat>)
      requires Valid() && |live| > 0
      modifies this`live, this`outcomes, this`retained
      ensures Valid() && leased == old(leased)
      ensures var e := old(live)[0];
        && live == old(live)[1..]
        && outcomes == old(outcomes) + [OutcomeOf(e, FateOf(e, allow, f))]
        && failure == (if Raises(e, allow, f) then Some(e.sandbox) else None)
    {
      var e := live[0];
      ghost var o := OutcomeOf(e, FateOf(e, allow, f));
      FirstEntrySettles(live, outcomes, retained, leased, o);
      if !allow || e.requested.Destroy? || !e.sanitation.Succeeded? {
        failure := DestroyEntry(e, Some(if !allow || e.requested.Destroy? then Destroyed else RetentionFailed), f);
      } else if if e.requested.Snapshot? then e.sandbox in f.snapshot else e.sandbox in f.retain {
        failure := DestroyEntry(e, Some(RetentionFailed), f);
      } else {
        var outcome := OutcomeOf(e, if e.requested.Snapshot? then Snapshotted else Retained);
        outcomes := outcomes + [outcome];
        retained := retained + [(e, outcome)];
        if e.requested.Snapshot? {
          failure := DestroyEntry(e, None, f);
        } else {
          failure := None;
          live := Without(live, e.sandbox);
        }
      }
      assert outcomes == old(outcomes) + [o];
    }

    /** Keep what may be kept and destroy the rest, in order, until a sandbox cannot be destroyed. */
    method Finalize(allow: bool, f: Faults) returns (failure: Option<nat>)
      requires Valid()
      modifies this`live, this`outcomes, this`retained
      ensures Valid() && leased == old(leased)
      ensures live == Beyond(old(live), allow, f)
      ensures outcomes == old(outcomes) + Decided(old(live), allow, f)
      ensures failure == FirstRaised(old(live), allow, f)
    {
      while |live| > 0
        invariant Valid() && leased == old(leased)
        invariant Beyond(live, allow, f) == Beyond(old(live), allow, f)
        invariant outcomes + Decided(live, allow, f) == old(outcomes) + Decided(old(live), allow, f)
        invariant FirstRaised(live, allow, f) == FirstRaised(old(live), allow, f)
        decreases |live|
      {
        DecideFirst(live, outcomes, allow, f);
        failure := FinalizeFirst(allow, f);
        if failure.Some? { return; }
      }
      return None;
    }

    /** Destroy whatever is left, every one of it, and report the first failure. */
    method ReleaseAll(f: Faults) returns (failure: Option<nat>)
      requires Valid()
      modifies this`live, this`outcomes
      ensures Valid() && leased == old(leased) && retained == old(retained)
      ensures live == []
      ensures outcomes == old(outcomes) + Fates(old(live), false, f)
      ensures failure == FirstRaised(old(live), false, f)
    {
      failure := None;
      while |live| > 0
        invariant Valid() && leased == old(leased) && retained == old(retained)
        invariant outcomes + Fates(live, false, f) == old(outcomes) + Fates(old(live), false, f)
        invariant Or(failure, FirstRaised(live, false, f)) == FirstRaised(old(live), false, f)
        decreases |live|
      {
        var raised := DestroyFirst(f);
        failure := if failure.Some? then failure else raised;
      }
    }

    method DestroyFirst(f: Faults) returns (failure: Option<nat>)
      requires Valid() && |live| > 0
      modifies this`live, this`outcomes
      ensures Valid() && live == old(live)[1..]
      ensures outcomes + Fates(live, false, f) == old(outcomes) + Fates(old(live), false, f)
      ensures Or(failure, FirstRaised(live, false, f)) == FirstRaised(old(live), false, f)
    {
      var e := live[0];
      FatesFirst(live, outcomes, false, f);
      FirstEntrySettles(live, outcomes, retained, leased, OutcomeOf(e, Destroyed));
      failure := DestroyEntry(e, Some(Destroyed), f);
    }

    /** The retentions from `i` on still stand; the others of `was` are undone. */
    ghost predicate Standing(was: seq<Outcome>, i: nat)
      requires i <= |retained|
      reads this
    {
      && multiset(Subjects(outcomes)) == multiset(leased)
      && KeptOnly(outcomes) == Seconds(retained)[i..]
      && GoneOnly(outcomes) + AllUndone(KeptOnly(outcomes)) == GoneOnly(was) + AllUndone(KeptOnly(was))
    }

    method UndoNext(i: nat, f: Faults, ghost was: seq<Outcome>) returns (failure: Option<nat>)
      requires i < |retained| && live == [] && Earned(retained[i]) && Standing(was, i)
      modifies this`live, this`outcomes
      ensures live == [] && Standing(was, i + 1)
      ensures Or(failure, FirstUndoRaised(KeptOnly(outcomes), f)) == FirstUndoRaised(KeptOnly(old(outcomes)), f)
    {
      NextRetention(retained, i);
      failure := Undo(retained[i], f);
    }

    /** Undo the retentions one by one. */
    method UndoAll(f: Faults) returns (failure: Option<nat>)
      requires Valid() && live == []
      modifies this`live, this`outcomes
      ensures live == [] && Standing(old(outcomes), |retained|)
      ensures Or(failure, FirstUndoRaised(KeptOnly(outcomes), f)) == FirstUndoRaised(KeptOnly(old(outcomes)), f)
    {
      failure := None;
      var i := 0;
      while i < |retained|
        invariant 0 <= i <= |retained| && live == [] && Standing(old(outcomes), i)
        invariant Or(failure, FirstUndoRaised(KeptOnly(outcomes), f)) == FirstUndoRaised(KeptOnly(old(outcomes)), f)
      {
        assert retained[i] in retained;
        var raised := UndoNext(i, f, old(outcomes));
        failure := if failure.Some? then failure else raised;
        i := i + 1;
      }
    }

    /** Undo every retention: nothing stays kept, and the outcomes of the others do not change. */
    method DestroyRetained(f: Faults) returns (failure: Option<nat>)
      requires Valid() && live == []
      modifies this`live, this`outcomes, this`retained
      ensures Valid() && leased == old(leased) && live == [] && retained == []
      ensures outcomes == GoneOnly(old(outcomes)) + AllUndone(KeptOnly(old(outcomes)))
      ensures failure == FirstUndoRaised(KeptOnly(old(outcomes)), f)
    {
      failure := UndoAll(f);
      assert Seconds(retained)[|retained|..] == [];
      NothingKept(outcomes);
      retained := [];
    }

    /** Undo the first retention that is still standing. */
    method Undo(r: (Entry, Outcome), f: Faults) returns (failure: Option<nat>)
      requires live == [] && Earned(r) && |KeptOnly(outcomes)| > 0 && r.1 == KeptOnly(outcomes)[0]
      modifies this`live, this`outcomes
      ensures live == []
      ensures KeptOnly(outcomes) == KeptOnly(old(outcomes))[1..]
      ensures GoneOnly(outcomes) + AllUndone(KeptOnly(outcomes))
           == GoneOnly(old(outcomes)) + AllUndone(KeptOnly(old(outcomes)))
      ensures multiset(Subjects(outcomes)) == multiset(Subjects(old(outcomes)))
      ensures failure == if UndoRaises(r.1, f) then Some(r.1.sandbox) else None
    {
      var (entry, outcome) := r;
      KeptAreOutcomes(outcomes);
      UndoKeepsSubjects(outcomes, outcome);
      UndoFirstKept(outcomes, outcome);
      outcomes := Minus(outcomes, outcome);
      if outcome.fate.Snapshotted? && outcome.handle.Some? {
        failure := DestroySnapshot(entry, outcome.handle.value, f);
      } else {
        failure := DestroyEntry(entry, Some(Destroyed), f);
      }
      assert outcomes == Minus(old(outcomes), outcome) + [Undone(outcome)];
    }

    /** The outcome is recorded whether or not the provider could delete the snapshot. */
    method DestroySnapshot(entry: Entry, handle: nat, f: Faults) returns (failure: Option<nat>)
      modifies this`outcomes
      ensures outcomes == old(outcomes) + [OutcomeOf(entry, Destroyed)]
      ensures failure == if handle in f.discard then Some(entry.sandbox) else None
    {
      failure := if handle in f.discard then Some(entry.sandbox) else None;
      outcomes := outcomes + [OutcomeOf(entry, Destroyed)];
    }
  }

  function Seconds(rs: seq<(Entry, Outcome)>): seq<Outcome> {
    seq(|rs|, i requires 0 <= i < |rs| => rs[i].1)
  }

  lemma {:induction false} NextRetention(rs: seq<(Entry, Outcome)>, i: nat)
    requires i < |rs|
    ensures |Seconds(rs)[i..]| > 0 && Seconds(rs)[i..][0] == rs[i].1 && Seconds(rs)[i..][1..] == Seconds(rs)[i + 1..]
  {}

  predicate Earned(r: (Entry, Outcome)) {
    && r.0.sanitation.Succeeded? && !r.0.requested.Destroy?
    && r.1 == OutcomeOf(r.0, if r.0.requested.Snapshot? then Snapshotted else Retained)
  }

  // --- facts about the sequences ---

  lemma {:induction false} WithoutAt(es: seq<Entry>, i: nat)
    requires i < |es|
    requires forall j :: 0 <= j < i ==> es[j].sandbox != es[i].sandbox
    ensures Without(es, es[i].sandbox) == es[..i] + es[i + 1..]
  {
    if i > 0 { WithoutAt(es[1..], i - 1); }
  }

  lemma {:induction false} PositionOf(es: seq<Entry>, e: Entry) returns (i: nat)
    requires e in es
    ensures i < |es| && es[i] == e
  {
    i :| 0 <= i < |es| && es[i] == e;
  }

  lemma {:induction false} GoneOutcomeKeepsNothing(os: seq<Outcome>, o: Outcome)
    ensures KeptOnly(os + [o]) == KeptOnly(os) + if Kept(o) then [o] else []
  {
    if |os| == 0 {
      assert os + [o] == [o];
    } else {
      assert (os + [o])[1..] == os[1..] + [o];
      GoneOutcomeKeepsNothing(os[1..], o);
      Regroup(if Kept(os[0]) then [os[0]] else [], KeptOnly(os[1..]), if Kept(o) then [o] else []);
    }
  }

  lemma {:induction false} Regroup(a: seq<Outcome>, b: seq<Outcome>, c: seq<Outcome>)
    ensures (a + b) + c == a + (b + c)
  {}

  /** An entry leaves the live ones as its outcome joins the recorded ones. */
  lemma {:induction false} OneMovesToOutcomes(live: seq<Entry>, i: nat, outcomes: seq<Outcome>, o: Outcome)
    requires i < |live| && o.sandbox == live[i].sandbox
    ensures multiset(Ids(live)) + multiset(Subjects(outcomes))
         == multiset(Ids(live[..i] + live[i + 1..])) + multiset(Subjects(outcomes + [o]))
  {
    assert Subjects(outcomes + [o]) == Subjects(outcomes) + [o.sandbox];
    assert Ids(live[..i] + live[i + 1..]) == Ids(live)[..i] + Ids(live)[i + 1..];
    assert Ids(live) == Ids(live)[..i] + [o.sandbox] + Ids(live)[i + 1..];
  }

  lemma {:induction false} NoRepeats(ids: seq<nat>, others: seq<nat>, leased: set<nat>, i: nat, j: nat)
    requires multiset(ids) + multiset(others) == multiset(leased) && i < j < |ids|
    ensures ids[i] != ids[j]
  {
    assert ids == ids[..i] + [ids[i]] + ids[i + 1..j] + [ids[j]] + ids[j + 1..];
    assert multiset(ids)[ids[i]] <= multiset(leased)[ids[i]];
  }

  lemma {:induction false} LiveOnce(live: seq<Entry>, outcomes: seq<Outcome>, leased: set<nat>, i: nat)
    requires multiset(Ids(live)) + multiset(Subjects(outcomes)) == multiset(leased) && i < |live|
    ensures forall j :: 0 <= j < |live| && j != i ==> live[j].sandbox != live[i].sandbox
  {
    forall j | 0 <= j < |live| && j != i ensures live[j].sandbox != live[i].sandbox {
      NoRepeats(Ids(live), Subjects(outcomes), leased, if i < j then i else j, if i < j then j else i);
    }
  }

  /** Settling the first live entry keeps the lease sound. */
  lemma {:induction false} FirstEntrySettles(
    live: seq<Entry>, outcomes: seq<Outcome>, retained: seq<(Entry, Outcome)>, leased: set<nat>, o: Outcome)
    requires Sound(live, outcomes, retained, leased) && |live| > 0 && o.sandbox == live[0].sandbox
    ensures Without(live, live[0].sandbox) == live[1..]
    ensures !Kept(o) ==> Sound(live[1..], outcomes + [o], retained, leased)
    ensures Kept(o) && Earned((live[0], o)) ==> Sound(live[1..], outcomes + [o], retained + [(live[0], o)], leased)
  {
    assert live[..0] + live[1..] == live[1..];
    OneMovesToOutcomes(live, 0, outcomes, o);
    GoneOutcomeKeepsNothing(outcomes, o);
    assert Seconds(retained + [(live[0], o)]) == Seconds(retained) + [o];
  }

  lemma {:induction false} FatesFirst(es: seq<Entry>, outcomes: seq<Outcome>, allow: bool, f: Faults)
    requires |es| > 0
    ensures var o := OutcomeOf(es[0], FateOf(es[0], allow, f));
      && Fates(es, allow, f) == [o] + Fates(es[1..], allow, f)
      && (outcomes + [o]) + Fates(es[1..], allow, f) == outcomes + Fates(es, allow, f)
  {
    var o := OutcomeOf(es[0], FateOf(es[0], allow, f));
    assert Fates(es, allow, f) == [o] + Fates(es[1..], allow, f);
  }

  lemma {:induction false} DecideFirst(es: seq<Entry>, outcomes: seq<Outcome>, allow: bool, f: Faults)
    requires |es| > 0
    ensures var o := OutcomeOf(es[0], FateOf(es[0], allow, f));
      if Raises(es[0], allow, f) then
        && Decided(es, allow, f) == [o] && Beyond(es, allow, f) == es[1..]
        && FirstRaised(es, allow, f) == Some(es[0].sandbox)
      else
        && (outcomes + [o]) + Decided(es[1..], allow, f) == outcomes + Decided(es, allow, f)
        && Beyond(es[1..], allow, f) == Beyond(es, allow, f)
        && FirstRaised(es, allow, f) == FirstRaised(es[1..], allow, f)
  {
    FatesFirst(es, outcomes, allow, f);
    var o := OutcomeOf(es[0], FateOf(es[0], allow, f));
    if Raises(es[0], allow, f) {
      assert ([o] + Fates(es[1..], allow, f))[..1] == [o];
    } else {
      var n := Reached(es[1..], allow, f);
      assert ([o] + Fates(es[1..], allow, f))[..n + 1] == [o] + Fates(es[1..], allow, f)[..n];
    }
  }

  lemma {:induction false} NothingKept(os: seq<Outcome>)
    requires KeptOnly(os) == []
    ensures GoneOnly(os) == os
  {
    if |os| > 0 { NothingKept(os[1..]); }
  }

  lemma {:induction false} GoneOnlyAppend(os: seq<Outcome>, o: Outcome)
    requires !Kept(o)
    ensures GoneOnly(os + [o]) == GoneOnly(os) + [o]
  {
    if |os| == 0 {
      assert os + [o] == [o];
    } else {
      assert (os + [o])[1..] == os[1..] + [o];
      GoneOnlyAppend(os[1..], o);
    }
  }

  lemma {:induction false} FirstKept(os: seq<Outcome>)
    requires |KeptOnly(os)| > 0
    ensures Kept(KeptOnly(os)[0])
    ensures !Kept(os[0]) ==> KeptOnly(os) == KeptOnly(os[1..])
    ensures Kept(os[0]) ==> KeptOnly(os) == [os[0]] + KeptOnly(os[1..])
  {
    if !Kept(os[0]) { FirstKept(os[1..]); }
  }

  lemma {:induction false} MinusFirstKept(os: seq<Outcome>, o: Outcome)
    requires |KeptOnly(os)| > 0 && o == KeptOnly(os)[0]
    ensures KeptOnly(Minus(os, o)) == KeptOnly(os)[1..]
    ensures GoneOnly(Minus(os, o)) == GoneOnly(os)
  {
    FirstKept(os);
    if !Kept(os[0]) {
      MinusFirstKept(os[1..], o);
      var less := Minus(os[1..], o);
      assert Minus(os, o) == [os[0]] + less && ([os[0]] + less)[1..] == less;
    }
  }

  lemma {:induction false} MinusTakesOne(os: seq<Outcome>, o: Outcome)
    requires o in os
    ensures multiset(Subjects(Minus(os, o))) + multiset{o.sandbox} == multiset(Subjects(os))
  {
    assert Subjects(os) == [os[0].sandbox] + Subjects(os[1..]);
    if os[0] != o {
      MinusTakesOne(os[1..], o);
      assert Subjects([os[0]] + Minus(os[1..], o)) == [os[0].sandbox] + Subjects(Minus(os[1..], o));
    }
  }

  lemma {:induction false} KeptAreOutcomes(os: seq<Outcome>)
    ensures forall i :: 0 <= i < |KeptOnly(os)| ==> KeptOnly(os)[i] in os
  {
    if |os| > 0 { KeptAreOutcomes(os[1..]); }
  }

  /** One undone retention: its outcome is replaced at the end by a destroyed one. */
  lemma {:induction false} UndoFirstKept(os: seq<Outcome>, o: Outcome)
    requires |KeptOnly(os)| > 0 && o == KeptOnly(os)[0]
    ensures var os' := Minus(os, o) + [Undone(o)];
      && KeptOnly(os') == KeptOnly(os)[1..]
      && GoneOnly(os') + AllUndone(KeptOnly(os')) == GoneOnly(os) + AllUndone(KeptOnly(os))
  {
    MinusFirstKept(os, o);
    GoneOutcomeKeepsNothing(Minus(os, o), Undone(o));
    GoneOnlyAppend(Minus(os, o), Undone(o));
    Regroup(GoneOnly(os), [Undone(o)], AllUndone(KeptOnly(os)[1..]));
  }

  lemma {:induction false} UndoKeepsSubjects(os: seq<Outcome>, o: Outcome)
    requires o in os
    ensures multiset(Subjects(Minus(os, o) + [Undone(o)])) == multiset(Subjects(os))
  {
    MinusTakesOne(os, o);
    assert Subjects(Minus(os, o) + [Undone(o)]) == Subjects(Minus(os, o)) + [o.sandbox];
  }
}
