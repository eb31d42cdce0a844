/** Resumed invocations of one run, and crashes at any point, over the ledger and the result files
    that outlive them. Every invocation asks for the same number of episodes and reuses results. */
module LedgerRecovery {
  import opened Ledger

  /** Not running; bringing the rows before `next` in line with their files; or at work. */
  datatype Phase = Down | Reconciling(next: nat) | Up

  /** `jobs` are the episodes this process still has to finish, `owed` what it has still to queue. */
  datatype State = State(
    episodes: nat,
    rows: seq<Row>,
    files: Files,
    phase: Phase,
    jobs: set<EpisodeId>,
    counted: set<string>,
    owed: map<string, nat>,
    ran: seq<EpisodeId>)

  datatype Action =
    | Open
    | Reconcile
    | Begin
    | Count(identity: string)
    | Queue(identity: string, id: EpisodeId)
    | Start(id: EpisodeId)
    | WriteResult(id: EpisodeId, terminal: Terminal)
    | Archive(id: EpisodeId)
    | Finish(id: EpisodeId)
    | Drop(id: EpisodeId)
    | Crash

  predicate HasStatus(rows: seq<Row>, id: EpisodeId, status: Status) {
    exists i :: 0 <= i < |rows| && rows[i].id == id && rows[i].status == status
  }

  predicate Enabled(st: State, a: Action) {
    match a
    case Open => st.phase.Down?
    case Reconcile => st.phase.Reconciling? && st.phase.next < |st.rows|
    case Begin => st.phase.Reconciling? && st.phase.next >= |st.rows|
    case Count(x) => st.phase.Up? && x !in st.counted
    // a new episode id is one never used
    case Queue(x, id) => st.phase.Up? && x in st.owed && st.owed[x] > 0 && !Listed(st.rows, id) && id !in st.files
    case Start(id) => id in st.jobs && HasStatus(st.rows, id, Queued)
    // a completed attempt is the last one
    case WriteResult(id, _) =>
      id in st.jobs && HasStatus(st.rows, id, Running) && !(id in st.files && st.files[id].Completed?)
    case Archive(id) => id in st.jobs && id in st.files && !st.files[id].Completed?
    case Finish(id) => id in st.jobs && id in st.files
    case Drop(id) => id in st.jobs
    case Crash => true
  }

  function Owing(st: State, x: string): nat { if x in st.owed then st.owed[x] else 0 }

  function Next(st: State, a: Action): State
    requires Enabled(st, a)
  {
    match a
    case Open => st.(phase := Reconciling(0))
    case Reconcile =>
      var row := st.rows[st.phase.next];
      st.(phase := Reconciling(st.phase.next + 1),
          rows := if row.id in st.files then Update(st.rows, row.id, Over(st.files[row.id])) else st.rows)
    case Begin =>
      st.(phase := Up, rows := seq(|st.rows|, i requires 0 <= i < |st.rows| =>
        if Stale(st.rows[i].status) then st.rows[i].(status := Interrupted) else st.rows[i]))
    case Count(x) =>
      var done := Successes(st.rows, x);
      st.(counted := st.counted + {x}, owed := st.owed[x := if done < st.episodes then st.episodes - done else 0])
    case Queue(x, id) =>
      st.(rows := st.rows + [Row(id, x, Queued)], jobs := st.jobs + {id}, owed := st.owed[x := st.owed[x] - 1])
    case Start(id) => st.(rows := Update(st.rows, id, Running), ran := st.ran + [id])
    case WriteResult(id, terminal) => st.(files := st.files[id := terminal])
    case Archive(id) => st.(files := st.files - {id})
    case Finish(id) => st.(rows := Update(st.rows, id, Over(st.files[id])), jobs := st.jobs - {id})
    case Drop(id) => st.(jobs := st.jobs - {id})
    case Crash => st.(phase := Down, jobs := {}, counted := {}, owed := map[])
  }

  // --- runs ---

  ghost predicate Runs(st: State, actions: seq<Action>)
    decreases |actions|
  {
    |actions| == 0 || (Enabled(st, actions[0]) && Runs(Next(st, actions[0]), actions[1..]))
  }

  ghost function After(st: State, actions: seq<Action>): State
    requires Runs(st, actions)
    decreases |actions|
  {
    if |actions| == 0 then st else After(Next(st, actions[0]), actions[1..])
  }

  function Fresh(episodes: nat): State { State(episodes, [], map[], Down, {}, {}, map[], []) }

  // --- counting ---

  /** How many rows of an identity are among some episodes. */
  function Weigh(rows: seq<Row>, among: set<EpisodeId>, x: string): nat {
    if |rows| == 0 then 0
    else
      var row := rows[|rows| - 1];
      Weigh(rows[..|rows| - 1], among, x) + if row.identity == x && row.id in among then 1 else 0
  }

  function CompletedIds(files: Files): set<EpisodeId> { set id | id in files && files[id].Completed? }

  /** Episodes of an identity whose result file says completed. */
  function CompletedEpisodes(st: State, x: string): nat { Weigh(st.rows, CompletedIds(st.files), x) }

  lemma {:induction false} WeighGrows(rows: seq<Row>, fewer: set<EpisodeId>, more: set<EpisodeId>, x: string)
    requires fewer <= more
    ensures Weigh(rows, fewer, x) <= Weigh(rows, more, x)
  {
    if |rows| > 0 { WeighGrows(rows[..|rows| - 1], fewer, more, x); }
  }

  ghost predicate SameEpisodes(a: seq<Row>, b: seq<Row>) {
    |a| == |b| && forall i :: 0 <= i < |a| ==> a[i].id == b[i].id && a[i].identity == b[i].identity
  }

  lemma {:induction false} WeighIgnoresStatus(a: seq<Row>, b: seq<Row>, among: set<EpisodeId>, x: string)
    requires SameEpisodes(a, b)
    ensures Weigh(a, among, x) == Weigh(b, among, x)
  {
    if |a| > 0 { WeighIgnoresStatus(a[..|a| - 1], b[..|b| - 1], among, x); }
  }

  lemma {:induction false} WeighIgnoresOthers(rows: seq<Row>, among: set<EpisodeId>, id: EpisodeId, x: string)
    requires !Listed(rows, id)
    ensures Weigh(rows, among + {id}, x) == Weigh(rows, among, x)
  {
    if |rows| > 0 {
      var before := rows[..|rows| - 1];
      assert forall i :: 0 <= i < |before| ==> before[i] == rows[i];
      WeighIgnoresOthers(before, among, id, x);
    }
  }

  lemma {:induction false} WeighIsSuccesses(rows: seq<Row>, among: set<EpisodeId>, x: string)
    requires forall i :: 0 <= i < |rows| && rows[i].identity == x ==>
      (rows[i].id in among <==> rows[i].status == Over(Completed))
    ensures Weigh(rows, among, x) == Successes(rows, x)
  {
    if |rows| > 0 { WeighIsSuccesses(rows[..|rows| - 1], among, x); }
  }

  // --- the invariant ---

  function Active(st: State): set<EpisodeId> { st.jobs + CompletedIds(st.files) }

  /** Completed episodes, those under way and those to come never exceed what was asked for. */
  ghost predicate WithinPlan(st: State, x: string) {
    Weigh(st.rows, Active(st), x) + Owing(st, x) <= st.episodes
  }

  ghost predicate RowFits(st: State, i: nat)
    requires i < |st.rows|
  {
    var row := st.rows[i];
    && (row.status.Over? ==> row.id in st.files && st.files[row.id] == row.status.terminal)
    && (row.id in st.jobs ==> Stale(row.status) && row.identity in st.counted)
    && (row.id in st.ran ==> !row.status.Queued?)
    && (st.phase.Up? ==> (Stale(row.status) ==> row.identity in st.counted))
    && (row.id in CompletedIds(st.files) ==>
          match st.phase
          case Down => true
          case Reconciling(next) => i < next ==> row.status == Over(Completed)
          case Up => row.status == Over(Completed) || row.identity in st.counted)
  }

  ghost predicate Sound(st: State) {
    && UniqueIds(st.rows)
    && (forall i :: 0 <= i < |st.rows| ==> RowFits(st, i))
    && (forall id :: id in st.files || id in st.jobs || id in st.ran ==> Listed(st.rows, id))
    && st.owed.Keys <= st.counted
    && (!st.phase.Up? ==> st.jobs == {} && st.owed == map[] && st.counted == {})
    && (forall i, j :: 0 <= i < j < |st.ran| ==> st.ran[i] != st.ran[j])
  }

  lemma {:induction false} StepKeepsRow(st: State, a: Action, i: nat)
    requires Sound(st) && Enabled(st, a) && i < |Next(st, a).rows|
    ensures RowFits(Next(st, a), i)
  {
    if i < |st.rows| { assert RowFits(st, i); }
  }

  lemma {:induction false} StepKeepsIds(st: State, a: Action)
    requires Sound(st) && Enabled(st, a)
    ensures UniqueIds(Next(st, a).rows)
    ensures forall id :: Listed(st.rows, id) ==> Listed(Next(st, a).rows, id)
  {
    var st' := Next(st, a);
    forall id | Listed(st.rows, id) ensures Listed(st'.rows, id) {
      var i :| 0 <= i < |st.rows| && st.rows[i].id == id;
      assert st'.rows[i].id == id;
    }
  }

  lemma {:induction false} StepKeepsHistory(st: State, a: Action)
    requires Sound(st) && Enabled(st, a)
    ensures forall i, j :: 0 <= i < j < |Next(st, a).ran| ==> Next(st, a).ran[i] != Next(st, a).ran[j]
  {
    if a.Start? {
      var k :| 0 <= k < |st.rows| && st.rows[k].id == a.id && st.rows[k].status == Queued;
      assert RowFits(st, k);
    }
  }

  lemma {:induction false} StepKeepsSoundness(st: State, a: Action)
    requires Sound(st) && Enabled(st, a)
    ensures Sound(Next(st, a))
  {
    var st' := Next(st, a);
    forall i | 0 <= i < |st'.rows| ensures RowFits(st', i) { StepKeepsRow(st, a, i); }
    StepKeepsIds(st, a);
    StepKeepsHistory(st, a);
    if a.Queue? {
      assert st'.rows[|st.rows|].id == a.id;
    }
  }

  /** At the time of counting, what counts as done is exactly what has a completed result file. */
  lemma {:induction false} DoneIsCompleted(st: State, x: string)
    requires Sound(st) && st.phase.Up? && x !in st.counted
    ensures Successes(st.rows, x) == CompletedEpisodes(st, x) == Weigh(st.rows, Active(st), x)
  {
    forall i | 0 <= i < |st.rows| && st.rows[i].identity == x
      ensures st.rows[i].id in CompletedIds(st.files) <==> st.rows[i].status == Over(Completed)
      ensures st.rows[i].id in Active(st) <==> st.rows[i].status == Over(Completed)
    {
      assert RowFits(st, i);
    }
    WeighIsSuccesses(st.rows, CompletedIds(st.files), x);
    WeighIsSuccesses(st.rows, Active(st), x);
  }

  lemma {:induction false} StepKeepsPlan(st: State, a: Action, x: string)
    requires Sound(st) && Enabled(st, a) && WithinPlan(st, x)
    ensures WithinPlan(Next(st, a), x)
  {
    if a.Queue? {
      QueueKeepsPlan(st, a, x);
    } else if a.Count? && a.identity == x {
      CountKeepsPlan(st, a, x);
    } else {
      OtherStepKeepsPlan(st, a, x);
    }
  }

  lemma {:induction false} WeighOneMore(rows: seq<Row>, row: Row, among: set<EpisodeId>, x: string)
    requires !Listed(rows, row.id)
    ensures Weigh(rows + [row], among + {row.id}, x) == Weigh(rows, among, x) + if row.identity == x then 1 else 0
  {
    var more := rows + [row];
    WeighIgnoresOthers(rows, among, row.id, x);
    assert more[..|rows|] == rows && more[|rows|] == row;
  }

  lemma {:induction false} QueueKeepsPlan(st: State, a: Action, x: string)
    requires Enabled(st, a) && WithinPlan(st, x) && a.Queue?
    ensures WithinPlan(Next(st, a), x)
  {
    WeighOneMore(st.rows, Row(a.id, a.identity, Queued), Active(st), x);
    assert Active(Next(st, a)) == Active(st) + {a.id};
  }

  lemma {:induction false} CountKeepsPlan(st: State, a: Action, x: string)
    requires Sound(st) && Enabled(st, a) && WithinPlan(st, x) && a.Count? && a.identity == x
    ensures WithinPlan(Next(st, a), x)
  {
    var st' := Next(st, a);
    WeighIgnoresStatus(st.rows, st'.rows, Active(st'), x);
    DoneIsCompleted(st, x);
    assert Active(st') == Active(st);
  }

  lemma {:induction false} OtherStepKeepsPlan(st: State, a: Action, x: string)
    requires Enabled(st, a) && WithinPlan(st, x) && !a.Queue? && !(a.Count? && a.identity == x)
    ensures WithinPlan(Next(st, a), x)
  {
    var st' := Next(st, a);
    WeighIgnoresStatus(st.rows, st'.rows, Active(st'), x);
    assert Active(st') <= Active(st);
    WeighGrows(st.rows, Active(st'), Active(st), x);
  }

  lemma {:induction false} RunKeepsSoundness(st: State, actions: seq<Action>, x: string)
    requires Sound(st) && WithinPlan(st, x) && Runs(st, actions)
    ensures var end := After(st, actions);
      Sound(end) && WithinPlan(end, x) && end.episodes == st.episodes
    decreases |actions|
  {
    if |actions| > 0 {
      StepKeepsSoundness(st, actions[0]);
      StepKeepsPlan(st, actions[0], x);
      RunKeepsSoundness(Next(st, actions[0]), actions[1..], x);
    }
  }

  // --- what resumption promises ---

  /** No identity ever has more completed episodes than were asked for, and no episode runs twice. */
  lemma {:induction false} NeverMoreThanAskedFor(episodes: nat, actions: seq<Action>, x: string)
    requires Runs(Fresh(episodes), actions)
    ensures CompletedEpisodes(After(Fresh(episodes), actions), x) <= episodes
    ensures var ran := After(Fresh(episodes), actions).ran;
      forall i, j :: 0 <= i < j < |ran| ==> ran[i] != ran[j]
  {
    var end := After(Fresh(episodes), actions);
    RunKeepsSoundness(Fresh(episodes), actions, x);
    WeighGrows(end.rows, CompletedIds(end.files), Active(end), x);
  }

  /** A completed result file is never redone, even if the crash came before its row was updated:
      the next invocation owes exactly what is missing. */
  lemma {:induction false} CompletedWorkIsKept(episodes: nat, actions: seq<Action>, x: string)
    requires Runs(Fresh(episodes), actions) && Enabled(After(Fresh(episodes), actions), Count(x))
    ensures var st := After(Fresh(episodes), actions);
      Owing(Next(st, Count(x)), x) == episodes - CompletedEpisodes(st, x)
  {
    RunKeepsSoundness(Fresh(episodes), actions, x);
    var st := After(Fresh(episodes), actions);
    DoneIsCompleted(st, x);
  }

  /** Right after opening no row is queued or running, and every row with a result file says what it says. */
  lemma {:induction false} OpeningLeavesNothingUnfinished(episodes: nat, actions: seq<Action>, i: nat)
    requires Runs(Fresh(episodes), actions) && Enabled(After(Fresh(episodes), actions), Begin)
    requires i < |After(Fresh(episodes), actions).rows|
    ensures var st := Next(After(Fresh(episodes), actions), Begin);
      && !Stale(st.rows[i].status)
      && (st.rows[i].id in CompletedIds(st.files) <==> st.rows[i].status == Over(Completed))
  {
    RunKeepsSoundness(Fresh(episodes), actions, "");
    assert RowFits(After(Fresh(episodes), actions), i);
  }
}
