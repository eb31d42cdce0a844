/** Whatever crashes have left, a new invocation can complete what the run was asked for. */
module LedgerCompletion {
  import opened Ledger
  import opened LedgerRecovery

  // --- runs, step by step ---

  lemma {:induction false} RunOn(st: State, before: seq<Action>, more: seq<Action>)
    requires Runs(st, before) && Runs(After(st, before), more)
    ensures Runs(st, before + more) && After(st, before + more) == After(After(st, before), more)
    decreases |before|
  {
    if |before| == 0 {
      assert before + more == more;
    } else {
      assert (before + more)[1..] == before[1..] + more;
      RunOn(Next(st, before[0]), before[1..], more);
    }
  }

  lemma {:induction false} OneStep(st: State, a: Action)
    requires Enabled(st, a)
    ensures Runs(st, [a]) && After(st, [a]) == Next(st, a)
  {
    assert [a][1..] == [];
  }

  // --- an unused episode id ---

  lemma {:induction false} Longest(ids: set<EpisodeId>) returns (n: nat)
    ensures forall id :: id in ids ==> |id| <= n
    decreases |ids|
  {
    n := 0;
    if ids != {} {
      var id :| id in ids;
      n := Longest(ids - {id});
      n := if |id| > n then |id| else n;
    }
  }

  lemma {:induction false} UnusedId(rows: seq<Row>, files: Files) returns (id: EpisodeId)
    ensures !Listed(rows, id) && id !in files
  {
    var used := (set i | 0 <= i < |rows| :: rows[i].id) + files.Keys;
    var n := Longest(used);
    id := seq(n + 1, _ => 'x');
    assert id !in used;
  }

  // --- a new invocation ---

  /** After a crash, opening and reconciling, the new process is at work. */
  lemma {:induction false} Restart(st: State) returns (actions: seq<Action>)
    ensures Runs(st, actions)
    ensures var end := After(st, actions);
      && end.phase.Up? && end.files == st.files && end.episodes == st.episodes
      && end.jobs == {} && end.counted == {} && end.owed == map[]
  {
    OneStep(st, Crash);
    var down := Next(st, Crash);
    OneStep(down, Open);
    RunOn(st, [Crash], [Open]);
    var rest := ReconcileOn(Next(down, Open));
    RunOn(st, [Crash] + [Open], rest);
    actions := [Crash] + [Open] + rest;
  }

  lemma {:induction false} ReconcileOn(st: State) returns (actions: seq<Action>)
    requires st.phase.Reconciling? && st.phase.next <= |st.rows|
    requires st.jobs == {} && st.counted == {} && st.owed == map[]
    ensures Runs(st, actions)
    ensures var end := After(st, actions);
      && end.phase.Up? && end.files == st.files && end.episodes == st.episodes
      && end.jobs == {} && end.counted == {} && end.owed == map[]
    decreases |st.rows| - st.phase.next
  {
    if st.phase.next == |st.rows| {
      OneStep(st, Begin);
      actions := [Begin];
    } else {
      OneStep(st, Reconcile);
      var rest := ReconcileOn(Next(st, Reconcile));
      RunOn(st, [Reconcile], rest);
      actions := [Reconcile] + rest;
    }
  }

  // --- one more episode ---

  /** Queue, run, write and record one more episode. */
  function OneEpisode(x: string, id: EpisodeId): seq<Action> {
    [Queue(x, id), Start(id), WriteResult(id, Completed), Finish(id)]
  }

  lemma {:induction false} StatusIs(rows: seq<Row>, id: EpisodeId, status: Status)
    requires Listed(rows, id)
    ensures HasStatus(Update(rows, id, status), id, status) && Listed(Update(rows, id, status), id)
  {
    var i :| 0 <= i < |rows| && rows[i].id == id;
    assert Update(rows, id, status)[i] == rows[i].(status := status);
  }

  /** The state after the four steps. */
  function WithOne(st: State, x: string, id: EpisodeId): State
    requires x in st.owed && st.owed[x] > 0
  {
    var rows := st.rows + [Row(id, x, Queued)];
    st.(rows := Update(Update(rows, id, Running), id, Over(Completed)), files := st.files[id := Completed],
        jobs := st.jobs + {id} - {id}, owed := st.owed[x := st.owed[x] - 1], ran := st.ran + [id])
  }

  lemma {:induction false} TwoSteps(st: State, a: Action, b: Action)
    requires Enabled(st, a) && Enabled(Next(st, a), b)
    ensures Runs(st, [a, b]) && After(st, [a, b]) == Next(Next(st, a), b)
  {
    OneStep(st, a);
    OneStep(Next(st, a), b);
    RunOn(st, [a], [b]);
    assert [a] + [b] == [a, b];
  }

  /** Queued and started. */
  function Started(st: State, x: string, id: EpisodeId): State
    requires x in st.owed && st.owed[x] > 0
  {
    st.(rows := Update(st.rows + [Row(id, x, Queued)], id, Running), jobs := st.jobs + {id},
        owed := st.owed[x := st.owed[x] - 1], ran := st.ran + [id])
  }

  lemma {:induction false} EpisodeStarts(st: State, x: string, id: EpisodeId)
    requires st.phase.Up? && x in st.owed && st.owed[x] > 0 && !Listed(st.rows, id) && id !in st.files
    ensures Runs(st, [Queue(x, id), Start(id)]) && After(st, [Queue(x, id), Start(id)]) == Started(st, x, id)
    ensures HasStatus(Started(st, x, id).rows, id, Running)
  {
    var rows := st.rows + [Row(id, x, Queued)];
    assert rows[|st.rows|].id == id && HasStatus(rows, id, Queued);
    StatusIs(rows, id, Running);
    TwoSteps(st, Queue(x, id), Start(id));
  }

  lemma {:induction false} OneEpisodeRuns(st: State, x: string, id: EpisodeId)
    requires st.phase.Up? && x in st.owed && st.owed[x] > 0 && !Listed(st.rows, id) && id !in st.files
    ensures Runs(st, OneEpisode(x, id)) && After(st, OneEpisode(x, id)) == WithOne(st, x, id)
  {
    EpisodeStarts(st, x, id);
    var started := Started(st, x, id);
    TwoSteps(started, WriteResult(id, Completed), Finish(id));
    RunOn(st, [Queue(x, id), Start(id)], [WriteResult(id, Completed), Finish(id)]);
    assert [Queue(x, id), Start(id)] + [WriteResult(id, Completed), Finish(id)] == OneEpisode(x, id);
  }

  lemma {:induction false} OneEpisodeCounts(st: State, x: string, id: EpisodeId)
    requires x in st.owed && st.owed[x] > 0 && !Listed(st.rows, id) && id !in st.files
    ensures CompletedEpisodes(WithOne(st, x, id), x) == CompletedEpisodes(st, x) + 1
    ensures Owing(WithOne(st, x, id), x) == Owing(st, x) - 1
  {
    var end := WithOne(st, x, id);
    var rows := st.rows + [Row(id, x, Queued)];
    assert CompletedIds(end.files) == CompletedIds(st.files) + {id};
    WeighOneMore(st.rows, Row(id, x, Queued), CompletedIds(st.files), x);
    WeighIgnoresStatus(rows, end.rows, CompletedIds(end.files), x);
  }

  /** Everything still owed can be completed. */
  lemma {:induction false} PayOff(st: State, x: string) returns (actions: seq<Action>)
    requires st.phase.Up? && x in st.owed
    ensures Runs(st, actions) && forall i :: 0 <= i < |actions| ==> !actions[i].Crash?
    ensures CompletedEpisodes(After(st, actions), x) == CompletedEpisodes(st, x) + Owing(st, x)
    decreases st.owed[x]
  {
    if st.owed[x] == 0 {
      actions := [];
    } else {
      var id := UnusedId(st.rows, st.files);
      OneEpisodeRuns(st, x, id);
      OneEpisodeCounts(st, x, id);
      var rest := PayOff(WithOne(st, x, id), x);
      RunOn(st, OneEpisode(x, id), rest);
      actions := OneEpisode(x, id) + rest;
    }
  }

  /** A process that has not counted the identity yet can complete it. */
  lemma {:induction false} CountAndPayOff(st: State, x: string) returns (actions: seq<Action>)
    requires Sound(st) && WithinPlan(st, x) && st.phase.Up? && x !in st.counted
    ensures Runs(st, actions) && CompletedEpisodes(After(st, actions), x) == st.episodes
  {
    OneStep(st, Count(x));
    DoneIsCompleted(st, x);
    var rest := PayOff(Next(st, Count(x)), x);
    RunOn(st, [Count(x)], rest);
    actions := [Count(x)] + rest;
  }

  /** Wherever a run stands, a new invocation can complete exactly what was asked for. */
  lemma {:induction false} EveryRunCanBeCompleted(episodes: nat, actions: seq<Action>, x: string)
    returns (more: seq<Action>)
    requires Runs(Fresh(episodes), actions)
    ensures Runs(Fresh(episodes), actions + more)
    ensures CompletedEpisodes(After(Fresh(episodes), actions + more), x) == episodes
  {
    var st := After(Fresh(episodes), actions);
    RunKeepsSoundness(Fresh(episodes), actions, x);
    var restart := Restart(st);
    RunKeepsSoundness(st, restart, x);
    var rest := CountAndPayOff(After(st, restart), x);
    RunOn(st, restart, rest);
    more := restart + rest;
    RunOn(Fresh(episodes), actions, more);
  }
}
