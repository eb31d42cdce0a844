/** The run ledger: a table of episodes kept beside the result files, which are the authority. */
module Ledger {
  type EpisodeId = string

  /** How an episode ended, as its result file says. */
  datatype Terminal = Completed | Ended(kind: string)

  datatype Status = Queued | Running | Interrupted | Over(terminal: Terminal)

  datatype Row = Row(id: EpisodeId, identity: string, status: Status)

  /** The result files that can be read. */
  type Files = map<EpisodeId, Terminal>

  // --- what the statements do ---

  /** `UPDATE ... WHERE episode_id=?`. */
  function Update(rows: seq<Row>, id: EpisodeId, status: Status): seq<Row> {
    seq(|rows|, i requires 0 <= i < |rows| => if rows[i].id == id then rows[i].(status := status) else rows[i])
  }

  predicate Stale(status: Status) { status.Queued? || status.Running? }

  /** The row that opening leaves: what its result file says, or interrupted if it has none and was not over. */
  function Recovered(row: Row, files: Files): Row {
    if row.id in files then row.(status := Over(files[row.id]))
    else if Stale(row.status) then row.(status := Interrupted)
    else row
  }

  function RecoveredAll(rows: seq<Row>, files: Files): seq<Row> {
    seq(|rows|, i requires 0 <= i < |rows| => Recovered(rows[i], files))
  }

  predicate UniqueIds(rows: seq<Row>) {
    forall i, j :: 0 <= i < j < |rows| ==> rows[i].id != rows[j].id
  }

  predicate Listed(rows: seq<Row>, id: EpisodeId) {
    exists i :: 0 <= i < |rows| && rows[i].id == id
  }

  /** Whether a row counts toward the completed episodes of an identity. */
  predicate Succeeded(row: Row, identity: string) {
    row.identity == identity && row.status == Over(Completed)
  }

  function Successes(rows: seq<Row>, identity: string): nat {
    if |rows| == 0 then 0
    else Successes(rows[..|rows| - 1], identity) + if Succeeded(rows[|rows| - 1], identity) then 1 else 0
  }

  class Ledger {
    var rows: seq<Row>

    /** Reconcile every row with its result file, then interrupt what is left unfinished. */
    constructor (table: seq<Row>, files: Files)
      requires UniqueIds(table)
      ensures rows == RecoveredAll(table, files)
    {
      rows := table;
      new;
      Reconcile(table, files);
      InterruptStale(table, files);
    }

    method Reconcile(table: seq<Row>, files: Files)
      requires rows == table && UniqueIds(table)
      modifies this
      ensures |rows| == |table|
      ensures forall k :: 0 <= k < |table| ==>
        rows[k] == if table[k].id in files then table[k].(status := Over(files[table[k].id])) else table[k]
    {
      var i := 0;
      while i < |table|
        invariant 0 <= i <= |table| == |rows|
        invariant forall k :: 0 <= k < i ==>
          rows[k] == if table[k].id in files then table[k].(status := Over(files[table[k].id])) else table[k]
        invariant forall k :: i <= k < |table| ==> rows[k] == table[k]
      {
        if table[i].id in files { FinishEpisode(table[i].id, files[table[i].id]); }
        i := i + 1;
      }
    }

    method InterruptStale(ghost table: seq<Row>, ghost files: Files)
      requires |rows| == |table|
      requires forall k :: 0 <= k < |table| ==>
        rows[k] == if table[k].id in files then table[k].(status := Over(files[table[k].id])) else table[k]
      modifies this
      ensures rows == RecoveredAll(table, files)
    {
      var before := rows;
      rows := seq(|before|, i requires 0 <= i < |before| =>
        if Stale(before[i].status) then before[i].(status := Interrupted) else before[i]);
    }

    method QueueEpisode(id: EpisodeId, identity: string) returns (queued: bool)
      requires UniqueIds(rows)
      modifies this
      ensures UniqueIds(rows)
      ensures queued <==> !Listed(old(rows), id)
      ensures rows == old(rows) + if queued then [Row(id, identity, Queued)] else []
    {
      if exists i :: 0 <= i < |rows| && rows[i].id == id {
        return false;
      }
      rows := rows + [Row(id, identity, Queued)];
      return true;
    }

    method FinishEpisode(id: EpisodeId, terminal: Terminal)
      modifies this
      ensures rows == Update(old(rows), id, Over(terminal))
    {
      rows := Update(rows, id, Over(terminal));
    }

    /** How many completed episodes of an identity the table has. */
    method CountDone(identity: string) returns (done: nat)
      ensures done == Successes(rows, identity)
    {
      done := 0;
      var i := 0;
      while i < |rows|
        invariant 0 <= i <= |rows| && done == Successes(rows[..i], identity)
      {
        assert rows[..i + 1][..i] == rows[..i];
        if Succeeded(rows[i], identity) { done := done + 1; }
        i := i + 1;
      }
      assert rows[..i] == rows;
    }

    /** Queue what an identity still lacks of `episodes`; nothing counts as done unless results are to be reused. */
    method Schedule(identity: string, episodes: nat, reuse: bool, ids: nat -> EpisodeId)
      returns (pending: seq<EpisodeId>)
      requires UniqueIds(rows)
      requires forall i, j :: 0 <= i < j ==> ids(i) != ids(j)
      requires forall i: nat :: !Listed(rows, ids(i))
      modifies this
      ensures UniqueIds(rows)
      ensures var done := if reuse then Successes(old(rows), identity) else 0;
        |pending| == if done < episodes then episodes - done else 0
      ensures |rows| == |old(rows)| + |pending| && old(rows) <= rows
      ensures forall i :: 0 <= i < |pending| ==> rows[|old(rows)| + i] == Row(pending[i], identity, Queued)
    {
      var done := 0;
      if reuse { done := CountDone(identity); }
      pending := [];
      var index := 0;
      while index < episodes
        invariant 0 <= index <= episodes && UniqueIds(rows)
        invariant |pending| == if index > done then index - done else 0
        invariant old(rows) <= rows && |rows| == |old(rows)| + |pending|
        invariant forall i :: 0 <= i < |pending| ==>
          pending[i] == ids(i) && rows[|old(rows)| + i] == Row(ids(i), identity, Queued)
      {
        if index >= done {
          var id := ids(|pending|);
          assert !Listed(old(rows), id);
          assert !Listed(rows, id) by {
            forall k | 0 <= k < |rows| ensures rows[k].id != id {
              if k >= |old(rows)| { assert rows[|old(rows)| + (k - |old(rows)|)].id == ids(k - |old(rows)|); }
            }
          }
          var queued := QueueEpisode(id, identity);
          pending := pending + [id];
        }
        index := index + 1;
      }
    }
  }
}
