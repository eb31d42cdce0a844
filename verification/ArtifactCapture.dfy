/** Capturing artifacts and restoring them: the loops, and the commands of a sandbox, each of which may
    fail in its own way. */
module ArtifactCapture {
  import opened Bytes
  import opened Wrappers
  import opened ArtifactRestore
  import opened ArtifactPlaces
  import opened ArtifactReadBack

  const WRITE_CHUNK_BYTES: nat := 4 * 1024 * 1024

  /** More data appended to a file just written is the file written whole. */
  lemma {:induction false} AppendingContinues(fs: FS, p: Path, head: Bytes, tail: Bytes)
    requires Put(fs, p, head, false).Some?
    ensures Put(Put(fs, p, head, false).value, p, tail, true) == Put(fs, p, head + tail, false)
  {
    var q := Resolve(fs, [], p, MAX_LINKS).value;
    var written := Put(fs, p, head, false).value;
    ResolveSurvivesPut(fs, [], p, MAX_LINKS, q, written[q]);
    assert written[q := File(head + tail, written[q].mode)] == Put(fs, p, head + tail, false).value;
  }

  /** One entry placed, or tried to be. */
  datatype Attempt = Attempt(entry: Entry, clear: bool, placed: bool)

  function Failures(log: seq<Attempt>): nat {
    if |log| == 0 then 0 else Failures(log[..|log| - 1]) + if log[|log| - 1].placed then 0 else 1
  }

  /** No entry before the `i`-th lies at or above it. */
  ghost predicate NoneAbove(entries: seq<Entry>, i: nat)
    requires i < |entries|
  {
    forall j :: 0 <= j < i ==> !(entries[j].path <= entries[i].path)
  }

  /** Every entry is tried once, in this order, whatever became of those before; and an entry clears its
      place exactly if no entry before it lies at or above it. */
  ghost predicate TriesAll(log: seq<Attempt>, entries: seq<Entry>) {
    |log| == |entries| && TriesFirst(log, entries)
  }

  ghost predicate TriesFirst(log: seq<Attempt>, entries: seq<Entry>) {
    && |log| <= |entries|
    && forall i :: 0 <= i < |log| ==> log[i].entry == entries[i] && (log[i].clear <==> NoneAbove(entries, i))
  }

  function FirstPaths(entries: seq<Entry>, n: nat): set<Path>
    requires n <= |entries|
  {
    set j | 0 <= j < n :: entries[j].path
  }

  /** The roots met so far lie above the same paths as the entries do. */
  ghost predicate RootsSoFar(roots: seq<Path>, entries: seq<Entry>, n: nat)
    requires n <= |entries|
  {
    && (forall k :: 0 <= k < |roots| ==> roots[k] in FirstPaths(entries, n))
    && forall j :: 0 <= j < n ==> BelowAny(roots, entries[j].path)
  }

  lemma {:induction false} RootsTellClears(roots: seq<Path>, entries: seq<Entry>, n: nat)
    requires n < |entries| && RootsSoFar(roots, entries, n)
    ensures !BelowAny(roots, entries[n].path) <==> NoneAbove(entries, n)
  {
    var p := entries[n].path;
    if BelowAny(roots, p) {
      var k :| 0 <= k < |roots| && roots[k] <= p;
      var j :| 0 <= j < n && entries[j].path == roots[k];
    } else {
      forall j | 0 <= j < n ensures !(entries[j].path <= p) { NotBelow(roots, entries[j].path, p); }
    }
  }

  lemma {:induction false} NotBelow(roots: seq<Path>, q: Path, p: Path)
    requires BelowAny(roots, q) && !BelowAny(roots, p)
    ensures !(q <= p)
  {
    var k :| 0 <= k < |roots| && roots[k] <= q;
    if q <= p { PrefixGoesOn(roots[k], q, p); }
  }

  lemma {:induction false} OneMoreRoot(roots: seq<Path>, entries: seq<Entry>, n: nat, next: seq<Path>)
    requires n < |entries| && RootsSoFar(roots, entries, n)
    requires next == if BelowAny(roots, entries[n].path) then roots else roots + [entries[n].path]
    ensures RootsSoFar(next, entries, n + 1)
  {
    forall j | 0 <= j < n + 1 ensures BelowAny(next, entries[j].path) {
      if j < n {
        StillBelow(roots, next, entries[j].path);
      } else if !BelowAny(roots, entries[n].path) {
        assert next[|roots|] <= entries[n].path;
      }
    }
    assert FirstPaths(entries, n + 1) == FirstPaths(entries, n) + {entries[n].path};
  }

  class Sandbox {
    const breaks: nat -> bool
    var fs: FS
    var commands: nat
    /** The entries tried, in order. */
    ghost var log: seq<Attempt>

    /** `breaks` tells which commands fail for a reason of their own. */
    constructor (fs: FS, breaks: nat -> bool)
      ensures this.fs == fs && this.breaks == breaks && commands == 0 && log == []
    {
      this.fs, this.breaks, commands, log := fs, breaks, 0, [];
    }

    ghost predicate Reliable() { forall n: nat :: !breaks(n) }

    /** A failing command leaves any file system behind. */
    method Perform(next: Option<FS>) returns (ok: bool)
      modifies this`fs, this`commands
      ensures ok ==> Some(fs) == next
      ensures Reliable() ==> ok == next.Some?
      ensures commands == old(commands) + 1 && (ok <==> !breaks(old(commands)) && next.Some?)
    {
      ok := !breaks(commands) && next.Some?;
      commands := commands + 1;
      if ok { fs := next.value; } else { fs := *; }
    }

    /** The file is sent in pieces, of which the first creates it. */
    method WriteFile(p: Path, data: Bytes) returns (ok: bool)
      modifies this`fs, this`commands
      ensures ok ==> Some(fs) == Put(old(fs), p, data, false)
      ensures Reliable() ==> ok == Put(old(fs), p, data, false).Some?
    {
      var offset := 0;
      ok := true;
      while offset < if |data| > 1 then |data| else 1
        invariant offset == 0 ==> ok && fs == old(fs)
        invariant ok
        invariant offset > 0 ==>
          ok && Some(fs) == Put(old(fs), p, data[..if offset < |data| then offset else |data|], false)
        decreases (if |data| > 1 then |data| else 1) - offset
      {
        var end := if offset + WRITE_CHUNK_BYTES < |data| then offset + WRITE_CHUNK_BYTES else |data|;
        var piece := data[offset..end];
        ghost var head := data[..offset];
        assert head + piece == data[..end];
        if offset > 0 { AppendingContinues(old(fs), p, head, piece); }
        ok := Perform(Put(fs, p, piece, offset > 0));
        if !ok { return; }
        offset := offset + WRITE_CHUNK_BYTES;
      }
      assert data[..|data|] == data;
    }

    method PlaceEntry(e: Entry, clear: bool) returns (ok: bool)
      requires |e.path| > 0
      modifies this
      ensures ok ==> Some(fs) == Placed(old(fs), e, clear)
      ensures Reliable() ==> ok == Placed(old(fs), e, clear).Some?
      ensures log == old(log) + [Attempt(e, clear, ok)]
    {
      ok := Perform(Prepared(fs, e.path, e.directory, clear));
      if ok && !e.directory { ok := WriteFile(e.path, e.bytes); }
      if ok { ok := Perform(Moded(fs, e.path, e.mode)); }
      log := log + [Attempt(e, clear, ok)];
    }
  }

  lemma {:induction false} TriesOneMore(log: seq<Attempt>, entries: seq<Entry>, a: Attempt)
    requires |log| < |entries| && TriesFirst(log, entries) && a.entry == entries[|log|]
    requires a.clear <==> NoneAbove(entries, |log|)
    ensures TriesFirst(log + [a], entries)
    ensures Failures(log + [a]) == Failures(log) + if a.placed then 0 else 1
  {
    assert (log + [a])[..|log|] == log;
  }

  /** What is left to restore gives `goal`. */
  ghost predicate LeavesTheRest(goal: Option<FS>, fs: FS, sorted: seq<Entry>, i: nat, roots: seq<Path>)
    requires Captured(sorted) && i <= |sorted|
  {
    goal == Restored(fs, sorted[i..], roots)
  }

  lemma {:induction false} RestoresNext(goal: Option<FS>, fs: FS, sorted: seq<Entry>, i: nat, roots: seq<Path>)
    requires Captured(sorted) && i < |sorted| && LeavesTheRest(goal, fs, sorted, i, roots)
    ensures var (e, clear) := (sorted[i], !BelowAny(roots, sorted[i].path));
      if Placed(fs, e, clear).None? then goal.None?
      else LeavesTheRest(goal, Placed(fs, e, clear).value, sorted, i + 1, if clear then roots + [e.path] else roots)
  {
    assert sorted[i..][0] == sorted[i] && sorted[i..][1..] == sorted[i + 1..];
  }

  lemma {:induction false} WholeAndNothing(fs: FS, sorted: seq<Entry>)
    requires Captured(sorted)
    ensures LeavesTheRest(Restored(fs, sorted, []), fs, sorted, 0, [])
    ensures forall end, roots: seq<Path>, goal ::
      LeavesTheRest(goal, end, sorted, |sorted|, roots) ==> goal == Some(end)
  {
    assert sorted[0..] == sorted && sorted[|sorted|..] == [];
  }

  ghost predicate Tracks(tries: seq<Attempt>, roots: seq<Path>, sorted: seq<Entry>, i: nat) {
    i == |tries| && TriesFirst(tries, sorted) && RootsSoFar(roots, sorted, i)
  }

  lemma {:induction false} TracksNext(tries: seq<Attempt>, roots: seq<Path>, sorted: seq<Entry>, i: nat, placed: bool)
    requires i < |sorted| && Tracks(tries, roots, sorted, i)
    ensures var (e, clear) := (sorted[i], !BelowAny(roots, sorted[i].path));
      && Tracks(tries + [Attempt(e, clear, placed)], if clear then roots + [e.path] else roots, sorted, i + 1)
      && Failures(tries + [Attempt(e, clear, placed)]) == Failures(tries) + if placed then 0 else 1
  {
    var (e, clear) := (sorted[i], !BelowAny(roots, sorted[i].path));
    RootsTellClears(roots, sorted, i);
    OneMoreRoot(roots, sorted, i, if clear then roots + [e.path] else roots);
    TriesOneMore(tries, sorted, Attempt(e, clear, placed));
  }

  lemma {:induction false} LogGrows(before: seq<Attempt>, tries: seq<Attempt>, a: Attempt)
    ensures (before + tries) + [a] == before + (tries + [a])
  {}

  /** Place one entry in its turn. */
  method PlaceNext(sandbox: Sandbox, sorted: seq<Entry>, i: nat, roots: seq<Path>, ghost goal: Option<FS>)
    returns (ok: bool, next: seq<Path>)
    requires Captured(sorted) && i < |sorted|
    modifies sandbox
    ensures sandbox.log == old(sandbox.log) + [Attempt(sorted[i], !BelowAny(roots, sorted[i].path), ok)]
    ensures next == if BelowAny(roots, sorted[i].path) then roots else roots + [sorted[i].path]
    ensures LeavesTheRest(goal, old(sandbox.fs), sorted, i, roots) ==>
      && (ok ==> LeavesTheRest(goal, sandbox.fs, sorted, i + 1, next))
      && (sandbox.Reliable() && goal.Some? ==> ok)
  {
    var e := sorted[i];
    var clear := !BelowAny(roots, e.path);
    if LeavesTheRest(goal, sandbox.fs, sorted, i, roots) { RestoresNext(goal, sandbox.fs, sorted, i, roots); }
    next := if clear then roots + [e.path] else roots;
    ok := sandbox.PlaceEntry(e, clear);
  }

  /** Place every entry in turn, going on after one that fails; `tries` is what became of each. */
  method PlaceAll(sandbox: Sandbox, sorted: seq<Entry>) returns (failures: nat, ghost tries: seq<Attempt>)
    requires Captured(sorted)
    modifies sandbox
    ensures sandbox.log == old(sandbox.log) + tries && TriesAll(tries, sorted) && failures == Failures(tries)
    ensures failures == 0 ==> Some(sandbox.fs) == Restored(old(sandbox.fs), sorted, [])
    ensures sandbox.Reliable() && Restored(old(sandbox.fs), sorted, []).Some? ==> failures == 0
  {
    failures, tries := 0, [];
    ghost var goal := Restored(sandbox.fs, sorted, []);
    WholeAndNothing(sandbox.fs, sorted);
    var roots: seq<Path> := [];
    var i := 0;
    while i < |sorted|
      invariant 0 <= i <= |sorted|
      invariant sandbox.log == old(sandbox.log) + tries && failures == Failures(tries)
      invariant Tracks(tries, roots, sorted, i)
      invariant failures == 0 ==> LeavesTheRest(goal, sandbox.fs, sorted, i, roots)
      invariant sandbox.Reliable() && goal.Some? ==> failures == 0
    {
      ghost var clear := !BelowAny(roots, sorted[i].path);
      var ok, next := PlaceNext(sandbox, sorted, i, roots, goal);
      TracksNext(tries, roots, sorted, i, ok);
      LogGrows(old(sandbox.log), tries, Attempt(sorted[i], clear, ok));
      if !ok { failures := failures + 1; }
      tries := tries + [Attempt(sorted[i], clear, ok)];
      roots := next;
      i := i + 1;
    }
  }

  /** Restore a capture. An entry that fails is skipped; a capture that was cut short is refused. */
  method Restore(sandbox: Sandbox, entries: seq<Entry>, truncated: seq<string>, enabled: bool)
    returns (skipped: Result<nat, seq<string>>, ghost tries: seq<Attempt>)
    requires Captured(entries)
    modifies sandbox
    ensures skipped.Err? <==> |truncated| > 0
    ensures skipped.Err? || !enabled ==> sandbox.fs == old(sandbox.fs) && tries == []
    ensures sandbox.log == old(sandbox.log) + tries
    ensures skipped.Ok? ==> skipped.value == Failures(tries)
    ensures skipped.Ok? && enabled ==> TriesAll(tries, SortByDepth(entries))
    ensures skipped == Ok(0) && enabled ==> Some(sandbox.fs) == Restored(old(sandbox.fs), SortByDepth(entries), [])
    ensures |truncated| == 0 && sandbox.Reliable() && Restored(old(sandbox.fs), SortByDepth(entries), []).Some?
      ==> skipped == Ok(0)
    ensures skipped == Ok(0) && enabled && WellFormed(old(sandbox.fs)) ==>
      (HoldsExactly(old(sandbox.fs), sandbox.fs, Members(entries)) <==>
       RootsArePlain(old(sandbox.fs), Members(entries)))
    ensures skipped == Ok(0) && enabled && WellFormed(old(sandbox.fs)) ==>
      ReadsBackAsAgreed(old(sandbox.fs), sandbox.fs, Members(entries))
  {
    tries := [];
    if |truncated| > 0 { return Err(truncated), tries; }
    if !enabled { return Ok(0), tries; }
    var sorted := SortByDepth(entries);
    SortedByDepth(entries);
    assert Members(sorted) == Members(entries);
    var failures;
    failures, tries := PlaceAll(sandbox, sorted);
    if failures == 0 && WellFormed(old(sandbox.fs)) {
      ExactIffRootsArePlain(old(sandbox.fs), sorted);
      if PlacesUnmixed(old(sandbox.fs), Members(sorted)) { ReadsBackIffPlacesAgree(old(sandbox.fs), sorted); }
    }
    return Ok(failures), tries;
  }

  // --- where the entries come from ---

  /** One listed item and what copying it gave: its bytes, or nothing when the copy failed. */
  datatype Listed = Listed(path: Path, directory: bool, mode: nat, copied: Option<Bytes>)

  predicate Kept(item: Listed) { |item.path| > 0 && (item.directory || item.copied.Some?) }

  function EntryOf(item: Listed): Entry
    requires Kept(item)
  {
    Entry(item.path, item.directory, item.mode, if item.directory then [] else item.copied.value)
  }

  /** Directories are kept, and files that could be copied. */
  ghost predicate Usable(item: Listed) {
    |item.path| > 0 && (!item.directory ==> item.copied.Some?)
  }

  /** `e` is the first usable item of its path, with its bytes. */
  ghost predicate ListedAs(items: seq<Listed>, k: nat, e: Entry)
    requires k < |items|
  {
    && Usable(items[k]) && items[k].path == e.path && items[k].directory == e.directory && items[k].mode == e.mode
    && (!e.directory ==> items[k].copied == Some(e.bytes))
    && forall i :: 0 <= i < k ==> !(Usable(items[i]) && items[i].path == e.path)
  }

  ghost predicate ListedIn(items: seq<Listed>, n: nat, e: Entry)
    requires n <= |items|
  {
    exists k :: 0 <= k < n && ListedAs(items, k, e)
  }

  function PathsOf(entries: seq<Entry>): set<Path> { set e | e in entries :: e.path }

  /** Add what one declaration lists: each path once over all declarations, failed copies left out. */
  method Collect(entries: seq<Entry>, items: seq<Listed>) returns (all: seq<Entry>)
    requires Captured(entries)
    ensures Captured(all) && entries <= all
    ensures forall j :: |entries| <= j < |all| ==> ListedIn(items, |items|, all[j])
    ensures forall k :: 0 <= k < |items| && Usable(items[k]) ==> items[k].path in PathsOf(all)
  {
    all := entries;
    var captured := PathsOf(entries);
    var k := 0;
    while k < |items|
      invariant 0 <= k <= |items|
      invariant Captured(all) && entries <= all && captured == PathsOf(all)
      invariant forall j :: |entries| <= j < |all| ==> ListedIn(items, k, all[j])
      invariant forall i :: 0 <= i < k && Usable(items[i]) ==> items[i].path in captured
    {
      var item := items[k];
      if Kept(item) && item.path !in captured {
        CapturesOneMore(all, EntryOf(item));
        all := all + [EntryOf(item)];
        captured := captured + {item.path};
        assert ListedAs(items, k, EntryOf(item));
      }
      k := k + 1;
    }
  }

  lemma {:induction false} CapturesOneMore(all: seq<Entry>, e: Entry)
    requires Captured(all) && |e.path| > 0 && e.path !in PathsOf(all)
    ensures Captured(all + [e]) && PathsOf(all + [e]) == PathsOf(all) + {e.path}
  {
    forall i | 0 <= i < |all| ensures all[i].path != e.path { assert all[i] in all; }
    assert e in all + [e];
    assert forall d :: d in all ==> d in all + [e];
  }
}
