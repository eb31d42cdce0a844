/** A whole restore through links: it puts entries at the places that their paths lead to, and what stands
    there in the end. */
module ArtifactStanding {
  import opened Wrappers
  import opened ArtifactRestore
  import opened ArtifactPlaces

  ghost predicate Rooted(entries: seq<Entry>, all: seq<Path>) {
    forall e :: e in entries ==> |e.path| > 0 && BelowAny(all, e.path)
  }

  /** Part-way through a restore, with what is still to do. */
  ghost predicate Midway(
    before: FS, fs: FS, done: set<Entry>, roots: seq<Path>, all: seq<Path>, todo: seq<Entry>)
  {
    && Agenda(roots, all, todo)
    && Running(before, fs, done, roots, all)
  }

  /** The roots to come are those of the entries to come. */
  ghost predicate Agenda(roots: seq<Path>, all: seq<Path>, todo: seq<Entry>) {
    && Rooted(todo, all) && Captured(todo) && RootsOf(todo, roots) == all
    && forall e :: e in todo ==> e.path !in roots
  }

  function NextRoots(roots: seq<Path>, e: Entry): seq<Path> {
    if BelowAny(roots, e.path) then roots else roots + [e.path]
  }

  lemma {:induction false} NextAgenda(roots: seq<Path>, all: seq<Path>, todo: seq<Entry>)
    requires |todo| > 0 && Agenda(roots, all, todo)
    ensures Agenda(NextRoots(roots, todo[0]), all, todo[1..]) && NextRoots(roots, todo[0]) <= all
    ensures todo[0].path !in roots && |todo[0].path| > 0 && BelowAny(all, todo[0].path)
  {
    var rest := todo[1..];
    assert forall k :: 0 <= k < |rest| ==> rest[k] == todo[k + 1];
    RootsGrow(rest, NextRoots(roots, todo[0]));
  }

  /** What stands at its place after all of `todo`. */
  function StandingAfter(
    before: FS, all: seq<Path>, todo: seq<Entry>, roots: seq<Path>, done: set<Entry>): set<Entry>
    requires AllPlaced(before, all)
    decreases |todo|
  {
    if |todo| == 0 then done
    else
      StandingAfter(before, all, todo[1..], NextRoots(roots, todo[0]),
        Standing(done, Moved(before, all, todo[0]), !BelowAny(roots, todo[0].path)))
  }

  lemma {:induction false} NextStep(
    before: FS, fs: FS, done: set<Entry>, roots: seq<Path>, all: seq<Path>, todo: seq<Entry>)
    requires |todo| > 0 && |todo[0].path| > 0 && AllPlaced(before, all)
    requires Placed(fs, todo[0], !BelowAny(roots, todo[0].path)).Some?
    requires Midway(before, fs, done, roots, all, todo)
    ensures Midway(before, Placed(fs, todo[0], !BelowAny(roots, todo[0].path)).value,
      Standing(done, Moved(before, all, todo[0]), !BelowAny(roots, todo[0].path)),
      NextRoots(roots, todo[0]), all, todo[1..])
  {
    NextAgenda(roots, all, todo);
    StepKeepsRunning(before, fs, done, roots, all, todo[0], Moved(before, all, todo[0]), NextRoots(roots, todo[0]));
  }

  lemma {:induction false} RunThroughLinks(
    before: FS, fs: FS, done: set<Entry>, roots: seq<Path>, all: seq<Path>, todo: seq<Entry>)
    requires AllPlaced(before, all) && (forall e :: e in todo ==> |e.path| > 0)
    requires Restored(fs, todo, roots).Some?
    requires Midway(before, fs, done, roots, all, todo)
    ensures Running(before, Restored(fs, todo, roots).value, StandingAfter(before, all, todo, roots, done), all, all)
    decreases |todo|
  {
    if |todo| > 0 {
      NextStep(before, fs, done, roots, all, todo);
      RunThroughLinks(before, Placed(fs, todo[0], !BelowAny(roots, todo[0].path)).value,
        Standing(done, Moved(before, all, todo[0]), !BelowAny(roots, todo[0].path)),
        NextRoots(roots, todo[0]), all, todo[1..]);
    }
  }

  lemma {:induction false} EntriesAreRooted(entries: seq<Entry>)
    requires Captured(entries)
    ensures Rooted(entries, RootsOf(entries, []))
  {
    forall e | e in entries ensures |e.path| > 0 && BelowAny(RootsOf(entries, []), e.path) {
      var k :| 0 <= k < |entries| && entries[k] == e;
      EveryEntryHasARoot(entries, [], k);
    }
  }

  lemma {:induction false} NothingRunYet(before: FS, entries: seq<Entry>)
    requires WellFormed(before) && Captured(entries) && ByDepth(entries) && Separate(before, RootsOf(entries, []))
    ensures Midway(before, before, {}, [], RootsOf(entries, []), entries)
  {
    RootsAreUnnested(entries, []);
    EntriesAreRooted(entries);
    NothingDoneYet(before);
    assert PlacesOf(before, []) == [];
  }

  // --- the same restore at the places themselves ---

  function MovedAll(before: FS, all: seq<Path>, entries: seq<Entry>): (moved: seq<Entry>)
    requires AllPlaced(before, all)
    ensures |moved| == |entries|
  {
    seq(|entries|, k requires 0 <= k < |entries| => Moved(before, all, entries[k]))
  }

  lemma {:induction false} MovedAllFirst(before: FS, all: seq<Path>, entries: seq<Entry>)
    requires AllPlaced(before, all) && |entries| > 0
    ensures MovedAll(before, all, entries)[0] == Moved(before, all, entries[0])
    ensures MovedAll(before, all, entries)[1..] == MovedAll(before, all, entries[1..])
  {}

  lemma {:induction false} AllMovedSomewhere(before: FS, all: seq<Path>, entries: seq<Entry>)
    requires AllPlaced(before, all) && Unnested(all) && Rooted(entries, all)
    ensures forall m :: m in MovedAll(before, all, entries) ==> |m.path| > 0
  {
    forall k | 0 <= k < |entries| ensures |Moved(before, all, entries[k]).path| > 0 {
      assert entries[k] in entries;
      PlacedSomewhere(before, all, entries[k].path);
    }
  }

  /** One step of the restore is the same step at the place, clearing alike. */
  lemma {:induction false} StepAtPlace(
    before: FS, fs: FS, done: set<Entry>, roots: seq<Path>, all: seq<Path>, todo: seq<Entry>)
    requires |todo| > 0 && |todo[0].path| > 0 && AllPlaced(before, all) && AllPlaced(before, roots)
    requires |Moved(before, all, todo[0]).path| > 0 && Unnested(PlacesOf(before, all))
    requires Placed(fs, todo[0], !BelowAny(roots, todo[0].path)).Some?
    requires Midway(before, fs, done, roots, all, todo)
    ensures var (e, m) := (todo[0], Moved(before, all, todo[0]));
      && Placed(fs, m, !BelowAny(PlacesOf(before, roots), m.path)) == Placed(fs, e, !BelowAny(roots, e.path))
      && AllPlaced(before, NextRoots(roots, e))
      && PlacesOf(before, NextRoots(roots, e)) == NextRoots(PlacesOf(before, roots), m)
  {
    var (e, m) := (todo[0], Moved(before, all, todo[0]));
    NextAgenda(roots, all, todo);
    ClearsAlike(before, roots, all, e.path);
    PrefixIsPlaced(before, NextRoots(roots, e), all);
    NextPlaces(before, roots, all, e, m, NextRoots(roots, e));
    if !BelowAny(roots, e.path) { assert NextRoots(roots, e)[|roots|] == e.path; }
    StepThroughLinks(before, fs, done, roots, all, e, m);
  }

  lemma {:induction false} RunAtPlaces(
    before: FS, fs: FS, done: set<Entry>, roots: seq<Path>, all: seq<Path>, todo: seq<Entry>)
    requires AllPlaced(before, all) && AllPlaced(before, roots) && Unnested(PlacesOf(before, all))
    requires (forall e :: e in todo ==> |e.path| > 0)
    requires forall m :: m in MovedAll(before, all, todo) ==> |m.path| > 0
    requires Restored(fs, todo, roots).Some?
    requires Midway(before, fs, done, roots, all, todo)
    ensures Restored(fs, MovedAll(before, all, todo), PlacesOf(before, roots)) == Restored(fs, todo, roots)
    decreases |todo|
  {
    if |todo| > 0 {
      var (e, m, clear) := (todo[0], Moved(before, all, todo[0]), !BelowAny(roots, todo[0].path));
      MovedAllFirst(before, all, todo);
      assert m in MovedAll(before, all, todo);
      StepAtPlace(before, fs, done, roots, all, todo);
      NextStep(before, fs, done, roots, all, todo);
      RunAtPlaces(before, Placed(fs, e, clear).value, Standing(done, m, clear), NextRoots(roots, e), all, todo[1..]);
    }
  }

  // --- what is not overtaken stands ---

  /** An entry that comes later takes the place of `m`. */
  predicate Overtakes(before: FS, all: seq<Path>, later: Entry, m: Entry)
    requires AllPlaced(before, all)
  {
    var q := PlaceFor(before, all, later.path);
    q == m.path || (later.path in all && q <= m.path)
  }

  lemma {:induction false} StaysStanding(
    before: FS, all: seq<Path>, todo: seq<Entry>, roots: seq<Path>, done: set<Entry>, m: Entry)
    requires AllPlaced(before, all) && RootsOf(todo, roots) == all && m in done
    requires forall k :: 0 <= k < |todo| ==> !Overtakes(before, all, todo[k], m)
    ensures m in StandingAfter(before, all, todo, roots, done)
    decreases |todo|
  {
    if |todo| > 0 {
      var (e, next) := (todo[0], NextRoots(roots, todo[0]));
      assert !Overtakes(before, all, e, m);
      RootsGrow(todo[1..], next);
      if !BelowAny(roots, e.path) { assert next[|roots|] == e.path && all[|roots|] == e.path; }
      assert forall k :: 0 <= k < |todo[1..]| ==> todo[1..][k] == todo[k + 1];
      StaysStanding(before, all, todo[1..], next,
        Standing(done, Moved(before, all, e), !BelowAny(roots, e.path)), m);
    }
  }

  lemma {:induction false} LastOneStands(
    before: FS, all: seq<Path>, todo: seq<Entry>, roots: seq<Path>, done: set<Entry>, k: nat)
    requires AllPlaced(before, all) && RootsOf(todo, roots) == all && k < |todo|
    requires forall j :: k < j < |todo| ==> !Overtakes(before, all, todo[j], Moved(before, all, todo[k]))
    ensures Moved(before, all, todo[k]) in StandingAfter(before, all, todo, roots, done)
    decreases |todo|
  {
    var (m, next, rest) := (Moved(before, all, todo[0]), NextRoots(roots, todo[0]), todo[1..]);
    var now := Standing(done, m, !BelowAny(roots, todo[0].path));
    assert forall j :: 0 <= j < |rest| ==> rest[j] == todo[j + 1];
    if k == 0 {
      StaysStanding(before, all, rest, next, now, m);
    } else {
      LastOneStands(before, all, rest, next, now, k - 1);
    }
  }

  /** Nothing stands but what was to be placed. */
  lemma {:induction false} OnlyEntriesStand(
    before: FS, all: seq<Path>, todo: seq<Entry>, roots: seq<Path>, done: set<Entry>, m: Entry)
    requires AllPlaced(before, all) && m in StandingAfter(before, all, todo, roots, done)
    ensures m in done || exists e :: e in todo && m == Moved(before, all, e)
    decreases |todo|
  {
    if |todo| > 0 {
      var now := Standing(done, Moved(before, all, todo[0]), !BelowAny(roots, todo[0].path));
      OnlyEntriesStand(before, all, todo[1..], NextRoots(roots, todo[0]), now, m);
      assert todo[0] in todo;
    }
  }

  // --- places and paths ---

  /** Two paths that lead to comparable places come from roots that share a place. */
  lemma {:induction false} PlacesTell(before: FS, all: seq<Path>, p: Path, q: Path, i: nat, j: nat)
    requires AllPlaced(before, all) && Unnested(all) && i < |all| && j < |all| && all[i] <= p && all[j] <= q
    requires PlaceFor(before, all, p) <= PlaceFor(before, all, q) && Unmixed(PlacesOf(before, all))
    ensures PlacesOf(before, all)[i] == PlacesOf(before, all)[j] && p[|all[i]|..] <= q[|all[j]|..]
    ensures PlaceFor(before, all, p) == PlaceFor(before, all, q) ==> p[|all[i]|..] == q[|all[j]|..]
  {
    PlaceForIs(before, all, p, i);
    PlaceForIs(before, all, q, j);
    SuffixesTell(PlacesOf(before, all), i, j, p[|all[i]|..], q[|all[j]|..]);
  }

  lemma {:induction false} SuffixesTell(places: seq<Path>, i: nat, j: nat, s: Path, t: Path)
    requires i < |places| && j < |places| && Unmixed(places) && places[i] + s <= places[j] + t
    ensures places[i] == places[j] && s <= t && (places[i] + s == places[j] + t ==> s == t)
  {
    var (a, b) := (places[i], places[j]);
    PrefixGoesOn(a, a + s, b + t);
    PrefixesCompare(a, b, b + t);
    assert (a + s)[|a|..] == s && (b + t)[|b|..] == t;
    forall k | 0 <= k < |s| ensures s[k] == t[k] { assert (a + s)[|a| + k] == (b + t)[|b| + k]; }
  }
}
