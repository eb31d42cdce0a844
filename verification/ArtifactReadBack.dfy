/** What can be read back after a restore by following the captured paths, through whatever links the
    destination holds. */
module ArtifactReadBack {
  import opened Wrappers
  import opened ArtifactRestore
  import opened ArtifactPlaces
  import opened ArtifactStanding

  // --- reading below a place ---

  /** What is there below a place is resolved by a path that leads there. */
  lemma {:induction false} ResolvedBelow(fs: FS, r: Path, q: Path, s: Path)
    requires WellFormed(fs) && Resolve(fs, [], r, MAX_LINKS) == Some(q) && q + s in fs
    requires forall t: Path :: NotLink(fs, q + t)
    ensures Resolve(fs, [], r + s, MAX_LINKS) == Some(q + s)
    decreases |s|
  {
    if |s| == 0 {
      assert r + s == r && q + s == q;
    } else {
      var (start, x) := (s[..|s| - 1], s[|s| - 1]);
      assert (r + start) + [x] == r + s && (q + start) + [x] == q + s;
      ParentIsThere(fs, q + s);
      assert Parent(q + s) == q + start;
      if |start| == 0 {
        assert r + start == r && q + start == q;
      } else {
        ResolvedBelow(fs, r, q, start);
      }
      assert NotLink(fs, q + s);
      LastPartIsNoLink(fs, [], r + start, x, MAX_LINKS);
    }
  }

  /** A path below one that leads to a place without links resolves to below the place, if at all. */
  lemma {:induction false} ResolvesBelow(fs: FS, r: Path, q: Path, s: Path)
    requires WellFormed(fs) && Reach(fs, [], r, MAX_LINKS) == Some(q) && Resolve(fs, [], r + s, MAX_LINKS).Some?
    requires forall t: Path :: NotLink(fs, q + t)
    ensures Resolve(fs, [], r + s, MAX_LINKS) == Some(q + s)
  {
    ResolvedIsReached(fs, [], r + s, MAX_LINKS);
    ReachBelow(fs, r, s, q);
  }

  /** Following `p` leads to `item`. */
  ghost predicate Reads(fs: FS, p: Path, item: Item) {
    match Resolve(fs, [], p, MAX_LINKS) case None => false case Some(q) => q in fs && fs[q] == item
  }

  ghost predicate Stands(done: set<Entry>, p: Path, item: Item) {
    exists m :: m in done && m.path == p && ItemOf(m) == item
  }

  lemma {:induction false} EntryIsRead(
    before: FS, after: FS, done: set<Entry>, all: seq<Path>, e: Entry, i: nat)
    requires AllPlaced(before, all) && Unnested(all) && i < |all| && all[i] <= e.path
    requires LeadsTo(after, all[i], PlacesOf(before, all)[i])
    requires WellFormed(after) && Present(after, done)
    requires Stands(done, PlaceFor(before, all, e.path), ItemOf(e))
    ensures Reads(after, e.path, ItemOf(e))
  {
    var m :| m in done && m.path == PlaceFor(before, all, e.path) && ItemOf(m) == ItemOf(e);
    var s := e.path[|all[i]|..];
    assert all[i] + s == e.path;
    PlaceForIs(before, all, e.path, i);
    ResolvedBelow(after, all[i], PlacesOf(before, all)[i], s);
  }

  /** What is there at or below a root is there at or below its place. */
  lemma {:induction false} FoundBelow(fs: FS, r: Path, q: Path, p: Path)
    requires WellFormed(fs) && r <= p && LeadsTo(fs, r, q) && Exists(fs, p)
    ensures q + p[|r|..] in fs && q <= q + p[|r|..]
    ensures Resolve(fs, [], p, MAX_LINKS) == Some(q + p[|r|..])
  {
    var s := p[|r|..];
    assert r + s == p;
    ResolvesBelow(fs, r, q, s);
    if |s| == 0 { assert q + s == q; }
    ParentIsThere(fs, q);
  }

  // --- the conditions and the promise, by captured paths ---

  ghost predicate IsRoot(e: Entry, entries: set<Entry>) { e in entries && Outermost(e, entries) }

  /** Every outermost captured path leads somewhere. */
  ghost predicate RootsLead(fs: FS, entries: set<Entry>) {
    forall e :: IsRoot(e, entries) ==> |e.path| > 0 && PlaceOf(fs, e.path).Some?
  }

  /** The places that the outermost captured paths lead to. */
  ghost function RootPlaces(fs: FS, entries: set<Entry>): set<Path>
    requires RootsLead(fs, entries)
  {
    set e | e in entries && IsRoot(e, entries) :: PlaceOf(fs, e.path).value
  }

  ghost predicate ComesPast(fs: FS, e: Entry, places: set<Path>)
    requires |e.path| > 0
  {
    forall link :: Meets(fs, [], Parent(e.path), MAX_LINKS, link) ==> Apart(link, places)
  }

  /** Two places are the same, or neither lies within the other. */
  ghost predicate KeepOut(fs: FS, p: Path, q: Path)
    requires |p| > 0 && |q| > 0 && PlaceOf(fs, p).Some? && PlaceOf(fs, q).Some?
  {
    PlaceOf(fs, p).value <= PlaceOf(fs, q).value ==> PlaceOf(fs, p) == PlaceOf(fs, q)
  }

  /** The outermost captured paths lead to places of which none lies within another, though they may be the
      same, and no link followed on the way to one lies in any. */
  ghost predicate PlacesUnmixed(fs: FS, entries: set<Entry>) {
    && RootsLead(fs, entries)
    && (forall d, e :: IsRoot(d, entries) && IsRoot(e, entries) ==> KeepOut(fs, d.path, e.path))
    && forall e :: IsRoot(e, entries) ==> ComesPast(fs, e, RootPlaces(fs, entries))
  }

  ghost predicate CapturedAs(entries: set<Entry>, p: Path, item: Item) {
    exists e :: e in entries && e.path == p && ItemOf(e) == item
  }

  /** What was captured at and below `r` was captured alike at and below `t`. */
  ghost predicate CapturedAlike(entries: set<Entry>, r: Path, t: Path) {
    forall e :: e in entries && r <= e.path ==> CapturedAs(entries, t + e.path[|r|..], ItemOf(e))
  }

  predicate SamePlace(fs: FS, p: Path, q: Path) { |p| > 0 && |q| > 0 && PlaceOf(fs, p) == PlaceOf(fs, q) }

  /** Outermost paths that lead to one place have captured the same. */
  ghost predicate PlacesAgree(fs: FS, entries: set<Entry>) {
    forall d, e :: IsRoot(d, entries) && IsRoot(e, entries) && SamePlace(fs, d.path, e.path) ==>
                     CapturedAlike(entries, d.path, e.path)
  }

  ghost predicate PathCaptured(p: Path, entries: set<Entry>) { exists e :: e in entries && e.path == p }

  /** What lies between two captured paths is captured, as it is when directories are captured whole. */
  ghost predicate Unbroken(entries: set<Entry>) {
    forall p: Path :: LiesBelowOne(p, entries) && LeadsToOne(p, entries) ==> PathCaptured(p, entries)
  }

  /** No two outermost captured paths lead to one place, either. */
  ghost predicate PlacesApart(fs: FS, entries: set<Entry>) {
    && PlacesUnmixed(fs, entries)
    && forall d, e :: IsRoot(d, entries) && IsRoot(e, entries) && SamePlace(fs, d.path, e.path) ==> d.path == e.path
  }

  /** Every captured path leads to its item, nothing else is found by going on below one, and outside the
      places of the outermost ones only directories are new. */
  ghost predicate ReadsBack(before: FS, after: FS, entries: set<Entry>) {
    && RootsLead(before, entries)
    && (forall e :: e in entries ==> Reads(after, e.path, ItemOf(e)))
    && (forall p :: LiesBelowOne(p, entries) && Exists(after, p) ==> LeadsToOne(p, entries))
    && SameElsewhere(before, after, RootPlaces(before, entries))
  }

  // --- the roots of a restore are the outermost captured paths ---

  lemma {:induction false} OutermostIsRoot(entries: seq<Entry>, e: Entry) returns (i: nat)
    requires IsRoot(e, Members(entries))
    ensures i < |RootsOf(entries, [])| && RootsOf(entries, [])[i] == e.path
  {
    var roots := RootsOf(entries, []);
    var m :| 0 <= m < |entries| && entries[m] == e;
    EveryEntryHasARoot(entries, [], m);
    i :| 0 <= i < |roots| && roots[i] <= e.path;
    var k := EveryRootIsCaptured(entries, [], i);
    assert entries[k] in Members(entries);
  }

  lemma {:induction false} RootsLeadAlike(fs: FS, entries: seq<Entry>)
    requires ByDepth(entries) && RootsLead(fs, Members(entries))
    ensures AllPlaced(fs, RootsOf(entries, []))
    ensures InPlaces(fs, RootsOf(entries, [])) == RootPlaces(fs, Members(entries))
  {
    var roots := RootsOf(entries, []);
    forall i | 0 <= i < |roots| ensures |roots[i]| > 0 && PlaceOf(fs, roots[i]).Some?
      && PlaceOf(fs, roots[i]).value in RootPlaces(fs, Members(entries))
    {
      var e := RootIsOutermost(entries, i);
      assert IsRoot(e, Members(entries));
    }
    var places := PlacesOf(fs, roots);
    forall q | q in RootPlaces(fs, Members(entries)) ensures q in places {
      var e :| IsRoot(e, Members(entries)) && PlaceOf(fs, e.path).value == q;
      var i := OutermostIsRoot(entries, e);
      assert places[i] == q;
    }
  }

  lemma {:induction false} UnmixedIsSeparate(fs: FS, entries: seq<Entry>)
    requires ByDepth(entries) && PlacesUnmixed(fs, Members(entries))
    ensures Separate(fs, RootsOf(entries, []))
  {
    var roots := RootsOf(entries, []);
    RootsLeadAlike(fs, entries);
    var places := PlacesOf(fs, roots);
    forall i, j | 0 <= i < |places| && 0 <= j < |places| && places[i] <= places[j] ensures places[i] == places[j] {
      var d := RootIsOutermost(entries, i);
      var e := RootIsOutermost(entries, j);
      assert IsRoot(d, Members(entries)) && IsRoot(e, Members(entries));
    }
    forall i, link | 0 <= i < |roots| && Meets(fs, [], Parent(roots[i]), MAX_LINKS, link)
      ensures Apart(link, InPlaces(fs, roots))
    {
      var e := RootIsOutermost(entries, i);
      assert IsRoot(e, Members(entries)) && ComesPast(fs, e, RootPlaces(fs, Members(entries)));
    }
  }

  /** The same for the roots of a restore. */
  ghost predicate RootsAgree(fs: FS, all: seq<Path>, entries: set<Entry>)
    requires AllPlaced(fs, all)
  {
    forall i, j :: 0 <= i < |all| && 0 <= j < |all| && PlacesOf(fs, all)[i] == PlacesOf(fs, all)[j] ==>
      CapturedAlike(entries, all[i], all[j])
  }

  lemma {:induction false} PlacesAgreeAlike(fs: FS, entries: seq<Entry>)
    requires ByDepth(entries) && AllPlaced(fs, RootsOf(entries, [])) && PlacesAgree(fs, Members(entries))
    ensures RootsAgree(fs, RootsOf(entries, []), Members(entries))
  {
    var (all, places) := (RootsOf(entries, []), PlacesOf(fs, RootsOf(entries, [])));
    forall i, j | 0 <= i < |all| && 0 <= j < |all| && places[i] == places[j]
      ensures CapturedAlike(Members(entries), all[i], all[j])
    {
      var d := RootIsOutermost(entries, i);
      var e := RootIsOutermost(entries, j);
      assert IsRoot(d, Members(entries)) && IsRoot(e, Members(entries));
    }
  }

  // --- where the same was captured, the last entry at a place stands ---

  /** The last entry that leads to the place of `entries[k]`. */
  ghost predicate LastAt(before: FS, all: seq<Path>, entries: seq<Entry>, k: nat)
    requires AllPlaced(before, all) && k < |entries|
  {
    forall j :: k < j < |entries| ==>
      PlaceFor(before, all, entries[j].path) != PlaceFor(before, all, entries[k].path)
  }

  lemma {:induction false} LastThere(before: FS, all: seq<Path>, entries: seq<Entry>, k: nat) returns (l: nat)
    requires AllPlaced(before, all) && k < |entries|
    ensures l < |entries| && LastAt(before, all, entries, l)
    ensures PlaceFor(before, all, entries[l].path) == PlaceFor(before, all, entries[k].path)
    decreases |entries| - k
  {
    if LastAt(before, all, entries, k) {
      l := k;
    } else {
      var j :| k < j < |entries| && PlaceFor(before, all, entries[j].path) == PlaceFor(before, all, entries[k].path);
      l := LastThere(before, all, entries, j);
    }
  }

  /** What was captured below one of two roots that share a place was captured below the other. */
  lemma {:induction false} TwinOf(
    before: FS, all: seq<Path>, entries: set<Entry>, d: Entry, i: nat, j: nat) returns (x: Entry)
    requires AllPlaced(before, all) && RootsAgree(before, all, entries) && d in entries
    requires i < |all| && j < |all| && PlacesOf(before, all)[i] == PlacesOf(before, all)[j] && all[i] <= d.path
    ensures x in entries && x.path == all[j] + d.path[|all[i]|..] && ItemOf(x) == ItemOf(d)
  {
    assert CapturedAlike(entries, all[i], all[j]);
    x :| x in entries && x.path == all[j] + d.path[|all[i]|..] && ItemOf(x) == ItemOf(d);
  }

  lemma {:induction false} RootOf(all: seq<Path>, p: Path) returns (i: nat)
    requires BelowAny(all, p)
    ensures i < |all| && all[i] <= p
  {
    i :| 0 <= i < |all| && all[i] <= p;
  }

  /** An entry at the same place has the same item. */
  lemma {:induction false} SameItem(before: FS, all: seq<Path>, entries: seq<Entry>, d: Entry, e: Entry)
    requires BelowAny(all, d.path) && BelowAny(all, e.path) && AllPlaced(before, all)
    requires Captured(entries) && d in entries && e in entries
    requires PlaceFor(before, all, d.path) == PlaceFor(before, all, e.path)
    requires Unnested(all) && Unmixed(PlacesOf(before, all)) && RootsAgree(before, all, Members(entries))
    ensures ItemOf(d) == ItemOf(e)
  {
    var i := RootOf(all, d.path);
    var j := RootOf(all, e.path);
    PlacesTell(before, all, d.path, e.path, i, j);
    var x := TwinOf(before, all, Members(entries), d, i, j);
    assert all[j] + e.path[|all[j]|..] == e.path;
    OnePathOneEntry(entries, x, e);
  }

  lemma {:induction false} OnePathOneEntry(entries: seq<Entry>, d: Entry, e: Entry)
    requires Captured(entries) && d in entries && e in entries && d.path == e.path
    ensures d == e
  {
    var i :| 0 <= i < |entries| && entries[i] == d;
    var j :| 0 <= j < |entries| && entries[j] == e;
  }

  /** No root that comes after the last entry at a place clears it: what it captured there comes later still. */
  lemma {:induction false} LastIsNotOvertaken(
    before: FS, all: seq<Path>, entries: seq<Entry>, l: nat, j: nat)
    requires l < j < |entries| && AllPlaced(before, all) && LastAt(before, all, entries, l)
    requires Captured(entries) && ByDepth(entries) && Rooted(entries, all)
    requires Unnested(all) && Unmixed(PlacesOf(before, all)) && RootsAgree(before, all, Members(entries))
    ensures !Overtakes(before, all, entries[j], Moved(before, all, entries[l]))
  {
    var (d, e) := (entries[l], entries[j]);
    assert d in entries;
    if e.path in all && PlaceFor(before, all, e.path) <= PlaceFor(before, all, d.path) {
      var i := RootOf(all, d.path);
      var r :| 0 <= r < |all| && all[r] == e.path;
      PlacesTell(before, all, e.path, d.path, r, i);
      var x := TwinOf(before, all, Members(entries), d, i, r);
      SamePlaceLater(before, all, d.path, i, x.path, r);
      var n := NotBefore(entries, j, x);
      assert false;
    }
  }

  /** An entry at or below another comes no earlier. */
  lemma {:induction false} NotBefore(entries: seq<Entry>, j: nat, x: Entry) returns (n: nat)
    requires Captured(entries) && ByDepth(entries) && j < |entries| && x in entries && entries[j].path <= x.path
    ensures j <= n < |entries| && entries[n] == x
  {
    n :| 0 <= n < |entries| && entries[n] == x;
  }

  lemma {:induction false} SamePlaceLater(before: FS, all: seq<Path>, p: Path, i: nat, x: Path, r: nat)
    requires AllPlaced(before, all) && Unnested(all) && i < |all| && r < |all| && all[i] <= p
    requires x == all[r] + p[|all[i]|..] && PlacesOf(before, all)[i] == PlacesOf(before, all)[r]
    ensures PlaceFor(before, all, x) == PlaceFor(before, all, p)
  {
    PlaceForIs(before, all, p, i);
    PlaceForIs(before, all, x, r);
    assert x[|all[r]|..] == p[|all[i]|..];
  }

  /** At the place of every entry, its item stands in the end. */
  lemma {:induction false} ItemStands(before: FS, all: seq<Path>, entries: seq<Entry>, e: Entry)
    requires AllPlaced(before, all) && RootsOf(entries, []) == all && e in entries
    requires Captured(entries) && ByDepth(entries) && Rooted(entries, all)
    requires Unnested(all) && Unmixed(PlacesOf(before, all)) && RootsAgree(before, all, Members(entries))
    ensures Stands(StandingAfter(before, all, entries, [], {}), PlaceFor(before, all, e.path), ItemOf(e))
  {
    var k :| 0 <= k < |entries| && entries[k] == e;
    var l := LastThere(before, all, entries, k);
    forall j | l < j < |entries| ensures !Overtakes(before, all, entries[j], Moved(before, all, entries[l])) {
      LastIsNotOvertaken(before, all, entries, l, j);
    }
    LastOneStands(before, all, entries, [], {}, l);
    assert entries[l] in entries;
    SameItem(before, all, entries, entries[l], e);
    assert ItemOf(Moved(before, all, entries[l])) == ItemOf(entries[l]);
  }

  /** What leads to something that stands leads, by each path to its place, to a captured one. */
  lemma {:induction false} WhatLeadsIsCaptured(before: FS, entries: seq<Entry>, all: seq<Path>, p: Path, i: nat)
    requires AllPlaced(before, all) && i < |all| && all[i] <= p
    requires LeadsToOne(PlacesOf(before, all)[i] + p[|all[i]|..], StandingAfter(before, all, entries, [], {}))
    requires Unnested(all) && Unmixed(PlacesOf(before, all)) && Rooted(entries, all)
    requires RootsAgree(before, all, Members(entries))
    ensures LeadsToOne(p, Members(entries))
  {
    var now := StandingAfter(before, all, entries, [], {});
    var m :| m in now && PlacesOf(before, all)[i] + p[|all[i]|..] <= m.path;
    OnlyEntriesStand(before, all, entries, [], {}, m);
    var e :| e in entries && m == Moved(before, all, e);
    PlaceForIs(before, all, p, i);
    LeadsByEitherPath(before, entries, all, p, i, e);
  }

  lemma {:induction false} LeadsByEitherPath(
    before: FS, entries: seq<Entry>, all: seq<Path>, p: Path, i: nat, e: Entry)
    requires AllPlaced(before, all) && i < |all| && all[i] <= p && e in entries && BelowAny(all, e.path)
    requires PlaceFor(before, all, p) <= PlaceFor(before, all, e.path)
    requires Unnested(all) && Unmixed(PlacesOf(before, all)) && RootsAgree(before, all, Members(entries))
    ensures LeadsToOne(p, Members(entries))
  {
    var j := RootOf(all, e.path);
    PlacesTell(before, all, p, e.path, i, j);
    var x := TwinOf(before, all, Members(entries), e, j, i);
    PrefixedAlike(all[i], p[|all[i]|..], e.path[|all[j]|..]);
    assert all[i] + p[|all[i]|..] == p;
  }

  lemma {:induction false} PrefixedAlike(a: Path, s: Path, t: Path)
    requires s <= t
    ensures a + s <= a + t
  {}

  // --- the main result ---

  /** What a restore through links leaves, in terms of its roots. */
  ghost predicate Left(before: FS, after: FS, entries: seq<Entry>, all: seq<Path>) {
    && all == RootsOf(entries, []) && AllPlaced(before, all) && Rooted(entries, all)
    && Running(before, after, StandingAfter(before, all, entries, [], {}), all, all)
  }

  lemma {:induction false} RestoreLeaves(before: FS, entries: seq<Entry>)
    requires WellFormed(before) && Captured(entries) && ByDepth(entries) && PlacesUnmixed(before, Members(entries))
    requires Restored(before, entries, []).Some?
    ensures Left(before, Restored(before, entries, []).value, entries, RootsOf(entries, []))
  {
    UnmixedIsSeparate(before, entries);
    EntriesAreRooted(entries);
    NothingRunYet(before, entries);
    RunThroughLinks(before, before, {}, [], RootsOf(entries, []), entries);
  }

  lemma {:induction false} EverythingIsRead(before: FS, after: FS, entries: seq<Entry>, all: seq<Path>)
    requires Captured(entries) && ByDepth(entries) && AllPlaced(before, all)
    requires RootsAgree(before, all, Members(entries))
    requires Left(before, after, entries, all)
    ensures forall e :: e in entries ==> Reads(after, e.path, ItemOf(e))
  {
    forall e | e in entries ensures Reads(after, e.path, ItemOf(e)) {
      ItemStands(before, all, entries, e);
      StandingIsRead(before, after, StandingAfter(before, all, entries, [], {}), all, e);
    }
  }

  lemma {:induction false} StandingIsRead(before: FS, after: FS, done: set<Entry>, all: seq<Path>, e: Entry)
    requires AllPlaced(before, all) && BelowAny(all, e.path)
    requires Stands(done, PlaceFor(before, all, e.path), ItemOf(e))
    requires Running(before, after, done, all, all)
    ensures Reads(after, e.path, ItemOf(e))
  {
    var i := RootOf(all, e.path);
    RootsLeadOn(before, after, done, all, all, i);
    EntryIsRead(before, after, done, all, e, i);
  }

  /** What is found at or below a captured path is found at or below the place of its root. */
  lemma {:induction false} FoundIsPlaced(
    before: FS, after: FS, entries: seq<Entry>, all: seq<Path>, p: Path) returns (i: nat)
    requires LiesBelowOne(p, Members(entries)) && Exists(after, p) && AllPlaced(before, all)
    requires Left(before, after, entries, all)
    ensures i < |all| && all[i] <= p
    ensures LeadsToOne(PlacesOf(before, all)[i] + p[|all[i]|..], StandingAfter(before, all, entries, [], {}))
  {
    var d :| d in Members(entries) && d.path <= p;
    i := RootOf(all, d.path);
    PrefixGoesOn(all[i], d.path, p);
    var (done, q) := (StandingAfter(before, all, entries, [], {}), PlacesOf(before, all)[i]);
    RootsLeadOn(before, after, done, all, all, i);
    FoundBelow(after, all[i], q, p);
    assert BelowAny(PlacesOf(before, all), q + p[|all[i]|..]);
  }

  lemma {:induction false} NothingElseIsFound(
    before: FS, after: FS, entries: seq<Entry>, all: seq<Path>, p: Path)
    requires LiesBelowOne(p, Members(entries)) && Exists(after, p) && AllPlaced(before, all)
    requires RootsAgree(before, all, Members(entries))
    requires Left(before, after, entries, all)
    ensures LeadsToOne(p, Members(entries))
  {
    var i := FoundIsPlaced(before, after, entries, all, p);
    WhatLeadsIsCaptured(before, entries, all, p, i);
  }

  lemma {:induction false} OthersAreSame(before: FS, after: FS, done: set<Entry>, all: seq<Path>)
    requires Running(before, after, done, all, all)
    ensures SameElsewhere(before, after, InPlaces(before, all))
  {
    OutsideIsSame(before, after, done, PlacesOf(before, all), InPlaces(before, all));
  }

  /** Where outermost paths that lead to one place have captured the same, everything is read back. */
  lemma {:induction false} AgreementReadsBack(before: FS, after: FS, entries: seq<Entry>, all: seq<Path>)
    requires Captured(entries) && ByDepth(entries) && RootsLead(before, Members(entries))
    requires PlacesAgree(before, Members(entries))
    requires Left(before, after, entries, all)
    ensures ReadsBack(before, after, Members(entries))
  {
    RootsLeadAlike(before, entries);
    PlacesAgreeAlike(before, entries);
    EverythingIsRead(before, after, entries, all);
    forall p | LiesBelowOne(p, Members(entries)) && Exists(after, p) ensures LeadsToOne(p, Members(entries)) {
      NothingElseIsFound(before, after, entries, all, p);
    }
    OthersAreSame(before, after, StandingAfter(before, all, entries, [], {}), all);
  }

  /** What is read at one of two paths to a place is read at the other, and so must have been captured there. */
  lemma {:induction false} ReadAlike(after: FS, entries: set<Entry>, d: Entry, e: Entry, x: Entry, q: Path)
    requires WellFormed(after) && d in entries && e in entries && x in entries && d.path <= x.path
    requires LeadsTo(after, d.path, q) && LeadsTo(after, e.path, q)
    requires forall y :: y in entries ==> Reads(after, y.path, ItemOf(y))
    requires forall p :: LiesBelowOne(p, entries) && Exists(after, p) ==> LeadsToOne(p, entries)
    requires Unbroken(entries)
    ensures CapturedAs(entries, e.path + x.path[|d.path|..], ItemOf(x))
  {
    var s := x.path[|d.path|..];
    var p := e.path + s;
    FoundBelow(after, d.path, q, x.path);
    ResolvedBelow(after, e.path, q, s);
    assert e.path <= p && LiesBelowOne(p, entries) && Exists(after, p);
    assert LeadsToOne(p, entries) && PathCaptured(p, entries);
    var y :| y in entries && y.path == p;
    assert Reads(after, x.path, ItemOf(x)) && Reads(after, y.path, ItemOf(y));
  }

  lemma {:induction false} ReadingBackAgrees(before: FS, after: FS, entries: seq<Entry>, all: seq<Path>)
    requires ByDepth(entries) && ReadsBack(before, after, Members(entries)) && Unbroken(Members(entries))
    requires Left(before, after, entries, all)
    ensures PlacesAgree(before, Members(entries))
  {
    var members := Members(entries);
    forall d, e | IsRoot(d, members) && IsRoot(e, members) && SamePlace(before, d.path, e.path)
      ensures CapturedAlike(members, d.path, e.path)
    {
      var i := OutermostIsRoot(entries, d);
      var j := OutermostIsRoot(entries, e);
      var done := StandingAfter(before, all, entries, [], {});
      RootsLeadOn(before, after, done, all, all, i);
      RootsLeadOn(before, after, done, all, all, j);
      forall x | x in members && d.path <= x.path
        ensures CapturedAs(members, e.path + x.path[|d.path|..], ItemOf(x))
      {
        ReadAlike(after, members, d, e, x, PlacesOf(before, all)[i]);
      }
    }
  }

  /** How a restore through links can be read, in terms of what was captured. */
  ghost predicate ReadsBackAsAgreed(before: FS, after: FS, entries: set<Entry>) {
    PlacesUnmixed(before, entries) ==>
      && (PlacesAgree(before, entries) ==> ReadsBack(before, after, entries))
      && (Unbroken(entries) && ReadsBack(before, after, entries) ==> PlacesAgree(before, entries))
  }

  /** With no failing command and the places unmixed, following each captured path leads to exactly what was
      captured, whatever links lie on the way, if outermost paths that lead to one place have captured the
      same; and only if, where what lies between captured paths is captured. */
  lemma {:induction false} ReadsBackIffPlacesAgree(before: FS, entries: seq<Entry>)
    requires WellFormed(before) && Captured(entries) && ByDepth(entries) && PlacesUnmixed(before, Members(entries))
    requires Restored(before, entries, []).Some?
    ensures PlacesAgree(before, Members(entries)) ==>
      ReadsBack(before, Restored(before, entries, []).value, Members(entries))
    ensures Unbroken(Members(entries)) ==>
      (ReadsBack(before, Restored(before, entries, []).value, Members(entries))
       <==> PlacesAgree(before, Members(entries)))
  {
    var (after, all) := (Restored(before, entries, []).value, RootsOf(entries, []));
    RestoreLeaves(before, entries);
    if PlacesAgree(before, Members(entries)) {
      AgreementReadsBack(before, after, entries, all);
    } else if Unbroken(Members(entries)) && ReadsBack(before, after, Members(entries)) {
      ReadingBackAgrees(before, after, entries, all);
    }
  }

  lemma {:induction false} LikeItself(entries: set<Entry>, p: Path)
    ensures CapturedAlike(entries, p, p)
  {
    forall e | e in entries && p <= e.path ensures CapturedAs(entries, p + e.path[|p|..], ItemOf(e)) {
      assert p + e.path[|p|..] == e.path;
    }
  }

  lemma {:induction false} ApartAgrees(fs: FS, entries: set<Entry>)
    requires PlacesApart(fs, entries)
    ensures PlacesAgree(fs, entries)
  {
    forall d, e | IsRoot(d, entries) && IsRoot(e, entries) && SamePlace(fs, d.path, e.path)
      ensures CapturedAlike(entries, d.path, e.path)
    {
      LikeItself(entries, d.path);
    }
  }

  /** If all places are different too, everything is read back. */
  lemma {:induction false} RestoreReadsBack(before: FS, entries: seq<Entry>)
    requires WellFormed(before) && Captured(entries) && ByDepth(entries) && PlacesApart(before, Members(entries))
    requires Restored(before, entries, []).Some?
    ensures ReadsBack(before, Restored(before, entries, []).value, Members(entries))
  {
    ApartAgrees(before, Members(entries));
    ReadsBackIffPlacesAgree(before, entries);
  }

  lemma {:induction false} ApartIsUnnested(fs: FS, entries: seq<Entry>)
    requires ByDepth(entries) && PlacesApart(fs, Members(entries)) && AllPlaced(fs, RootsOf(entries, []))
    ensures Unnested(PlacesOf(fs, RootsOf(entries, [])))
  {
    var (all, places) := (RootsOf(entries, []), PlacesOf(fs, RootsOf(entries, [])));
    RootsAreUnnested(entries, []);
    forall i, j | 0 <= i < |places| && 0 <= j < |places| && i != j ensures !(places[i] <= places[j]) {
      var d := RootIsOutermost(entries, i);
      var e := RootIsOutermost(entries, j);
      assert IsRoot(d, Members(entries)) && IsRoot(e, Members(entries));
      assert !(all[i] <= all[j]);
    }
  }

  /** Then restoring by the captured paths is, step for step, restoring at the places they lead to. */
  lemma {:induction false} RestoredAtPlaces(before: FS, entries: seq<Entry>)
    requires WellFormed(before) && Captured(entries) && ByDepth(entries) && PlacesApart(before, Members(entries))
    requires Restored(before, entries, []).Some?
    ensures AllPlaced(before, RootsOf(entries, []))
    ensures var moved := MovedAll(before, RootsOf(entries, []), entries);
      (forall m :: m in moved ==> |m.path| > 0) && Restored(before, moved, []) == Restored(before, entries, [])
  {
    var all := RootsOf(entries, []);
    UnmixedIsSeparate(before, entries);
    ApartIsUnnested(before, entries);
    EntriesAreRooted(entries);
    RootsAreUnnested(entries, []);
    AllMovedSomewhere(before, all, entries);
    NothingRunYet(before, entries);
    RunAtPlaces(before, before, {}, [], all, entries);
    assert PlacesOf(before, []) == [];
  }

  // --- destinations without links above the captured paths are a special case ---

  ghost predicate MeetsNothing(fs: FS, at: Path, rest: Path, hops: nat) {
    forall link :: !Meets(fs, at, rest, hops, link)
  }

  lemma {:induction false} PlainWay(fs: FS, at: Path, rest: Path, hops: nat)
    requires forall k :: 0 < k <= |rest| && at + rest[..k] in fs ==> fs[at + rest[..k]].Dir?
    ensures Reach(fs, at, rest, hops) == Some(at + rest) && MeetsNothing(fs, at, rest, hops)
    decreases |rest|
  {
    if |rest| == 0 {
      assert at + rest == at;
    } else {
      var (next, more) := (at + [rest[0]], rest[1..]);
      assert rest[..1] == [rest[0]] && next + more == at + rest;
      assert next in fs ==> fs[next].Dir?;
      forall k | 0 < k <= |more| && next + more[..k] in fs ensures fs[next + more[..k]].Dir? {
        assert next + more[..k] == at + rest[..k + 1];
      }
      PlainWay(fs, next, more, hops);
    }
  }

  ghost predicate IsItsOwnPlace(fs: FS, p: Path) {
    |p| > 0 && PlaceOf(fs, p) == Some(p) && MeetsNothing(fs, [], Parent(p), MAX_LINKS)
  }

  lemma {:induction false} OnlyDirectoriesAbove(fs: FS, p: Path)
    requires |p| > 0 && forall k :: 0 < k < |p| && p[..k] in fs ==> fs[p[..k]].Dir?
    ensures IsItsOwnPlace(fs, p)
  {
    var above := Parent(p);
    forall k | 0 < k <= |above| && [] + above[..k] in fs ensures fs[[] + above[..k]].Dir? {
      assert [] + above[..k] == p[..k];
    }
    PlainWay(fs, [], above, MAX_LINKS);
    assert [] + above == above && above + [p[|above|]] == p;
  }

  lemma {:induction false} AboveRootIsDir(before: FS, after: FS, entries: set<Entry>, e: Entry, k: nat)
    requires WellFormed(after) && e.path in after && OthersUntouched(before, after, entries)
    requires IsRoot(e, entries) && 0 < k < |e.path| && e.path[..k] in before
    ensures before[e.path[..k]].Dir?
  {
    var q := e.path[..k];
    AncestorsAreDirs(after, e.path, k);
    forall d | d in entries ensures !(d.path <= q) {
      assert d.path <= q ==> d.path <= e.path;
    }
    assert !LiesBelowOne(q, entries);
  }

  lemma {:induction false} RootsAtHome(fs: FS, entries: set<Entry>)
    requires forall e :: IsRoot(e, entries) ==> IsItsOwnPlace(fs, e.path)
    ensures PlacesApart(fs, entries)
  {
    forall e | IsRoot(e, entries) ensures |e.path| > 0 && PlaceOf(fs, e.path) == Some(e.path) {
      assert IsItsOwnPlace(fs, e.path);
    }
    forall e | IsRoot(e, entries) ensures ComesPast(fs, e, RootPlaces(fs, entries)) {
      assert IsItsOwnPlace(fs, e.path);
    }
  }

  /** Where no link lies above an outermost captured path, the places are apart. */
  lemma {:induction false} PlainRootsAreApart(before: FS, entries: seq<Entry>)
    requires WellFormed(before) && Captured(entries) && ByDepth(entries) && RootsArePlain(before, Members(entries))
    requires Restored(before, entries, []).Some?
    ensures PlacesApart(before, Members(entries))
  {
    var (after, all) := (Restored(before, entries, []).value, Members(entries));
    RestoreLeavesExactlyTheCapture(before, entries);
    RestoringKeepsTheTree(before, entries, []);
    forall e | IsRoot(e, all) ensures IsItsOwnPlace(before, e.path) {
      forall k | 0 < k < |e.path| && e.path[..k] in before ensures before[e.path[..k]].Dir? {
        AboveRootIsDir(before, after, all, e, k);
      }
      OnlyDirectoriesAbove(before, e.path);
    }
    RootsAtHome(before, all);
  }

  // --- a link that does no harm, and one of which the bytes decide ---

  lemma {:induction false} LinkedPlaces(mode: nat, p: Path)
    requires EitherName(p)
    ensures PlaceOf(LinkedDirectory(mode), p) == Some(["a", "x"])
    ensures forall link :: Meets(LinkedDirectory(mode), [], Parent(p), MAX_LINKS, link) ==> link == ["b"]
  {
    var (fs, top) := (LinkedDirectory(mode), []);
    assert Linked(fs);
    Straight(fs, MAX_LINKS);
    Crossing(fs, MAX_LINKS);
    assert Parent(p) == [p[0]] && ["a"] + ["x"] == ["a", "x"] && top + [p[0]] == [p[0]];
    ResolvedIsReached(fs, [], Parent(p), MAX_LINKS);
    var target: Path := ["a"] + [p[0]][1..];
    assert target == ["a"] && top + [target[0]] == ["a"];
    assert MeetsNothing(fs, ["a"], target[1..], MAX_LINKS - 1);
    assert MeetsNothing(fs, [], target, MAX_LINKS - 1);
    assert MeetsNothing(fs, ["a"], [p[0]][1..], MAX_LINKS);
  }

  lemma {:induction false} LinkIsAbove(mode: nat, e: Entry)
    requires e.path == ["b", "x"]
    ensures !RootsArePlain(LinkedDirectory(mode), {e})
  {
    var fs := LinkedDirectory(mode);
    assert Parent(e.path) == ["b"] && ["b"][..1] == ["b"] && fs[["b"]].Link?;
    assert !NotLink(fs, ["b"]);
    assert IsRoot(e, {e});
  }

  lemma {:induction false} OneEntryIsApart(mode: nat, e: Entry)
    requires EitherName(e.path)
    ensures PlacesApart(LinkedDirectory(mode), {e})
  {
    LinkedPlaces(mode, e.path);
    assert IsRoot(e, {e}) && !(["a", "x"] <= ["b"]);
    OnePlaceIsUnmixed(LinkedDirectory(mode), {e}, e, ["a", "x"]);
  }

  lemma {:induction false} OneFileIsRestored(fs: FS, e: Entry)
    requires Linked(fs) && !e.directory && EitherName(e.path)
    ensures Restored(fs, [e], []) == Some(fs[["a", "x"] := File(e.bytes, e.mode)])
  {
    var none: seq<Path> := [];
    PlacingByEitherName(fs, e);
    assert !BelowAny(none, e.path) && [e][1..] == [];
    assert Restored(Placed(fs, e, true).value, [], none + [e.path]) == Placed(fs, e, true);
  }

  /** A file restored below a linked directory is read back by its path, though a link lies above it. */
  lemma {:induction false} HarmlessLink(mode: nat, e: Entry)
    requires e.path == ["b", "x"] && !e.directory
    ensures var fs := LinkedDirectory(mode);
      && WellFormed(fs) && Restored(fs, [e], []).Some?
      && PlacesApart(fs, {e}) && !RootsArePlain(fs, {e})
      && ReadsBack(fs, Restored(fs, [e], []).value, {e})
  {
    OneFileIsRestored(LinkedDirectory(mode), e);
    LinkIsAbove(mode, e);
    OneEntryIsApart(mode, e);
    assert Members([e]) == {e};
    RestoreReadsBack(LinkedDirectory(mode), [e]);
  }

  // --- two captured files that lead to one place ---

  /** Neither of two paths lies at or below the other. */
  predicate Beside(p: Path, q: Path) { |p| > 0 && |q| > 0 && !(p <= q) && !(q <= p) }

  ghost predicate TwoFiles(first: Entry, second: Entry) {
    !first.directory && !second.directory && Beside(first.path, second.path)
  }

  lemma {:induction false} TwoFilesAreRoots(first: Entry, second: Entry)
    requires TwoFiles(first, second)
    ensures IsRoot(first, {first, second}) && IsRoot(second, {first, second}) && Unbroken({first, second})
  {
    forall p: Path | LiesBelowOne(p, {first, second}) && LeadsToOne(p, {first, second})
      ensures PathCaptured(p, {first, second})
    {
      var d :| d in {first, second} && d.path <= p;
      var e :| e in {first, second} && p <= e.path;
      PrefixGoesOn(d.path, p, e.path);
      assert p == d.path;
    }
  }

  lemma {:induction false} TwoFilesAgree(fs: FS, first: Entry, second: Entry)
    requires TwoFiles(first, second) && SamePlace(fs, first.path, second.path)
    ensures PlacesAgree(fs, {first, second}) <==> ItemOf(first) == ItemOf(second)
  {
    var both := {first, second};
    TwoFilesAreRoots(first, second);
    if PlacesAgree(fs, both) {
      assert CapturedAlike(both, first.path, second.path);
      assert second.path + first.path[|first.path|..] == second.path;
      assert CapturedAs(both, second.path, ItemOf(first));
    }
    if ItemOf(first) == ItemOf(second) {
      forall d, e | d in both && e in both ensures CapturedAlike(both, d.path, e.path) {
        EitherIsCaptured(first, second, d, e);
      }
    }
  }

  lemma {:induction false} EitherIsCaptured(first: Entry, second: Entry, d: Entry, e: Entry)
    requires TwoFiles(first, second) && ItemOf(first) == ItemOf(second)
    requires d in {first, second} && e in {first, second}
    ensures CapturedAlike({first, second}, d.path, e.path)
  {
    forall x | x in {first, second} && d.path <= x.path
      ensures CapturedAs({first, second}, e.path + x.path[|d.path|..], ItemOf(x))
    {
      assert e.path + x.path[|d.path|..] == e.path;
    }
  }

  /** Both lead to `q`, and no link followed on the way lies in it. */
  ghost predicate LeadTo(fs: FS, entries: set<Entry>, q: Path) {
    forall e :: e in entries ==> |e.path| > 0 && PlaceOf(fs, e.path) == Some(q) && ComesPast(fs, e, {q})
  }

  lemma {:induction false} OnePlaceIsUnmixed(fs: FS, entries: set<Entry>, e: Entry, q: Path)
    requires LeadTo(fs, entries, q) && IsRoot(e, entries)
    ensures PlacesUnmixed(fs, entries)
  {
    assert RootPlaces(fs, entries) == {q} by {
      assert PlaceOf(fs, e.path).value in RootPlaces(fs, entries);
    }
  }

  lemma {:induction false} OnePlaceIsNotApart(fs: FS, entries: set<Entry>, d: Entry, e: Entry, q: Path)
    requires LeadTo(fs, entries, q) && IsRoot(d, entries) && IsRoot(e, entries) && d.path != e.path
    ensures !PlacesApart(fs, entries)
  {
    assert SamePlace(fs, d.path, e.path);
  }

  /** Two captured files that lead to one place are read back if and only if they are alike. */
  lemma {:induction false} TwoFilesInOnePlace(
    before: FS, entries: seq<Entry>, both: set<Entry>, first: Entry, second: Entry, q: Path)
    requires WellFormed(before) && Captured(entries) && ByDepth(entries) && Restored(before, entries, []).Some?
    requires Members(entries) == both == {first, second} && TwoFiles(first, second) && LeadTo(before, both, q)
    ensures !PlacesApart(before, both)
    ensures ReadsBack(before, Restored(before, entries, []).value, both) <==> ItemOf(first) == ItemOf(second)
  {
    TwoFilesAreRoots(first, second);
    assert SamePlace(before, first.path, second.path);
    OnePlaceIsUnmixed(before, both, first, q);
    OnePlaceIsNotApart(before, both, first, second, q);
    TwoFilesAgree(before, first, second);
    ReadsBackIffPlacesAgree(before, entries);
  }

  ghost predicate TwoNames(first: Entry, second: Entry) {
    !first.directory && !second.directory && first.path == ["a", "x"] && second.path == ["b", "x"]
  }

  lemma {:induction false} TwoNamesOfOnePlace(mode: nat, first: Entry, second: Entry)
    requires TwoNames(first, second)
    ensures TwoFiles(first, second) && LeadTo(LinkedDirectory(mode), {first, second}, ["a", "x"])
  {
    LinkedPlaces(mode, first.path);
    LinkedPlaces(mode, second.path);
    assert !(["a", "x"] <= ["b"]) && ["a", "x"][0] != ["b", "x"][0];
  }

  /** Where two captured paths lead to one place, it depends on what was captured whether it reads back:
      no condition on the destination and the captured paths alone can be exact. */
  lemma {:induction false} ContentsDecideInOnePlace(mode: nat, first: Entry, second: Entry)
    requires TwoNames(first, second)
    ensures !PlacesApart(LinkedDirectory(mode), {first, second})
    ensures var end := Restored(LinkedDirectory(mode), [first, second], []);
      end.Some? && (ReadsBack(LinkedDirectory(mode), end.value, {first, second}) <==> ItemOf(first) == ItemOf(second))
  {
    SecondReplacesFirst(LinkedDirectory(mode), first, second);
    TwoNamesOfOnePlace(mode, first, second);
    assert Members([first, second]) == {first, second};
    TwoFilesInOnePlace(LinkedDirectory(mode), [first, second], {first, second}, first, second, ["a", "x"]);
  }
}
