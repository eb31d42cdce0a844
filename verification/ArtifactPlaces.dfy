/** Restoring through links: where in the file system a captured path leads, and what can be read back
    by following the captured paths. */
module ArtifactPlaces {
  import opened Wrappers
  import opened ArtifactRestore

  // --- where a path leads ---

  /** Where a path leads when links are followed and what is missing is made. */
  function Reach(fs: FS, at: Path, rest: Path, hops: nat): Option<Path>
    decreases hops, |rest|
  {
    if |rest| == 0 then Some(at)
    else
      var next := at + [rest[0]];
      if next in fs && fs[next].Link? then
        if hops == 0 then None else Reach(fs, [], fs[next].target + rest[1..], hops - 1)
      else if next !in fs then Some(at + rest)
      else if |rest| == 1 then Some(next)
      else if DirAt(fs, next) then Reach(fs, next, rest[1..], hops)
      else None
  }

  /** A link followed on the way. */
  predicate Meets(fs: FS, at: Path, rest: Path, hops: nat, link: Path)
    decreases hops, |rest|
  {
    |rest| > 0 &&
      var next := at + [rest[0]];
      if next in fs && fs[next].Link? then
        next == link || (hops > 0 && Meets(fs, [], fs[next].target + rest[1..], hops - 1, link))
      else next in fs && DirAt(fs, next) && Meets(fs, next, rest[1..], hops, link)
  }

  /** The place a path names: its parent is followed, its last part is not. */
  function PlaceOf(fs: FS, p: Path): Option<Path>
    requires |p| > 0
  {
    match Reach(fs, [], Parent(p), MAX_LINKS)
    case None => None
    case Some(d) => Some(d + [p[|p| - 1]])
  }

  // --- Reach and Resolve ---

  lemma {:induction false} ResolvedIsReached(fs: FS, at: Path, rest: Path, hops: nat)
    requires Resolve(fs, at, rest, hops).Some?
    ensures Reach(fs, at, rest, hops) == Resolve(fs, at, rest, hops)
    decreases hops, |rest|
  {
    if |rest| > 0 {
      var next := at + [rest[0]];
      if next in fs && fs[next].Link? {
        ResolvedIsReached(fs, [], fs[next].target + rest[1..], hops - 1);
      } else if |rest| > 1 {
        ResolvedIsReached(fs, next, rest[1..], hops);
      } else {
        assert rest == [rest[0]];
      }
    }
  }

  /** What is reached and is there is resolved. */
  lemma {:induction false} ReachedIsResolved(fs: FS, at: Path, rest: Path, hops: nat)
    requires WellFormed(fs) && Reach(fs, at, rest, hops).Some?
    requires DirAt(fs, Reach(fs, at, rest, hops).value)
    ensures Resolve(fs, at, rest, hops) == Reach(fs, at, rest, hops)
    decreases hops, |rest|
  {
    if |rest| > 0 {
      var next := at + [rest[0]];
      if next in fs && fs[next].Link? {
        ReachedIsResolved(fs, [], fs[next].target + rest[1..], hops - 1);
      } else if next !in fs {
        AncestorsMissing(fs, next, at + rest);
      } else if |rest| > 1 {
        ReachedIsResolved(fs, next, rest[1..], hops);
      }
    }
  }

  /** Nothing is below a missing entry. */
  lemma {:induction false} AncestorsMissing(fs: FS, q: Path, p: Path)
    requires WellFormed(fs) && |q| > 0 && q !in fs && q <= p
    ensures p !in fs && !DirAt(fs, p)
  {
    assert p[..|q|] == q && (|q| == |p| ==> q == p);
    if p in fs && |q| < |p| { AncestorsAreDirs(fs, p, |q|); }
  }

  /** What is reached has no link on it. */
  lemma {:induction false} ReachedIsPlain(fs: FS, at: Path, rest: Path, hops: nat)
    requires WellFormed(fs) && DirAt(fs, at) && Reach(fs, at, rest, hops).Some?
    ensures NoLinkOn(fs, Reach(fs, at, rest, hops).value)
    decreases hops, |rest|
  {
    var q := Reach(fs, at, rest, hops).value;
    if |rest| == 0 {
      PlainWhenThere(fs, q);
    } else {
      var next := at + [rest[0]];
      if next in fs && fs[next].Link? {
        ReachedIsPlain(fs, [], fs[next].target + rest[1..], hops - 1);
      } else if next !in fs {
        forall k | 0 < k <= |q| ensures NotLink(fs, q[..k]) {
          if k <= |at| {
            PlainWhenThere(fs, at);
            assert q[..k] == at[..k];
          } else {
            AncestorsMissing(fs, next, q[..k]);
          }
        }
      } else if |rest| == 1 {
        PlainWhenThere(fs, next);
      } else {
        ReachedIsPlain(fs, next, rest[1..], hops);
      }
    }
  }

  lemma {:induction false} PlainWhenThere(fs: FS, q: Path)
    requires WellFormed(fs) && (|q| == 0 || (q in fs && !fs[q].Link?))
    ensures NoLinkOn(fs, q)
  {
    forall k | 0 < k <= |q| ensures NotLink(fs, q[..k]) {
      if k < |q| { AncestorsAreDirs(fs, q, k); } else { assert q[..k] == q; }
    }
  }

  // --- ways that stay ---

  /** `g` is like `f` but for what is at or below some places, and for new directories. */
  ghost predicate SameElsewhere(f: FS, g: FS, places: set<Path>) {
    forall q :: Apart(q, places) ==> SameAt(f, g, q)
  }

  ghost predicate SameAt(f: FS, g: FS, q: Path) {
    if q in f then q in g && g[q] == f[q] else q in g ==> g[q].Dir?
  }

  ghost predicate Apart(q: Path, places: set<Path>) {
    forall p :: p in places ==> !(p <= q)
  }

  /** The way leads past the places: neither its end nor a link on it lies in one. */
  ghost predicate Passes(f: FS, at: Path, rest: Path, hops: nat, places: set<Path>) {
    && Reach(f, at, rest, hops).Some? && Apart(Reach(f, at, rest, hops).value, places)
    && forall link :: Meets(f, at, rest, hops, link) ==> Apart(link, places)
  }

  /** Every part of the way is outside the places, since it leads to the end or to a link. */
  lemma {:induction false} WayIsApart(f: FS, at: Path, rest: Path, hops: nat, places: set<Path>)
    requires Passes(f, at, rest, hops, places)
    ensures Apart(at, places)
    decreases hops, |rest|
  {
    if |rest| > 0 {
      var next := at + [rest[0]];
      if next in f && f[next].Link? {
        assert Meets(f, at, rest, hops, next);
        assert at <= next;
      } else if next !in f {
        assert at <= at + rest;
      } else if |rest| == 1 {
        assert at <= next;
      } else {
        NextPasses(f, at, rest, hops, places);
        WayIsApart(f, next, rest[1..], hops, places);
        assert at <= next;
      }
    }
  }

  lemma {:induction false} NextPasses(f: FS, at: Path, rest: Path, hops: nat, places: set<Path>)
    requires Passes(f, at, rest, hops, places) && |rest| > 0 && at + [rest[0]] in f
    requires f[at + [rest[0]]].Link? || |rest| > 1
    ensures var next := at + [rest[0]];
      if f[next].Link? then hops > 0 && Passes(f, [], f[next].target + rest[1..], hops - 1, places)
      else Passes(f, next, rest[1..], hops, places)
  {
    var next := at + [rest[0]];
    if f[next].Link? {
      forall link | Meets(f, [], f[next].target + rest[1..], hops - 1, link) ensures Apart(link, places) {
        assert Meets(f, at, rest, hops, link);
      }
    } else {
      forall link | Meets(f, next, rest[1..], hops, link) ensures Apart(link, places) {
        assert Meets(f, at, rest, hops, link);
      }
    }
  }

  /** A way past the places leads to the same end after a change there. */
  lemma {:induction false} WayStays(f: FS, g: FS, at: Path, rest: Path, hops: nat, places: set<Path>)
    requires WellFormed(f) && SameElsewhere(f, g, places) && Passes(f, at, rest, hops, places)
    ensures Reach(g, at, rest, hops) == Reach(f, at, rest, hops)
    decreases hops, |rest|
  {
    if |rest| > 0 {
      var next := at + [rest[0]];
      if next in f && f[next].Link? {
        assert Meets(f, at, rest, hops, next);
        assert Apart(next, places) && SameAt(f, g, next);
        NextPasses(f, at, rest, hops, places);
        WayStays(f, g, [], f[next].target + rest[1..], hops - 1, places);
      } else if next !in f {
        NewWayIsLiteral(f, g, at, rest, hops, places);
      } else if |rest| == 1 {
        assert Apart(next, places) && SameAt(f, g, next);
      } else {
        NextPasses(f, at, rest, hops, places);
        WayIsApart(f, next, rest[1..], hops, places);
        assert SameAt(f, g, next);
        WayStays(f, g, next, rest[1..], hops, places);
      }
    }
  }

  /** Where nothing was, only directories can have come. */
  lemma {:induction false} NewWayIsLiteral(f: FS, g: FS, at: Path, rest: Path, hops: nat, places: set<Path>)
    requires WellFormed(f) && SameElsewhere(f, g, places) && |rest| > 0
    requires at + [rest[0]] !in f && Apart(at + rest, places)
    ensures Reach(g, at, rest, hops) == Some(at + rest)
    decreases |rest|
  {
    var next := at + [rest[0]];
    assert next <= at + rest && Apart(next, places) && SameAt(f, g, next);
    if next in g {
      if |rest| == 1 {
        assert rest == [rest[0]];
      } else {
        assert next + rest[1..] == at + rest;
        AncestorsMissing(f, next, next + [rest[1..][0]]);
        NewWayIsLiteral(f, g, next, rest[1..], hops, places);
      }
    }
  }

  /** Writing a file changes no way. */
  lemma {:induction false} ResolveSurvivesPut(fs: FS, at: Path, rest: Path, hops: nat, q: Path, f: Item)
    requires Resolve(fs, at, rest, hops) == Some(q) && |q| > 0
    requires (q in fs ==> fs[q].File?) && f.File?
    ensures Resolve(fs[q := f], at, rest, hops) == Some(q)
    decreases hops, |rest|
  {
    if |rest| > 0 {
      var next := at + [rest[0]];
      if next in fs && fs[next].Link? {
        ResolveSurvivesPut(fs, [], fs[next].target + rest[1..], hops - 1, q, f);
      } else if |rest| > 1 {
        ResolveSurvivesPut(fs, next, rest[1..], hops, q, f);
      }
    }
  }

  // --- placing through links ---

  /** Where a path with one more part leads: below a directory or what is missing, and not below a file. */
  ghost predicate Extends(fs: FS, d: Option<Path>, longer: Option<Path>, x: string) {
    if d.None? then longer.None?
    else
      var v := d.value;
      && (DirAt(fs, v) && NotLink(fs, v + [x]) ==> longer == Some(v + [x]))
      && (|v| > 0 && v !in fs ==> longer == Some(v + [x]))
      && (v in fs && !fs[v].Dir? ==> longer.None?)
  }

  lemma {:induction false} ReachLast(fs: FS, at: Path, rest: Path, x: string, hops: nat)
    requires WellFormed(fs) && DirAt(fs, at)
    ensures Extends(fs, Reach(fs, at, rest, hops), Reach(fs, at, rest + [x], hops), x)
    decreases hops, |rest|
  {
    if |rest| == 0 {
      assert rest + [x] == [x];
      if at in fs { ParentIsThere(fs, at); }
    } else {
      var next := at + [rest[0]];
      assert (rest + [x])[0] == rest[0] && (rest + [x])[1..] == rest[1..] + [x];
      if next in fs && fs[next].Link? {
        ReachLastThroughLink(fs, at, rest, x, hops);
      } else if next !in fs {
        AncestorsMissing(fs, next, at + rest);
        assert at + (rest + [x]) == (at + rest) + [x];
      } else if |rest| == 1 {
        ReachLastHere(fs, at, rest, x, hops);
      } else if DirAt(fs, next) {
        ReachLast(fs, next, rest[1..], x, hops);
      }
    }
  }

  lemma {:induction false} ReachLastThroughLink(fs: FS, at: Path, rest: Path, x: string, hops: nat)
    requires WellFormed(fs) && |rest| > 0 && at + [rest[0]] in fs && fs[at + [rest[0]]].Link?
    ensures Extends(fs, Reach(fs, at, rest, hops), Reach(fs, at, rest + [x], hops), x)
    decreases hops, |rest|, 0
  {
    var target := fs[at + [rest[0]]].target;
    assert (rest + [x])[0] == rest[0] && (rest + [x])[1..] == rest[1..] + [x];
    if hops > 0 {
      assert target + (rest[1..] + [x]) == (target + rest[1..]) + [x];
      ReachLast(fs, [], target + rest[1..], x, hops - 1);
    }
  }

  lemma {:induction false} ReachLastHere(fs: FS, at: Path, rest: Path, x: string, hops: nat)
    requires WellFormed(fs) && |rest| == 1 && at + [rest[0]] in fs && !fs[at + [rest[0]]].Link?
    ensures Extends(fs, Reach(fs, at, rest, hops), Reach(fs, at, rest + [x], hops), x)
  {
    var next := at + [rest[0]];
    assert (rest + [x])[0] == rest[0] && (rest + [x])[1..] == [x];
    if fs[next].Dir? && NotLink(fs, next + [x]) {
      assert Reach(fs, next, [x], hops) == Some(next + [x]);
    }
  }

  /** An entry is located at its place exactly when its parent is there. */
  lemma {:induction false} LocatedAtPlace(fs: FS, p: Path)
    requires WellFormed(fs) && |p| > 0
    ensures var d := Reach(fs, [], Parent(p), MAX_LINKS);
      Locate(fs, p) == if d.Some? && DirAt(fs, d.value) then PlaceOf(fs, p) else None
  {
    if Resolve(fs, [], Parent(p), MAX_LINKS).Some? { ResolvedIsReached(fs, [], Parent(p), MAX_LINKS); }
    var d := Reach(fs, [], Parent(p), MAX_LINKS);
    if d.Some? && DirAt(fs, d.value) { ReachedIsResolved(fs, [], Parent(p), MAX_LINKS); }
  }

  /** The same, for the place itself. */
  lemma {:induction false} PlaceIsItsOwn(fs: FS, q: Path)
    requires WellFormed(fs) && |q| > 0 && NoLinkAbove(fs, q)
    ensures Locate(fs, q) == if DirAt(fs, Parent(q)) then Some(q) else None
  {
    ResolveIsLexical(fs, Parent(q));
    assert Parent(q) + [q[|q| - 1]] == q;
  }

  ghost predicate Names(fs: FS, p: Path, q: Path) {
    |p| > 0 && |q| > 0 && PlaceOf(fs, p) == Some(q)
  }

  lemma {:induction false} NamedParent(fs: FS, p: Path, q: Path)
    requires WellFormed(fs) && Names(fs, p, q)
    ensures Reach(fs, [], Parent(p), MAX_LINKS) == Some(Parent(q)) && p[|p| - 1] == q[|q| - 1]
    ensures NoLinkAbove(fs, q)
    ensures Locate(fs, p) == Locate(fs, q)
    ensures Locate(fs, q) == if DirAt(fs, Parent(q)) then Some(q) else None
  {
    var d := Reach(fs, [], Parent(p), MAX_LINKS).value;
    assert Parent(d + [p[|p| - 1]]) == d;
    ReachedIsPlain(fs, [], Parent(p), MAX_LINKS);
    LocatedAtPlace(fs, p);
    PlaceIsItsOwn(fs, q);
  }

  lemma {:induction false} ClearedAlike(fs: FS, p: Path, q: Path, clear: bool)
    requires WellFormed(fs) && Names(fs, p, q)
    ensures Cleared(fs, p, clear) == Cleared(fs, q, clear)
  {
    NamedParent(fs, p, q);
    if Locate(fs, q).Some? {
      assert IsLink(fs, p) == IsLink(fs, q) == (q in fs && fs[q].Link?);
      if NotLink(fs, q) { LooksAlike(fs, p, q); }
    }
  }

  lemma {:induction false} LooksAlike(fs: FS, p: Path, q: Path)
    requires |p| > 0 && |q| > 0 && Locate(fs, p) == Locate(fs, q) == Some(q) && NotLink(fs, q)
    ensures IsDir(fs, p) == IsDir(fs, q) && Exists(fs, p) == Exists(fs, q)
  {
    LocatedDirectory(fs, p);
    LocatedDirectory(fs, q);
  }

  /** Making a path's directories makes those of the place it leads to. */
  lemma {:induction false} MakeDirsAtReach(c: FS, p: Path)
    requires WellFormed(c)
    ensures MakeDirs(c, p).Some? ==>
      var q := Reach(c, [], p, MAX_LINKS);
      q.Some? && MakeDirs(c, q.value) == MakeDirs(c, p)
    decreases |p|
  {
    if |p| > 0 && MakeDirs(c, p).Some? {
      var x := p[|p| - 1];
      assert Parent(p) + [x] == p;
      LocatedAtPlace(c, p);
      if Locate(c, p).Some? {
        MakeDirsWhereLocated(c, p);
      } else {
        MakeDirsAtReach(c, Parent(p));
        MakeDirsWhereMissing(c, p);
      }
    }
  }

  lemma {:induction false} MakeDirsWhereLocated(c: FS, p: Path)
    requires WellFormed(c) && |p| > 0 && Locate(c, p).Some? && MakeDirs(c, p).Some?
    ensures var q := Reach(c, [], p, MAX_LINKS);
      q.Some? && MakeDirs(c, q.value) == MakeDirs(c, p)
  {
    var at := Locate(c, p).value;
    var x := p[|p| - 1];
    assert Parent(p) + [x] == p;
    LocatedAtPlace(c, p);
    NamedParent(c, p, at);
    if at !in c {
      ReachLast(c, [], Parent(p), x, MAX_LINKS);
      assert Parent(at) + [x] == at;
    } else {
      ResolvedIsReached(c, [], p, MAX_LINKS);
      DirectoryNeedsNothing(c, Reach(c, [], p, MAX_LINKS).value);
    }
  }

  lemma {:induction false} DirectoryNeedsNothing(c: FS, q: Path)
    requires WellFormed(c) && DirAt(c, q)
    ensures MakeDirs(c, q) == Some(c)
  {
    if |q| > 0 {
      ParentIsThere(c, q);
      PlainWhenThere(c, q);
      NoLinkOnSplits(c, q);
      PlaceIsItsOwn(c, q);
      LocatedDirectory(c, q);
    }
  }

  /** A parent that was missing leads, once made, to where it would be made. */
  lemma {:induction false} MadeParentLeadsOn(c: FS, p: Path, d: Path, up: FS)
    requires WellFormed(c) && |p| > 0 && Reach(c, [], Parent(p), MAX_LINKS) == Some(d) && MakeDirs(c, d) == Some(up)
    ensures WellFormed(up) && Grown(c, up, d)
    ensures Locate(up, p) == Some(d + [p[|p| - 1]]) && Locate(up, d + [p[|p| - 1]]) == Some(d + [p[|p| - 1]])
  {
    var q := d + [p[|p| - 1]];
    assert Parent(q) == d;
    ReachedIsPlain(c, [], Parent(p), MAX_LINKS);
    MakeDirsGrows(c, d);
    GrownWayStays(c, up, Parent(p), d);
    LocatedAtPlace(up, p);
    NoNewLinks(c, up, d);
    PlaceIsItsOwn(up, q);
  }

  /** A missing parent is missing, and so is what would be below it. */
  lemma {:induction false} ParentIsMissing(c: FS, p: Path, d: Path, up: FS)
    requires WellFormed(c) && |p| > 0 && Reach(c, [], Parent(p), MAX_LINKS) == Some(d) && Locate(c, p).None?
    requires Grown(c, up, d)
    ensures var q := d + [p[|p| - 1]];
      && |d| > 0 && d !in c && q !in c && q !in up
      && Locate(c, q).None? && Reach(c, [], p, MAX_LINKS) == Some(q)
  {
    var (x, q) := (p[|p| - 1], d + [p[|p| - 1]]);
    assert Parent(p) + [x] == p && Parent(q) == d;
    LocatedAtPlace(c, p);
    ReachedIsPlain(c, [], Parent(p), MAX_LINKS);
    PlaceIsItsOwn(c, q);
    ReachLast(c, [], Parent(p), x, MAX_LINKS);
    AncestorsMissing(c, d, q);
    assert !(q <= d);
  }

  lemma {:induction false} MakeDirsWhereMissing(c: FS, p: Path)
    requires WellFormed(c) && |p| > 0 && Locate(c, p).None? && MakeDirs(c, p).Some?
    requires var d := Reach(c, [], Parent(p), MAX_LINKS);
      d.Some? && MakeDirs(c, d.value) == MakeDirs(c, Parent(p))
    ensures var q := Reach(c, [], p, MAX_LINKS);
      q.Some? && MakeDirs(c, q.value) == MakeDirs(c, p)
  {
    var d := Reach(c, [], Parent(p), MAX_LINKS).value;
    var up := MakeDirs(c, d).value;
    assert Parent(d + [p[|p| - 1]]) == d;
    MadeParentLeadsOn(c, p, d, up);
    ParentIsMissing(c, p, d, up);
  }

  lemma {:induction false} GrownWayStays(c: FS, g: FS, p: Path, made: Path)
    requires WellFormed(c) && Grown(c, g, made) && Reach(c, [], p, MAX_LINKS).Some?
    ensures Reach(g, [], p, MAX_LINKS) == Reach(c, [], p, MAX_LINKS)
  {
    forall q ensures SameAt(c, g, q) {}
    WayStays(c, g, [], p, MAX_LINKS, {});
  }

  /** Making the directories for a path makes them for its place. */
  lemma {:induction false} MadeAlike(c: FS, p: Path, q: Path, directory: bool)
    requires WellFormed(c) && Names(c, p, q) && NotLink(c, q)
    requires MakeDirs(c, if directory then p else Parent(p)).Some?
    ensures var ready := MakeDirs(c, if directory then p else Parent(p));
      MakeDirs(c, if directory then q else Parent(q)) == ready && Names(ready.value, p, q)
  {
    var (to, at) := if directory then (p, q) else (Parent(p), Parent(q));
    NamedParent(c, p, q);
    MakeDirsAtReach(c, to);
    if directory {
      assert Parent(p) + [p[|p| - 1]] == p && Parent(q) + [q[|q| - 1]] == q;
      ReachLast(c, [], Parent(p), p[|p| - 1], MAX_LINKS);
      assert |Parent(q)| == 0 || Parent(q) !in c || c[Parent(q)].Dir?;
    }
    NoLinkOnSplits(c, q);
    MakeDirsGrows(c, at);
    GrownWayStays(c, MakeDirs(c, at).value, Parent(p), at);
  }

  lemma {:induction false} PreparedAlike(fs: FS, p: Path, q: Path, directory: bool, clear: bool)
    requires WellFormed(fs) && Names(fs, p, q) && Names(Cleared(fs, q, clear), p, q)
    ensures Prepared(fs, p, directory, clear).Some? ==>
      && Prepared(fs, q, directory, clear) == Prepared(fs, p, directory, clear)
      && Names(Prepared(fs, p, directory, clear).value, p, q)
  {
    if Prepared(fs, p, directory, clear).Some? {
      ClearedAlike(fs, p, q, clear);
      NamedParent(fs, p, q);
      ClearedEmpties(fs, q, clear);
      ClearedIsWellFormed(fs, q, clear);
      MadeAlike(Cleared(fs, q, clear), p, q, directory);
    }
  }

  lemma {:induction false} ResolvedAlike(g: FS, p: Path, q: Path)
    requires WellFormed(g) && Names(g, p, q) && DirAt(g, Parent(q)) && NotLink(g, q)
    ensures Resolve(g, [], p, MAX_LINKS) == Some(q) && Resolve(g, [], q, MAX_LINKS) == Some(q)
  {
    NamedParent(g, p, q);
    LocatedDirectory(g, p);
    LocatedDirectory(g, q);
  }

  /** What is prepared for an entry at its place can be written by either path. */
  lemma {:induction false} PreparedIsResolved(fs: FS, p: Path, q: Path, directory: bool, clear: bool, g: FS)
    requires WellFormed(fs) && Names(fs, p, q) && Names(g, p, q) && Prepared(fs, q, directory, clear) == Some(g)
    ensures Resolve(g, [], p, MAX_LINKS) == Some(q) && Resolve(g, [], q, MAX_LINKS) == Some(q)
  {
    NamedParent(fs, p, q);
    PrepareWorks(fs, q, directory, clear);
    if directory { ParentIsThere(g, q); }
    NoLinkOnSplits(g, q);
    ResolvedAlike(g, p, q);
  }

  /** Restoring an entry by a path that leads to a place is restoring it at the place. */
  lemma {:induction false} PlacedAlike(fs: FS, e: Entry, q: Path, clear: bool)
    requires WellFormed(fs) && Names(fs, e.path, q) && Names(Cleared(fs, q, clear), e.path, q)
    ensures Placed(fs, e, clear).Some? ==> Placed(fs, e.(path := q), clear) == Placed(fs, e, clear)
  {
    if Prepared(fs, e.path, e.directory, clear).Some? {
      var g := Prepared(fs, e.path, e.directory, clear).value;
      PreparedAlike(fs, e.path, q, e.directory, clear);
      PreparedIsResolved(fs, e.path, q, e.directory, clear, g);
      FinishedAlike(fs, e, q, clear, g);
    }
  }

  lemma {:induction false} FinishedAlike(fs: FS, e: Entry, q: Path, clear: bool, g: FS)
    requires |e.path| > 0 && |q| > 0
    requires Prepared(fs, e.path, e.directory, clear) == Some(g) && Prepared(fs, q, e.directory, clear) == Some(g)
    requires Resolve(g, [], e.path, MAX_LINKS) == Some(q) && Resolve(g, [], q, MAX_LINKS) == Some(q)
    ensures Placed(fs, e.(path := q), clear) == Placed(fs, e, clear)
  {
    WrittenAlike(g, e, q);
  }

  lemma {:induction false} WrittenAlike(g: FS, e: Entry, q: Path)
    requires |q| > 0 && Resolve(g, [], e.path, MAX_LINKS) == Some(q) && Resolve(g, [], q, MAX_LINKS) == Some(q)
    ensures Put(g, e.path, e.bytes, false) == Put(g, q, e.bytes, false)
    ensures Put(g, q, e.bytes, false).Some? ==>
      var written := Put(g, q, e.bytes, false).value;
      Moded(written, e.path, e.mode) == Moded(written, q, e.mode)
    ensures Moded(g, e.path, e.mode) == Moded(g, q, e.mode)
  {
    if Put(g, q, e.bytes, false).Some? {
      var f := Put(g, q, e.bytes, false).value[q];
      ResolveSurvivesPut(g, [], e.path, MAX_LINKS, q, f);
      ResolveSurvivesPut(g, [], q, MAX_LINKS, q, f);
    }
  }

  // --- roots and their places ---

  /** The paths that clear their place, in turn. */
  function RootsOf(entries: seq<Entry>, roots: seq<Path>): seq<Path>
    decreases |entries|
  {
    if |entries| == 0 then roots
    else RootsOf(entries[1..], if BelowAny(roots, entries[0].path) then roots else roots + [entries[0].path])
  }

  ghost predicate Unnested(roots: seq<Path>) {
    forall i, j :: 0 <= i < |roots| && 0 <= j < |roots| && i != j ==> !(roots[i] <= roots[j])
  }

  ghost predicate AllPlaced(fs: FS, roots: seq<Path>) {
    forall i :: 0 <= i < |roots| ==> |roots[i]| > 0 && PlaceOf(fs, roots[i]).Some?
  }

  function PlacesOf(fs: FS, roots: seq<Path>): (places: seq<Path>)
    requires AllPlaced(fs, roots)
    ensures |places| == |roots|
  {
    seq(|roots|, i requires 0 <= i < |roots| => PlaceOf(fs, roots[i]).value)
  }

  /** Of two places neither lies in the other, but they may be the same. */
  ghost predicate Unmixed(places: seq<Path>) {
    forall i, j :: 0 <= i < |places| && 0 <= j < |places| && places[i] <= places[j] ==> places[i] == places[j]
  }

  /** The places of the roots are not mixed, and no link on the way to one lies in any. */
  ghost predicate Separate(fs: FS, roots: seq<Path>) {
    && AllPlaced(fs, roots) && Unmixed(PlacesOf(fs, roots))
    && forall i, link :: 0 <= i < |roots| && Meets(fs, [], Parent(roots[i]), MAX_LINKS, link) ==>
         Apart(link, InPlaces(fs, roots))
  }

  function InPlaces(fs: FS, roots: seq<Path>): set<Path>
    requires AllPlaced(fs, roots)
  {
    set p | p in PlacesOf(fs, roots)
  }

  /** Where an entry at or below a root belongs. */
  function PlaceFor(fs: FS, roots: seq<Path>, p: Path): Path
    requires AllPlaced(fs, roots)
  {
    if |roots| == 0 then p
    else if roots[0] <= p then PlaceOf(fs, roots[0]).value + p[|roots[0]|..]
    else PlaceFor(fs, roots[1..], p)
  }

  lemma {:induction false} PlaceForIs(fs: FS, roots: seq<Path>, p: Path, i: nat)
    requires AllPlaced(fs, roots) && Unnested(roots) && i < |roots| && roots[i] <= p
    ensures PlaceFor(fs, roots, p) == PlacesOf(fs, roots)[i] + p[|roots[i]|..]
  {
    if i > 0 {
      var rest := roots[1..];
      PrefixesCompare(roots[0], roots[i], p);
      assert forall j :: 0 <= j < |rest| ==> rest[j] == roots[j + 1];
      PlaceForIs(fs, rest, p, i - 1);
    }
  }

  lemma {:induction false} PrefixesCompare(a: Path, b: Path, p: Path)
    ensures a <= p && b <= p ==> a <= b || b <= a
    ensures a <= b && |b| <= |a| ==> a == b
  {}

  function Moved(fs: FS, roots: seq<Path>, e: Entry): Entry
    requires AllPlaced(fs, roots)
  {
    e.(path := PlaceFor(fs, roots, e.path))
  }

  // --- the roots of a capture ---

  ghost predicate Shallow(roots: seq<Path>, entries: seq<Entry>) {
    forall i, k :: 0 <= i < |roots| && 0 <= k < |entries| ==> |roots[i]| <= |entries[k].path|
  }

  lemma {:induction false} NextRootIsUnnested(roots: seq<Path>, r: Path)
    requires Unnested(roots) && !BelowAny(roots, r) && forall i :: 0 <= i < |roots| ==> |roots[i]| <= |r|
    ensures Unnested(roots + [r])
  {
    forall i | 0 <= i < |roots| ensures !(roots[i] <= r) && !(r <= roots[i]) {
      PrefixesCompare(r, roots[i], r);
    }
  }

  lemma {:induction false} RootsGrow(entries: seq<Entry>, roots: seq<Path>)
    ensures roots <= RootsOf(entries, roots)
    decreases |entries|
  {
    if |entries| > 0 {
      RootsGrow(entries[1..], if BelowAny(roots, entries[0].path) then roots else roots + [entries[0].path]);
    }
  }

  lemma {:induction false} StillBelow(roots: seq<Path>, more: seq<Path>, p: Path)
    requires roots <= more && BelowAny(roots, p)
    ensures BelowAny(more, p)
  {
    var i :| 0 <= i < |roots| && roots[i] <= p;
    assert more[i] == roots[i];
  }

  lemma {:induction false} RootsAreUnnested(entries: seq<Entry>, roots: seq<Path>)
    requires ByDepth(entries) && Unnested(roots) && Shallow(roots, entries)
    ensures Unnested(RootsOf(entries, roots))
    decreases |entries|
  {
    if |entries| > 0 {
      var (e, rest) := (entries[0], entries[1..]);
      assert forall k :: 0 <= k < |rest| ==> rest[k] == entries[k + 1];
      if BelowAny(roots, e.path) {
        RootsAreUnnested(rest, roots);
      } else {
        NextRootIsUnnested(roots, e.path);
        RootsAreUnnested(rest, roots + [e.path]);
      }
    }
  }

  lemma {:induction false} EveryEntryHasARoot(entries: seq<Entry>, roots: seq<Path>, k: nat)
    requires k < |entries|
    ensures BelowAny(RootsOf(entries, roots), entries[k].path)
    decreases |entries|
  {
    var e := entries[0];
    var next := if BelowAny(roots, e.path) then roots else roots + [e.path];
    if k > 0 {
      EveryEntryHasARoot(entries[1..], next, k - 1);
    } else {
      if !BelowAny(roots, e.path) { assert next[|roots|] <= e.path; }
      RootsGrow(entries[1..], next);
      StillBelow(next, RootsOf(entries, roots), e.path);
    }
  }

  lemma {:induction false} EveryRootIsCaptured(entries: seq<Entry>, roots: seq<Path>, i: nat) returns (k: nat)
    requires |roots| <= i < |RootsOf(entries, roots)|
    ensures k < |entries| && entries[k].path == RootsOf(entries, roots)[i]
    decreases |entries|
  {
    var e := entries[0];
    var next := if BelowAny(roots, e.path) then roots else roots + [e.path];
    RootsGrow(entries[1..], next);
    if i < |next| {
      assert RootsOf(entries, roots)[i] == next[i];
      k := 0;
    } else {
      k := EveryRootIsCaptured(entries[1..], next, i);
      k := k + 1;
    }
  }

  lemma {:induction false} PrefixGoesOn(a: Path, b: Path, c: Path)
    ensures a <= b && b <= c ==> a <= c
  {}

  /** The roots are the outermost captured paths. */
  lemma {:induction false} RootIsOutermost(entries: seq<Entry>, i: nat) returns (e: Entry)
    requires ByDepth(entries) && i < |RootsOf(entries, [])|
    ensures e in Members(entries) && e.path == RootsOf(entries, [])[i] && Outermost(e, Members(entries))
  {
    var roots := RootsOf(entries, []);
    var k := EveryRootIsCaptured(entries, [], i);
    e := entries[k];
    RootsAreUnnested(entries, []);
    forall d | d in Members(entries) && d.path <= e.path ensures d.path == e.path {
      NothingAboveRoot(entries, i, d);
    }
  }

  lemma {:induction false} NothingAboveRoot(entries: seq<Entry>, i: nat, d: Entry)
    requires i < |RootsOf(entries, [])| && Unnested(RootsOf(entries, []))
    requires d in entries && d.path <= RootsOf(entries, [])[i]
    ensures d.path == RootsOf(entries, [])[i]
  {
    var roots := RootsOf(entries, []);
    var m :| 0 <= m < |entries| && entries[m] == d;
    EveryEntryHasARoot(entries, [], m);
    var j :| 0 <= j < |roots| && roots[j] <= d.path;
    assert roots[j] <= roots[i];
  }

  // --- the run ---

  /** Part-way through a restore: `done` are the entries restored, at their places. */
  ghost predicate Running(before: FS, fs: FS, done: set<Entry>, roots: seq<Path>, all: seq<Path>) {
    && WellFormed(before) && Separate(before, all) && Unnested(all) && roots <= all && AllPlaced(before, roots)
    && Progress(before, fs, done, PlacesOf(before, roots))
    && forall i :: 0 <= i < |roots| ==> PlacesOf(before, roots)[i] in fs
  }

  lemma {:induction false} PrefixIsPlaced(before: FS, roots: seq<Path>, all: seq<Path>)
    requires AllPlaced(before, all) && roots <= all
    ensures AllPlaced(before, roots) && PlacesOf(before, roots) <= PlacesOf(before, all)
    ensures InPlaces(before, roots) <= InPlaces(before, all)
  {
    assert forall i :: 0 <= i < |roots| ==> roots[i] == all[i];
    var (few, many) := (PlacesOf(before, roots), PlacesOf(before, all));
    assert forall i :: 0 <= i < |few| ==> few[i] == many[i];
    assert few == many[..|few|];
  }

  lemma {:induction false} OutsideIsSame(before: FS, fs: FS, done: set<Entry>, roots: seq<Path>, places: set<Path>)
    requires OthersUntouched(before, fs, done) && forall d :: d in done ==> BelowAny(roots, d.path)
    requires forall i :: 0 <= i < |roots| ==> roots[i] in places
    ensures SameElsewhere(before, fs, places)
  {
    forall q | Apart(q, places) ensures SameAt(before, fs, q) {
      forall d | d in done ensures !(d.path <= q) {
        var i :| 0 <= i < |roots| && roots[i] <= d.path;
        assert !(roots[i] <= q);
      }
      assert !LiesBelowOne(q, done);
    }
  }

  lemma {:induction false} RootPasses(before: FS, all: seq<Path>, i: nat)
    requires Separate(before, all) && i < |all|
    ensures Passes(before, [], Parent(all[i]), MAX_LINKS, InPlaces(before, all))
  {
    var (places, d) := (PlacesOf(before, all), Reach(before, [], Parent(all[i]), MAX_LINKS).value);
    forall p | p in InPlaces(before, all) ensures !(p <= d) {
      var j :| 0 <= j < |places| && places[j] == p;
      assert d <= places[i] && |d| < |places[i]|;
      PrefixGoesOn(p, d, places[i]);
    }
  }

  /** A root still leads to its place, before and after the place is cleared. */
  lemma {:induction false} RootIsNamed(before: FS, fs: FS, done: set<Entry>, roots: seq<Path>, all: seq<Path>, i: nat)
    requires Running(before, fs, done, roots, all) && i < |all|
    ensures Names(fs, all[i], PlacesOf(before, all)[i])
    ensures Names(Cleared(fs, PlacesOf(before, all)[i], true), all[i], PlacesOf(before, all)[i])
  {
    var (r, q, places) := (all[i], PlacesOf(before, all)[i], InPlaces(before, all));
    PrefixIsPlaced(before, roots, all);
    OutsideIsSame(before, fs, done, PlacesOf(before, roots), places);
    RootPasses(before, all, i);
    WayStays(before, fs, [], Parent(r), MAX_LINKS, places);
    NamedParent(fs, r, q);
    ClearedElsewhere(before, fs, q, places);
    WayStays(before, Cleared(fs, q, true), [], Parent(r), MAX_LINKS, places);
  }

  lemma {:induction false} ClearedElsewhere(before: FS, fs: FS, q: Path, places: set<Path>)
    requires WellFormed(fs) && |q| > 0 && NoLinkAbove(fs, q) && q in places && SameElsewhere(before, fs, places)
    ensures SameElsewhere(before, Cleared(fs, q, true), places)
  {
    ClearedEmpties(fs, q, true);
    forall p | Apart(p, places) ensures SameAt(before, Cleared(fs, q, true), p) {
      assert SameAt(before, fs, p) && !(q <= p);
    }
  }

  /** From a place without links on, the way is what it is spelled. */
  lemma {:induction false} ReachBelow(fs: FS, a: Path, b: Path, d: Path)
    requires WellFormed(fs) && Reach(fs, [], a, MAX_LINKS) == Some(d)
    requires forall k :: 0 < k <= |b| ==> NotLink(fs, d + b[..k])
    ensures Reach(fs, [], a + b, MAX_LINKS).Some? ==> Reach(fs, [], a + b, MAX_LINKS).value == d + b
    decreases |b|
  {
    if |b| == 0 {
      assert a + b == a && d + b == d;
    } else {
      var (start, x) := (b[..|b| - 1], b[|b| - 1]);
      forall k | 0 < k <= |start| ensures NotLink(fs, d + start[..k]) { assert start[..k] == b[..k]; }
      ReachBelow(fs, a, start, d);
      assert (a + start) + [x] == a + b && (d + start) + [x] == d + b;
      assert b[..|b|] == b && NotLink(fs, d + b[..|b|]);
      ReachLast(fs, [], a + start, x, MAX_LINKS);
      ReachedIsPlain(fs, [], a, MAX_LINKS);
    }
  }

  lemma {:induction false} RootIsReached(fs: FS, r: Path, q: Path)
    requires WellFormed(fs) && Names(fs, r, q) && q in fs && !fs[q].Link?
    ensures Reach(fs, [], r, MAX_LINKS) == Some(q)
  {
    NamedParent(fs, r, q);
    ParentIsThere(fs, q);
    assert Parent(r) + [r[|r| - 1]] == r && Parent(q) + [q[|q| - 1]] == q;
    ReachLast(fs, [], Parent(r), r[|r| - 1], MAX_LINKS);
  }

  lemma {:induction false} NoLinkInPlace(fs: FS, done: set<Entry>, places: seq<Path>, i: nat)
    requires WellFormed(fs) && Present(fs, done) && NothingElseBelow(fs, places, done) && i < |places|
    ensures forall s: Path :: NotLink(fs, places[i] + s)
  {
    forall s: Path ensures NotLink(fs, places[i] + s) {
      assert places[i] <= places[i] + s;
      NoLinkBelowRoots(fs, done, places, places[i] + s);
    }
  }

  /** A path below one that leads to a place without links leads to below the place. */
  lemma {:induction false} BelowIsNamed(fs: FS, r: Path, q: Path, p: Path)
    requires WellFormed(fs) && Reach(fs, [], r, MAX_LINKS) == Some(q) && r <= p && p != r
    requires forall s: Path :: NotLink(fs, q + s)
    requires Reach(fs, [], Parent(p), MAX_LINKS).Some?
    ensures Names(fs, p, q + p[|r|..])
  {
    var s := p[|r|..];
    var t := s[..|s| - 1];
    assert r + t == Parent(p) && (q + t) + [p[|p| - 1]] == q + s;
    ReachBelow(fs, r, t, q);
  }

  /** An entry that can be restored has a way to its parent. */
  lemma {:induction false} PlacedHasAWay(fs: FS, e: Entry)
    requires WellFormed(fs) && |e.path| > 0 && Placed(fs, e, false).Some?
    ensures Reach(fs, [], Parent(e.path), MAX_LINKS).Some?
  {
    var p := e.path;
    LocatedAtPlace(fs, p);
    if Reach(fs, [], Parent(p), MAX_LINKS).None? {
      assert Parent(p) + [p[|p| - 1]] == p;
      MakeDirsAtReach(fs, if e.directory then p else Parent(p));
      ReachLast(fs, [], Parent(p), p[|p| - 1], MAX_LINKS);
      assert false;
    }
  }

  /** One entry, restored where its path leads: at the place of a root, or below one. */
  lemma {:induction false} StepAtRoot(
    before: FS, fs: FS, done: set<Entry>, roots: seq<Path>, all: seq<Path>, e: Entry)
    requires Running(before, fs, done, roots, all) && |roots| < |all| && all[|roots|] == e.path
    ensures var q := PlacesOf(before, all)[|roots|];
      Placed(fs, e, true).Some? ==> Placed(fs, e.(path := q), true) == Placed(fs, e, true)
  {
    RootIsNamed(before, fs, done, roots, all, |roots|);
    PlacedAlike(fs, e, PlacesOf(before, all)[|roots|], true);
  }

  /** `r` leads to `q`, which is there, and no link lies at or below `q`. */
  ghost predicate LeadsTo(fs: FS, r: Path, q: Path) {
    && q in fs && Reach(fs, [], r, MAX_LINKS) == Some(q) && Resolve(fs, [], r, MAX_LINKS) == Some(q)
    && forall t: Path :: NotLink(fs, q + t)
  }

  lemma {:induction false} RestoredRootLeads(fs: FS, done: set<Entry>, places: seq<Path>, i: nat, r: Path)
    requires WellFormed(fs) && Present(fs, done) && NothingElseBelow(fs, places, done) && i < |places|
    requires Names(fs, r, places[i]) && places[i] in fs
    ensures LeadsTo(fs, r, places[i])
  {
    NoLinkInPlace(fs, done, places, i);
    assert places[i] + [] == places[i];
    RootIsReached(fs, r, places[i]);
    ParentIsThere(fs, places[i]);
    ResolvedAlike(fs, r, places[i]);
  }

  /** Once restored, a root leads to its place, whatever else is restored. */
  lemma {:induction false} RootsLeadOn(
    before: FS, fs: FS, done: set<Entry>, roots: seq<Path>, all: seq<Path>, i: nat)
    requires i < |roots| && Running(before, fs, done, roots, all)
    ensures LeadsTo(fs, roots[i], PlacesOf(before, roots)[i])
  {
    PrefixIsPlaced(before, roots, all);
    RootIsNamed(before, fs, done, roots, all, i);
    RestoredRootLeads(fs, done, PlacesOf(before, roots), i, roots[i]);
  }

  /** Below a restored root, an entry is restored below the root's place. */
  lemma {:induction false} StepBelowRoot(fs: FS, r: Path, place: Path, e: Entry)
    requires WellFormed(fs) && LeadsTo(fs, r, place) && r <= e.path && e.path != r
    ensures var q := place + e.path[|r|..];
      Placed(fs, e, false).Some? ==> Placed(fs, e.(path := q), false) == Placed(fs, e, false)
  {
    if Placed(fs, e, false).Some? {
      var q := place + e.path[|r|..];
      PlacedHasAWay(fs, e);
      BelowIsNamed(fs, r, place, e.path);
      NothingToClear(fs, e.path, q);
      PlacedAlike(fs, e, q, false);
    }
  }

  lemma {:induction false} NothingToClear(fs: FS, p: Path, q: Path)
    requires WellFormed(fs) && Names(fs, p, q) && NotLink(fs, q)
    ensures Cleared(fs, q, false) == fs
  {
    NamedParent(fs, p, q);
    ClearedEmpties(fs, q, false);
  }

  /** Exactly the entries that clear are new roots, at their places as by their paths. */
  lemma {:induction false} ClearsAlike(before: FS, roots: seq<Path>, all: seq<Path>, p: Path)
    requires AllPlaced(before, all) && Unnested(PlacesOf(before, all)) && Unnested(all)
    requires roots <= all && AllPlaced(before, roots) && BelowAny(all, p)
    ensures BelowAny(PlacesOf(before, roots), PlaceFor(before, all, p)) <==> BelowAny(roots, p)
  {
    var (few, many) := (PlacesOf(before, roots), PlacesOf(before, all));
    PrefixIsPlaced(before, roots, all);
    var j :| 0 <= j < |all| && all[j] <= p;
    PlaceForIs(before, all, p, j);
    assert many[j] <= PlaceFor(before, all, p);
    if BelowAny(roots, p) {
      var i :| 0 <= i < |roots| && roots[i] <= p;
      PlaceForIs(before, all, p, i);
      assert few[i] <= PlaceFor(before, all, p);
    }
    if BelowAny(few, PlaceFor(before, all, p)) {
      var i :| 0 <= i < |few| && few[i] <= PlaceFor(before, all, p);
      PrefixesCompare(few[i], many[j], PlaceFor(before, all, p));
      assert few[i] == many[i] && roots[i] == all[i];
    }
  }

  /** The place of an entry: its root's, or below that. */
  lemma {:induction false} MovedRoot(before: FS, all: seq<Path>, e: Entry, i: nat)
    requires AllPlaced(before, all) && Unnested(all) && i < |all| && all[i] == e.path
    ensures Moved(before, all, e) == e.(path := PlacesOf(before, all)[i])
  {
    PlaceForIs(before, all, e.path, i);
    assert PlacesOf(before, all)[i] + [] == PlacesOf(before, all)[i];
  }

  lemma {:induction false} MovedBelow(before: FS, roots: seq<Path>, all: seq<Path>, e: Entry, i: nat)
    requires AllPlaced(before, all) && Unnested(all) && roots <= all && AllPlaced(before, roots)
    requires i < |roots| && roots[i] <= e.path
    ensures Moved(before, all, e) == e.(path := PlacesOf(before, roots)[i] + e.path[|roots[i]|..])
    ensures PlacesOf(before, roots)[i] <= Moved(before, all, e).path
  {
    PrefixIsPlaced(before, roots, all);
    PlaceForIs(before, all, e.path, i);
  }

  /** A step of the run, for a root or below one. */
  lemma {:induction false} StepThroughLinks(
    before: FS, fs: FS, done: set<Entry>, roots: seq<Path>, all: seq<Path>, e: Entry, m: Entry)
    requires AllPlaced(before, all) && m == Moved(before, all, e) && |e.path| > 0 && |m.path| > 0
    requires e.path !in roots
    requires !BelowAny(roots, e.path) ==> |roots| < |all| && all[|roots|] == e.path
    requires Running(before, fs, done, roots, all)
    ensures Placed(fs, e, !BelowAny(roots, e.path)).Some? ==>
      Placed(fs, m, !BelowAny(roots, e.path)) == Placed(fs, e, !BelowAny(roots, e.path))
  {
    if BelowAny(roots, e.path) {
      var i :| 0 <= i < |roots| && roots[i] <= e.path;
      MovedBelow(before, roots, all, e, i);
      RootsLeadOn(before, fs, done, roots, all, i);
      StepBelowRoot(fs, roots[i], PlacesOf(before, roots)[i], e);
    } else {
      MovedRoot(before, all, e, |roots|);
      StepAtRoot(before, fs, done, roots, all, e);
    }
  }

  lemma {:induction false} PlacedSomewhere(before: FS, all: seq<Path>, p: Path)
    requires AllPlaced(before, all) && Unnested(all) && BelowAny(all, p)
    ensures |PlaceFor(before, all, p)| > 0
  {
    var j :| 0 <= j < |all| && all[j] <= p;
    PlaceForIs(before, all, p, j);
  }

  lemma {:induction false} StepKeepsRunning(
    before: FS, fs: FS, done: set<Entry>, roots: seq<Path>, all: seq<Path>, e: Entry, m: Entry, next: seq<Path>)
    requires AllPlaced(before, all) && m == Moved(before, all, e) && |e.path| > 0 && e.path !in roots
    requires BelowAny(all, e.path)
    requires next == if BelowAny(roots, e.path) then roots else roots + [e.path]
    requires next <= all && Placed(fs, e, !BelowAny(roots, e.path)).Some?
    requires Running(before, fs, done, roots, all)
    ensures Running(before, Placed(fs, e, !BelowAny(roots, e.path)).value,
      Standing(done, m, !BelowAny(roots, e.path)), next, all)
  {
    var clear := !BelowAny(roots, e.path);
    var (g, places) := (Placed(fs, e, clear).value, PlacesOf(before, roots));
    if clear { assert next[|roots|] == e.path; }
    PlacedSomewhere(before, all, e.path);
    StepThroughLinks(before, fs, done, roots, all, e, m);
    PrefixIsPlaced(before, next, all);
    NextPlaces(before, roots, all, e, m, next);
    PlacedAtPlaces(before, fs, done, places, m, clear, g, PlacesOf(before, next));
    UnmixedPrefix(PlacesOf(before, next), PlacesOf(before, all));
    AllPlacesStay(fs, places, m, clear, g, PlacesOf(before, next));
  }

  lemma {:induction false} UnmixedPrefix(few: seq<Path>, many: seq<Path>)
    requires few <= many && Unmixed(many)
    ensures Unmixed(few)
  {
    assert forall i :: 0 <= i < |few| ==> few[i] == many[i];
  }

  lemma {:induction false} OneMorePlace(before: FS, roots: seq<Path>, r: Path)
    requires AllPlaced(before, roots) && AllPlaced(before, roots + [r])
    ensures |r| > 0 && PlaceOf(before, r).Some?
    ensures PlacesOf(before, roots + [r]) == PlacesOf(before, roots) + [PlaceOf(before, r).value]
  {
    var more := roots + [r];
    assert more[|roots|] == r;
    assert forall k :: 0 <= k < |roots| ==> more[k] == roots[k];
  }

  /** The places of the next roots. */
  lemma {:induction false} NextPlaces(
    before: FS, roots: seq<Path>, all: seq<Path>, e: Entry, m: Entry, next: seq<Path>)
    requires WellFormed(before) && AllPlaced(before, all) && Unnested(all) && m == Moved(before, all, e)
    requires next <= all && AllPlaced(before, roots) && AllPlaced(before, next) && |m.path| > 0
    requires next == if BelowAny(roots, e.path) then roots else roots + [e.path]
    ensures PlacesOf(before, next)
         == if BelowAny(roots, e.path) then PlacesOf(before, roots) else PlacesOf(before, roots) + [m.path]
    ensures MayCome(before, m, !BelowAny(roots, e.path), PlacesOf(before, roots))
  {
    if BelowAny(roots, e.path) {
      var i :| 0 <= i < |roots| && roots[i] <= e.path;
      MovedBelow(before, roots, all, e, i);
    } else {
      OneMorePlace(before, roots, e.path);
      assert next[|roots|] == e.path && all[|roots|] == e.path;
      MovedRoot(before, all, e, |roots|);
      NamedParent(before, e.path, m.path);
    }
  }

  lemma {:induction false} PlacedAtPlaces(
    before: FS, fs: FS, done: set<Entry>, places: seq<Path>, m: Entry, clear: bool, g: FS, next: seq<Path>)
    requires MayCome(before, m, clear, places) && next == if clear then places + [m.path] else places
    requires Placed(fs, m, clear) == Some(g)
    requires Progress(before, fs, done, places)
    ensures PlacedIn(fs, g, m, clear) && (!clear ==> NotLink(fs, m.path))
    ensures Progress(before, g, Standing(done, m, clear), next)
  {
    NextPlaceWorks(before, fs, done, m, clear, places);
    StepKeepsProgress(before, fs, done, m, clear, places, next, g);
  }

  /** A restored root stays: a later step clears the same place or another. */
  lemma {:induction false} AllPlacesStay(
    fs: FS, places: seq<Path>, m: Entry, clear: bool, g: FS, next: seq<Path>)
    requires PlacedIn(fs, g, m, clear) && (!clear ==> NotLink(fs, m.path))
    requires next == (if clear then places + [m.path] else places) && Unmixed(next)
    requires forall i :: 0 <= i < |places| ==> places[i] in fs
    ensures forall i :: 0 <= i < |next| ==> next[i] in g
  {
    forall i | 0 <= i < |places| ensures places[i] in g {
      assert next[i] == places[i];
      if clear { assert next[|places|] == m.path; }
    }
  }
}
