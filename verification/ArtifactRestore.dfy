/** Restoring captured artifacts into another sandbox: what the commands do to a file system that may
    hold links, and what a restore leaves at the captured paths as they are spelled. */
module ArtifactRestore {
  import opened Bytes
  import opened Wrappers

  type Path = seq<string>

  datatype Item = File(bytes: Bytes, mode: nat) | Dir(mode: nat) | Link(target: Path) | Special

  /** The root directory is always there and is not listed. */
  type FS = map<Path, Item>

  const DEFAULT_MODE: nat := 0
  const MAX_LINKS: nat := 40

  predicate DirAt(fs: FS, at: Path) { |at| == 0 || (at in fs && fs[at].Dir?) }

  predicate HasParent(fs: FS, q: Path) { |q| > 0 && DirAt(fs, q[..|q| - 1]) }

  ghost predicate WellFormed(fs: FS) {
    forall q {:trigger HasParent(fs, q)} :: q in fs ==> HasParent(fs, q)
  }

  lemma {:induction false} ParentIsThere(fs: FS, q: Path)
    requires WellFormed(fs) && q in fs
    ensures |q| > 0 && DirAt(fs, Parent(q))
  {
    assert HasParent(fs, q);
  }

  // --- the operating system's view of a path ---

  /** Where a path leads when every link on it is followed; the last part need not exist. */
  function Resolve(fs: FS, at: Path, rest: Path, hops: nat): Option<Path>
    decreases hops, |rest|
  {
    if |rest| == 0 then Some(at)
    else
      var next := at + [rest[0]];
      if next in fs && fs[next].Link? then
        if hops == 0 then None else Resolve(fs, [], fs[next].target + rest[1..], hops - 1)
      else if |rest| == 1 then Some(next)
      else if DirAt(fs, next) then Resolve(fs, next, rest[1..], hops)
      else None
  }

  function Parent(p: Path): Path
    requires |p| > 0
  {
    p[..|p| - 1]
  }

  /** The entry that a path names, without following a link at its end. */
  function Locate(fs: FS, p: Path): Option<Path>
    requires |p| > 0
  {
    match Resolve(fs, [], Parent(p), MAX_LINKS)
    case None => None
    case Some(d) => if DirAt(fs, d) then Some(d + [p[|p| - 1]]) else None
  }

  predicate IsLink(fs: FS, p: Path)
    requires |p| > 0
  {
    match Locate(fs, p) case None => false case Some(q) => q in fs && fs[q].Link?
  }

  predicate IsDir(fs: FS, p: Path) {
    match Resolve(fs, [], p, MAX_LINKS) case None => false case Some(q) => DirAt(fs, q)
  }

  predicate Exists(fs: FS, p: Path) {
    match Resolve(fs, [], p, MAX_LINKS) case None => false case Some(q) => |q| == 0 || q in fs
  }

  // --- what the commands do when nothing else goes wrong ---

  function RemoveTree(fs: FS, at: Path): FS { map q | q in fs && !(at <= q) :: fs[q] }

  /** `mkdir(parents=True, exist_ok=True)`. */
  function MakeDirs(fs: FS, p: Path): Option<FS>
    decreases |p|
  {
    if |p| == 0 then Some(fs)
    else match Locate(fs, p)
      case Some(at) => MakeDir(fs, p, at)
      case None =>
        match MakeDirs(fs, Parent(p))
        case None => None
        case Some(up) => match Locate(up, p) case None => None case Some(at) => MakeDir(up, p, at)
  }

  function MakeDir(fs: FS, p: Path, at: Path): Option<FS> {
    if at !in fs then Some(fs[at := Dir(DEFAULT_MODE)]) else if IsDir(fs, p) then Some(fs) else None
  }

  function Cleared(fs: FS, p: Path, clear: bool): FS
    requires |p| > 0
  {
    match Locate(fs, p)
    case None => fs
    case Some(at) =>
      if IsDir(fs, p) && !IsLink(fs, p) && clear then RemoveTree(fs, at)
      else if IsLink(fs, p) || (Exists(fs, p) && clear) then fs - {at}
      else fs
  }

  /** Empty the destination if asked to, drop a link at it, and make its directories. */
  function Prepared(fs: FS, p: Path, directory: bool, clear: bool): Option<FS>
    requires |p| > 0
  {
    MakeDirs(Cleared(fs, p, clear), if directory then p else Parent(p))
  }

  function Put(fs: FS, p: Path, piece: Bytes, append: bool): Option<FS> {
    match Resolve(fs, [], p, MAX_LINKS)
    case None => None
    case Some(q) =>
      if |q| == 0 then None
      else if q !in fs then Some(fs[q := File(piece, DEFAULT_MODE)])
      else match fs[q]
        case File(was, mode) => Some(fs[q := File(if append then was + piece else piece, mode)])
        case _ => None
  }

  function Moded(fs: FS, p: Path, mode: nat): Option<FS> {
    match Resolve(fs, [], p, MAX_LINKS)
    case None => None
    case Some(q) =>
      if q !in fs then None
      else match fs[q]
        case File(bytes, _) => Some(fs[q := File(bytes, mode)])
        case Dir(_) => Some(fs[q := Dir(mode)])
        case _ => None
  }

  // --- the restore ---

  datatype Entry = Entry(path: Path, directory: bool, mode: nat, bytes: Bytes)

  function ItemOf(e: Entry): Item { if e.directory then Dir(e.mode) else File(e.bytes, e.mode) }

  /** Capturing never lists a path twice, nor the root. */
  predicate Captured(entries: seq<Entry>) {
    && (forall i :: 0 <= i < |entries| ==> |entries[i].path| > 0)
    && (forall i, j :: 0 <= i < j < |entries| ==> entries[i].path != entries[j].path)
  }

  predicate BelowAny(roots: seq<Path>, p: Path) {
    exists i :: 0 <= i < |roots| && roots[i] <= p
  }

  function Placed(fs: FS, e: Entry, clear: bool): Option<FS>
    requires |e.path| > 0
  {
    match Prepared(fs, e.path, e.directory, clear)
    case None => None
    case Some(ready) =>
      match if e.directory then Some(ready) else Put(ready, e.path, e.bytes, false)
      case None => None
      case Some(written) => Moded(written, e.path, e.mode)
  }

  /** The file system after restoring `entries` in this order with no failing command. */
  function Restored(fs: FS, entries: seq<Entry>, roots: seq<Path>): Option<FS>
    requires forall e :: e in entries ==> |e.path| > 0
    decreases |entries|
  {
    if |entries| == 0 then Some(fs)
    else
      var e := entries[0];
      var clear := !BelowAny(roots, e.path);
      match Placed(fs, e, clear)
      case None => None
      case Some(next) => Restored(next, entries[1..], if clear then roots + [e.path] else roots)
  }

  function InsertByDepth(e: Entry, s: seq<Entry>): (r: seq<Entry>)
    ensures |r| == |s| + 1
    ensures forall d :: d in r <==> d == e || d in s
  {
    if |s| == 0 then [e]
    else if |e.path| <= |s[0].path| then [e] + s
    else [s[0]] + InsertByDepth(e, s[1..])
  }

  /** `sorted(entries, key=depth)`: the same entries, the shallow ones first. */
  function SortByDepth(s: seq<Entry>): (r: seq<Entry>)
    ensures |r| == |s|
    ensures forall d :: d in r <==> d in s
  {
    if |s| == 0 then [] else InsertByDepth(s[0], SortByDepth(s[1..]))
  }

  predicate ByDepth(s: seq<Entry>) {
    forall i, j :: 0 <= i < j < |s| ==> |s[i].path| <= |s[j].path|
  }

  lemma {:induction false} InsertKeepsDepthOrder(e: Entry, s: seq<Entry>)
    requires ByDepth(s)
    ensures ByDepth(InsertByDepth(e, s))
  {
    if |s| > 0 && |e.path| > |s[0].path| {
      var rest := s[1..];
      InsertKeepsDepthOrder(e, rest);
      var r := InsertByDepth(e, rest);
      forall j | 0 <= j < |r| ensures |s[0].path| <= |r[j].path| {
        assert r[j] in r;
      }
    }
  }

  lemma {:induction false} InsertKeepsCaptured(e: Entry, s: seq<Entry>)
    requires Captured(s) && |e.path| > 0 && forall d :: d in s ==> d.path != e.path
    ensures Captured(InsertByDepth(e, s))
  {
    if |s| > 0 && |e.path| > |s[0].path| {
      var rest := s[1..];
      InsertKeepsCaptured(e, rest);
      var r := InsertByDepth(e, rest);
      forall j | 0 <= j < |r| ensures s[0].path != r[j].path {
        assert r[j] in r;
        assert s[0] in s;
      }
    }
  }

  lemma {:induction false} SortedByDepth(s: seq<Entry>)
    ensures ByDepth(SortByDepth(s))
    ensures Captured(s) ==> Captured(SortByDepth(s))
  {
    if |s| > 0 {
      var rest := SortByDepth(s[1..]);
      SortedByDepth(s[1..]);
      InsertKeepsDepthOrder(s[0], rest);
      if Captured(s) {
        forall d | d in rest ensures d.path != s[0].path { assert d in s[1..]; }
        InsertKeepsCaptured(s[0], rest);
      }
    }
  }

  // --- with no link on the way, a path names the entry it spells ---

  ghost predicate NotLink(fs: FS, q: Path) { q in fs ==> !fs[q].Link? }

  ghost predicate NoLinkFrom(fs: FS, at: Path, rest: Path) {
    forall k :: 0 < k <= |rest| ==> NotLink(fs, at + rest[..k])
  }

  ghost predicate NoLinkOn(fs: FS, p: Path) {
    forall k :: 0 < k <= |p| ==> NotLink(fs, p[..k])
  }

  ghost predicate NoLinkAbove(fs: FS, p: Path)
    requires |p| > 0
  {
    NoLinkOn(fs, Parent(p))
  }

  lemma {:induction false} ResolveFromIsLexical(fs: FS, at: Path, rest: Path, hops: nat)
    requires NoLinkFrom(fs, at, rest)
    ensures Resolve(fs, at, rest, hops).Some? ==> Resolve(fs, at, rest, hops).value == at + rest
    ensures WellFormed(fs) && |rest| > 0 && at + rest in fs ==> Resolve(fs, at, rest, hops).Some?
    decreases |rest|
  {
    if |rest| == 0 {
      assert at + rest == at;
    } else {
      var next := at + [rest[0]];
      assert rest[..1] == [rest[0]] && NotLink(fs, at + rest[..1]);
      assert next + rest[1..] == at + rest;
      if |rest| > 1 {
        forall k | 0 < k <= |rest[1..]| ensures NotLink(fs, next + rest[1..][..k]) {
          assert next + rest[1..][..k] == at + rest[..k + 1];
        }
        ResolveFromIsLexical(fs, next, rest[1..], hops);
        if WellFormed(fs) && at + rest in fs {
          AncestorsAreDirs(fs, at + rest, |next|);
          assert (at + rest)[..|next|] == next;
        }
      }
    }
  }

  lemma {:induction false} AncestorsAreDirs(fs: FS, q: Path, k: nat)
    requires WellFormed(fs) && q in fs && k < |q|
    ensures DirAt(fs, q[..k])
    decreases |q|
  {
    ParentIsThere(fs, q);
    if k < |q| - 1 {
      AncestorsAreDirs(fs, Parent(q), k);
      assert Parent(q)[..k] == q[..k];
    }
  }

  lemma {:induction false} ResolveIsLexical(fs: FS, p: Path)
    requires NoLinkOn(fs, p)
    ensures Resolve(fs, [], p, MAX_LINKS).Some? ==> Resolve(fs, [], p, MAX_LINKS).value == p
    ensures WellFormed(fs) && p in fs ==> Resolve(fs, [], p, MAX_LINKS).Some?
  {
    forall k | 0 < k <= |p| ensures NotLink(fs, [] + p[..k]) { assert [] + p[..k] == p[..k]; }
    assert [] + p == p;
    ResolveFromIsLexical(fs, [], p, MAX_LINKS);
  }

  lemma {:induction false} LocateIsLexical(fs: FS, p: Path)
    requires |p| > 0 && NoLinkAbove(fs, p)
    ensures Locate(fs, p).Some? ==> Locate(fs, p).value == p && DirAt(fs, Parent(p))
    ensures WellFormed(fs) && p in fs ==> Locate(fs, p).Some?
  {
    ResolveIsLexical(fs, Parent(p));
    assert Parent(p) + [p[|p| - 1]] == p;
    if WellFormed(fs) && p in fs { ParentIsThere(fs, p); }
  }

  lemma {:induction false} NoLinkOnSplits(fs: FS, p: Path)
    requires |p| > 0
    ensures NoLinkOn(fs, p) <==> NoLinkAbove(fs, p) && NotLink(fs, p)
  {
    assert p[..|p|] == p;
    forall k | 0 < k < |p| ensures Parent(p)[..k] == p[..k] {}
    if NoLinkAbove(fs, p) && NotLink(fs, p) {
      forall k | 0 < k <= |p| ensures NotLink(fs, p[..k]) {
        if k < |p| { assert NotLink(fs, Parent(p)[..k]); }
      }
    }
    if NoLinkOn(fs, p) {
      forall k | 0 < k <= |Parent(p)| ensures NotLink(fs, Parent(p)[..k]) { assert NotLink(fs, p[..k]); }
      assert NotLink(fs, p[..|p|]);
    }
  }

  // --- what each command leaves ---

  /** Only directories on the way to `p` are new. */
  ghost predicate Grown(fs: FS, g: FS, p: Path) {
    && (forall q :: q in fs ==> q in g && g[q] == fs[q])
    && (forall q :: q in g && q !in fs ==> |q| > 0 && q <= p && g[q].Dir?)
    && DirAt(g, p)
  }

  lemma {:induction false} NoNewLinks(fs: FS, g: FS, p: Path)
    requires NoLinkOn(fs, p)
    requires forall q :: q in g && g[q].Link? ==> q in fs && g[q] == fs[q]
    ensures NoLinkOn(g, p)
  {
    forall k | 0 < k <= |p| ensures NotLink(g, p[..k]) { assert NotLink(fs, p[..k]); }
  }

  lemma {:induction false} NewDirGrows(fs: FS, p: Path)
    requires WellFormed(fs) && |p| > 0 && DirAt(fs, Parent(p)) && p !in fs
    ensures Grown(fs, fs[p := Dir(DEFAULT_MODE)], p) && WellFormed(fs[p := Dir(DEFAULT_MODE)])
  {
    ReplacingAFileIsWellFormed(fs, fs[p := Dir(DEFAULT_MODE)], p);
  }

  lemma {:induction false} MakeDirGrows(fs: FS, p: Path)
    requires WellFormed(fs) && |p| > 0 && NoLinkOn(fs, p) && Locate(fs, p).Some?
    ensures var r := MakeDir(fs, p, Locate(fs, p).value);
      r.Some? ==> Grown(fs, r.value, p) && WellFormed(r.value)
  {
    NoLinkOnSplits(fs, p);
    LocateIsLexical(fs, p);
    if p in fs { ResolveIsLexical(fs, p); } else { NewDirGrows(fs, p); }
  }

  lemma {:induction false} MakeDirsGrows(fs: FS, p: Path)
    requires WellFormed(fs) && NoLinkOn(fs, p)
    ensures MakeDirs(fs, p).Some? ==> Grown(fs, MakeDirs(fs, p).value, p) && WellFormed(MakeDirs(fs, p).value)
    decreases |p|
  {
    if |p| > 0 {
      NoLinkOnSplits(fs, p);
      if Locate(fs, p).Some? {
        MakeDirGrows(fs, p);
      } else {
        MakeDirsGrows(fs, Parent(p));
        if MakeDirs(fs, Parent(p)).Some? {
          var up := MakeDirs(fs, Parent(p)).value;
          NoNewLinks(fs, up, p);
          if Locate(up, p).Some? {
            MakeDirGrows(up, p);
            var r := MakeDir(up, p, Locate(up, p).value);
            if r.Some? { GrownTwice(fs, up, r.value, p); }
          }
        }
      }
    }
  }

  lemma {:induction false} GrownTwice(fs: FS, up: FS, g: FS, p: Path)
    requires |p| > 0 && Grown(fs, up, Parent(p)) && Grown(up, g, p)
    ensures Grown(fs, g, p)
  {
    forall q | q in g && q !in fs ensures |q| > 0 && q <= p && g[q].Dir? {
      if q in up { assert q <= Parent(p) <= p; }
    }
  }

  lemma {:induction false} ClearedEmpties(fs: FS, p: Path, clear: bool)
    requires WellFormed(fs) && |p| > 0 && NoLinkAbove(fs, p)
    ensures var g := Cleared(fs, p, clear);
      && (forall q :: q in g ==> q in fs && g[q] == fs[q])
      && (forall q :: q in fs && !(p <= q) ==> q in g)
      && NotLink(g, p)
      && (clear ==> forall q :: q in g ==> !(p <= q))
      && (!clear && NotLink(fs, p) ==> g == fs)
  {
    NoLinkOnSplits(fs, p);
    LocateIsLexical(fs, p);
    forall q | q in fs && p <= q && p != q ensures p in fs && fs[p].Dir? {
      AncestorsAreDirs(fs, q, |p|);
      assert q[..|p|] == p;
    }
    if p in fs && !fs[p].Link? {
      ResolveIsLexical(fs, p);
    } else if p !in fs {
      ResolveIsLexical(fs, p);
    }
  }

  lemma {:induction false} ClearedIsWellFormed(fs: FS, p: Path, clear: bool)
    requires WellFormed(fs) && |p| > 0 && NoLinkAbove(fs, p)
    ensures WellFormed(Cleared(fs, p, clear))
  {
    var g := Cleared(fs, p, clear);
    LocateIsLexical(fs, p);
    NoLinkOnSplits(fs, p);
    if p in fs && !fs[p].Link? { ResolveIsLexical(fs, p); }
    if p !in fs { ResolveIsLexical(fs, p); }
    forall q | q in g ensures HasParent(g, q) {
      ParentIsThere(fs, q);
      if p <= Parent(q) { assert p <= q; }
    }
  }

  ghost predicate PreparedFor(fs: FS, g: FS, p: Path, directory: bool, clear: bool)
    requires |p| > 0
  {
    && WellFormed(g)
    && NoLinkOn(g, p)
    && (forall q :: q in g ==> (q in fs && g[q] == fs[q]) || (|q| > 0 && q <= p && g[q].Dir?))
    && (forall q :: q in fs && !(p <= q) ==> q in g && g[q] == fs[q])
    && (clear ==> forall q :: q in g && p <= q ==> q == p && directory)
    && (!clear && NotLink(fs, p) ==> forall q :: q in fs ==> q in g && g[q] == fs[q])
    && DirAt(g, if directory then p else Parent(p))
  }

  lemma {:induction false} PrepareWorks(fs: FS, p: Path, directory: bool, clear: bool)
    requires WellFormed(fs) && |p| > 0 && NoLinkAbove(fs, p)
    ensures Prepared(fs, p, directory, clear).Some? ==>
      PreparedFor(fs, Prepared(fs, p, directory, clear).value, p, directory, clear)
  {
    var cleared := Cleared(fs, p, clear);
    ClearedEmpties(fs, p, clear);
    ClearedIsWellFormed(fs, p, clear);
    NoNewLinks(fs, cleared, Parent(p));
    NoLinkOnSplits(cleared, p);
    var to := if directory then p else Parent(p);
    MakeDirsGrows(cleared, to);
    if MakeDirs(cleared, to).Some? {
      var g := MakeDirs(cleared, to).value;
      NoNewLinks(cleared, g, p);
      assert to <= p;
      assert !directory ==> !(p <= to);
    }
  }

  /** What restoring one entry leaves. */
  ghost predicate PlacedIn(fs: FS, g: FS, e: Entry, clear: bool) {
    && WellFormed(g)
    && e.path in g && g[e.path] == ItemOf(e)
    && (forall q :: q in g && q != e.path ==> (q in fs && g[q] == fs[q]) || (|q| > 0 && q <= e.path && g[q].Dir?))
    && (forall q :: q in fs && !(e.path <= q) ==> q in g && g[q] == fs[q])
    && (clear ==> forall q :: q in g && e.path <= q ==> q == e.path)
    && (!clear && NotLink(fs, e.path) ==> forall q :: q in fs && q != e.path ==> q in g && g[q] == fs[q])
  }

  lemma {:induction false} ReplacingAFileIsWellFormed(fs: FS, g: FS, p: Path)
    requires WellFormed(fs) && |p| > 0 && DirAt(fs, Parent(p)) && g.Keys == fs.Keys + {p}
    requires forall q :: q in fs && q != p ==> g[q] == fs[q]
    requires p in fs && fs[p].Dir? ==> g[p].Dir?
    ensures WellFormed(g)
  {
    forall q | q in g ensures HasParent(g, q) {
      if q in fs { ParentIsThere(fs, q); }
    }
  }

  /** Once its place is ready, an entry is written there and nowhere else. */
  lemma {:induction false} WritingWorks(ready: FS, e: Entry, written: FS)
    requires NoLinkOn(ready, e.path) && |e.path| > 0 && (e.directory ==> DirAt(ready, e.path))
    requires Some(written) == if e.directory then Some(ready) else Put(ready, e.path, e.bytes, false)
    ensures Moded(written, e.path, e.mode).Some? ==> Moded(written, e.path, e.mode).value == ready[e.path := ItemOf(e)]
    ensures e.path in ready && ready[e.path].Dir? ==> e.directory
  {
    ResolveIsLexical(ready, e.path);
    NoNewLinks(ready, written, e.path);
    ResolveIsLexical(written, e.path);
  }

  lemma {:induction false} PlacingWorks(fs: FS, e: Entry, clear: bool)
    requires WellFormed(fs) && |e.path| > 0 && NoLinkAbove(fs, e.path)
    ensures Placed(fs, e, clear).Some? ==> PlacedIn(fs, Placed(fs, e, clear).value, e, clear)
  {
    if Placed(fs, e, clear).Some? {
      var p := e.path;
      var ready := Prepared(fs, p, e.directory, clear).value;
      var written := if e.directory then ready else Put(ready, p, e.bytes, false).value;
      PrepareWorks(fs, p, e.directory, clear);
      WritingWorks(ready, e, written);
      ReadyParent(ready, e);
      WrittenWhereReady(fs, ready, e, clear);
    }
  }

  lemma {:induction false} WrittenWhereReady(fs: FS, ready: FS, e: Entry, clear: bool)
    requires |e.path| > 0 && PreparedFor(fs, ready, e.path, e.directory, clear) && DirAt(ready, Parent(e.path))
    requires e.path in ready && ready[e.path].Dir? ==> e.directory
    ensures PlacedIn(fs, ready[e.path := ItemOf(e)], e, clear)
  {
    ReplacingAFileIsWellFormed(ready, ready[e.path := ItemOf(e)], e.path);
  }

  lemma {:induction false} ReadyParent(ready: FS, e: Entry)
    requires |e.path| > 0 && WellFormed(ready) && DirAt(ready, if e.directory then e.path else Parent(e.path))
    ensures DirAt(ready, Parent(e.path))
  {
    if e.directory { ParentIsThere(ready, e.path); }
  }

  // --- the whole restore ---

  ghost predicate Present(fs: FS, done: set<Entry>) {
    forall d :: d in done ==> d.path in fs && fs[d.path] == ItemOf(d)
  }

  ghost predicate LeadsToOne(q: Path, done: set<Entry>) {
    exists d :: d in done && q <= d.path
  }

  ghost predicate LiesBelowOne(q: Path, done: set<Entry>) {
    exists d :: d in done && d.path <= q
  }

  /** Below the roots, everything is a captured entry or a directory that leads to one. */
  ghost predicate NothingElseBelow(fs: FS, roots: seq<Path>, done: set<Entry>) {
    forall q :: q in fs && BelowAny(roots, q) ==> LeadsToOne(q, done)
  }

  /** Away from the captured paths, only the directories that lead to them are new. */
  ghost predicate OthersUntouched(before: FS, after: FS, done: set<Entry>) {
    && (forall q :: q in before && !LiesBelowOne(q, done) ==> q in after && after[q] == before[q])
    && (forall q :: q in after && q !in before && !LiesBelowOne(q, done) ==> after[q].Dir? && LeadsToOne(q, done))
  }

  ghost predicate OldLinksOnly(before: FS, after: FS) {
    forall q :: q in after && after[q].Link? ==> q in before && after[q] == before[q]
  }

  ghost predicate Outermost(e: Entry, entries: set<Entry>) {
    forall d :: d in entries && d.path <= e.path ==> d.path == e.path
  }

  /** No link lies above an outermost captured path. */
  ghost predicate RootsArePlain(fs: FS, entries: set<Entry>) {
    forall e :: e in entries && Outermost(e, entries) ==> |e.path| > 0 && NoLinkAbove(fs, e.path)
  }

  ghost predicate PlainRoots(fs: FS, roots: seq<Path>) {
    forall i :: 0 <= i < |roots| ==> |roots[i]| > 0 && NoLinkAbove(fs, roots[i])
  }

  ghost predicate Progress(before: FS, fs: FS, done: set<Entry>, roots: seq<Path>) {
    && WellFormed(fs) && OldLinksOnly(before, fs) && PlainRoots(before, roots)
    && Present(fs, done) && NothingElseBelow(fs, roots, done) && OthersUntouched(before, fs, done)
    && forall d :: d in done ==> BelowAny(roots, d.path)
  }

  /** Placing `e` takes the place of `d`. */
  predicate Replaces(e: Entry, clear: bool, d: Entry) { if clear then e.path <= d.path else e.path == d.path }

  /** What stands of the entries restored before, and `e`, once that is placed. */
  function Standing(done: set<Entry>, e: Entry, clear: bool): set<Entry> {
    (set d | d in done && !Replaces(e, clear, d)) + {e}
  }

  lemma {:induction false} StepKeepsEntries(
    before: FS, fs: FS, done: set<Entry>, e: Entry, clear: bool, g: FS)
    requires OldLinksOnly(before, fs) && Present(fs, done) && PlacedIn(fs, g, e, clear)
    requires !clear ==> NotLink(fs, e.path)
    ensures Present(g, Standing(done, e, clear)) && OldLinksOnly(before, g)
  {}

  /** What led to an entry that is replaced leads to `e` now. */
  lemma {:induction false} LeadsOn(q: Path, done: set<Entry>, e: Entry, clear: bool)
    requires LeadsToOne(q, done) && (clear ==> !(e.path <= q))
    ensures LeadsToOne(q, Standing(done, e, clear))
  {
    var d :| d in done && q <= d.path;
    if Replaces(e, clear, d) {
      assert q <= e.path && e in Standing(done, e, clear);
    } else {
      assert d in Standing(done, e, clear);
    }
  }

  lemma {:induction false} StepAddsNothingElse(
    fs: FS, done: set<Entry>, e: Entry, clear: bool, roots: seq<Path>, next: seq<Path>, g: FS)
    requires NothingElseBelow(fs, roots, done) && PlacedIn(fs, g, e, clear)
    requires next == if clear then roots + [e.path] else roots
    ensures NothingElseBelow(g, next, Standing(done, e, clear))
  {
    forall q | q in g && BelowAny(next, q) ensures LeadsToOne(q, Standing(done, e, clear)) {
      if q <= e.path {
        assert e in Standing(done, e, clear);
      } else {
        assert clear ==> !(e.path <= q);
        var i :| 0 <= i < |next| && next[i] <= q;
        assert BelowAny(roots, q);
        LeadsOn(q, done, e, clear);
      }
    }
  }

  lemma {:induction false} RootsCover(done: set<Entry>, e: Entry, clear: bool, roots: seq<Path>, next: seq<Path>)
    requires (forall d :: d in done ==> BelowAny(roots, d.path)) && (clear || BelowAny(roots, e.path))
    requires next == if clear then roots + [e.path] else roots
    ensures forall d :: d in Standing(done, e, clear) ==> BelowAny(next, d.path)
  {
    forall d | d in Standing(done, e, clear) ensures BelowAny(next, d.path) {
      if BelowAny(roots, d.path) {
        var i :| 0 <= i < |roots| && roots[i] <= d.path;
        assert next[i] == roots[i];
      } else {
        assert next[|roots|] == e.path;
      }
    }
  }

  /** What lies below no standing entry lay below none before, nor below `e`. */
  lemma {:induction false} LiesBelowNoneBefore(q: Path, done: set<Entry>, e: Entry, clear: bool)
    requires !LiesBelowOne(q, Standing(done, e, clear))
    ensures !(e.path <= q) && !LiesBelowOne(q, done)
  {
    assert e in Standing(done, e, clear);
    forall d | d in done ensures !(d.path <= q) {
      assert Replaces(e, clear, d) || d in Standing(done, e, clear);
    }
  }

  lemma {:induction false} StepLeavesOthers(before: FS, fs: FS, done: set<Entry>, e: Entry, clear: bool, g: FS)
    requires OthersUntouched(before, fs, done) && PlacedIn(fs, g, e, clear)
    ensures OthersUntouched(before, g, Standing(done, e, clear))
  {
    var now := Standing(done, e, clear);
    forall q | !LiesBelowOne(q, now) ensures !(e.path <= q) && !LiesBelowOne(q, done) {
      LiesBelowNoneBefore(q, done, e, clear);
    }
    forall q | q in g && q !in before && !LiesBelowOne(q, now) ensures g[q].Dir? && LeadsToOne(q, now) {
      assert e in now;
      if q in fs && g[q] == fs[q] { LeadsOn(q, done, e, clear); }
    }
  }

  /** Below a root nothing is a link: an entry is none, and what leads to one is a directory. */
  lemma {:induction false} NoLinkBelowRoots(fs: FS, done: set<Entry>, roots: seq<Path>, q: Path)
    requires WellFormed(fs) && Present(fs, done) && NothingElseBelow(fs, roots, done)
    requires BelowAny(roots, q)
    ensures NotLink(fs, q)
  {
    if q in fs { EntryOrAbove(fs, done, q); }
  }

  lemma {:induction false} EntryOrAbove(fs: FS, done: set<Entry>, q: Path)
    requires WellFormed(fs) && Present(fs, done) && q in fs && LeadsToOne(q, done)
    ensures NotLink(fs, q)
  {
    var d :| d in done && q <= d.path;
    ParentIsThere(fs, q);
    if |q| < |d.path| {
      AncestorsAreDirs(fs, d.path, |q|);
      assert d.path[..|q|] == q;
    } else {
      assert d.path == q;
    }
  }

  /** An entry may clear its place if no link lies above it, and be placed below a root in any case. */
  ghost predicate MayCome(before: FS, e: Entry, clear: bool, roots: seq<Path>) {
    |e.path| > 0 && if clear then NoLinkAbove(before, e.path) else BelowAny(roots, e.path)
  }

  lemma {:induction false} NextIsReachedPlainly(
    before: FS, fs: FS, done: set<Entry>, e: Entry, clear: bool, roots: seq<Path>)
    requires MayCome(before, e, clear, roots) && Progress(before, fs, done, roots)
    ensures NoLinkAbove(fs, e.path) && (!clear ==> NotLink(fs, e.path))
  {
    if clear {
      NoNewLinks(before, fs, Parent(e.path));
    } else {
      var i :| 0 <= i < |roots| && roots[i] <= e.path;
      var above := Parent(e.path);
      NoLinkBelowRoots(fs, done, roots, e.path);
      forall k | 0 < k <= |above| ensures NotLink(fs, above[..k]) {
        if k < |roots[i]| {
          assert above[..k] == Parent(roots[i])[..k];
          assert NotLink(before, Parent(roots[i])[..k]);
        } else {
          assert roots[i] <= above[..k];
          NoLinkBelowRoots(fs, done, roots, above[..k]);
        }
      }
    }
  }

  lemma {:induction false} NextPlaceWorks(
    before: FS, fs: FS, done: set<Entry>, e: Entry, clear: bool, roots: seq<Path>)
    requires MayCome(before, e, clear, roots) && Progress(before, fs, done, roots)
    ensures Placed(fs, e, clear).Some? ==> PlacedIn(fs, Placed(fs, e, clear).value, e, clear)
    ensures !clear ==> NotLink(fs, e.path)
  {
    NextIsReachedPlainly(before, fs, done, e, clear, roots);
    PlacingWorks(fs, e, clear);
  }

  lemma {:induction false} RootsStayPlain(before: FS, e: Entry, clear: bool, roots: seq<Path>, next: seq<Path>)
    requires PlainRoots(before, roots) && MayCome(before, e, clear, roots)
    requires next == if clear then roots + [e.path] else roots
    ensures PlainRoots(before, next)
  {}

  /** Every step, whatever it replaces, keeps the account of what stands where. */
  lemma {:induction false} StepKeepsProgress(
    before: FS, fs: FS, done: set<Entry>, e: Entry, clear: bool, roots: seq<Path>, next: seq<Path>, g: FS)
    requires MayCome(before, e, clear, roots) && PlacedIn(fs, g, e, clear) && (!clear ==> NotLink(fs, e.path))
    requires next == if clear then roots + [e.path] else roots
    requires Progress(before, fs, done, roots)
    ensures Progress(before, g, Standing(done, e, clear), next)
  {
    StepKeepsEntries(before, fs, done, e, clear, g);
    StepAddsNothingElse(fs, done, e, clear, roots, next, g);
    RootsCover(done, e, clear, roots, next);
    RootsStayPlain(before, e, clear, roots, next);
    StepLeavesOthers(before, fs, done, e, clear, g);
  }

  /** `e` may come after all of `done`: it lies at or above none of them, so all of them stand. */
  ghost predicate Follows(done: set<Entry>, e: Entry) {
    forall d :: d in done ==> !(e.path <= d.path)
  }

  lemma {:induction false} AllStand(done: set<Entry>, e: Entry, clear: bool)
    requires Follows(done, e)
    ensures Standing(done, e, clear) == done + {e}
  {}

  function Members(entries: seq<Entry>): set<Entry> { set e | e in entries }

  lemma {:induction false} OneMoreMember(done: set<Entry>, todo: seq<Entry>)
    requires |todo| > 0
    ensures (done + {todo[0]}) + Members(todo[1..]) == done + Members(todo)
    ensures done + {todo[0]} <= done + Members(todo)
  {
    assert todo == [todo[0]] + todo[1..];
  }

  lemma {:induction false} RestFollows(done: set<Entry>, todo: seq<Entry>)
    requires |todo| > 0 && Captured(todo) && ByDepth(todo) && forall i :: 0 <= i < |todo| ==> Follows(done, todo[i])
    ensures Captured(todo[1..]) && ByDepth(todo[1..])
    ensures forall i :: 0 <= i < |todo[1..]| ==> Follows(done + {todo[0]}, todo[1..][i])
  {}

  ghost predicate AtEnd(before: FS, end: Option<FS>, done: set<Entry>) {
    end.Some? ==> exists roots: seq<Path> :: Progress(before, end.value, done, roots)
  }

  /** An entry that is to clear its place is an outermost one. */
  lemma {:induction false} ClearingEntryIsOutermost(done: set<Entry>, todo: seq<Entry>, roots: seq<Path>)
    requires |todo| > 0 && ByDepth(todo) && !BelowAny(roots, todo[0].path)
    requires forall d :: d in done ==> BelowAny(roots, d.path)
    ensures Outermost(todo[0], done + Members(todo))
  {
    var e := todo[0];
    forall d | d in done + Members(todo) && d.path <= e.path ensures d.path == e.path {
      if d in done {
        assert false;
      } else {
        var j :| 0 <= j < |todo| && todo[j] == d;
        assert |d.path| >= |e.path|;
      }
    }
  }

  lemma {:induction false} RunKeepsProgress(before: FS, fs: FS, done: set<Entry>, todo: seq<Entry>, roots: seq<Path>)
    requires Progress(before, fs, done, roots) && RootsArePlain(before, done + Members(todo))
    requires Captured(todo) && ByDepth(todo) && forall i :: 0 <= i < |todo| ==> Follows(done, todo[i])
    ensures AtEnd(before, Restored(fs, todo, roots), done + Members(todo))
    decreases |todo|
  {
    if |todo| == 0 {
      assert done + Members(todo) == done;
      assert Progress(before, fs, done, roots);
    } else {
      var (e, clear) := (todo[0], !BelowAny(roots, todo[0].path));
      OneMoreMember(done, todo);
      RestFollows(done, todo);
      if Placed(fs, e, clear).Some? {
        var next := if clear then roots + [e.path] else roots;
        if clear { ClearingEntryIsOutermost(done, todo, roots); }
        assert e in done + {e};
        NextPlaceWorks(before, fs, done, e, clear, roots);
        StepKeepsProgress(before, fs, done, e, clear, roots, next, Placed(fs, e, clear).value);
        AllStand(done, e, clear);
        RunKeepsProgress(before, Placed(fs, e, clear).value, done + {e}, todo[1..], next);
      }
    }
  }

  /** The destination holds the capture and, at and below the captured paths, nothing else. */
  ghost predicate HoldsExactly(before: FS, after: FS, entries: set<Entry>) {
    && Present(after, entries)
    && (forall q :: q in after && LiesBelowOne(q, entries) ==> LeadsToOne(q, entries))
    && OthersUntouched(before, after, entries)
  }

  lemma {:induction false} EndHoldsExactly(before: FS, after: FS, entries: set<Entry>, roots: seq<Path>)
    requires Progress(before, after, entries, roots)
    ensures HoldsExactly(before, after, entries)
  {
    forall q | q in after && LiesBelowOne(q, entries) ensures LeadsToOne(q, entries) {
      var d :| d in entries && d.path <= q;
      var i :| 0 <= i < |roots| && roots[i] <= d.path;
      assert roots[i] <= q && BelowAny(roots, q);
    }
  }

  lemma {:induction false} NothingDoneYet(fs: FS)
    requires WellFormed(fs)
    ensures Progress(fs, fs, {}, [])
  {}

  lemma {:induction false} RestoreLeavesExactlyTheCapture(before: FS, entries: seq<Entry>)
    requires WellFormed(before) && Captured(entries) && ByDepth(entries) && RootsArePlain(before, Members(entries))
    requires Restored(before, entries, []).Some?
    ensures HoldsExactly(before, Restored(before, entries, []).value, Members(entries))
  {
    assert {} + Members(entries) == Members(entries);
    NothingDoneYet(before);
    RunKeepsProgress(before, before, {}, entries, []);
    var after := Restored(before, entries, []).value;
    var roots :| Progress(before, after, Members(entries), roots);
    EndHoldsExactly(before, after, Members(entries), roots);
  }

  // --- when the restore is exact ---

  /** A path whose last part is no link names the same entry whether or not links are followed. */
  lemma {:induction false} LastPartIsNoLink(fs: FS, at: Path, rest: Path, x: string, hops: nat)
    requires Resolve(fs, at, rest, hops).Some?
    requires var d := Resolve(fs, at, rest, hops).value; DirAt(fs, d) && NotLink(fs, d + [x])
    ensures Resolve(fs, at, rest + [x], hops) == Some(Resolve(fs, at, rest, hops).value + [x])
    decreases hops, |rest|
  {
    var all := rest + [x];
    assert |rest| == 0 ==> all[1..] == [];
    if |rest| > 0 {
      var next := at + [rest[0]];
      assert all[1..] == rest[1..] + [x];
      if next in fs && fs[next].Link? {
        var target := fs[next].target;
        assert target + all[1..] == (target + rest[1..]) + [x];
        LastPartIsNoLink(fs, [], target + rest[1..], x, hops - 1);
      } else {
        LastPartIsNoLink(fs, next, rest[1..], x, hops);
      }
    }
  }

  lemma {:induction false} LocatedDirectory(fs: FS, p: Path)
    requires |p| > 0 && Locate(fs, p).Some? && NotLink(fs, Locate(fs, p).value)
    ensures Resolve(fs, [], p, MAX_LINKS) == Locate(fs, p)
  {
    assert Parent(p) + [p[|p| - 1]] == p;
    LastPartIsNoLink(fs, [], Parent(p), p[|p| - 1], MAX_LINKS);
  }

  lemma {:induction false} ResolvedParentIsDir(fs: FS, at: Path, rest: Path, hops: nat)
    requires DirAt(fs, at) && |rest| > 0 && Resolve(fs, at, rest, hops).Some?
    ensures var q := Resolve(fs, at, rest, hops).value; |q| > 0 ==> DirAt(fs, Parent(q))
    decreases hops, |rest|
  {
    var next := at + [rest[0]];
    assert Parent(next) == at;
    if next in fs && fs[next].Link? {
      var through := fs[next].target + rest[1..];
      if |through| > 0 { ResolvedParentIsDir(fs, [], through, hops - 1); }
    } else if |rest| > 1 {
      ResolvedParentIsDir(fs, next, rest[1..], hops);
    }
  }

  lemma {:induction false} ClearingKeepsTheTree(fs: FS, p: Path, clear: bool)
    requires WellFormed(fs) && |p| > 0
    ensures WellFormed(Cleared(fs, p, clear))
  {
    var g := Cleared(fs, p, clear);
    if Locate(fs, p).Some? {
      var at := Locate(fs, p).value;
      if NotLink(fs, at) { LocatedDirectory(fs, p); }
      forall q | q in g ensures HasParent(g, q) {
        ParentIsThere(fs, q);
        if at <= Parent(q) { assert at <= q; }
      }
    }
  }

  lemma {:induction false} MakeDirKeepsTheTree(fs: FS, p: Path)
    requires WellFormed(fs) && |p| > 0 && Locate(fs, p).Some?
    ensures var r := MakeDir(fs, p, Locate(fs, p).value); r.Some? ==> WellFormed(r.value)
  {
    var at := Locate(fs, p).value;
    assert Parent(at) == at[..|at| - 1];
    if at !in fs { NewDirGrows(fs, at); }
  }

  lemma {:induction false} MakeDirsKeepsTheTree(fs: FS, p: Path)
    requires WellFormed(fs)
    ensures MakeDirs(fs, p).Some? ==> WellFormed(MakeDirs(fs, p).value)
    decreases |p|
  {
    if |p| > 0 {
      if Locate(fs, p).Some? {
        MakeDirKeepsTheTree(fs, p);
      } else {
        MakeDirsKeepsTheTree(fs, Parent(p));
        if MakeDirs(fs, Parent(p)).Some? {
          var up := MakeDirs(fs, Parent(p)).value;
          if Locate(up, p).Some? { MakeDirKeepsTheTree(up, p); }
        }
      }
    }
  }

  lemma {:induction false} PlacingKeepsTheTree(fs: FS, e: Entry, clear: bool)
    requires WellFormed(fs) && |e.path| > 0
    ensures Placed(fs, e, clear).Some? ==> WellFormed(Placed(fs, e, clear).value)
  {
    var p := e.path;
    ClearingKeepsTheTree(fs, p, clear);
    MakeDirsKeepsTheTree(Cleared(fs, p, clear), if e.directory then p else Parent(p));
    if Placed(fs, e, clear).Some? {
      var ready := Prepared(fs, p, e.directory, clear).value;
      var written := if e.directory then ready else Put(ready, p, e.bytes, false).value;
      if !e.directory {
        var q := Resolve(ready, [], p, MAX_LINKS).value;
        ResolvedParentIsDir(ready, [], p, MAX_LINKS);
        ReplacingAFileIsWellFormed(ready, written, q);
      }
      ModeKeepsTheTree(written, p, e.mode);
    }
  }

  lemma {:induction false} ModeKeepsTheTree(fs: FS, p: Path, mode: nat)
    requires WellFormed(fs) && Moded(fs, p, mode).Some?
    ensures WellFormed(Moded(fs, p, mode).value)
  {
    var q := Resolve(fs, [], p, MAX_LINKS).value;
    ParentIsThere(fs, q);
    ReplacingAFileIsWellFormed(fs, Moded(fs, p, mode).value, q);
  }

  lemma {:induction false} RestoringKeepsTheTree(fs: FS, todo: seq<Entry>, roots: seq<Path>)
    requires WellFormed(fs) && forall e :: e in todo ==> |e.path| > 0
    ensures Restored(fs, todo, roots).Some? ==> WellFormed(Restored(fs, todo, roots).value)
    decreases |todo|
  {
    if |todo| > 0 {
      var (e, clear) := (todo[0], !BelowAny(roots, todo[0].path));
      PlacingKeepsTheTree(fs, e, clear);
      if Placed(fs, e, clear).Some? {
        RestoringKeepsTheTree(Placed(fs, e, clear).value, todo[1..], if clear then roots + [e.path] else roots);
      }
    }
  }

  /** A link above an outermost captured path is never removed, and then the path is not there. */
  lemma {:induction false} LinkAboveStays(before: FS, after: FS, entries: set<Entry>, e: Entry)
    requires WellFormed(after) && HoldsExactly(before, after, entries)
    requires e in entries && Outermost(e, entries) && |e.path| > 0
    ensures NoLinkAbove(before, e.path)
  {
    var above := Parent(e.path);
    forall k | 0 < k <= |above| ensures NotLink(before, above[..k]) {
      assert above[..k] == e.path[..k];
      LinkOnTheWayStays(before, after, entries, e, k);
    }
  }

  lemma {:induction false} LinkOnTheWayStays(before: FS, after: FS, entries: set<Entry>, e: Entry, k: nat)
    requires WellFormed(after) && e.path in after && OthersUntouched(before, after, entries)
    requires Outermost(e, entries) && 0 < k < |e.path|
    ensures NotLink(before, e.path[..k])
  {
    var q := e.path[..k];
    AncestorsAreDirs(after, e.path, k);
    forall d | d in entries ensures !(d.path <= q) {
      assert d.path <= q ==> d.path <= e.path;
    }
    assert !LiesBelowOne(q, entries);
  }

  /** With no failing command, the destination ends up holding exactly the capture if and only if no
      link lies above an outermost captured path. */
  lemma {:induction false} ExactIffRootsArePlain(before: FS, entries: seq<Entry>)
    requires WellFormed(before) && Captured(entries) && ByDepth(entries)
    requires Restored(before, entries, []).Some?
    ensures HoldsExactly(before, Restored(before, entries, []).value, Members(entries))
       <==> RootsArePlain(before, Members(entries))
  {
    var (after, all) := (Restored(before, entries, []).value, Members(entries));
    if RootsArePlain(before, all) { RestoreLeavesExactlyTheCapture(before, entries); }
    RestoringKeepsTheTree(before, entries, []);
    if HoldsExactly(before, after, all) {
      forall e | e in all && Outermost(e, all) ensures |e.path| > 0 && NoLinkAbove(before, e.path) {
        LinkAboveStays(before, after, all, e);
      }
    }
  }

  // --- a concrete loss ---

  /** A directory `/a`, a link `/b` to it, and perhaps a file `/a/x`. */
  ghost predicate Linked(fs: FS) {
    && ["a"] in fs && fs[["a"]].Dir? && ["b"] in fs && fs[["b"]] == Link(["a"])
    && (["a", "x"] in fs ==> fs[["a", "x"]].File?)
  }

  lemma {:induction false} Straight(fs: FS, hops: nat)
    requires Linked(fs)
    ensures Resolve(fs, [], ["a"], hops) == Some(["a"])
    ensures Resolve(fs, [], ["a", "x"], hops) == Some(["a", "x"])
  {
    var top: Path := [];
    assert top + ["a"] == ["a"] && ["a"] + ["x"] == ["a", "x"];
    assert ["a", "x"][1..] == ["x"];
    assert Resolve(fs, ["a"], ["x"], hops) == Some(["a", "x"]);
  }

  lemma {:induction false} Crossing(fs: FS, hops: nat)
    requires Linked(fs) && hops > 0
    ensures Resolve(fs, [], ["b"], hops) == Some(["a"])
    ensures Resolve(fs, [], ["b", "x"], hops) == Some(["a", "x"])
  {
    var top: Path := [];
    assert top + ["b"] == ["b"];
    Straight(fs, hops - 1);
    assert ["a"] + ["b"][1..] == ["a"];
    assert ["a"] + ["b", "x"][1..] == ["a", "x"];
  }

  ghost predicate EitherName(p: Path) { p == ["a", "x"] || p == ["b", "x"] }

  lemma {:induction false} NamesAgree(fs: FS, p: Path)
    requires Linked(fs) && EitherName(p)
    ensures Resolve(fs, [], p, MAX_LINKS) == Some(["a", "x"]) && Locate(fs, p) == Some(["a", "x"])
  {
    Straight(fs, MAX_LINKS);
    Crossing(fs, MAX_LINKS);
    assert Parent(p) == [p[0]] && ["a"] + ["x"] == ["a", "x"];
  }

  lemma {:induction false} ParentsAreThere(fs: FS, p: Path)
    requires Linked(fs) && EitherName(p)
    ensures MakeDirs(fs, Parent(p)) == Some(fs)
  {
    var top: Path, up: Path := [], [p[0]];
    Straight(fs, MAX_LINKS);
    Crossing(fs, MAX_LINKS);
    assert Parent(p) == up && Parent(up) == top && top + [p[0]] == up;
    assert Locate(fs, up) == Some(up);
  }

  lemma {:induction false} ClearingByEitherName(fs: FS, p: Path)
    requires Linked(fs) && EitherName(p)
    ensures Cleared(fs, p, true) == fs - {["a", "x"]}
  {
    NamesAgree(fs, p);
    var at: Path := ["a", "x"];
    assert !IsLink(fs, p) && !IsDir(fs, p);
    assert Exists(fs, p) <==> at in fs;
    if at !in fs { assert fs - {at} == fs; }
  }

  /** Either name places the file in the same directory. */
  lemma {:induction false} PlacingByEitherName(fs: FS, e: Entry)
    requires Linked(fs) && !e.directory && EitherName(e.path)
    ensures Placed(fs, e, true) == Some(fs[["a", "x"] := File(e.bytes, e.mode)])
  {
    var at := ["a", "x"];
    var cleared := fs - {at};
    ClearingByEitherName(fs, e.path);
    NamesAgree(cleared, e.path);
    ParentsAreThere(cleared, e.path);
    var written := cleared[at := File(e.bytes, DEFAULT_MODE)];
    NamesAgree(written, e.path);
    assert written[at := File(e.bytes, e.mode)] == fs[at := File(e.bytes, e.mode)];
  }

  lemma {:induction false} SecondReplacesFirst(fs: FS, first: Entry, second: Entry)
    requires Linked(fs) && !first.directory && !second.directory
    requires first.path == ["a", "x"] && second.path == ["b", "x"]
    ensures Restored(fs, [first, second], []) == Some(fs[["a", "x"] := File(second.bytes, second.mode)])
  {
    var middle := fs[["a", "x"] := File(first.bytes, first.mode)];
    PlacingByEitherName(fs, first);
    PlacingByEitherName(middle, second);
    assert middle[["a", "x"] := File(second.bytes, second.mode)] == fs[["a", "x"] := File(second.bytes, second.mode)];
    InTwoSteps(fs, first, second, middle);
  }

  function LinkedDirectory(mode: nat): FS { map[["a"] := Dir(mode), ["b"] := Link(["a"])] }

  /** Two captured files end up in one place, through a link, and the first one's bytes are lost. */
  lemma {:induction false} LinkLosesAFile(mode: nat, one: Bytes, two: Bytes)
    requires one != two
    ensures
      var (first, second) := (Entry(["a", "x"], false, mode, one), Entry(["b", "x"], false, mode, two));
      && WellFormed(LinkedDirectory(mode))
      && Restored(LinkedDirectory(mode), [first, second], [])
           == Some(LinkedDirectory(mode)[["a", "x"] := File(two, mode)])
  {
    var (first, second) := (Entry(["a", "x"], false, mode, one), Entry(["b", "x"], false, mode, two));
    SecondReplacesFirst(LinkedDirectory(mode), first, second);
  }

  lemma {:induction false} InTwoSteps(fs: FS, first: Entry, second: Entry, middle: FS)
    requires |first.path| > 0 && |second.path| > 0 && !(first.path <= second.path)
    requires Placed(fs, first, true) == Some(middle) && Placed(middle, second, true).Some?
    ensures Restored(fs, [first, second], []) == Placed(middle, second, true)
  {
    var none: seq<Path> := [];
    assert !BelowAny(none, first.path) && !BelowAny(none + [first.path], second.path);
    assert [first, second][1..] == [second];
    assert Restored(middle, [second], none + [first.path]) == Placed(middle, second, true);
  }
}
