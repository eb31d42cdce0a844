/** The walk that collects artifacts. It reports each path once, only paths the declaration selects,
    and all of them unless one of its limits was reached. */
module ArtifactWalk {
  import opened Names
  import opened ArtifactGlob

  const MAX_DEPTH: nat := 64
  const MAX_ENTRIES: nat := 100_000

  datatype Found = Found(path: Path, directory: bool, mode: nat)

  /** The reported entry is a node of the tree, with its kind and mode. */
  ghost predicate Faithful(env: Env, path: Path, node: Node, e: Found) {
    exists rel, target ::
      && Leads(env, path, node, rel, target)
      && (target.File? || target.Dir?)
      && e == Found(path + rel, target.Dir?, target.mode)
  }

  ghost predicate Complete(env: Env, path: Path, node: Node, parts: seq<string>, seen: set<Path>) {
    forall p :: Selects(env, path, node, parts, p) ==> p in seen
  }

  /** What was reported at or below a node was reported with everything below it. */
  ghost predicate Closed(env: Env, path: Path, node: Node, seen: set<Path>) {
    forall rel, target ::
      Leads(env, path, node, rel, target) && path + rel in seen ==> Complete(env, path + rel, target, [], seen)
  }

  function Paths(es: seq<Found>): set<Path> {
    set i | 0 <= i < |es| :: es[i].path
  }

  lemma {:induction false} PathsAppend(es: seq<Found>, e: Found)
    ensures Paths(es + [e]) == Paths(es) + {e.path}
  {
    forall p | p in Paths(es) ensures p in Paths(es + [e]) {
      var i :| 0 <= i < |es| && es[i].path == p;
      assert (es + [e])[i].path == p;
    }
    assert (es + [e])[|es|] == e;
  }

  // --- facts about closure ---

  lemma {:induction false} SelectedLiesBelow(env: Env, path: Path, node: Node, parts: seq<string>, p: Path)
    requires Selects(env, path, node, parts, p)
    ensures path <= p
  {}

  /** Paths reported elsewhere do not disturb a closed subtree. */
  lemma {:induction false} ClosedElsewhere(env: Env, path: Path, node: Node, before: set<Path>, after: set<Path>)
    requires Closed(env, path, node, before) && before <= after
    requires forall p :: p in after && p !in before ==> !(path <= p)
    ensures Closed(env, path, node, after)
  {
    forall rel, target | Leads(env, path, node, rel, target) && path + rel in after
      ensures Complete(env, path + rel, target, [], after)
    {
      assert path <= path + rel;
      assert Complete(env, path + rel, target, [], before);
    }
  }

  lemma {:induction false} ClosedChild(env: Env, path: Path, node: Node, c: (string, Node), seen: set<Path>)
    requires Visible(env, path, node) && node.Dir? && node.readable && c in node.listing
    requires Closed(env, path, node, seen)
    ensures Closed(env, path + [c.0], c.1, seen)
  {
    forall rel, target | Leads(env, path + [c.0], c.1, rel, target) && (path + [c.0]) + rel in seen
      ensures Complete(env, (path + [c.0]) + rel, target, [], seen)
    {
      var longer := [c.0] + rel;
      assert longer[1..] == rel && path + longer == (path + [c.0]) + rel;
      assert Leads(env, path, node, longer, target);
    }
  }

  /** A directory is closed when its children are and, if it was reported, so was all it holds. */
  lemma {:induction false} ClosedFromChildren(env: Env, path: Path, node: Node, seen: set<Path>)
    requires path in seen ==> Complete(env, path, node, [], seen)
    requires node.Dir? && node.readable ==> forall c :: c in node.listing ==> Closed(env, path + [c.0], c.1, seen)
    ensures Closed(env, path, node, seen)
  {
    forall rel, target | Leads(env, path, node, rel, target) && path + rel in seen
      ensures Complete(env, path + rel, target, [], seen)
    {
      if |rel| == 0 {
        assert path + rel == path;
      } else {
        var c :| c in node.listing && c.0 == rel[0] && Leads(env, path + [c.0], c.1, rel[1..], target);
        assert (path + [c.0]) + rel[1..] == path + rel;
      }
    }
  }

  /** A node that cannot be seen selects nothing and is closed. */
  lemma {:induction false} NothingBehindInvisible(env: Env, path: Path, node: Node, parts: seq<string>, seen: set<Path>)
    requires !Visible(env, path, node)
    ensures Complete(env, path, node, parts, seen) && Closed(env, path, node, seen)
  {}

  // --- the limits ---

  /** How deep a tree is below its root. */
  ghost function Height(node: Node): nat
    decreases node, 1, 0
  {
    if node.Dir? then HeightOf(node, node.listing) else 0
  }

  ghost function HeightOf(folder: Node, children: seq<(string, Node)>): nat
    requires folder.Dir? && forall c :: c in children ==> c in folder.listing
    decreases folder, 0, |children|
  {
    if |children| == 0 then 0
    else
      assert children[0] in folder.listing;
      var (first, rest) := (1 + Height(children[0].1), HeightOf(folder, children[1..]));
      if first > rest then first else rest
  }

  /** How many visits a walk with `n` parts of a pattern left takes at most. */
  ghost function Cost(node: Node, n: nat): nat
    decreases node, n, 1, 0
  {
    1 + (if n > 0 then Cost(node, n - 1) else 0) + if node.Dir? then CostOf(node, node.listing, n) else 0
  }

  ghost function CostOf(folder: Node, children: seq<(string, Node)>, n: nat): nat
    requires folder.Dir? && forall c :: c in children ==> c in folder.listing
    decreases folder, n, 0, |children|
  {
    if |children| == 0 then 0
    else
      assert children[0] in folder.listing;
      Cost(children[0].1, n) + CostOf(folder, children[1..], n)
  }

  lemma {:induction false} FewerPartsCostLess(node: Node, m: nat, n: nat)
    requires m <= n
    ensures Cost(node, m) <= Cost(node, n)
    decreases n
  {
    if m < n { FewerPartsCostLess(node, m, n - 1); }
  }

  lemma {:induction false} CostOfInserted(folder: Node, c: (string, Node), children: seq<(string, Node)>, n: nat)
    requires folder.Dir? && c in folder.listing && forall d :: d in children ==> d in folder.listing
    ensures CostOf(folder, Insert(c, children), n) == Cost(c.1, n) + CostOf(folder, children, n)
  {
    if |children| > 0 {
      var all := Insert(c, children);
      if AtMost(c.0, children[0].0) {
        assert all[1..] == children;
      } else {
        CostOfInserted(folder, c, children[1..], n);
        assert all[1..] == Insert(c, children[1..]);
      }
    }
  }

  lemma {:induction false} CostOfSorted(folder: Node, children: seq<(string, Node)>, n: nat)
    requires folder.Dir? && forall c :: c in children ==> c in folder.listing
    ensures CostOf(folder, SortByName(children), n) == CostOf(folder, children, n)
  {
    if |children| > 0 {
      CostOfSorted(folder, children[1..], n);
      CostOfInserted(folder, children[0], SortByName(children[1..]), n);
    }
  }

  lemma {:induction false} CostOfRest(folder: Node, children: seq<(string, Node)>, i: nat, n: nat)
    requires folder.Dir? && (forall c :: c in children ==> c in folder.listing) && i < |children|
    ensures CostOf(folder, children[i..], n) == Cost(children[i].1, n) + CostOf(folder, children[i + 1..], n)
  {
    assert children[i..][1..] == children[i + 1..];
  }

  lemma {:induction false} ChildIsLower(folder: Node, children: seq<(string, Node)>, c: (string, Node))
    requires folder.Dir? && (forall d :: d in children ==> d in folder.listing) && c in children
    ensures HeightOf(folder, children) >= 1 + Height(c.1)
  {
    if c != children[0] { ChildIsLower(folder, children[1..], c); }
  }

  // --- the walker ---

  class Walker {
    const env: Env
    var entries: seq<Found>
    var seen: set<Path>
    var visited: nat
    var truncated: bool

    constructor (env: Env)
      ensures this.env == env && entries == [] && seen == {} && visited == 0 && !truncated
    {
      this.env := env;
      entries, seen, visited, truncated := [], {}, 0, false;
    }

    /** Each path is reported once, for a visit of its own, and none too deep or too many. */
    ghost predicate Tidy()
      reads this
    {
      && seen == Paths(entries)
      && Limited(entries, visited)
      && (forall i, j :: 0 <= i < j < |entries| ==> entries[i].path != entries[j].path)
    }

    /** `aborted` is the ValueError of the entry limit. */
    method Visit(path: Path, node: Node, parts: seq<string>, depth: nat) returns (aborted: bool)
      requires Tidy() && UniqueNames(node) && depth == |path|
      requires truncated || Closed(env, path, node, seen)
      modifies this`entries, this`seen, this`visited, this`truncated
      ensures Tidy() && old(entries) <= entries && (old(truncated) ==> truncated)
      ensures old(seen) <= seen && forall p :: p in seen && p !in old(seen) ==> Selects(env, path, node, parts, p)
      ensures forall i :: |old(entries)| <= i < |entries| ==> Faithful(env, path, node, entries[i])
      ensures !aborted && !truncated ==> Complete(env, path, node, parts, seen) && Closed(env, path, node, seen)
      ensures aborted ==> visited > MAX_ENTRIES
      ensures visited <= old(visited) + Cost(node, |parts|)
      ensures truncated && !old(truncated) ==> depth + Height(node) > MAX_DEPTH
      decreases node, |parts|, 3
    {
      if |path| > 0 && Excluded(env, path) {
        NothingBehindInvisible(env, path, node, parts, seen);
        return false;
      }
      visited := visited + 1;
      if depth > MAX_DEPTH {
        truncated := true;
        return false;
      }
      if visited > MAX_ENTRIES {
        return true;
      }
      if node.Unreadable? || node.Link? {
        NothingBehindInvisible(env, path, node, parts, seen);
        return false;
      }
      if |parts| == 0 {
        aborted := VisitSelected(path, node, depth);
      } else {
        aborted := VisitMatching(path, node, parts, depth);
      }
    }

    /** Add one entry. */
    method Report(e: Found)
      requires Tidy() && e.path !in seen && |entries| < visited <= MAX_ENTRIES && |e.path| <= MAX_DEPTH
      modifies this`entries, this`seen
      ensures Tidy() && entries == old(entries) + [e] && seen == old(seen) + {e.path}
    {
      PathsAppend(entries, e);
      seen := seen + {e.path};
      entries := entries + [e];
    }

    /** The pattern is used up: the node is reported, and then everything below it. */
    method VisitSelected(path: Path, node: Node, depth: nat) returns (aborted: bool)
      requires |entries| < visited <= MAX_ENTRIES
      requires Tidy() && depth == |path| <= MAX_DEPTH && UniqueNames(node) && Visible(env, path, node)
      requires truncated || Closed(env, path, node, seen)
      modifies this`entries, this`seen, this`visited, this`truncated
      ensures Tidy() && old(entries) <= entries && (old(truncated) ==> truncated)
      ensures old(seen) <= seen && forall p :: p in seen && p !in old(seen) ==> Selects(env, path, node, [], p)
      ensures forall i :: |old(entries)| <= i < |entries| ==> Faithful(env, path, node, entries[i])
      ensures !aborted && !truncated ==> Complete(env, path, node, [], seen) && Closed(env, path, node, seen)
      ensures aborted ==> visited > MAX_ENTRIES
      ensures visited < old(visited) + Cost(node, 0)
      ensures truncated && !old(truncated) ==> depth + Height(node) > MAX_DEPTH
      decreases node, 0, 2
    {
      if path in seen {
        assert path + [] == path && Leads(env, path, node, [], node);
        return false;
      }
      if node.Special? {
        return false;
      }
      Report(Found(path, node.Dir?, node.mode));
      OwnEntryIsFaithful(env, path, node);
      assert Here(env, path, node, [], path);
      SelectsFolds(env, path, node, [], path);
      aborted := false;
      if node.Dir? && node.readable {
        if !truncated { ChildrenStayClosed(env, path, node, old(seen), seen); }
        aborted := VisitChildren(path, node, [], depth);
      }
      if !aborted && !truncated { SelectedIsComplete(env, path, node, seen); }
      ThroughChildrenSelects(env, path, node, [], old(seen) + {path}, seen);
    }

    /** Some pattern is left: `**` may take no name here, and then the children are matched. */
    method VisitMatching(path: Path, node: Node, parts: seq<string>, depth: nat) returns (aborted: bool)
      requires Tidy() && depth == |path| <= MAX_DEPTH && UniqueNames(node) && Visible(env, path, node) && |parts| > 0
      requires truncated || Closed(env, path, node, seen)
      modifies this`entries, this`seen, this`visited, this`truncated
      ensures Tidy() && old(entries) <= entries && (old(truncated) ==> truncated)
      ensures old(seen) <= seen && forall p :: p in seen && p !in old(seen) ==> Selects(env, path, node, parts, p)
      ensures forall i :: |old(entries)| <= i < |entries| ==> Faithful(env, path, node, entries[i])
      ensures !aborted && !truncated ==> Complete(env, path, node, parts, seen) && Closed(env, path, node, seen)
      ensures aborted ==> visited > MAX_ENTRIES
      ensures visited < old(visited) + Cost(node, |parts|)
      ensures truncated && !old(truncated) ==> depth + Height(node) > MAX_DEPTH
      decreases node, |parts|, 2
    {
      aborted := false;
      if node.Dir? {
        if parts[0] == STARS {
          aborted := Visit(path, node, parts[1..], depth);
          StarsSelect(env, path, node, parts, old(seen), seen);
        }
        ghost var middle := seen;
        ghost var closed := !aborted && !truncated;
        if !aborted && node.readable {
          if closed {
            forall c | c in node.listing ensures Closed(env, path + [c.0], c.1, seen) {
              ClosedChild(env, path, node, c, seen);
            }
          }
          aborted := VisitChildren(path, node, parts, depth);
          ThroughChildrenSelects(env, path, node, parts, middle, seen);
        }
        if !aborted && !truncated { MatchedIsComplete(env, path, node, parts, middle, seen); }
      } else if !truncated {
        OnlyDirectoriesMatch(env, path, node, parts, seen);
      }
    }

    ghost predicate ChildrenClosed(path: Path, node: Node)
      requires node.Dir?
      reads this
    {
      forall c :: c in node.listing ==> Closed(env, path + [c.0], c.1, seen)
    }

    /** Visit one child, with the pattern left for it, if the pattern goes on to it. */
    method VisitChild(path: Path, node: Node, parts: seq<string>, c: (string, Node), depth: nat) returns (aborted: bool)
      requires Tidy() && depth == |path| <= MAX_DEPTH && UniqueNames(node) && Visible(env, path, node)
      requires node.Dir? && node.readable && c in node.listing
      requires truncated || ChildrenClosed(path, node)
      modifies this`entries, this`seen, this`visited, this`truncated
      ensures Tidy() && old(entries) <= entries && (old(truncated) ==> truncated)
      ensures old(seen) <= seen && forall p :: p in seen && p !in old(seen) ==> Through(env, path, parts, c, p)
      ensures forall i :: |old(entries)| <= i < |entries| ==> Faithful(env, path, node, entries[i])
      ensures !aborted && !truncated ==>
        ChildrenClosed(path, node) && ThroughReported(env, path, parts, c, seen)
      ensures aborted ==> visited > MAX_ENTRIES
      ensures visited <= old(visited) + Cost(c.1, |parts|)
      ensures truncated && !old(truncated) ==> depth + 1 + Height(c.1) > MAX_DEPTH
      decreases node, |parts|, 0
    {
      var (follow, left) := ForChild(env, parts, c.0);
      if !follow { return false; }
      FewerPartsCostLess(c.1, |left|, |parts|);
      aborted := Visit(path + [c.0], c.1, left, depth + 1);
      ChildEntriesAreFaithful(env, path, node, c, old(entries), entries);
      if !aborted && !truncated { OtherChildrenStayClosed(env, path, node, c, left, old(seen), seen); }
    }

    /** Visit the children that the pattern goes on to, in name order. */
    method VisitChildren(path: Path, node: Node, parts: seq<string>, depth: nat) returns (aborted: bool)
      requires Tidy() && depth == |path| <= MAX_DEPTH && UniqueNames(node) && Visible(env, path, node)
      requires node.Dir? && node.readable
      requires truncated || ChildrenClosed(path, node)
      modifies this`entries, this`seen, this`visited, this`truncated
      ensures Tidy() && old(entries) <= entries && (old(truncated) ==> truncated)
      ensures old(seen) <= seen
      ensures forall p :: p in seen && p !in old(seen) ==>
        exists c :: c in node.listing && Through(env, path, parts, c, p)
      ensures forall i :: |old(entries)| <= i < |entries| ==> Faithful(env, path, node, entries[i])
      ensures !aborted && !truncated ==>
        ChildrenClosed(path, node) && forall c, p :: c in node.listing && Through(env, path, parts, c, p) ==> p in seen
      ensures aborted ==> visited > MAX_ENTRIES
      ensures visited <= old(visited) + CostOf(node, node.listing, |parts|)
      ensures truncated && !old(truncated) ==> depth + HeightOf(node, node.listing) > MAX_DEPTH
      decreases node, |parts|, 1
    {
      var children := SortByName(node.listing);
      CostOfSorted(node, node.listing, |parts|);
      assert children[0..] == children;
      var i := 0;
      while i < |children|
        invariant 0 <= i <= |children|
        invariant Tidy() && old(entries) <= entries && old(seen) <= seen
        invariant Gathered(env, path, node, parts, old(seen), seen, |old(entries)|, entries)
        invariant visited + CostOf(node, children[i..], |parts|) <= old(visited) + CostOf(node, children, |parts|)
        invariant if truncated then old(truncated) || depth + HeightOf(node, node.listing) > MAX_DEPTH
          else !old(truncated) && ChildrenClosed(path, node) && AllReported(env, path, parts, children, i, seen)
      {
        CostOfRest(node, children, i, |parts|);
        ChildIsLower(node, node.listing, children[i]);
        ghost var (seenBefore, entriesBefore) := (seen, entries);
        aborted := VisitChild(path, node, parts, children[i], depth);
        GathersMore(env, path, node, parts, children[i], old(seen), seenBefore, seen,
          |old(entries)|, entriesBefore, entries);
        if aborted { return; }
        ReportsMore(env, path, parts, children, i, seenBefore, seen);
        i := i + 1;
      }
      aborted := false;
      if !truncated { EveryChildReported(env, path, node, parts, children, seen); }
    }
  }

  /** The limits hold of what is reported. */
  ghost predicate Limited(entries: seq<Found>, visited: nat) {
    && |entries| <= visited && |entries| <= MAX_ENTRIES
    && forall i :: 0 <= i < |entries| ==> |entries[i].path| <= MAX_DEPTH
  }

  /** What was reported since: paths selected through children, as nodes of the tree. */
  ghost predicate Gathered(env: Env, path: Path, node: Node, parts: seq<string>,
                           before: set<Path>, seen: set<Path>, from: nat, entries: seq<Found>)
    requires node.Dir?
  {
    && (forall p :: p in seen && p !in before ==> exists c :: c in node.listing && Through(env, path, parts, c, p))
    && (forall i :: from <= i < |entries| ==> Faithful(env, path, node, entries[i]))
  }

  lemma {:induction false} GathersMore(
    env: Env, path: Path, node: Node, parts: seq<string>, c: (string, Node),
    before: set<Path>, middle: set<Path>, seen: set<Path>, from: nat, gathered: seq<Found>, entries: seq<Found>)
    requires node.Dir? && c in node.listing && Gathered(env, path, node, parts, before, middle, from, gathered)
    requires gathered <= entries && forall p :: p in seen && p !in middle ==> Through(env, path, parts, c, p)
    requires forall i :: |gathered| <= i < |entries| ==> Faithful(env, path, node, entries[i])
    ensures Gathered(env, path, node, parts, before, seen, from, entries)
  {
    forall i | from <= i < |entries| ensures Faithful(env, path, node, entries[i]) {
      if i < |gathered| { assert entries[i] == gathered[i]; }
    }
  }

  ghost predicate AllReported(
    env: Env, path: Path, parts: seq<string>, children: seq<(string, Node)>, n: nat, seen: set<Path>)
    requires n <= |children|
  {
    forall j :: 0 <= j < n ==> ThroughReported(env, path, parts, children[j], seen)
  }

  lemma {:induction false} ReportsMore(
    env: Env, path: Path, parts: seq<string>, children: seq<(string, Node)>, n: nat, before: set<Path>, seen: set<Path>)
    requires n < |children| && before <= seen
    ensures AllReported(env, path, parts, children, n, before) && ThroughReported(env, path, parts, children[n], seen)
      ==> AllReported(env, path, parts, children, n + 1, seen)
  {}

  lemma {:induction false} EveryChildReported(
    env: Env, path: Path, node: Node, parts: seq<string>, children: seq<(string, Node)>, seen: set<Path>)
    requires node.Dir? && (forall c :: c in node.listing ==> c in children)
    requires AllReported(env, path, parts, children, |children|, seen)
    ensures forall c, p :: c in node.listing && Through(env, path, parts, c, p) ==> p in seen
  {
    forall c, p | c in node.listing && Through(env, path, parts, c, p) ensures p in seen {
      var j :| 0 <= j < |children| && children[j] == c;
      assert ThroughReported(env, path, parts, children[j], seen);
    }
  }

  /** All that is selected through a child was reported. */
  ghost predicate ThroughReported(env: Env, path: Path, parts: seq<string>, c: (string, Node), seen: set<Path>) {
    forall p :: Through(env, path, parts, c, p) ==> p in seen
  }

  lemma {:induction false} OwnEntryIsFaithful(env: Env, path: Path, node: Node)
    requires Visible(env, path, node) && (node.File? || node.Dir?)
    ensures Faithful(env, path, node, Found(path, node.Dir?, node.mode))
  {
    assert path + [] == path && Leads(env, path, node, [], node);
  }

  lemma {:induction false} ChildrenStayClosed(env: Env, path: Path, node: Node, before: set<Path>, after: set<Path>)
    requires Visible(env, path, node) && node.Dir? && node.readable && Closed(env, path, node, before)
    requires after == before + {path}
    ensures forall c :: c in node.listing ==> Closed(env, path + [c.0], c.1, after)
  {
    forall c | c in node.listing ensures Closed(env, path + [c.0], c.1, after) {
      ClosedChild(env, path, node, c, before);
      ClosedElsewhere(env, path + [c.0], c.1, before, after);
    }
  }

  lemma {:induction false} SelectedIsComplete(env: Env, path: Path, node: Node, seen: set<Path>)
    requires Visible(env, path, node) && path in seen
    requires node.Dir? && node.readable ==> forall c :: c in node.listing ==> Closed(env, path + [c.0], c.1, seen)
    requires node.Dir? && node.readable ==>
      forall c, p :: c in node.listing && Through(env, path, [], c, p) ==> p in seen
    ensures Complete(env, path, node, [], seen) && Closed(env, path, node, seen)
  {
    forall p | Selects(env, path, node, [], p) ensures p in seen { SelectsUnfolds(env, path, node, [], p); }
    ClosedFromChildren(env, path, node, seen);
  }

  lemma {:induction false} ThroughChildrenSelects(
    env: Env, path: Path, node: Node, parts: seq<string>, before: set<Path>, after: set<Path>)
    requires Visible(env, path, node)
    requires forall p :: p in after && p !in before ==>
      node.Dir? && node.readable && exists c :: c in node.listing && Through(env, path, parts, c, p)
    ensures forall p :: p in after && p !in before ==> Selects(env, path, node, parts, p)
  {
    forall p | p in after && p !in before ensures Selects(env, path, node, parts, p) {
      SelectsFolds(env, path, node, parts, p);
    }
  }

  lemma {:induction false} StarsSelect(
    env: Env, path: Path, node: Node, parts: seq<string>, before: set<Path>, after: set<Path>)
    requires Visible(env, path, node) && node.Dir? && |parts| > 0 && parts[0] == STARS
    requires forall p :: p in after && p !in before ==> Selects(env, path, node, parts[1..], p)
    ensures forall p :: p in after && p !in before ==> Selects(env, path, node, parts, p)
  {
    forall p | p in after && p !in before ensures Selects(env, path, node, parts, p) {
      assert Here(env, path, node, parts, p);
      SelectsFolds(env, path, node, parts, p);
    }
  }

  lemma {:induction false} OnlyDirectoriesMatch(env: Env, path: Path, node: Node, parts: seq<string>, seen: set<Path>)
    requires Visible(env, path, node) && !node.Dir? && |parts| > 0 && Closed(env, path, node, seen)
    ensures Complete(env, path, node, parts, seen)
  {
    forall p ensures !Selects(env, path, node, parts, p) {
      if Selects(env, path, node, parts, p) {
        SelectsUnfolds(env, path, node, parts, p);
        assert false;
      }
    }
  }

  lemma {:induction false} MatchedIsComplete(
    env: Env, path: Path, node: Node, parts: seq<string>, middle: set<Path>, seen: set<Path>)
    requires Visible(env, path, node) && node.Dir? && |parts| > 0 && middle <= seen
    requires Closed(env, path, node, middle)
    requires parts[0] == STARS ==> Complete(env, path, node, parts[1..], middle)
    requires forall p :: p in seen && p !in middle ==>
      node.readable && exists c :: c in node.listing && Through(env, path, parts, c, p)
    requires node.readable ==> forall c :: c in node.listing ==> Closed(env, path + [c.0], c.1, seen)
    requires node.readable ==> forall c, p :: c in node.listing && Through(env, path, parts, c, p) ==> p in seen
    ensures Complete(env, path, node, parts, seen) && Closed(env, path, node, seen)
  {
    forall p | Selects(env, path, node, parts, p) ensures p in seen { SelectsUnfolds(env, path, node, parts, p); }
    if path in seen {
      forall c, p | c in node.listing && Through(env, path, parts, c, p) ensures path + [c.0] <= p {
        SelectedLiesBelow(env, path + [c.0], c.1, ForChild(env, parts, c.0).1, p);
      }
      assert path in middle;
      assert path + [] == path && Leads(env, path, node, [], node);
      assert Complete(env, path, node, [], middle);
    }
    ClosedFromChildren(env, path, node, seen);
  }

  lemma {:induction false} ChildEntriesAreFaithful(
    env: Env, path: Path, node: Node, c: (string, Node), before: seq<Found>, after: seq<Found>)
    requires Visible(env, path, node) && node.Dir? && node.readable && c in node.listing
    requires forall i :: |before| <= i < |after| ==> Faithful(env, path + [c.0], c.1, after[i])
    ensures forall i :: |before| <= i < |after| ==> Faithful(env, path, node, after[i])
  {
    forall i | |before| <= i < |after| ensures Faithful(env, path, node, after[i]) {
      var rel, target :| Leads(env, path + [c.0], c.1, rel, target) && (target.File? || target.Dir?)
        && after[i] == Found((path + [c.0]) + rel, target.Dir?, target.mode);
      var longer := [c.0] + rel;
      assert longer[1..] == rel && path + longer == (path + [c.0]) + rel;
      assert Leads(env, path, node, longer, target);
    }
  }

  lemma {:induction false} OtherChildrenStayClosed(
    env: Env, path: Path, node: Node, c: (string, Node), left: seq<string>, before: set<Path>, after: set<Path>)
    requires node.Dir? && UniqueNames(node) && c in node.listing && before <= after
    requires forall d :: d in node.listing ==> Closed(env, path + [d.0], d.1, before)
    requires Closed(env, path + [c.0], c.1, after)
    requires forall p :: p in after && p !in before ==> Selects(env, path + [c.0], c.1, left, p)
    ensures forall d :: d in node.listing ==> Closed(env, path + [d.0], d.1, after)
  {
    forall d | d in node.listing ensures Closed(env, path + [d.0], d.1, after) {
      if d != c {
        assert d.0 != c.0;
        forall p | p in after && p !in before ensures !(path + [d.0] <= p) {
          SelectedLiesBelow(env, path + [c.0], c.1, left, p);
          assert p[|path|] == c.0;
        }
        ClosedElsewhere(env, path + [d.0], d.1, before, after);
      }
    }
  }

  // --- from the root of the file system ---

  function ChildNamed(listing: seq<(string, Node)>, name: string): (n: Node)
    ensures n.Unreadable? || exists c :: c in listing && c.0 == name && c.1 == n
  {
    if |listing| == 0 then Unreadable else if listing[0].0 == name then listing[0].1 else ChildNamed(listing[1..], name)
  }

  /** What `lstat` finds at a path, without following a link. */
  function NodeAt(root: Node, path: Path): Node
    decreases |path|
  {
    if |path| == 0 then root
    else if root.Dir? then NodeAt(ChildNamed(root.listing, path[0]), path[1..])
    else Unreadable
  }

  lemma {:induction false} NodeAtExtends(root: Node, path: Path, name: string)
    ensures NodeAt(root, path + [name])
         == if NodeAt(root, path).Dir? then ChildNamed(NodeAt(root, path).listing, name) else Unreadable
    decreases |path|
  {
    if |path| == 0 {
      assert path + [name] == [name] && [name][1..] == [];
    } else {
      assert (path + [name])[1..] == path[1..] + [name];
      if root.Dir? { NodeAtExtends(ChildNamed(root.listing, path[0]), path[1..], name); }
    }
  }

  predicate LinkAbove(root: Node, path: Path) {
    exists k :: 0 < k <= |path| && NodeAt(root, path[..k]).Link?
  }

  /** Whether a link is on the path, looked for part by part as far as parts exist. */
  method LinkOn(root: Node, path: Path) returns (link: bool)
    ensures link <==> LinkAbove(root, path)
  {
    var i := 0;
    while i < |path|
      invariant 0 <= i <= |path|
      invariant forall k :: 0 < k <= i ==> !NodeAt(root, path[..k]).Link?
    {
      i := i + 1;
      assert path[..i] == path[..i - 1] + [path[i - 1]];
      if NodeAt(root, path[..i]).Link? { return true; }
      if NodeAt(root, path[..i]).Unreadable? {
        NothingBelowMissing(root, path, i);
        return false;
      }
    }
    return false;
  }

  lemma {:induction false} NothingBelowMissing(root: Node, path: Path, i: nat)
    requires i <= |path| && NodeAt(root, path[..i]).Unreadable?
    ensures forall k :: i <= k <= |path| ==> NodeAt(root, path[..k]).Unreadable?
    decreases |path| - i
  {
    if i < |path| {
      assert path[..i + 1] == path[..i] + [path[i]];
      NodeAtExtends(root, path[..i], path[i]);
      NothingBelowMissing(root, path, i + 1);
    }
  }

  predicate Literal(segment: string) {
    '*' !in segment && '?' !in segment && '[' !in segment
  }

  /** How many leading parts of a pattern are literal. */
  function LiteralParts(pattern: seq<string>): (n: nat)
    ensures n <= |pattern| && (forall i :: 0 <= i < n ==> Literal(pattern[i]))
    ensures n < |pattern| ==> !Literal(pattern[n])
  {
    if |pattern| > 0 && Literal(pattern[0]) then 1 + LiteralParts(pattern[1..]) else 0
  }

  predicate Reachable(root: Node, prefix: Path) {
    !LinkAbove(root, if |prefix| == 0 then [] else prefix[..|prefix| - 1])
  }

  lemma {:induction false} NodesHaveUniqueNames(root: Node, path: Path)
    requires UniqueNames(root)
    ensures UniqueNames(NodeAt(root, path))
    decreases |path|
  {
    if |path| > 0 && root.Dir? {
      var child := ChildNamed(root.listing, path[0]);
      NodesHaveUniqueNames(child, path[1..]);
    }
  }

  method LiteralPrefix(pattern: seq<string>) returns (prefix: Path, parts: seq<string>)
    ensures prefix == pattern[..LiteralParts(pattern)] && parts == pattern[LiteralParts(pattern)..]
  {
    prefix, parts := [], pattern;
    while |parts| > 0 && Literal(parts[0])
      invariant |prefix| <= |pattern| && prefix == pattern[..|prefix|] && parts == pattern[|prefix|..]
      invariant forall i :: 0 <= i < |prefix| ==> Literal(pattern[i])
      decreases |parts|
    {
      assert pattern[..|prefix| + 1] == pattern[..|prefix|] + [pattern[|prefix|]];
      prefix := prefix + [parts[0]];
      parts := parts[1..];
    }
    LiteralPartsAre(pattern, |prefix|);
  }

  lemma {:induction false} LiteralPartsAre(pattern: seq<string>, n: nat)
    requires n <= |pattern| && forall i :: 0 <= i < n ==> Literal(pattern[i])
    requires n < |pattern| ==> !Literal(pattern[n])
    ensures LiteralParts(pattern) == n
  {}

  /** The entries are exactly the selected paths, each with the kind and mode of its node. */
  ghost predicate Sound(env: Env, start: Node, parts: seq<string>, entries: seq<Found>) {
    && (forall i, j :: 0 <= i < j < |entries| ==> entries[i].path != entries[j].path)
    && (forall i :: 0 <= i < |entries| ==>
          Faithful(env, [], start, entries[i]) && Selects(env, [], start, parts, entries[i].path))
  }

  ghost predicate Reports(entries: seq<Found>, p: Path) {
    exists i :: 0 <= i < |entries| && entries[i].path == p
  }

  lemma {:induction false} SeenPathsAreReported(entries: seq<Found>)
    ensures forall p :: p in Paths(entries) <==> Reports(entries, p)
  {}

  lemma {:induction false} TidyWalkIsSound(env: Env, start: Node, parts: seq<string>, entries: seq<Found>)
    requires forall i, j :: 0 <= i < j < |entries| ==> entries[i].path != entries[j].path
    requires forall p :: p in Paths(entries) ==> Selects(env, [], start, parts, p)
    requires forall i :: 0 <= i < |entries| ==> Faithful(env, [], start, entries[i])
    ensures Sound(env, start, parts, entries)
  {
    forall i | 0 <= i < |entries| ensures Selects(env, [], start, parts, entries[i].path) {
      assert entries[i].path in Paths(entries);
    }
  }

  ghost predicate BeyondLimits(start: Node, parts: seq<string>) {
    Height(start) > MAX_DEPTH || Cost(start, |parts|) > MAX_ENTRIES
  }

  /** Collect what `pattern` selects. Paths are relative to its literal prefix, below which the walk
      starts unless a link lies above it. */
  method Inspect(env: Env, root: Node, pattern: seq<string>) returns (entries: seq<Found>, truncated: bool)
    requires UniqueNames(root)
    ensures var n := LiteralParts(pattern);
      Sound(env, NodeAt(root, pattern[..n]), pattern[n..], entries)
    ensures var n := LiteralParts(pattern);
      if !Reachable(root, pattern[..n]) then |entries| == 0 && !truncated
      else !truncated ==> forall p ::
        Selects(env, [], NodeAt(root, pattern[..n]), pattern[n..], p) ==> Reports(entries, p)
    ensures |entries| <= MAX_ENTRIES && forall e :: e in entries ==> |e.path| <= MAX_DEPTH
    ensures truncated ==> BeyondLimits(NodeAt(root, pattern[..LiteralParts(pattern)]), pattern[LiteralParts(pattern)..])
  {
    var prefix, parts := LiteralPrefix(pattern);
    var link := LinkOn(root, if |prefix| == 0 then [] else prefix[..|prefix| - 1]);
    if link { return [], false; }
    var start := NodeAt(root, prefix);
    NodesHaveUniqueNames(root, prefix);
    var walker := new Walker(env);
    var aborted := walker.Visit([], start, parts, 0);
    entries, truncated := walker.entries, walker.truncated || aborted;
    TidyWalkIsSound(env, start, parts, entries);
    SeenPathsAreReported(entries);
  }
}
