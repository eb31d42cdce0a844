/** Starting the walk at the literal prefix of a pattern finds what a walk from the root with the whole
    pattern would. */
module ArtifactPrefix {
  import opened ArtifactGlob
  import opened ArtifactWalk

  /** A segment without a star, a question mark or a bracket matches its own name only, and nothing is
      excluded. */
  ghost predicate Lawful(env: Env) {
    && |env.exclude| == 0
    && forall name: string, segment: string ::
         (forall c :: c in segment ==> c != '*' && c != '?' && c != '[') ==>
           (env.matches(name, segment) <==> name == segment)
  }

  /** Every directory on the way to `path` can be listed. */
  ghost predicate ListableTo(root: Node, path: Path)
    decreases |path|
  {
    |path| > 0 && root.Dir? ==> root.readable && ListableTo(ChildNamed(root.listing, path[0]), path[1..])
  }

  lemma {:induction false} NothingExcluded(env: Env, path: Path)
    requires Lawful(env)
    ensures !Excluded(env, path)
  {}

  /** Without exclusions it does not matter under which path a node is found. */
  lemma {:induction false} LeadsAnywhere(env: Env, path: Path, other: Path, node: Node, rel: Path, target: Node)
    requires Lawful(env) && Leads(env, path, node, rel, target)
    ensures Leads(env, other, node, rel, target)
    decreases |rel|
  {
    NothingExcluded(env, path);
    NothingExcluded(env, other);
    if |rel| > 0 {
      var c :| c in node.listing && c.0 == rel[0] && Leads(env, path + [c.0], c.1, rel[1..], target);
      LeadsAnywhere(env, path + [c.0], other + [c.0], c.1, rel[1..], target);
    }
  }

  /** A literal segment selects the child of that name. */
  lemma {:induction false} GlobTakesLiterals(env: Env, pattern: seq<string>, n: nat, rel: Path, directory: bool)
    requires Lawful(env) && n <= |pattern| && forall i :: 0 <= i < n ==> Literal(pattern[i])
    ensures Glob(env, pattern, rel, directory) <==>
      n <= |rel| && rel[..n] == pattern[..n] && Glob(env, pattern[n..], rel[n..], directory)
    decreases n
  {
    if n == 0 {
      assert pattern[0..] == pattern && rel[0..] == rel;
    } else {
      var (rest, more) := (pattern[1..], if |rel| > 0 then rel[1..] else []);
      assert Literal(pattern[0]) && pattern[0] != STARS;
      assert forall i :: 0 <= i < n - 1 ==> rest[i] == pattern[i + 1];
      GlobTakesLiterals(env, rest, n - 1, more, directory);
      assert rest[n - 1..] == pattern[n..] && pattern[..n] == [pattern[0]] + rest[..n - 1];
      if |rel| >= n {
        assert more[n - 1..] == rel[n..] && rel[..n] == [rel[0]] + more[..n - 1];
        PrefixesAgree(rel[0], more[..n - 1], pattern[0], rest[..n - 1]);
      }
    }
  }

  lemma {:induction false} PrefixesAgree(x: string, a: Path, y: string, b: Path)
    ensures [x] + a == [y] + b <==> x == y && a == b
  {
    if [x] + a == [y] + b {
      assert ([x] + a)[0] == x && ([y] + b)[0] == y && ([x] + a)[1..] == a && ([y] + b)[1..] == b;
    }
  }

  lemma {:induction false} OneChildOfAName(listing: seq<(string, Node)>, c: (string, Node))
    requires forall i, j :: 0 <= i < j < |listing| ==> listing[i].0 != listing[j].0
    requires c in listing
    ensures ChildNamed(listing, c.0) == c.1
  {
    var i :| 0 <= i < |listing| && listing[i] == c;
    if i > 0 { OneChildOfAName(listing[1..], c); }
  }

  /** What is reached from the root past `n` names is reached from the node they lead to. */
  lemma {:induction false} LeadsFromPrefix(env: Env, root: Node, p: Path, n: nat, target: Node)
    requires Lawful(env) && UniqueNames(root) && n <= |p| && ListableTo(root, p[..n])
    ensures Leads(env, [], root, p, target) <==> Leads(env, [], NodeAt(root, p[..n]), p[n..], target)
    decreases n
  {
    if n == 0 {
      assert p[0..] == p;
    } else {
      var (name, rest) := (p[0], p[1..]);
      assert p[..n][0] == name && p[..n][1..] == rest[..n - 1] && rest[n - 1..] == p[n..];
      NothingExcluded(env, []);
      if root.Dir? {
        var child := ChildNamed(root.listing, name);
        if child.Unreadable? { UnreadableLeadsNowhere(env, root, p, n, target); }
        if exists c :: c in root.listing && c.0 == name && c.1 == child {
          var c :| c in root.listing && c.0 == name && c.1 == child;
          LeadsFromPrefix(env, child, rest, n - 1, target);
          ThroughTheChild(env, root, p, c, target);
        }
      }
    }
  }

  lemma {:induction false} ThroughTheChild(env: Env, root: Node, p: Path, c: (string, Node), target: Node)
    requires Lawful(env) && UniqueNames(root) && root.Dir? && root.readable && |p| > 0
    requires c in root.listing && c.0 == p[0]
    ensures Leads(env, [], root, p, target) <==> Leads(env, [], c.1, p[1..], target)
  {
    NothingExcluded(env, []);
    if Leads(env, [], root, p, target) {
      var d :| d in root.listing && d.0 == p[0] && Leads(env, [] + [d.0], d.1, p[1..], target);
      OneChildOfAName(root.listing, c);
      OneChildOfAName(root.listing, d);
      LeadsAnywhere(env, [] + [d.0], [], d.1, p[1..], target);
    }
    if Leads(env, [], c.1, p[1..], target) {
      LeadsAnywhere(env, [], [] + [c.0], c.1, p[1..], target);
    }
  }

  lemma {:induction false} UnreadableLeadsNowhere(env: Env, root: Node, p: Path, n: nat, target: Node)
    requires UniqueNames(root) && 0 < n <= |p| && root.Dir? && ChildNamed(root.listing, p[0]).Unreadable?
    ensures !Leads(env, [], root, p, target) && !Leads(env, [], NodeAt(root, p[..n]), p[n..], target)
  {
    assert p[..n][0] == p[0];
    if Leads(env, [], root, p, target) {
      var d :| d in root.listing && d.0 == p[0] && Leads(env, [] + [d.0], d.1, p[1..], target);
      OneChildOfAName(root.listing, d);
      assert false;
    }
  }

  /** The walk from the literal prefix selects, below it, what the whole pattern selects from the root. */
  lemma {:induction false} PrefixSelectsAlike(env: Env, root: Node, pattern: seq<string>, p: Path)
    requires Lawful(env) && UniqueNames(root) && ListableTo(root, pattern[..LiteralParts(pattern)])
    ensures var n := LiteralParts(pattern);
      Selects(env, [], root, pattern, p) <==>
        n <= |p| && p[..n] == pattern[..n] && Selects(env, [], NodeAt(root, pattern[..n]), pattern[n..], p[n..])
  {
    var n := LiteralParts(pattern);
    GlobTakesLiterals(env, pattern, n, p, true);
    GlobTakesLiterals(env, pattern, n, p, false);
    forall target | n <= |p| && p[..n] == pattern[..n]
      ensures SelectsAs(env, root, pattern, p, target) <==>
        SelectsAs(env, NodeAt(root, pattern[..n]), pattern[n..], p[n..], target)
    {
      LeadsFromPrefix(env, root, p, n, target);
    }
    SelectsAtTop(env, root, pattern, p);
    if n <= |p| { SelectsAtTop(env, NodeAt(root, pattern[..n]), pattern[n..], p[n..]); }
  }

  lemma {:induction false} SelectsAtTop(env: Env, node: Node, parts: seq<string>, p: Path)
    ensures Selects(env, [], node, parts, p) <==> exists target :: SelectsAs(env, node, parts, p, target)
  {
    assert forall rel: Path :: [] + rel == rel;
    assert p == [] + p;
    if exists target :: SelectsAs(env, node, parts, p, target) {
      var target :| SelectsAs(env, node, parts, p, target);
    }
    if Selects(env, [], node, parts, p) {
      var rel, target :| p == [] + rel && Leads(env, [], node, rel, target) && (target.File? || target.Dir?)
        && Glob(env, parts, rel, target.Dir?);
      assert SelectsAs(env, node, parts, p, target);
    }
  }

  ghost predicate SelectsAs(env: Env, node: Node, parts: seq<string>, p: Path, target: Node) {
    Leads(env, [], node, p, target) && (target.File? || target.Dir?) && Glob(env, parts, p, target.Dir?)
  }
}
