/** What an artifact declaration selects below its literal prefix: the reference the walk is checked
    against. `**` stands for any number of names that are not hidden, and for none only at a
    directory; a hidden name is matched only by a segment that starts with a dot; once the pattern is
    used up the whole subtree is selected; no link and no excluded path lies on the way. */
module ArtifactGlob {
  import opened Names

  type Path = seq<string>

  datatype Node =
    | File(mode: nat)
    | Dir(mode: nat, readable: bool, listing: seq<(string, Node)>)
    | Link
    | Special
    | Unreadable

  /** `matches` is fnmatch on one name; exclusions are matched with it too. */
  datatype Env = Env(matches: (string, string) -> bool, exclude: seq<string>)

  const STARS: string := "**"

  predicate Hidden(name: string) { |name| > 0 && name[0] == '.' }

  /** A pattern excludes a path it matches from any name on; the prefix itself is never excluded. */
  predicate Excluded(env: Env, path: Path) {
    exists i, j :: 0 <= i < |path| && 0 <= j < |env.exclude| && env.matches(Slashed(path[i..]), env.exclude[j])
  }

  /** The pattern matches the path whole or from one of its names on. */
  ghost predicate Matches(env: Env, pattern: string, path: Path) {
    exists above: Path, below: Path :: path == above + below && |below| > 0 && env.matches(Slashed(below), pattern)
  }

  /** A path is excluded by any of the patterns. */
  lemma {:induction false} ExcludedIff(env: Env, path: Path)
    ensures Excluded(env, path) <==> exists pattern :: pattern in env.exclude && Matches(env, pattern, path)
  {
    if Excluded(env, path) {
      var i, j :| 0 <= i < |path| && 0 <= j < |env.exclude| && env.matches(Slashed(path[i..]), env.exclude[j]);
      assert path == path[..i] + path[i..] && env.exclude[j] in env.exclude;
    }
    if exists pattern :: pattern in env.exclude && Matches(env, pattern, path) {
      var pattern :| pattern in env.exclude && Matches(env, pattern, path);
      var above: Path, below: Path :| path == above + below && |below| > 0 && env.matches(Slashed(below), pattern);
      var j :| 0 <= j < |env.exclude| && env.exclude[j] == pattern;
      assert path[|above|..] == below;
    }
  }

  // --- the reference ---

  predicate SegmentMatches(env: Env, name: string, segment: string) {
    (!Hidden(name) || Hidden(segment)) && env.matches(name, segment)
  }

  /** Whether the pattern `parts` selects the relative path `rel`, a directory or a file. */
  ghost predicate Glob(env: Env, parts: seq<string>, rel: Path, directory: bool)
    decreases |parts|
  {
    if |parts| == 0 then true
    else if parts[0] == STARS then
      // `**` takes the first `k` names
      exists k ::
        && 0 <= k <= |rel|
        && NoneHidden(rel[..k])
        && (k == |rel| ==> directory)
        && Glob(env, parts[1..], rel[k..], directory)
    else |rel| > 0 && SegmentMatches(env, rel[0], parts[0]) && Glob(env, parts[1..], rel[1..], directory)
  }

  predicate NoneHidden(names: Path) {
    forall i :: 0 <= i < |names| ==> !Hidden(names[i])
  }

  predicate Visible(env: Env, path: Path, node: Node) {
    (|path| == 0 || !Excluded(env, path)) && !node.Link? && !node.Unreadable?
  }

  /** Following `rel` from `node` at `path` leads to `target`, past nothing that is not visible. */
  ghost predicate Leads(env: Env, path: Path, node: Node, rel: Path, target: Node)
    decreases |rel|
  {
    && Visible(env, path, node)
    && if |rel| == 0 then target == node
       else node.Dir? && node.readable
            && exists c :: c in node.listing && c.0 == rel[0] && Leads(env, path + [c.0], c.1, rel[1..], target)
  }

  /** The walk from `node` at `path` with the pattern `parts` left is to report `p`. */
  ghost predicate Selects(env: Env, path: Path, node: Node, parts: seq<string>, p: Path) {
    exists rel, target ::
      && p == path + rel
      && Leads(env, path, node, rel, target)
      && (target.File? || target.Dir?)
      && Glob(env, parts, rel, target.Dir?)
  }

  ghost predicate UniqueNames(node: Node)
    decreases node
  {
    node.Dir? ==>
      && (forall i, j :: 0 <= i < j < |node.listing| ==> node.listing[i].0 != node.listing[j].0)
      && (forall c :: c in node.listing ==> UniqueNames(c.1))
  }

  // --- one step of the reference ---

  /** The pattern left for a child, if the walk goes on to it. */
  function ForChild(env: Env, parts: seq<string>, name: string): (bool, seq<string>) {
    if |parts| == 0 || (parts[0] == STARS && !Hidden(name)) then (true, parts)
    else if SegmentMatches(env, name, parts[0]) then (true, parts[1..])
    else (false, [])
  }

  /** `**` takes no name, or one more. */
  lemma {:induction false} StarsStep(env: Env, parts: seq<string>, rel: Path, directory: bool)
    requires |parts| > 0 && parts[0] == STARS
    ensures Glob(env, parts, rel, directory)
      <==> (((|rel| == 0 ==> directory) && Glob(env, parts[1..], rel, directory))
            || (|rel| > 0 && !Hidden(rel[0]) && Glob(env, parts, rel[1..], directory)))
  {
    if Glob(env, parts, rel, directory) { StarsTake(env, parts, rel, directory); }
    if (|rel| == 0 ==> directory) && Glob(env, parts[1..], rel, directory) {
      StarsTakeNone(env, parts, rel, directory);
    }
    if |rel| > 0 && !Hidden(rel[0]) && Glob(env, parts, rel[1..], directory) {
      StarsTakeMore(env, parts, rel, directory);
    }
  }

  lemma {:induction false} StarsTake(env: Env, parts: seq<string>, rel: Path, directory: bool)
    requires |parts| > 0 && parts[0] == STARS && Glob(env, parts, rel, directory)
    ensures ((|rel| == 0 ==> directory) && Glob(env, parts[1..], rel, directory))
            || (|rel| > 0 && !Hidden(rel[0]) && Glob(env, parts, rel[1..], directory))
  {
    var k :| 0 <= k <= |rel| && NoneHidden(rel[..k]) && (k == |rel| ==> directory)
      && Glob(env, parts[1..], rel[k..], directory);
    if k == 0 {
      assert rel[0..] == rel;
    } else {
      assert !Hidden(rel[..k][0]);
      assert rel[1..][k - 1..] == rel[k..] && rel[1..][..k - 1] == rel[..k][1..];
    }
  }

  lemma {:induction false} StarsTakeNone(env: Env, parts: seq<string>, rel: Path, directory: bool)
    requires |parts| > 0 && parts[0] == STARS
    requires (|rel| == 0 ==> directory) && Glob(env, parts[1..], rel, directory)
    ensures Glob(env, parts, rel, directory)
  {
    assert rel[0..] == rel && NoneHidden(rel[..0]);
  }

  lemma {:induction false} StarsTakeMore(env: Env, parts: seq<string>, rel: Path, directory: bool)
    requires |parts| > 0 && parts[0] == STARS
    requires |rel| > 0 && !Hidden(rel[0]) && Glob(env, parts, rel[1..], directory)
    ensures Glob(env, parts, rel, directory)
  {
    var tail := rel[1..];
    var k :| 0 <= k <= |tail| && NoneHidden(tail[..k]) && (k == |tail| ==> directory)
      && Glob(env, parts[1..], tail[k..], directory);
    assert tail[k..] == rel[k + 1..] && rel[..k + 1] == [rel[0]] + tail[..k];
    assert NoneHidden(rel[..k + 1]);
  }

  /** A child through which `p` is selected. */
  ghost predicate Through(env: Env, path: Path, parts: seq<string>, c: (string, Node), p: Path) {
    ForChild(env, parts, c.0).0 && Selects(env, path + [c.0], c.1, ForChild(env, parts, c.0).1, p)
  }

  ghost predicate Here(env: Env, path: Path, node: Node, parts: seq<string>, p: Path) {
    if |parts| == 0 then p == path && (node.File? || node.Dir?)
    else parts[0] == STARS && node.Dir? && Selects(env, path, node, parts[1..], p)
  }

  /** A pattern that selects something below a child goes on to the child, or takes no name first. */
  lemma {:induction false} GlobForChild(env: Env, parts: seq<string>, rel: Path, directory: bool)
    requires |rel| > 0 && Glob(env, parts, rel, directory)
    ensures || (|parts| > 0 && parts[0] == STARS && Glob(env, parts[1..], rel, directory))
            || (ForChild(env, parts, rel[0]).0 && Glob(env, ForChild(env, parts, rel[0]).1, rel[1..], directory))
  {
    if |parts| > 0 && parts[0] == STARS { StarsStep(env, parts, rel, directory); }
  }

  lemma {:induction false} SelectsUnfolds(env: Env, path: Path, node: Node, parts: seq<string>, p: Path)
    requires Visible(env, path, node) && Selects(env, path, node, parts, p)
    ensures Here(env, path, node, parts, p)
         || (node.Dir? && node.readable && exists c :: c in node.listing && Through(env, path, parts, c, p))
  {
    var rel, target :| p == path + rel && Leads(env, path, node, rel, target)
      && (target.File? || target.Dir?) && Glob(env, parts, rel, target.Dir?);
    if |rel| == 0 {
      if |parts| > 0 && parts[0] == STARS { StarsStep(env, parts, rel, target.Dir?); }
      assert path + [] == path;
    } else {
      var c :| c in node.listing && c.0 == rel[0] && Leads(env, path + [c.0], c.1, rel[1..], target);
      assert p == (path + [c.0]) + rel[1..];
      GlobForChild(env, parts, rel, target.Dir?);
      if !Here(env, path, node, parts, p) { assert Through(env, path, parts, c, p); }
    }
  }

  lemma {:induction false} SelectsFolds(env: Env, path: Path, node: Node, parts: seq<string>, p: Path)
    requires Visible(env, path, node)
    requires Here(env, path, node, parts, p)
         || (node.Dir? && node.readable && exists c :: c in node.listing && Through(env, path, parts, c, p))
    ensures Selects(env, path, node, parts, p)
  {
    if Here(env, path, node, parts, p) {
      HereSelects(env, path, node, parts, p);
    } else {
      var c :| c in node.listing && Through(env, path, parts, c, p);
      ThroughSelects(env, path, node, parts, c, p);
    }
  }

  lemma {:induction false} HereSelects(env: Env, path: Path, node: Node, parts: seq<string>, p: Path)
    requires Visible(env, path, node) && Here(env, path, node, parts, p)
    ensures Selects(env, path, node, parts, p)
  {
    if |parts| == 0 {
      assert p == path + [] && Leads(env, path, node, [], node) && Glob(env, parts, [], node.Dir?);
    } else {
      var rel, target :| p == path + rel && Leads(env, path, node, rel, target)
        && (target.File? || target.Dir?) && Glob(env, parts[1..], rel, target.Dir?);
      StarsStep(env, parts, rel, target.Dir?);
      assert Glob(env, parts, rel, target.Dir?);
    }
  }

  lemma {:induction false} ThroughSelects(
    env: Env, path: Path, node: Node, parts: seq<string>, c: (string, Node), p: Path)
    requires Visible(env, path, node) && node.Dir? && node.readable && c in node.listing
    requires Through(env, path, parts, c, p)
    ensures Selects(env, path, node, parts, p)
  {
    var left := ForChild(env, parts, c.0).1;
    var rest, target :| p == (path + [c.0]) + rest && Leads(env, path + [c.0], c.1, rest, target)
      && (target.File? || target.Dir?) && Glob(env, left, rest, target.Dir?);
    var rel := [c.0] + rest;
    assert rel[1..] == rest && p == path + rel;
    assert Leads(env, path, node, rel, target);
    if |parts| > 0 && parts[0] == STARS { StarsStep(env, parts, rel, target.Dir?); }
    assert Glob(env, parts, rel, target.Dir?);
  }

  // --- selections have no gaps ---

  /** A pattern that selects a path selects every path below it. */
  lemma {:induction false} GlobExtends(
    env: Env, parts: seq<string>, rel: Path, directory: bool, more: Path, deeper: bool)
    requires Glob(env, parts, rel, directory) && (|more| == 0 && directory ==> deeper)
    ensures Glob(env, parts, rel + more, deeper)
    decreases |parts|
  {
    if |parts| > 0 {
      if parts[0] == STARS {
        var k :| 0 <= k <= |rel| && NoneHidden(rel[..k]) && (k == |rel| ==> directory)
          && Glob(env, parts[1..], rel[k..], directory);
        GlobExtends(env, parts[1..], rel[k..], directory, more, deeper);
        assert (rel + more)[..k] == rel[..k] && (rel + more)[k..] == rel[k..] + more;
      } else {
        GlobExtends(env, parts[1..], rel[1..], directory, more, deeper);
        assert (rel + more)[1..] == rel[1..] + more;
      }
    }
  }

  /** On the way to a node there are only directories. */
  lemma {:induction false} LeadsThrough(env: Env, path: Path, node: Node, rel: Path, target: Node, k: nat)
    returns (via: Node)
    requires Leads(env, path, node, rel, target) && k <= |rel|
    ensures Leads(env, path, node, rel[..k], via) && (k < |rel| ==> via.Dir?) && (k == |rel| ==> via == target)
    decreases k
  {
    if k == 0 {
      via := node;
    } else {
      var c :| c in node.listing && c.0 == rel[0] && Leads(env, path + [c.0], c.1, rel[1..], target);
      via := LeadsThrough(env, path + [c.0], c.1, rel[1..], target, k - 1);
      assert rel[..k][1..] == rel[1..][..k - 1];
    }
  }

  /** What lies between two selected paths is selected. */
  lemma {:induction false} BetweenIsSelected(
    env: Env, path: Path, node: Node, parts: seq<string>, d: Path, p: Path, e: Path)
    requires Selects(env, path, node, parts, d) && Selects(env, path, node, parts, e) && d <= p && p <= e
    ensures Selects(env, path, node, parts, p)
  {
    if p != e {
      var above, upper :| d == path + above && Leads(env, path, node, above, upper)
        && (upper.File? || upper.Dir?) && Glob(env, parts, above, upper.Dir?);
      var rel := p[|path|..];
      assert p == path + rel && rel[..|above|] == above;
      var via := DirectoryAbove(env, path, node, parts, rel, e);
      GlobExtends(env, parts, above, upper.Dir?, rel[|above|..], via.Dir?);
      assert above + rel[|above|..] == rel;
    }
  }

  lemma {:induction false} DirectoryAbove(
    env: Env, path: Path, node: Node, parts: seq<string>, rel: Path, e: Path) returns (via: Node)
    requires Selects(env, path, node, parts, e) && path + rel <= e && path + rel != e
    ensures Leads(env, path, node, rel, via) && via.Dir?
  {
    var below, lower :| e == path + below && Leads(env, path, node, below, lower)
      && (lower.File? || lower.Dir?) && Glob(env, parts, below, lower.Dir?);
    assert (path + rel)[|path|..] == rel && below[..|rel|] == rel;
    via := LeadsThrough(env, path, node, below, lower, |rel|);
  }
}
