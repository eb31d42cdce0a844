/** Layered configuration: presets, run files and overrides, merged lowest layer first. */
module ConfigMerge {
  import opened Wrappers

  type Path = seq<string>

  type Table = map<string, Value>

  datatype Value = Section(table: Table) | List(items: seq<string>) | Plain(text: string)

  /** The two lists that a higher layer adds to instead of replacing. */
  predicate Additive(path: Path) { path == ["agent", "skills"] || path == ["agent", "mcp_servers"] }

  // --- merging ---

  function Combine(below: Value, above: Value, path: Path): Value
    decreases below, 1
  {
    match (below, above)
    case (Section(b), Section(a)) => Section(Merge(b, a, path))
    case (List(b), List(a)) => if Additive(path) then List(b + a) else above
    case _ => above
  }

  function Merge(base: Table, overlay: Table, prefix: Path): Table
    decreases Section(base), 0
  {
    map k | k in base.Keys + overlay.Keys ::
      if k !in overlay then base[k]
      else if k !in base then overlay[k]
      else Combine(base[k], overlay[k], prefix + [k])
  }

  /** The entry of the merge at a key that the overlay has. */
  function Taken(base: Table, overlay: Table, prefix: Path, key: string): Value
    requires key in overlay
  {
    if key in base then Combine(base[key], overlay[key], prefix + [key]) else overlay[key]
  }

  /** The keys in `left` are still to be taken from the overlay. */
  ghost predicate TakenSoFar(base: Table, overlay: Table, prefix: Path, merged: Table, left: set<string>) {
    && left <= overlay.Keys
    && merged.Keys == base.Keys + (overlay.Keys - left)
    && (forall k :: k in base && (k !in overlay || k in left) ==> merged[k] == base[k])
    && (forall k :: k in overlay && k !in left ==> merged[k] == Taken(base, overlay, prefix, k))
  }

  lemma {:induction false} TakesOne(
    base: Table, overlay: Table, prefix: Path, merged: Table, left: set<string>, key: string, value: Value)
    requires TakenSoFar(base, overlay, prefix, merged, left)
    requires key in left && value == Taken(base, overlay, prefix, key)
    ensures TakenSoFar(base, overlay, prefix, merged[key := value], left - {key})
  {}

  lemma {:induction false} AllTaken(base: Table, overlay: Table, prefix: Path, merged: Table)
    requires TakenSoFar(base, overlay, prefix, merged, {})
    ensures merged == Merge(base, overlay, prefix)
  {
    var m := Merge(base, overlay, prefix);
    forall k | k in m ensures merged[k] == m[k] { if k in overlay { assert m[k] == Taken(base, overlay, prefix, k); } }
  }

  /** A copy of the base that takes the overlay's entries one by one. */
  method DeepMerge(base: Table, overlay: Table, prefix: Path) returns (merged: Table)
    ensures merged == Merge(base, overlay, prefix)
    decreases Section(base), 0
  {
    merged := base;
    var left := overlay.Keys;
    while left != {}
      invariant TakenSoFar(base, overlay, prefix, merged, left)
      decreases |left|
    {
      var key :| key in left;
      var value := overlay[key];
      if key in merged { value := CombineValues(base[key], value, prefix + [key]); }
      TakesOne(base, overlay, prefix, merged, left, key, value);
      merged := merged[key := value];
      left := left - {key};
    }
    AllTaken(base, overlay, prefix, merged);
  }

  method CombineValues(current: Value, value: Value, path: Path) returns (merged: Value)
    ensures merged == Combine(current, value, path)
    decreases current, 1
  {
    if current.Section? && value.Section? {
      var section := DeepMerge(current.table, value.table, path);
      return Section(section);
    }
    if Additive(path) && current.List? && value.List? { return List(current.items + value.items); }
    return value;
  }

  // --- looking up ---

  function Lookup(t: Table, path: Path): Option<Value>
    decreases |path|
  {
    if |path| == 0 then Some(Section(t))
    else if path[0] !in t then None
    else if |path| == 1 then Some(t[path[0]])
    else match t[path[0]] case Section(inner) => Lookup(inner, path[1..]) case _ => None
  }

  /** Something other than a section stands where the path needs one. */
  predicate Cuts(t: Table, path: Path)
    decreases |path|
  {
    |path| > 1 && path[0] in t
    && match t[path[0]] case Section(inner) => Cuts(inner, path[1..]) case _ => true
  }

  /** What a layer over another gives at a path: its own value, merged with the one below if both are
      sections or lists to be added; nothing, if it cuts the path off; else what lies below. */
  function Over(below: Option<Value>, above: Option<Value>, cut: bool, path: Path): Option<Value> {
    match above
    case Some(a) => if below.Some? then Some(Combine(below.value, a, path)) else above
    case None => if cut then None else below
  }

  lemma {:induction false} LookupOfMerge(base: Table, overlay: Table, prefix: Path, path: Path)
    requires |path| > 0
    ensures Lookup(Merge(base, overlay, prefix), path)
         == Over(Lookup(base, path), Lookup(overlay, path), Cuts(overlay, path), prefix + path)
    decreases |path|
  {
    var k := path[0];
    if |path| == 1 {
      assert path == [k];
    } else {
      assert (prefix + [k]) + path[1..] == prefix + path;
      if k in base && base[k].Section? && k in overlay && overlay[k].Section? {
        LookupOfMerge(base[k].table, overlay[k].table, prefix + [k], path[1..]);
      }
    }
  }

  // --- any number of layers ---

  /** Merge layers, the lowest first. */
  function MergeAll(layers: seq<Table>): Table {
    if |layers| == 0 then map[] else Merge(MergeAll(layers[..|layers| - 1]), layers[|layers| - 1], [])
  }

  lemma {:induction false} LookupInLayers(layers: seq<Table>, path: Path)
    requires |layers| > 0 && |path| > 0
    ensures var (rest, top) := (layers[..|layers| - 1], layers[|layers| - 1]);
      Lookup(MergeAll(layers), path) == Over(Lookup(MergeAll(rest), path), Lookup(top, path), Cuts(top, path), path)
  {
    LookupOfMerge(MergeAll(layers[..|layers| - 1]), layers[|layers| - 1], [], path);
    assert [] + path == path;
  }

  predicate Silent(t: Table, path: Path) { Lookup(t, path).None? && !Cuts(t, path) }

  /** The highest layer that says anything about a path decides it, unless both it and a lower layer
      have something to be merged there. */
  lemma {:induction false} HighestLayerWins(layers: seq<Table>, path: Path, i: nat)
    requires |path| > 0 && i < |layers| && !Silent(layers[i], path)
    requires forall j :: i < j < |layers| ==> Silent(layers[j], path)
    ensures var value := Lookup(layers[i], path);
      value.None? || value.value.Plain?
      || (value.value.List? && path !in [["agent", "skills"], ["agent", "mcp_servers"]]) ==>
        Lookup(MergeAll(layers), path) == value
  {
    LookupInLayers(layers, path);
    if i < |layers| - 1 { HighestLayerWins(layers[..|layers| - 1], path, i); }
  }

  /** What all layers list at a path, the lowest first. */
  function Listed(layers: seq<Table>, path: Path): seq<string> {
    if |layers| == 0 then []
    else Listed(layers[..|layers| - 1], path)
         + match Lookup(layers[|layers| - 1], path) case Some(List(items)) => items case _ => []
  }

  predicate Lists(t: Table, path: Path) { Lookup(t, path).Some? && Lookup(t, path).value.List? }

  predicate AnyLists(layers: seq<Table>, path: Path) {
    |layers| > 0 && (Lists(layers[|layers| - 1], path) || AnyLists(layers[..|layers| - 1], path))
  }

  /** The additive lists grow by every layer that has one. */
  lemma {:induction false} AdditiveListsConcatenate(layers: seq<Table>, path: Path)
    requires path in [["agent", "skills"], ["agent", "mcp_servers"]]
    requires forall i :: 0 <= i < |layers| ==> Lists(layers[i], path) || Silent(layers[i], path)
    ensures Lookup(MergeAll(layers), path)
         == if AnyLists(layers, path) then Some(List(Listed(layers, path))) else None
  {
    if |layers| > 0 {
      var (rest, top) := (layers[..|layers| - 1], layers[|layers| - 1]);
      LookupInLayers(layers, path);
      AdditiveListsConcatenate(rest, path);
      if !AnyLists(rest, path) { NothingListed(rest, path); }
      assert Lists(top, path) || Silent(top, path);
      assert Silent(top, path) ==> Listed(layers, path) == Listed(rest, path);
      assert Lists(top, path) && !AnyLists(rest, path) ==> Listed(layers, path) == Lookup(top, path).value.items;
    }
  }

  lemma {:induction false} NothingListed(layers: seq<Table>, path: Path)
    requires !AnyLists(layers, path)
    ensures |Listed(layers, path)| == 0
  {
    if |layers| > 0 { NothingListed(layers[..|layers| - 1], path); }
  }

  // --- associativity ---

  /** Below `above`, the value `below` leaves no trace: every path of it is also above it, and what it
      would add to a list is empty. */
  predicate AddsNothing(below: Value, above: Value, path: Path)
    decreases below
  {
    match (below, above)
    case (Section(b), Section(a)) => forall k :: k in b ==> k in a && AddsNothing(b[k], a[k], path + [k])
    case (List(b), List(_)) => Additive(path) ==> |b| == 0
    case _ => true
  }

  predicate Mergeable(below: Value, above: Value, path: Path) {
    (below.Section? && above.Section?) || (below.List? && above.List? && Additive(path))
  }

  /** The values at a path that all three layers have can be merged in either order: the outer two are to
      be merged only if the middle one is too, or the lowest adds nothing. */
  ghost predicate ValuesReassociate(a: Value, b: Value, c: Value, path: Path)
    decreases a, 1
  {
    if !Mergeable(a, c, path) then true
    else if !Mergeable(a, b, path) then AddsNothing(a, c, path)
    else a.Section? ==> Reassociates(a.table, b.table, c.table, path)
  }

  ghost predicate Reassociates(a: Table, b: Table, c: Table, prefix: Path)
    decreases Section(a), 0
  {
    forall k :: k in a && k in b && k in c ==> ValuesReassociate(a[k], b[k], c[k], prefix + [k])
  }

  lemma {:induction false} AddsNothingIff(below: Value, above: Value, path: Path)
    ensures Combine(below, above, path) == above <==> AddsNothing(below, above, path)
    decreases below
  {
    if below.Section? && above.Section? {
      var (b, a) := (below.table, above.table);
      var m := Merge(b, a, path);
      forall k | k in b && k in a ensures m[k] == a[k] <==> AddsNothing(b[k], a[k], path + [k]) {
        AddsNothingIff(b[k], a[k], path + [k]);
      }
      if AddsNothing(below, above, path) {
        assert m.Keys == a.Keys;
        forall k | k in m ensures m[k] == a[k] {}
        assert m == a;
      } else {
        assert m != a;
      }
    } else if below.List? && above.List? {
      EmptyAddsNothing(below.items, above.items);
    }
  }

  lemma {:induction false} EmptyAddsNothing(a: seq<string>, b: seq<string>)
    ensures a + b == b <==> |a| == 0
  {
    assert |a + b| == |a| + |b|;
    if |a| == 0 { assert a + b == b; }
  }

  lemma {:induction false} CombineIsAssociativeIff(a: Value, b: Value, c: Value, path: Path)
    ensures Combine(Combine(a, b, path), c, path) == Combine(a, Combine(b, c, path), path)
       <==> ValuesReassociate(a, b, c, path)
    decreases a, 1
  {
    AddsNothingIff(a, c, path);
    if a.Section? && b.Section? && c.Section? {
      MergeIsAssociativeIff(a.table, b.table, c.table, path);
    } else if a.List? && b.List? && c.List? {
      assert (a.items + b.items) + c.items == a.items + (b.items + c.items);
    }
  }

  lemma {:induction false} MergeIsAssociativeIff(a: Table, b: Table, c: Table, prefix: Path)
    ensures Merge(Merge(a, b, prefix), c, prefix) == Merge(a, Merge(b, c, prefix), prefix)
       <==> Reassociates(a, b, c, prefix)
    decreases Section(a), 0
  {
    var left := Merge(Merge(a, b, prefix), c, prefix);
    var right := Merge(a, Merge(b, c, prefix), prefix);
    assert left.Keys == right.Keys;
    forall k | k in a && k in b && k in c
      ensures left[k] == right[k] <==> ValuesReassociate(a[k], b[k], c[k], prefix + [k])
    {
      CombineIsAssociativeIff(a[k], b[k], c[k], prefix + [k]);
    }
    forall k | k in left && !(k in a && k in b && k in c) ensures left[k] == right[k] {}
    if Reassociates(a, b, c, prefix) { assert left == right; }
  }

  /** A section, a plain value over it, and an empty section on top: the lowest section's entry survives
      only if the upper two layers are merged first. */
  lemma {:induction false} MergeIsNotAssociative(k: string, inner: string, text: string, prefix: Path)
    ensures
      var (a, b, c) := (map[k := Section(map[inner := Plain(text)])], map[k := Plain(text)], map[k := Section(map[])]);
      Merge(Merge(a, b, prefix), c, prefix) != Merge(a, Merge(b, c, prefix), prefix)
  {
    var (a, b, c) := (map[k := Section(map[inner := Plain(text)])], map[k := Plain(text)], map[k := Section(map[])]);
    MergeIsAssociativeIff(a, b, c, prefix);
    assert inner in a[k].table && inner !in c[k].table;
    assert !AddsNothing(a[k], c[k], prefix + [k]);
    assert !ValuesReassociate(a[k], b[k], c[k], prefix + [k]);
  }

  /** Layers that agree on which paths are sections, and which additive paths are lists. */
  ghost predicate Agree(s: Value, t: Value, path: Path)
    decreases s
  {
    && (s.Section? <==> t.Section?)
    && (Additive(path) ==> (s.List? <==> t.List?))
    && (s.Section? ==> forall k :: k in s.table && k in t.table ==> Agree(s.table[k], t.table[k], path + [k]))
  }

  lemma {:induction false} AgreementReassociates(a: Value, b: Value, c: Value, path: Path)
    requires Agree(a, b, path) && Agree(b, c, path)
    ensures ValuesReassociate(a, b, c, path)
    decreases a
  {
    if a.Section? {
      forall k | k in a.table && k in b.table && k in c.table
        ensures ValuesReassociate(a.table[k], b.table[k], c.table[k], path + [k])
      {
        AgreementReassociates(a.table[k], b.table[k], c.table[k], path + [k]);
      }
    }
  }

  // --- overrides ---

  /** Set one path, making the sections it needs; an error if something else is in the way. */
  function Assigned(t: Table, path: Path, value: Value): Option<Table>
    requires |path| > 0
    decreases |path|
  {
    if |path| == 1 then Some(t[path[0] := value])
    else
      var node := if path[0] in t then t[path[0]] else Section(map[]);
      match node
      case Section(inner) =>
        (match Assigned(inner, path[1..], value)
         case Some(inside) => Some(t[path[0] := Section(inside)])
         case None => None)
      case _ => None
  }

  /** The path is set and nothing beside it changes; it fails exactly when the path is cut off. */
  lemma {:induction false} AssignmentSetsOnePath(t: Table, path: Path, value: Value, other: Path)
    requires |path| > 0 && |other| > 0
    ensures Assigned(t, path, value).None? <==> Cuts(t, path)
    ensures Assigned(t, path, value).Some? ==>
      var after := Assigned(t, path, value).value;
      && Lookup(after, path) == Some(value)
      && (!(path <= other) && !(other <= path) ==> Lookup(after, other) == Lookup(t, other))
    decreases |path|
  {
    if |path| > 1 {
      var k := path[0];
      var inner := if k in t then (if t[k].Section? then t[k].table else map[]) else map[];
      if |other| > 1 && other[0] == k {
        assert path <= other <==> path[1..] <= other[1..];
        assert other <= path <==> other[1..] <= path[1..];
        AssignmentSetsOnePath(inner, path[1..], value, other[1..]);
      } else {
        AssignmentSetsOnePath(inner, path[1..], value, path[1..]);
      }
      if k !in t { NothingInEmpty(path[1..]); }
    }
  }

  lemma {:induction false} NothingInEmpty(path: Path)
    requires |path| > 0
    ensures !Cuts(map[], path) && Lookup(map[], path).None?
  {}

  function AllAssigned(overrides: seq<(Path, Value)>): Option<Table>
    requires forall i :: 0 <= i < |overrides| ==> |overrides[i].0| > 0
  {
    if |overrides| == 0 then Some(map[])
    else
      var last := overrides[|overrides| - 1];
      match AllAssigned(overrides[..|overrides| - 1])
      case Some(t) => Assigned(t, last.0, last.1)
      case None => None
  }

  /** Preset, run file and overrides, in this order; `resolve` is what the override layer's resource
      lists go through. */
  method MergeLayers(preset: Option<Table>, run: Option<Table>, overrides: seq<(Path, Value)>, resolve: Table -> Table)
    returns (merged: Option<Table>)
    requires forall i :: 0 <= i < |overrides| ==> |overrides[i].0| > 0
    ensures match AllAssigned(overrides)
      case None => merged.None?
      case Some(layer) =>
        merged == Some(MergeAll([TableOf(preset), TableOf(run), if layer == map[] then map[] else resolve(layer)]))
  {
    var result: Table := map[];
    var files := [preset, run];
    for i := 0 to 2
      invariant result == MergeAll(seq(i, k requires 0 <= k < i => TableOf(files[k])))
    {
      ghost var before := seq(i, k requires 0 <= k < i => TableOf(files[k]));
      ghost var after := seq(i + 1, k requires 0 <= k < i + 1 => TableOf(files[k]));
      assert after[..i] == before;
      if files[i].Some? && files[i].value != map[] {
        result := DeepMerge(result, files[i].value, []);
      } else {
        MergingNothing(result, []);
      }
    }
    var layer: Table := map[];
    var i := 0;
    while i < |overrides|
      invariant 0 <= i <= |overrides| && AllAssigned(overrides[..i]) == Some(layer)
    {
      assert overrides[..i + 1][..i] == overrides[..i];
      var next := Assigned(layer, overrides[i].0, overrides[i].1);
      if next.None? {
        StaysUnassigned(overrides, i + 1);
        return None;
      }
      layer := next.value;
      i := i + 1;
    }
    assert overrides[..i] == overrides;
    ghost var three := [TableOf(preset), TableOf(run), if layer == map[] then map[] else resolve(layer)];
    assert three[..2] == seq(2, k requires 0 <= k < 2 => TableOf(files[k]));
    if layer != map[] {
      result := DeepMerge(result, resolve(layer), []);
    } else {
      MergingNothing(result, []);
    }
    return Some(result);
  }

  function TableOf(layer: Option<Table>): Table { if layer.Some? then layer.value else map[] }

  lemma {:induction false} MergingNothing(t: Table, prefix: Path)
    ensures Merge(t, map[], prefix) == t
  {}

  lemma {:induction false} StaysUnassigned(overrides: seq<(Path, Value)>, i: nat)
    requires forall k :: 0 <= k < |overrides| ==> |overrides[k].0| > 0
    requires i <= |overrides| && AllAssigned(overrides[..i]).None?
    ensures AllAssigned(overrides).None?
    decreases |overrides| - i
  {
    if i == |overrides| {
      assert overrides[..i] == overrides;
    } else {
      assert overrides[..i + 1][..i] == overrides[..i];
      StaysUnassigned(overrides, i + 1);
    }
  }
}
