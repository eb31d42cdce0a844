/** The walk of `put_tree` against the tree it walks: every node once, under its own path, parents
    before what they hold and siblings in name order. */
module TreeWalk {
  import opened Wrappers
  import opened Bytes
  import opened Names
  import opened TreeBody

  /** `node`, found at `base`, is or holds `n` at `p`. */
  ghost predicate Holds(base: Path, node: Node, p: Path, n: Node)
    decreases node
  {
    || (p == base && n == node)
    || (node.Folder? && exists c :: c in node.listing && Holds(base + [c.0], c.1, p, n))
  }

  /** Every directory can be listed, and no two entries of one share a name. */
  ghost predicate Listable(node: Node)
    decreases node
  {
    node.Folder? ==>
      && node.readable
      && Distinct(node.listing)
      && (forall c :: c in node.listing ==> Listable(c.1))
  }

  /** The walk yields exactly the nodes below the root, each under its path. */
  lemma {:induction false} WalkIsExact(prefix: Path, folder: Node, p: Path, n: Node)
    requires folder.Folder? && Listable(folder)
    ensures Entry(p, n) in Entries(prefix, folder)
      <==> exists c :: c in folder.listing && Holds(prefix + [c.0], c.1, p, n)
    decreases folder, 1, 0
  {
    WalkOfIsExact(prefix, folder, SortByName(folder.listing), p, n);
  }

  lemma {:induction false} WalkOfIsExact(
    prefix: Path, folder: Node, children: seq<(string, Node)>, p: Path, n: Node)
    requires folder.Folder? && Listable(folder)
    requires forall c :: c in children ==> c in folder.listing
    ensures Entry(p, n) in EntriesOf(prefix, folder, children)
      <==> exists c :: c in children && Holds(prefix + [c.0], c.1, p, n)
    decreases folder, 0, |children|
  {
    if |children| > 0 {
      var (name, node) := children[0];
      assert children[0] in folder.listing;
      var below := if node.Folder? then Entries(prefix + [name], node) else [];
      if node.Folder? { WalkIsExact(prefix + [name], node, p, n); }
      assert Holds(prefix + [name], node, p, n) <==>
             Entry(p, n) == Entry(prefix + [name], node) || Entry(p, n) in below;
      WalkOfIsExact(prefix, folder, children[1..], p, n);
      assert children == [children[0]] + children[1..];
    }
  }

  /** Parents before what they hold, siblings by name. */
  predicate Before(a: Path, b: Path) {
    if |b| == 0 then false
    else if |a| == 0 then true
    else if a[0] == b[0] then Before(a[1..], b[1..])
    else AtMost(a[0], b[0])
  }

  ghost predicate Ordered(items: seq<Item>) {
    && (forall i :: 0 <= i < |items| ==> items[i].Entry?)
    && (forall i, j :: 0 <= i < j < |items| ==> Before(items[i].path, items[j].path))
  }

  /** Every item lies below `prefix`, under the name of one of `children`. */
  ghost predicate Under(items: seq<Item>, prefix: Path, children: seq<(string, Node)>) {
    forall i :: 0 <= i < |items| ==>
      && items[i].Entry? && |prefix| < |items[i].path| && prefix <= items[i].path
      && exists c :: c in children && c.0 == items[i].path[|prefix|]
  }

  /** The order of the walk is that of the paths; as `Before` is strict, no path comes twice. */
  lemma {:induction false} WalkIsOrdered(prefix: Path, folder: Node)
    requires folder.Folder? && Listable(folder)
    ensures Ordered(Entries(prefix, folder)) && Under(Entries(prefix, folder), prefix, folder.listing)
    decreases folder, 1, 0
  {
    SortedInOrder(folder.listing);
    SortedDistinct(folder.listing);
    WalkOfIsOrdered(prefix, folder, SortByName(folder.listing));
  }

  lemma {:induction false} AncestorsComeFirst(a: Path, b: Path)
    requires a <= b && |a| < |b|
    ensures Before(a, b)
  {
    if |a| > 0 { AncestorsComeFirst(a[1..], b[1..]); }
  }

  lemma {:induction false} SiblingsGoByName(prefix: Path, a: Path, b: Path)
    requires prefix <= a && prefix <= b && |prefix| < |a| && |prefix| < |b|
    requires a[|prefix|] != b[|prefix|] && AtMost(a[|prefix|], b[|prefix|])
    ensures Before(a, b)
  {
    if |prefix| > 0 { SiblingsGoByName(prefix[1..], a[1..], b[1..]); }
  }

  lemma {:induction false} WalkOfIsOrdered(prefix: Path, folder: Node, children: seq<(string, Node)>)
    requires folder.Folder? && Listable(folder)
    requires forall c :: c in children ==> c in folder.listing
    requires InOrder(children) && Distinct(children)
    ensures Ordered(EntriesOf(prefix, folder, children)) && Under(EntriesOf(prefix, folder, children), prefix, children)
    decreases folder, 0, |children|
  {
    if |children| > 0 {
      var (name, node) := children[0];
      assert children[0] in folder.listing;
      var here := [Entry(prefix + [name], node)] + if node.Folder? then Entries(prefix + [name], node) else [];
      if node.Folder? { WalkIsOrdered(prefix + [name], node); }
      HereIsOrdered(prefix, children[0]);
      WalkOfIsOrdered(prefix, folder, children[1..]);
      JoinOrdered(here, EntriesOf(prefix, folder, children[1..]), prefix, children);
      assert EntriesOf(prefix, folder, children) == here + EntriesOf(prefix, folder, children[1..]);
    }
  }

  /** An entry followed by what it holds. */
  lemma {:induction false} HereIsOrdered(prefix: Path, child: (string, Node))
    requires child.1.Folder? ==>
      Ordered(Entries(prefix + [child.0], child.1))
      && Under(Entries(prefix + [child.0], child.1), prefix + [child.0], child.1.listing)
    ensures var here := [Entry(prefix + [child.0], child.1)]
                        + if child.1.Folder? then Entries(prefix + [child.0], child.1) else [];
      Ordered(here) && Under(here, prefix, [child])
  {
    var base := prefix + [child.0];
    var below := if child.1.Folder? then Entries(base, child.1) else [];
    var here := [Entry(base, child.1)] + below;
    forall i | 0 <= i < |below| ensures Before(base, below[i].path) { AncestorsComeFirst(base, below[i].path); }
    forall i | 0 <= i < |here|
      ensures here[i].Entry? && |prefix| < |here[i].path| && prefix <= here[i].path && here[i].path[|prefix|] == child.0
    {
      if i > 0 { assert here[i] == below[i - 1] && base <= below[i - 1].path; }
    }
    assert child in [child];
  }

  lemma {:induction false} JoinOrdered(here: seq<Item>, rest: seq<Item>, prefix: Path, children: seq<(string, Node)>)
    requires |children| > 0 && InOrder(children) && Distinct(children)
    requires Ordered(here) && Under(here, prefix, [children[0]])
    requires Ordered(rest) && Under(rest, prefix, children[1..])
    ensures Ordered(here + rest) && Under(here + rest, prefix, children)
  {
    forall i, j | 0 <= i < |here| && 0 <= j < |rest| ensures Before(here[i].path, rest[j].path) {
      var c :| c in children[1..] && c.0 == rest[j].path[|prefix|];
      var k :| 0 <= k < |children[1..]| && children[1..][k] == c;
      assert children[k + 1] == c;
      SiblingsGoByName(prefix, here[i].path, rest[j].path);
    }
    forall i | 0 <= i < |here + rest|
      ensures exists c :: c in children && c.0 == (here + rest)[i].path[|prefix|]
    {
      if i < |here| {
        assert children[0] in children && children[0].0 == here[i].path[|prefix|];
      } else {
        var c :| c in children[1..] && c.0 == rest[i - |here|].path[|prefix|];
        assert c in children;
      }
    }
  }

  // --- the whole upload ---

  /** No two entries of a directory share a name, and no name holds a slash. */
  ghost predicate NamesDiffer(node: Node)
    decreases node
  {
    node.Folder? ==>
      Distinct(node.listing) && forall c :: c in node.listing ==> ProperName(c.0) && NamesDiffer(c.1)
  }

  lemma {:induction false} HeldPathIsProper(base: Path, node: Node, p: Path, n: Node)
    requires Holds(base, node, p, n) && NamesDiffer(node) && Proper(base)
    ensures Proper(p)
    decreases node
  {
    if !(p == base && n == node) {
      var c :| c in node.listing && Holds(base + [c.0], c.1, p, n);
      HeldPathIsProper(base + [c.0], c.1, p, n);
    }
  }

  /** Every frame but the last names the path of its entry. */
  ghost predicate NamesPaths(frames: seq<Frame>, items: seq<Item>) {
    forall i :: 0 <= i < |items| && i < |frames| ==>
      var h := frames[i].header;
      items[i].Entry? && !Last(h) && NamesIn(h.name) == items[i].path
  }

  lemma {:induction false} CopiesNamePaths(frames: seq<Frame>, items: seq<Item>, root: Node)
    requires root.Folder? && NamesDiffer(root) && Copies(frames, items) && Lists(items, root)
    ensures NamesPaths(frames, items)
  {
    forall i | 0 <= i < |items|
      ensures items[i].Entry? && !Last(frames[i].header) && NamesIn(frames[i].header.name) == items[i].path
    {
      assert frames[i] == Copied(items[i]) && Entry(items[i].path, items[i].node) in items;
      var c :| c in root.listing && Holds([c.0], c.1, items[i].path, items[i].node);
      HeldPathIsProper([c.0], c.1, items[i].path, items[i].node);
      PathsReadBack(items[i].path);
    }
  }

  /** A walk that does not end early could list every directory. */
  lemma {:induction false} WalkedIsListable(prefix: Path, folder: Node)
    requires folder.Folder? && NamesDiffer(folder) && Unlistable !in Entries(prefix, folder)
    ensures Listable(folder)
    decreases folder, 1, 0
  {
    assert Unlistable in [Unlistable];
    if folder.readable {
      WalkedChildrenAreListable(prefix, folder, SortByName(folder.listing));
      forall c | c in folder.listing ensures Listable(c.1) { assert c in SortByName(folder.listing); }
    }
  }

  lemma {:induction false} WalkedChildrenAreListable(prefix: Path, folder: Node, children: seq<(string, Node)>)
    requires folder.Folder? && NamesDiffer(folder) && forall c :: c in children ==> c in folder.listing
    requires Unlistable !in EntriesOf(prefix, folder, children)
    ensures forall c :: c in children ==> Listable(c.1)
    decreases folder, 0, |children|
  {
    if |children| > 0 {
      var (name, node) := children[0];
      assert children[0] in folder.listing;
      if node.Folder? { WalkedIsListable(prefix + [name], node); }
      WalkedChildrenAreListable(prefix, folder, children[1..]);
      assert children == [children[0]] + children[1..];
    }
  }

  /** The nodes below `root`, each once and under its path, in the order of the paths. */
  ghost predicate Lists(items: seq<Item>, root: Node)
    requires root.Folder?
  {
    && Ordered(items)
    && forall p, n :: Entry(p, n) in items <==> exists c :: c in root.listing && Holds([c.0], c.1, p, n)
  }

  /** Read back, the bytes are the nodes below `root` in order, and `end`. */
  ghost predicate ReadsAsTree(c: Codec, bytes: Bytes, root: Node)
    requires root.Folder?
  {
    exists frames, items :: ReadFrames(c, bytes) == Some(frames)
      && Copies(frames, items) && NamesPaths(frames, items) && Lists(items, root)
  }

  lemma {:induction false} WalkLists(root: Node)
    requires root.Folder? && Listable(root)
    ensures Lists(Entries([], root), root)
  {
    WalkIsOrdered([], root);
    forall p, n ensures Entry(p, n) in Entries([], root)
      <==> exists c :: c in root.listing && Holds([c.0], c.1, p, n)
    {
      WalkIsExact([], root, p, n);
      assert forall c :: c in root.listing ==> [] + [c.0] == [c.0];
    }
  }

  /** An upload in which nothing fails reads back as the tree. */
  lemma {:induction false} FaultlessUploadIsTheTree(c: Codec, root: Node, block: nat)
    requires Lawful(c) && root.Folder? && NamesDiffer(root) && block > 0 && !Fails(Entries([], root), block)
    ensures ReadsAsTree(c, EncodeFrames(c, Plan(Entries([], root), block)), root)
  {
    var items := Entries([], root);
    UploadReadsBack(c, root, block);
    FaultlessPlanIsTheTree(items, block);
    assert Unlistable !in items;
    WalkedIsListable([], root);
    WalkLists(root);
    CopiesNamePaths(Plan(items, block), items, root);
    assert Copies(Plan(items, block), items) && Lists(items, root);
  }

  /** The whole body of a tree. If nothing fails the guest reads the tree; otherwise it reads whole frames
      up to an `abort`. */
  method Upload(c: Codec, root: Node, block: nat, limit: nat) returns (blocks: seq<Bytes>, failed: bool)
    requires Lawful(c) && root.Folder? && NamesDiffer(root) && block > 0
    ensures !failed ==> ReadsAsTree(c, Concat(blocks), root)
    ensures failed ==> var frames := ReadFrames(c, Concat(blocks));
      frames.Some? && GoodBody(frames.value) && frames.value[|frames.value| - 1] == Plain(AbortHeader)
    ensures failed <==> Fails(Entries([], root), block)
  {
    blocks, failed := Body(c, Entries([], root), block, limit);
    UploadReadsBack(c, root, block);
    if !failed { FaultlessUploadIsTheTree(c, root, block); }
  }
}
