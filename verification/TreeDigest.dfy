/** What `tree_digest` feeds to the hash: the files and links of a tree, in path order, as
    length-prefixed fields. The stream can be read back, so two trees have the same stream exactly
    when they hold the same files and links. */
module TreeDigest {
  import opened Wrappers
  import opened Bytes

  type Path = seq<Bytes>

  /** One path below the root, as the walk finds it. A file comes with the size reported by `stat`
      and with the blocks that reading it yields. */
  datatype Found =
    | Symlink(path: Path, target: Bytes, escapes: bool)
    | Directory(path: Path)
    | File(path: Path, executable: bool, size: nat, blocks: seq<Bytes>)
    | Special(path: Path)

  /** What the digest is about. */
  datatype Item = Link(path: Bytes, target: Bytes) | Content(path: Bytes, executable: bool, data: Bytes)

  datatype DigestError = Escapes(path: Path) | Unsupported(path: Path) | Changed(path: Path)

  const FILE_TAG: Bytes := [102, 105, 108, 101]
  const SYMLINK_TAG: Bytes := [115, 121, 109, 108, 105, 110, 107]

  function Field(value: Bytes): Bytes {
    BigEndian(|value|, 8) + value
  }

  function Flag(executable: bool): Bytes { if executable then [49] else [48] }

  /** The content with its sizes: once as a field and once in front of the bytes. */
  function Sized(data: Bytes): Bytes {
    Field(BigEndian(|data|, 8)) + BigEndian(|data|, 8) + data
  }

  function EncodeItem(item: Item): Bytes {
    match item
    case Link(path, target) => Field(SYMLINK_TAG) + Field(path) + Field(target)
    case Content(path, executable, data) =>
      Field(FILE_TAG) + Field(path) + Field(Flag(executable)) + Sized(data)
  }

  function Encode(items: seq<Item>): Bytes {
    if |items| == 0 then [] else EncodeItem(items[0]) + Encode(items[1..])
  }

  predicate Fits(item: Item) {
    match item
    case Link(path, target) => |path| < LIMIT && |target| < LIMIT
    case Content(path, _, data) => |path| < LIMIT && |data| < LIMIT
  }

  // --- reading the stream back ---

  /** The next field and what follows it. */
  function TakeField(b: Bytes): Option<(Bytes, Bytes)> {
    if |b| < 8 then None
    else
      var n := Value(b[..8]);
      if |b| < 8 + n then None else Some((b[8..8 + n], b[8 + n..]))
  }

  function DecodeItem(b: Bytes): (r: Option<(Item, Bytes)>)
    ensures r.Some? ==> |r.value.1| < |b|
  {
    var tag := TakeField(b);
    if tag.None? then None
    else
      var path := TakeField(tag.value.1);
      if path.None? then None
      else
        var third := TakeField(path.value.1);
        if third.None? then None
        else if tag.value.0 == SYMLINK_TAG then Some((Link(path.value.0, third.value.0), third.value.1))
        else
          var size := TakeField(third.value.1);
          if size.None? || |size.value.1| < 8 then None
          else
            var n := Value(size.value.1[..8]);
            if |size.value.1| < 8 + n then None
            else
              Some((Content(path.value.0, third.value.0 == Flag(true), size.value.1[8..8 + n]), size.value.1[8 + n..]))
  }

  function Decode(b: Bytes): Option<seq<Item>> {
    if |b| == 0 then Some([])
    else
      var first := DecodeItem(b);
      if first.None? then None
      else
        var rest := Decode(first.value.1);
        if rest.None? then None else Some([first.value.0] + rest.value)
  }

  lemma {:induction false} FieldRoundTrips(value: Bytes, rest: Bytes)
    requires |value| < LIMIT
    ensures TakeField(Field(value) + rest) == Some((value, rest))
  {
    LengthFits(|value|);
    var b := Field(value) + rest;
    assert b[..8] == BigEndian(|value|, 8);
    assert b[8..8 + |value|] == value && b[8 + |value|..] == rest;
  }

  lemma {:induction false} LinkRoundTrips(path: Bytes, target: Bytes, rest: Bytes)
    requires Fits(Link(path, target))
    ensures DecodeItem(EncodeItem(Link(path, target)) + rest) == Some((Link(path, target), rest))
  {
    var last := Field(target) + rest;
    var middle := Field(path) + last;
    assert EncodeItem(Link(path, target)) + rest == Field(SYMLINK_TAG) + middle;
    FieldRoundTrips(SYMLINK_TAG, middle);
    FieldRoundTrips(path, last);
    FieldRoundTrips(target, rest);
  }

  lemma {:induction false} Slices(a: Bytes, b: Bytes, c: Bytes)
    ensures var s := a + b + c; s[..|a|] == a && s[|a|..|a| + |b|] == b && s[|a| + |b|..] == c
  {}

  lemma {:induction false} SizedReads(data: Bytes, rest: Bytes)
    requires |data| < LIMIT
    ensures var tail := BigEndian(|data|, 8) + data + rest;
      && TakeField(Sized(data) + rest) == Some((BigEndian(|data|, 8), tail))
      && Value(tail[..8]) == |data| && tail[8..8 + |data|] == data && tail[8 + |data|..] == rest
  {
    var size := BigEndian(|data|, 8);
    var tail := size + data + rest;
    Slices(size, data, rest);
    LengthFits(|data|);
    assert Sized(data) + rest == Field(size) + tail by { Regroup(Field(size), size, data, rest); }
    FieldRoundTrips(size, tail);
  }

  lemma {:induction false} Regroup(a: Bytes, b: Bytes, c: Bytes, d: Bytes)
    ensures ((a + b) + c) + d == a + ((b + c) + d)
  {}

  lemma {:induction false} ContentRoundTrips(path: Bytes, executable: bool, data: Bytes, rest: Bytes)
    requires Fits(Content(path, executable, data))
    ensures DecodeItem(EncodeItem(Content(path, executable, data)) + rest)
         == Some((Content(path, executable, data), rest))
  {
    var sized := Sized(data) + rest;
    var flagged := Field(Flag(executable)) + sized;
    var named := Field(path) + flagged;
    var b := EncodeItem(Content(path, executable, data)) + rest;
    assert b == Field(FILE_TAG) + named by {
      RegroupItem(Field(FILE_TAG), Field(path), Field(Flag(executable)), Sized(data), rest);
    }
    FieldRoundTrips(FILE_TAG, named);
    FieldRoundTrips(path, flagged);
    FieldRoundTrips(Flag(executable), sized);
    SizedReads(data, rest);
    ReadsContent(b, named, path, flagged, executable, sized, BigEndian(|data|, 8) + data + rest, data, rest);
  }

  lemma {:induction false} ReadsContent(
    b: Bytes, named: Bytes, path: Bytes, flagged: Bytes, executable: bool, sized: Bytes,
    tail: Bytes, data: Bytes, rest: Bytes)
    requires TakeField(b) == Some((FILE_TAG, named))
    requires TakeField(named) == Some((path, flagged))
    requires TakeField(flagged) == Some((Flag(executable), sized))
    requires TakeField(sized).Some? && TakeField(sized).value.1 == tail
    requires |tail| >= 8 + |data| && Value(tail[..8]) == |data|
    requires tail[8..8 + |data|] == data && tail[8 + |data|..] == rest
    ensures DecodeItem(b) == Some((Content(path, executable, data), rest))
  {
    assert |FILE_TAG| != |SYMLINK_TAG|;
    assert Flag(true)[0] != Flag(false)[0];
  }

  lemma {:induction false} RegroupItem(a: Bytes, b: Bytes, c: Bytes, d: Bytes, e: Bytes)
    ensures (((a + b) + c) + d) + e == a + (b + (c + (d + e)))
  {}

  lemma {:induction false} ItemRoundTrips(item: Item, rest: Bytes)
    requires Fits(item)
    ensures DecodeItem(EncodeItem(item) + rest) == Some((item, rest))
  {
    match item
    case Link(path, target) => LinkRoundTrips(path, target, rest);
    case Content(path, executable, data) => ContentRoundTrips(path, executable, data, rest);
  }

  lemma {:induction false} DecodeFirst(item: Item, first: Bytes, rest: Bytes, items: seq<Item>)
    requires DecodeItem(first + rest) == Some((item, rest)) && Decode(rest) == Some(items)
    ensures Decode(first + rest) == Some([item] + items)
  {}

  lemma {:induction false} StreamRoundTrips(items: seq<Item>)
    requires forall i :: 0 <= i < |items| ==> Fits(items[i])
    ensures Decode(Encode(items)) == Some(items)
  {
    if |items| > 0 {
      StreamRoundTrips(items[1..]);
      OneMoreItem(items, items[0], items[1..]);
    }
  }

  lemma {:induction false} OneMoreItem(items: seq<Item>, item: Item, rest: seq<Item>)
    requires |items| > 0 && item == items[0] && rest == items[1..]
    requires Fits(item) && Decode(Encode(rest)) == Some(rest)
    ensures Decode(Encode(items)) == Some(items)
  {
    ItemRoundTrips(item, Encode(rest));
    DecodeFirst(item, EncodeItem(item), Encode(rest), rest);
    assert [item] + rest == items;
  }

  /** Equal streams come from equal lists of files and links. */
  lemma {:induction false} StreamIdentifiesTree(a: seq<Item>, b: seq<Item>)
    requires forall i :: 0 <= i < |a| ==> Fits(a[i])
    requires forall i :: 0 <= i < |b| ==> Fits(b[i])
    ensures Encode(a) == Encode(b) <==> a == b
  {
    StreamRoundTrips(a);
    StreamRoundTrips(b);
  }

  // --- the walk ---

  /** `as_posix()`. */
  function Posix(path: Path): Bytes {
    if |path| == 0 then [] else if |path| == 1 then path[0] else path[0] + [47] + Posix(path[1..])
  }

  /** An excluded path takes everything below it along. */
  predicate Excluded(path: Path, exclude: seq<Path>) {
    exists i :: 0 <= i < |exclude| && exclude[i] <= path
  }

  /** Reading stops at the first empty block. */
  function ReadAll(blocks: seq<Bytes>): Bytes {
    if |blocks| == 0 || |blocks[0]| == 0 then [] else blocks[0] + ReadAll(blocks[1..])
  }

  function Problem(f: Found): Option<DigestError> {
    match f
    case Symlink(path, _, escapes) => if escapes then Some(Escapes(path)) else None
    case Directory(_) => None
    case File(path, _, size, blocks) => if |ReadAll(blocks)| != size then Some(Changed(path)) else None
    case Special(path) => Some(Unsupported(path))
  }

  /** What a found path contributes; a directory nothing, so that empty ones do not count. */
  function Items(f: Found): seq<Item> {
    match f
    case Symlink(path, target, _) => [Link(Posix(path), target)]
    case File(path, executable, _, blocks) => [Content(Posix(path), executable, ReadAll(blocks))]
    case _ => []
  }

  function Visible(found: seq<Found>, exclude: seq<Path>): seq<Item> {
    if |found| == 0 then []
    else (if Excluded(found[0].path, exclude) then [] else Items(found[0])) + Visible(found[1..], exclude)
  }

  function FirstProblem(found: seq<Found>, exclude: seq<Path>): Option<DigestError> {
    if |found| == 0 then None
    else if !Excluded(found[0].path, exclude) && Problem(found[0]).Some? then Problem(found[0])
    else FirstProblem(found[1..], exclude)
  }

  /** What is fed to the hash, or the first problem. */
  function Fed(found: seq<Found>, exclude: seq<Path>): Result<Bytes, DigestError> {
    match FirstProblem(found, exclude)
    case Some(problem) => Err(problem)
    case None => Ok(Encode(Visible(found, exclude)))
  }

  /** Feed the paths, in their sorted order, to the digest; stop at the first that has none. */
  method Digest(found: seq<Found>, exclude: seq<Path>) returns (r: Result<Bytes, DigestError>)
    ensures r == Fed(found, exclude)
  {
    var fed: Bytes := [];
    var i := 0;
    while i < |found|
      invariant 0 <= i <= |found|
      invariant FirstProblem(found, exclude) == FirstProblem(found[i..], exclude)
      invariant fed + Encode(Visible(found[i..], exclude)) == Encode(Visible(found, exclude))
    {
      OneMore(found, i, exclude, fed);
      if !Excluded(found[i].path, exclude) {
        var chunk :- Feed(found[i]);
        fed := fed + chunk;
      }
      i := i + 1;
    }
    assert found[i..] == [] && fed + [] == fed;
    return Ok(fed);
  }

  lemma {:induction false} OneMore(found: seq<Found>, i: nat, exclude: seq<Path>, fed: Bytes)
    requires i < |found|
    ensures var (f, rest) := (found[i], found[i + 1..]);
      if Excluded(f.path, exclude) then
        && FirstProblem(found[i..], exclude) == FirstProblem(rest, exclude)
        && Visible(found[i..], exclude) == Visible(rest, exclude)
      else
        && FirstProblem(found[i..], exclude) == (if Problem(f).Some? then Problem(f) else FirstProblem(rest, exclude))
        && fed + Encode(Visible(found[i..], exclude)) == (fed + Encode(Items(f))) + Encode(Visible(rest, exclude))
  {
    assert found[i..][0] == found[i] && found[i..][1..] == found[i + 1..];
    EncodeAppend(Items(found[i]), Visible(found[i + 1..], exclude));
  }

  lemma {:induction false} EncodeAppend(a: seq<Item>, b: seq<Item>)
    requires |a| <= 1
    ensures Encode(a + b) == Encode(a) + Encode(b)
  {
    if |a| == 1 {
      assert (a + b)[1..] == b && a[1..] == [];
    } else {
      assert a + b == b;
    }
  }

  /** What one path adds to the digest. */
  method Feed(f: Found) returns (r: Result<Bytes, DigestError>)
    ensures r == if Problem(f).Some? then Err(Problem(f).value) else Ok(Encode(Items(f)))
  {
    var fed: Bytes := [];
    match f {
      case Symlink(path, target, escapes) =>
        if escapes { return Err(Escapes(path)); }
        fed := Field(SYMLINK_TAG);
        fed := fed + Field(Posix(path));
        fed := fed + Field(target);
        EncodeOne(Link(Posix(path), target));
      case Directory(_) =>
      case Special(path) =>
        return Err(Unsupported(path));
      case File(path, executable, size, blocks) =>
        fed := Field(FILE_TAG);
        fed := fed + Field(Posix(path));
        fed := fed + Field(Flag(executable));
        ghost var head := fed;
        fed := fed + Field(BigEndian(size, 8));
        fed := fed + BigEndian(size, 8);
        var observed, data := ReadBlocks(blocks);
        fed := fed + data;
        if observed != size { return Err(Changed(path)); }
        Regroup(head, Field(BigEndian(size, 8)), BigEndian(size, 8), data);
        EncodeOne(Content(Posix(path), executable, data));
    }
    return Ok(fed);
  }

  lemma {:induction false} EncodeOne(item: Item)
    ensures Encode([item]) == EncodeItem(item)
  {
    assert [item][1..] == [];
    assert EncodeItem(item) + [] == EncodeItem(item);
  }

  method ReadBlocks(blocks: seq<Bytes>) returns (observed: nat, data: Bytes)
    ensures data == ReadAll(blocks) && observed == |data|
  {
    observed, data := 0, [];
    var i := 0;
    while i < |blocks| && |blocks[i]| > 0
      invariant 0 <= i <= |blocks|
      invariant data + ReadAll(blocks[i..]) == ReadAll(blocks) && observed == |data|
    {
      assert blocks[i..][0] == blocks[i] && blocks[i..][1..] == blocks[i + 1..];
      observed := observed + |blocks[i]|;
      data := data + blocks[i];
      i := i + 1;
    }
  }

  // --- the digest tells trees apart ---

  const SLASH: byte := 47

  /** A path below the root, name by name. */
  predicate Proper(path: Path) {
    |path| > 0 && forall i :: 0 <= i < |path| ==> |path[i]| > 0 && SLASH !in path[i]
  }

  /** The names of a path, read back from its text. */
  function Names(text: Bytes): Path
    decreases |text|
  {
    var n := NameLength(text);
    if n == |text| then [text] else [text[..n]] + Names(text[n + 1..])
  }

  /** The length of the first name. */
  function NameLength(text: Bytes): (n: nat)
    ensures n <= |text|
  {
    if |text| == 0 || text[0] == SLASH then 0 else 1 + NameLength(text[1..])
  }

  lemma {:induction false} NameEnds(name: Bytes, rest: Bytes)
    requires SLASH !in name && (|rest| > 0 ==> rest[0] == SLASH)
    ensures NameLength(name + rest) == |name|
  {
    if |name| == 0 {
      assert name + rest == rest;
    } else {
      assert (name + rest)[1..] == name[1..] + rest;
      NameEnds(name[1..], rest);
    }
  }

  lemma {:induction false} PathsReadBack(path: Path)
    requires Proper(path)
    ensures Names(Posix(path)) == path
  {
    if |path| == 1 {
      NameEnds(path[0], []);
      assert path[0] + [] == path[0] && [path[0]] == path;
    } else {
      var rest := [SLASH] + Posix(path[1..]);
      NameEnds(path[0], rest);
      var text := path[0] + rest;
      assert Posix(path) == text && text[..|path[0]|] == path[0] && text[|path[0]| + 1..] == Posix(path[1..]);
      PathsReadBack(path[1..]);
      assert [path[0]] + path[1..] == path;
    }
  }

  /** A link or a file as it lies in the tree: under its names, with what it points to or holds. */
  datatype Thing = LinkTo(path: Path, target: Bytes) | FileOf(path: Path, executable: bool, data: Bytes)

  /** The links and files at or below no excluded path, in order. */
  function Things(found: seq<Found>, exclude: seq<Path>): seq<Thing> {
    if |found| == 0 then []
    else
      var here :=
        if exists i :: 0 <= i < |exclude| && exclude[i] <= found[0].path then []
        else match found[0]
          case Symlink(path, target, _) => [LinkTo(path, target)]
          case File(path, executable, _, blocks) => [FileOf(path, executable, ReadAll(blocks))]
          case _ => [];
      here + Things(found[1..], exclude)
  }

  function TextLength(path: Path): nat {
    if |path| == 0 then 0 else if |path| == 1 then |path[0]| else |path[0]| + 1 + TextLength(path[1..])
  }

  /** Lengths fit into eight bytes. */
  predicate Small(t: Thing) {
    && TextLength(t.path) < LIMIT
    && match t case LinkTo(_, target) => |target| < LIMIT case FileOf(_, _, data) => |data| < LIMIT
  }

  ghost predicate AllLawful(things: seq<Thing>) {
    forall i :: 0 <= i < |things| ==> Proper(things[i].path) && Small(things[i])
  }

  function Spelled(t: Thing): Item {
    match t
    case LinkTo(path, target) => Link(Posix(path), target)
    case FileOf(path, executable, data) => Content(Posix(path), executable, data)
  }

  function AllSpelled(things: seq<Thing>): (items: seq<Item>)
    ensures |items| == |things|
  {
    seq(|things|, i requires 0 <= i < |things| => Spelled(things[i]))
  }

  lemma {:induction false} TextIsThatLong(path: Path)
    ensures |Posix(path)| == TextLength(path)
  {
    if |path| > 1 { TextIsThatLong(path[1..]); }
  }

  lemma {:induction false} VisibleAreThings(found: seq<Found>, exclude: seq<Path>)
    ensures Visible(found, exclude) == AllSpelled(Things(found, exclude))
  {
    if |found| > 0 {
      VisibleAreThings(found[1..], exclude);
      var rest := Things(found[1..], exclude);
      var all := Things(found, exclude);
      assert all == all[..|all| - |rest|] + rest;
    }
  }

  lemma {:induction false} SpellingTells(s: Thing, t: Thing)
    requires Proper(s.path) && Proper(t.path) && Spelled(s) == Spelled(t)
    ensures s == t
  {
    PathsReadBack(s.path);
    PathsReadBack(t.path);
  }

  lemma {:induction false} AllSpellingTells(a: seq<Thing>, b: seq<Thing>)
    requires AllLawful(a) && AllLawful(b) && AllSpelled(a) == AllSpelled(b)
    ensures a == b
  {
    forall i | 0 <= i < |a| ensures a[i] == b[i] {
      assert AllSpelled(a)[i] == AllSpelled(b)[i];
      SpellingTells(a[i], b[i]);
    }
  }

  lemma {:induction false} LawfulFits(things: seq<Thing>)
    requires AllLawful(things)
    ensures forall i :: 0 <= i < |things| ==> Fits(AllSpelled(things)[i])
  {
    forall i | 0 <= i < |things| ensures Fits(AllSpelled(things)[i]) { TextIsThatLong(things[i].path); }
  }

  /** Two trees without problems feed the hash the same if and only if, excluded paths apart, the same links
      and files lie under the same names in both. */
  lemma {:induction false} DigestTellsTreesApart(
    a: seq<Found>, excludeA: seq<Path>, b: seq<Found>, excludeB: seq<Path>)
    requires Fed(a, excludeA).Ok? && Fed(b, excludeB).Ok?
    requires AllLawful(Things(a, excludeA)) && AllLawful(Things(b, excludeB))
    ensures Fed(a, excludeA) == Fed(b, excludeB) <==> Things(a, excludeA) == Things(b, excludeB)
  {
    VisibleAreThings(a, excludeA);
    VisibleAreThings(b, excludeB);
    LawfulFits(Things(a, excludeA));
    LawfulFits(Things(b, excludeB));
    StreamIdentifiesTree(Visible(a, excludeA), Visible(b, excludeB));
    if Fed(a, excludeA) == Fed(b, excludeB) { AllSpellingTells(Things(a, excludeA), Things(b, excludeB)); }
  }

  /** Feeding raises if and only if something that is not excluded is a link that leads out, neither file,
      directory nor link, or a file of another size than announced. */
  lemma {:induction false} FeedingFailsIff(found: seq<Found>, exclude: seq<Path>)
    ensures Fed(found, exclude).Err? <==>
      exists k :: 0 <= k < |found| && Bad(found[k]) && forall i :: 0 <= i < |exclude| ==> !(exclude[i] <= found[k].path)
  {
    if |found| > 0 {
      FeedingFailsIff(found[1..], exclude);
      assert forall k :: 0 < k < |found| ==> found[k] == found[1..][k - 1];
    }
  }

  predicate Bad(f: Found) {
    || f.Special? || (f.Symlink? && f.escapes) || (f.File? && |ReadAll(f.blocks)| != f.size)
  }
}
