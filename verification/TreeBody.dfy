/** The body of a `put_tree` upload. Whatever fails on the host, and wherever, the guest reads whole
    frames of exactly their announced size, ended by exactly one `end` or `abort`. */
module TreeBody {
  import opened Wrappers
  import opened Bytes
  import opened Names

  /** A host file: the size announced for it, the bytes reading finds, how short each read falls and
      which read, if any, fails. */
  datatype HostFile = HostFile(size: nat, data: Bytes, shorts: seq<nat>, failing: Option<nat>)

  /** What is listed in a host directory; a listing or a link may be unreadable. */
  datatype Node =
    | Regular(file: Option<HostFile>)
    | Folder(readable: bool, listing: seq<(string, Node)>)
    | Symlink(target: Option<Bytes>)
    | Odd

  /** A path below the root, name by name. */
  type Path = seq<string>

  /** What the walk yields, in order. A listing that fails ends it. */
  datatype Item = Entry(path: Path, node: Node) | Unlistable

  datatype Header =
    | FileHeader(name: string, size: nat)
    | DirHeader(name: string)
    | LinkHeader(name: string, target: Bytes)
    | EndHeader
    | AbortHeader

  datatype Frame = Plain(header: Header) | Sized(header: Header, content: Bytes)

  // --- the walk ---

  /** Depth first, each directory in name order. */
  function Entries(prefix: Path, folder: Node): seq<Item>
    requires folder.Folder?
    decreases folder, 1, 0
  {
    if !folder.readable then [Unlistable] else EntriesOf(prefix, folder, SortByName(folder.listing))
  }

  function EntriesOf(prefix: Path, folder: Node, children: seq<(string, Node)>): seq<Item>
    requires folder.Folder?
    requires forall c :: c in children ==> c in folder.listing
    decreases folder, 0, |children|
  {
    if |children| == 0 then []
    else
      var (name, node) := children[0];
      assert children[0] in folder.listing;
      var below := if node.Folder? then Entries(prefix + [name], node) else [];
      [Entry(prefix + [name], node)] + below + EntriesOf(prefix, folder, children[1..])
  }

  // --- what each entry sends ---

  function Least(a: nat, b: nat): nat { if a < b then a else b }

  /** How many bytes the `k`-th read returns at `offset`: at most one block, what is left to send and
      what the file still has, and possibly fewer. */
  function ReadLength(f: HostFile, block: nat, offset: nat, k: nat): nat
    requires offset <= f.size
  {
    var wanted := Least(f.size - offset, block);
    var found := if offset < |f.data| then Least(wanted, |f.data| - offset) else 0;
    if k < |f.shorts| && 0 < f.shorts[k] then Least(found, f.shorts[k]) else found
  }

  /** Where reading ends: at the announced size, at a read that fails or at the end of a file that
      shrank. */
  function Stop(f: HostFile, block: nat, offset: nat, k: nat): (stop: nat)
    requires offset <= f.size && offset <= |f.data| && block > 0
    ensures offset <= stop <= f.size && stop <= |f.data|
    decreases f.size - offset
  {
    if offset == f.size || f.failing == Some(k) || offset == |f.data| then offset
    else Stop(f, block, offset + ReadLength(f, block, offset, k), k + 1)
  }

  function Zeros(n: nat): (z: Bytes)
    ensures |z| == n
  {
    seq(n, _ => 0)
  }

  /** The bytes read, padded to the announced size. */
  function Content(f: HostFile, block: nat): (content: Bytes)
    requires block > 0
    ensures |content| == f.size
  {
    var stop := Stop(f, block, 0, 0);
    f.data[..stop] + Zeros(f.size - stop)
  }

  predicate Whole(f: HostFile, block: nat)
    requires block > 0
  {
    Stop(f, block, 0, 0) == f.size
  }

  /** The frame of an entry, if any, and whether the walk may go on after it. */
  function FrameOf(item: Item, block: nat): (Option<Frame>, bool)
    requires block > 0
  {
    match item
    case Entry(path, Regular(Some(f))) =>
      (Some(Sized(FileHeader(Slashed(path), f.size), Content(f, block))), Whole(f, block))
    case Entry(path, Folder(_, _)) => (Some(Plain(DirHeader(Slashed(path)))), true)
    case Entry(path, Symlink(Some(target))) => (Some(Plain(LinkHeader(Slashed(path), target))), true)
    case _ => (None, false)
  }

  /** The frames of a body: entries up to the first local failure, then `end` or `abort`. */
  function Plan(items: seq<Item>, block: nat): seq<Frame>
    requires block > 0
  {
    if |items| == 0 then [Plain(EndHeader)]
    else
      var (frame, ok) := FrameOf(items[0], block);
      (if frame.Some? then [frame.value] else [])
      + if ok then Plan(items[1..], block) else [Plain(AbortHeader)]
  }

  predicate Fails(items: seq<Item>, block: nat)
    requires block > 0
  {
    exists i :: 0 <= i < |items| && !FrameOf(items[i], block).1
  }

  // --- the wire ---

  /** Header lines as JSON writes them: they can be read back and hold no raw newline. */
  datatype Codec = Codec(line: Header -> Bytes, parse: Bytes -> Option<Header>)

  const NEWLINE: byte := 10

  ghost predicate Lawful(c: Codec) {
    forall h :: NEWLINE !in c.line(h) && c.parse(c.line(h)) == Some(h)
  }

  function EncodeFrame(c: Codec, f: Frame): Bytes {
    c.line(f.header) + [NEWLINE] + if f.Sized? then f.content else []
  }

  function EncodeFrames(c: Codec, fs: seq<Frame>): Bytes {
    if |fs| == 0 then [] else EncodeFrame(c, fs[0]) + EncodeFrames(c, fs[1..])
  }

  predicate Last(h: Header) { h.EndHeader? || h.AbortHeader? }

  predicate GoodFrame(f: Frame) {
    if f.Sized? then f.header.FileHeader? && |f.content| == f.header.size else !f.header.FileHeader?
  }

  /** Whole frames, and the last one, and no other, ends the body. */
  predicate GoodBody(fs: seq<Frame>) {
    && |fs| > 0
    && (forall i :: 0 <= i < |fs| ==> GoodFrame(fs[i]))
    && (forall i :: 0 <= i < |fs| ==> (Last(fs[i].header) <==> i == |fs| - 1))
  }

  /** The reference reader of the guest: a header line, the announced bytes, until the last frame. */
  function ReadLine(b: Bytes): (r: Option<nat>)
    ensures r.Some? ==> r.value < |b|
  {
    if |b| == 0 then None
    else if b[0] == NEWLINE then Some(0)
    else
      var rest := ReadLine(b[1..]);
      if rest.None? then None else Some(rest.value + 1)
  }

  function ReadFrames(c: Codec, b: Bytes): Option<seq<Frame>>
    decreases |b|
  {
    var n := ReadLine(b);
    if n.None? then None
    else
      var header := c.parse(b[..n.value]);
      var rest := b[n.value + 1..];
      if header.None? then None
      else if Last(header.value) then (if |rest| == 0 then Some([Plain(header.value)]) else None)
      else
        var size := if header.value.FileHeader? then header.value.size else 0;
        if |rest| < size then None
        else
          var more := ReadFrames(c, rest[size..]);
          var frame := if header.value.FileHeader? then Sized(header.value, rest[..size]) else Plain(header.value);
          if more.None? then None else Some([frame] + more.value)
  }

  lemma {:induction false} LineEndsAtNewline(line: Bytes, rest: Bytes)
    requires NEWLINE !in line
    ensures ReadLine(line + [NEWLINE] + rest) == Some(|line|)
  {
    if |line| > 0 {
      assert (line + [NEWLINE] + rest)[1..] == line[1..] + [NEWLINE] + rest;
      LineEndsAtNewline(line[1..], rest);
    }
  }

  lemma {:induction false} FrameReads(c: Codec, f: Frame, rest: Bytes)
    requires Lawful(c) && GoodFrame(f)
    ensures var b := EncodeFrame(c, f) + rest;
      var size := if f.Sized? then |f.content| else 0;
      && ReadLine(b).Some?
      && c.parse(b[..ReadLine(b).value]) == Some(f.header)
      && |b[ReadLine(b).value + 1..]| >= size
      && b[ReadLine(b).value + 1..][..size] == (if f.Sized? then f.content else [])
      && b[ReadLine(b).value + 1..][size..] == rest
  {
    var content := if f.Sized? then f.content else [];
    var line := c.line(f.header);
    var b := EncodeFrame(c, f) + rest;
    assert b == line + [NEWLINE] + (content + rest);
    LineEndsAtNewline(line, content + rest);
    assert b[..|line|] == line && b[|line| + 1..] == content + rest;
  }

  lemma {:induction false} FramesRoundTrip(c: Codec, fs: seq<Frame>)
    requires Lawful(c) && GoodBody(fs)
    ensures ReadFrames(c, EncodeFrames(c, fs)) == Some(fs)
    decreases |fs|
  {
    var rest := fs[1..];
    assert GoodFrame(fs[0]) && fs == [fs[0]] + rest;
    if |fs| == 1 {
      assert Last(fs[0].header) && EncodeFrames(c, rest) == [] && fs == [fs[0]];
    } else {
      RestIsGood(fs);
      FramesRoundTrip(c, rest);
    }
    ReadsFirst(c, fs[0], rest);
  }

  lemma {:induction false} ReadsFirst(c: Codec, f: Frame, rest: seq<Frame>)
    requires Lawful(c) && GoodFrame(f)
    ensures var (b, more) := (EncodeFrame(c, f) + EncodeFrames(c, rest), EncodeFrames(c, rest));
      ReadFrames(c, b) ==
        if Last(f.header) then (if |more| == 0 then Some([f]) else None)
        else match ReadFrames(c, more) case None => None case Some(fs) => Some([f] + fs)
  {
    FrameReads(c, f, EncodeFrames(c, rest));
  }

  lemma {:induction false} RestIsGood(fs: seq<Frame>)
    requires GoodBody(fs) && |fs| > 1
    ensures GoodBody(fs[1..]) && !Last(fs[0].header)
  {
    assert forall i :: 0 <= i < |fs[1..]| ==> fs[1..][i] == fs[i + 1];
  }

  /** Whole frames, of which the last says whether something failed. */
  ghost predicate TellsFailure(fs: seq<Frame>, failed: bool) {
    GoodBody(fs) && (fs[|fs| - 1].header.AbortHeader? <==> failed)
  }

  lemma {:induction false} PlanIsGood(items: seq<Item>, block: nat)
    requires block > 0
    ensures TellsFailure(Plan(items, block), Fails(items, block))
  {
    if |items| > 0 {
      PlanIsGood(items[1..], block);
      FailsFrom(items, block);
      FirstIsGood(items[0], Plan(items[1..], block), Fails(items[1..], block), block);
    }
  }

  lemma {:induction false} FirstIsGood(item: Item, more: seq<Frame>, failed: bool, block: nat)
    requires block > 0 && TellsFailure(more, failed)
    ensures var (frame, ok) := FrameOf(item, block);
      TellsFailure(
        (if frame.Some? then [frame.value] else []) + (if ok then more else [Plain(AbortHeader)]), !ok || failed)
  {
    var (frame, ok) := FrameOf(item, block);
    var rest := if ok then more else [Plain(AbortHeader)];
    if frame.Some? { MoreIsGood(frame.value, rest); } else { assert [] + rest == rest; }
  }

  lemma {:induction false} FailsFrom(items: seq<Item>, block: nat)
    requires block > 0 && |items| > 0
    ensures Fails(items, block) <==> !FrameOf(items[0], block).1 || Fails(items[1..], block)
  {
    assert forall i :: 0 < i < |items| ==> items[i] == items[1..][i - 1];
  }

  /** A frame before a good body. */
  lemma {:induction false} MoreIsGood(f: Frame, rest: seq<Frame>)
    requires GoodBody(rest) && GoodFrame(f) && !Last(f.header)
    ensures GoodBody([f] + rest) && ([f] + rest)[|rest|] == rest[|rest| - 1]
  {}

  // --- the body writer ---

  /** What an entry sends: a frame or nothing. */
  function EntryBytes(c: Codec, item: Item, block: nat): Bytes
    requires block > 0
  {
    var frame := FrameOf(item, block).0;
    if frame.Some? then EncodeFrame(c, frame.value) else []
  }

  lemma {:induction false} PlanFirst(c: Codec, items: seq<Item>, block: nat)
    requires block > 0 && |items| > 0
    ensures EncodeFrames(c, Plan(items, block))
         == EntryBytes(c, items[0], block)
            + EncodeFrames(c, if FrameOf(items[0], block).1 then Plan(items[1..], block) else [Plain(AbortHeader)])
  {
    var (frame, ok) := FrameOf(items[0], block);
    var rest := if ok then Plan(items[1..], block) else [Plain(AbortHeader)];
    if frame.Some? {
      assert ([frame.value] + rest)[1..] == rest;
    } else {
      assert [] + rest == rest;
    }
  }

  lemma {:induction false} Regroup(a: Bytes, b: Bytes, c: Bytes)
    ensures (a + b) + c == a + (b + c)
  {}

  /** The bytes of `plan`, once `blocks` are sent, follow from what is buffered and what is left. */
  ghost predicate Sends(c: Codec, blocks: seq<Bytes>, buffer: Bytes, left: seq<Frame>, plan: Bytes) {
    Concat(blocks) + (buffer + EncodeFrames(c, left)) == plan
  }

  /** What is left of the plan after an entry. */
  function LeftAfter(items: seq<Item>, i: nat, block: nat, failed: bool): seq<Frame>
    requires i <= |items| && block > 0
  {
    if failed then [Plain(AbortHeader)] else Plan(items[i..], block)
  }

  /** Blocks are sent when `buffer` holds `limit` bytes; a large block of a file is sent as it is.
      `failed` is the error kept for the caller. The sizes do not show in what is sent. */
  method Body(c: Codec, items: seq<Item>, block: nat, limit: nat) returns (blocks: seq<Bytes>, failed: bool)
    requires block > 0
    ensures Concat(blocks) == EncodeFrames(c, Plan(items, block))
    ensures failed <==> Fails(items, block)
  {
    ghost var plan := EncodeFrames(c, Plan(items, block));
    blocks, failed := [], false;
    var buffer: Bytes := [];
    var i := 0;
    NothingSentYet(c, items, block);
    while i < |items| && !failed
      invariant 0 <= i <= |items|
      invariant Sends(c, blocks, buffer, LeftAfter(items, i, block, failed), plan)
      invariant failed <==> Fails(items[..i], block)
    {
      blocks, buffer, failed := SendNext(c, items, i, block, limit, blocks, buffer, plan);
      i := i + 1;
    }
    assert items[|items|..] == [] && items[..|items|] == items;
    if failed { FailsOnceFailed(items, i, block); }
    SendsLast(c, blocks, buffer, if failed then AbortHeader else EndHeader, plan);
    buffer := buffer + c.line(if failed then AbortHeader else EndHeader) + [NEWLINE];
    blocks := blocks + [buffer];
  }

  lemma {:induction false} NothingSentYet(c: Codec, items: seq<Item>, block: nat)
    requires block > 0
    ensures Sends(c, [], [], LeftAfter(items, 0, block, false), EncodeFrames(c, Plan(items, block)))
    ensures !Fails(items[..0], block)
  {
    assert items[0..] == items;
  }

  lemma {:induction false} FailsOnceFailed(items: seq<Item>, i: nat, block: nat)
    requires block > 0 && i <= |items| && Fails(items[..i], block)
    ensures Fails(items, block)
  {
    var j :| 0 <= j < i && !FrameOf(items[..i][j], block).1;
    assert items[j] == items[..i][j];
  }

  lemma {:induction false} FailsNext(items: seq<Item>, i: nat, block: nat)
    requires block > 0 && i < |items|
    ensures Fails(items[..i + 1], block) <==> Fails(items[..i], block) || !FrameOf(items[i], block).1
  {
    var (few, more) := (items[..i], items[..i + 1]);
    assert forall j :: 0 <= j < i ==> few[j] == more[j];
    assert more[i] == items[i];
  }

  lemma {:induction false} SendsLast(c: Codec, blocks: seq<Bytes>, buffer: Bytes, h: Header, plan: Bytes)
    requires Sends(c, blocks, buffer, [Plain(h)], plan)
    ensures Concat(blocks + [buffer + c.line(h) + [NEWLINE]]) == plan
  {
    var frames := [Plain(h)];
    assert frames[1..] == [] && EncodeFrames(c, frames[1..]) == [];
    assert EncodeFrames(c, frames) == c.line(h) + [NEWLINE];
    ConcatAppend(blocks, buffer + c.line(h) + [NEWLINE]);
    Regroup(buffer, c.line(h), [NEWLINE]);
  }

  method SendNext(c: Codec, items: seq<Item>, i: nat, block: nat, limit: nat, blocksBefore: seq<Bytes>,
                  bufferBefore: Bytes, ghost plan: Bytes)
      returns (blocks: seq<Bytes>, buffer: Bytes, failed: bool)
    requires i < |items| && block > 0
    requires Sends(c, blocksBefore, bufferBefore, LeftAfter(items, i, block, false), plan)
    requires !Fails(items[..i], block)
    ensures Sends(c, blocks, buffer, LeftAfter(items, i + 1, block, failed), plan)
    ensures failed <==> Fails(items[..i + 1], block)
  {
    FailsNext(items, i, block);
    PlanFirst(c, items[i..], block);
    assert items[i..][0] == items[i] && items[i..][1..] == items[i + 1..];
    var sent;
    sent, buffer, failed := SendEntry(c, items[i], bufferBefore, block, limit);
    ConcatConcat(blocksBefore, sent);
    blocks := blocksBefore + sent;
    ghost var rest := EncodeFrames(c, LeftAfter(items, i + 1, block, failed));
    Moved(Concat(blocksBefore), Concat(sent), buffer, bufferBefore, EntryBytes(c, items[i], block), rest);
    if !failed && |buffer| >= limit { blocks, buffer := Flush(blocks, buffer, rest); }
  }

  lemma {:induction false} Moved(
    before: Bytes, sent: Bytes, buffer: Bytes, bufferBefore: Bytes, bytes: Bytes, rest: Bytes)
    requires sent + buffer == bufferBefore + bytes
    ensures (before + sent) + (buffer + rest) == before + (bufferBefore + (bytes + rest))
  {
    assert (before + sent) + (buffer + rest) == before + ((sent + buffer) + rest);
  }

  method Flush(blocks: seq<Bytes>, buffer: Bytes, ghost rest: Bytes) returns (all: seq<Bytes>, empty: Bytes)
    ensures all == blocks + [buffer] && empty == []
    ensures Concat(all) + (empty + rest) == Concat(blocks) + (buffer + rest)
  {
    ConcatAppend(blocks, buffer);
    all, empty := blocks + [buffer], [];
    assert empty + rest == rest;
  }

  method SendEntry(c: Codec, item: Item, buffered: Bytes, block: nat, limit: nat)
      returns (sent: seq<Bytes>, buffer: Bytes, failed: bool)
    requires block > 0
    ensures Concat(sent) + buffer == buffered + EntryBytes(c, item, block)
    ensures failed <==> !FrameOf(item, block).1
  {
    sent, buffer, failed := [], buffered, true;
    match item {
      case Entry(path, Folder(_, _)) =>
        failed := false;
        buffer := buffer + (c.line(DirHeader(Slashed(path))) + [NEWLINE]);
      case Entry(path, Symlink(Some(target))) =>
        failed := false;
        buffer := buffer + (c.line(LinkHeader(Slashed(path), target)) + [NEWLINE]);
      case Entry(path, Regular(Some(f))) =>
        var line := c.line(FileHeader(Slashed(path), f.size)) + [NEWLINE];
        Regroup(buffer, line, Content(f, block));
        sent, buffer, failed := SendFile(f, buffer + line, block, limit);
      case _ =>
    }
  }

  method SendFile(f: HostFile, buffered: Bytes, block: nat, limit: nat)
      returns (sent: seq<Bytes>, buffer: Bytes, failed: bool)
    requires block > 0
    ensures Concat(sent) + buffer == buffered + Content(f, block)
    ensures failed <==> !Whole(f, block)
  {
    sent, buffer, failed := [], buffered, false;
    var offset, k := 0, 0;
    while offset < f.size
      invariant 0 <= offset <= f.size && offset <= |f.data|
      invariant Stop(f, block, offset, k) == Stop(f, block, 0, 0)
      invariant Concat(sent) + buffer == buffered + f.data[..offset]
    {
      var read := ReadNext(f, block, offset, k);
      if |read| == 0 {
        sent := PadRest(sent, buffer, f.size - offset, block);
        Regroup(buffered, f.data[..offset], Zeros(f.size - offset));
        return sent, [], true;
      }
      sent, buffer := PushBlock(f.data, offset, sent, buffer, read, limit, buffered);
      offset := offset + |read|;
      k := k + 1;
    }
    assert f.data[..f.size] + Zeros(0) == f.data[..f.size];
  }

  /** The `k`-th read; nothing comes from one that fails, or at the end of the data. */
  method ReadNext(f: HostFile, block: nat, offset: nat, k: nat) returns (read: Bytes)
    requires block > 0 && offset < f.size && offset <= |f.data|
    ensures offset + |read| <= |f.data| && offset + |read| <= f.size && read == f.data[offset..offset + |read|]
    ensures Stop(f, block, offset, k) == if |read| == 0 then offset else Stop(f, block, offset + |read|, k + 1)
  {
    read := if f.failing == Some(k) then [] else f.data[offset..offset + ReadLength(f, block, offset, k)];
  }

  /** A block read at `offset` follows what was sent and buffered before. */
  method PushBlock(data: Bytes, offset: nat, sentBefore: seq<Bytes>, bufferBefore: Bytes, read: Bytes, limit: nat,
                   ghost buffered: Bytes)
    returns (sent: seq<Bytes>, buffer: Bytes)
    requires offset + |read| <= |data| && read == data[offset..offset + |read|]
    requires Concat(sentBefore) + bufferBefore == buffered + data[..offset]
    ensures Concat(sent) + buffer == buffered + data[..offset + |read|]
  {
    sent, buffer := Push(sentBefore, bufferBefore, read, limit);
    Regroup(buffered, data[..offset], read);
    assert data[..offset] + read == data[..offset + |read|];
  }

  /** The rest of a frame, after what is buffered, as zeros. */
  method PadRest(sentBefore: seq<Bytes>, buffer: Bytes, n: nat, block: nat) returns (sent: seq<Bytes>)
    requires block > 0
    ensures Concat(sent) + [] == (Concat(sentBefore) + buffer) + Zeros(n)
  {
    var padding := Pad(n, block);
    AppendPadding(sentBefore, buffer, padding);
    sent := sentBefore + [buffer] + padding;
  }

  lemma {:induction false} AppendPadding(sent: seq<Bytes>, buffer: Bytes, padding: seq<Bytes>)
    ensures Concat(sent + [buffer] + padding) + [] == (Concat(sent) + buffer) + Concat(padding)
  {
    ConcatAppend(sent, buffer);
    ConcatConcat(sent + [buffer], padding);
  }

  /** A block that was read goes through the buffer unless it is large. */
  method Push(sentBefore: seq<Bytes>, bufferBefore: Bytes, read: Bytes, limit: nat)
      returns (sent: seq<Bytes>, buffer: Bytes)
    ensures Concat(sent) + buffer == (Concat(sentBefore) + bufferBefore) + read
  {
    sent, buffer := sentBefore, bufferBefore;
    if |read| >= limit {
      if |buffer| > 0 {
        ConcatAppend(sent, buffer);
        sent := sent + [buffer];
        buffer := [];
      }
      ConcatAppend(sent, read);
      sent := sent + [read];
    } else {
      Regroup(Concat(sent), buffer, read);
      buffer := buffer + read;
      if |buffer| >= limit {
        ConcatAppend(sent, buffer);
        sent := sent + [buffer];
        buffer := [];
      }
    }
  }

  /** The rest of a file that could not be read, as zeros. */
  method Pad(n: nat, block: nat) returns (blocks: seq<Bytes>)
    requires block > 0
    ensures Concat(blocks) == Zeros(n)
  {
    blocks := [];
    var remaining := n;
    while remaining > 0
      invariant 0 <= remaining <= n
      invariant Concat(blocks) == Zeros(n - remaining)
    {
      var zeros := Zeros(Least(remaining, block));
      ConcatAppend(blocks, zeros);
      blocks := blocks + [zeros];
      remaining := remaining - |zeros|;
    }
  }

  // --- main results ---

  /** What the guest reads of any upload: every entry up to the first local failure, each file
      exactly as long as announced, then the one end or abort that says whether something failed. */
  lemma {:induction false} UploadReadsBack(c: Codec, root: Node, block: nat)
    requires Lawful(c) && root.Folder? && block > 0
    ensures var items := Entries([], root);
      var frames := Plan(items, block);
      && ReadFrames(c, EncodeFrames(c, frames)) == Some(frames)
      && TellsFailure(frames, Fails(items, block))
  {
    PlanIsGood(Entries([], root), block);
    FramesRoundTrip(c, Plan(Entries([], root), block));
  }

  /** A file that reads well is sent as it is on disk, whatever the block size and the short reads. */
  lemma {:induction false} WholeFilesAreCopied(f: HostFile, block: nat)
    requires block > 0
    ensures Whole(f, block) ==> |f.data| >= f.size && Content(f, block) == f.data[..f.size]
    ensures f.failing.None? ==> (Whole(f, block) <==> |f.data| >= f.size)
  {
    if f.failing.None? { StopsAtTheEnd(f, block, 0, 0); }
  }

  lemma {:induction false} StopsAtTheEnd(f: HostFile, block: nat, offset: nat, k: nat)
    requires f.failing.None? && offset <= f.size && offset <= |f.data| && block > 0
    ensures Stop(f, block, offset, k) == Least(f.size, |f.data|)
    decreases f.size - offset
  {
    if offset < f.size && offset < |f.data| {
      StopsAtTheEnd(f, block, offset + ReadLength(f, block, offset, k), k + 1);
    }
  }

  /** What could not be read is sent as zeros, and nothing else is made up. */
  lemma {:induction false} ContentIsPadded(f: HostFile, block: nat, i: nat)
    requires block > 0 && i < f.size
    ensures Content(f, block)[i] == if i < Stop(f, block, 0, 0) then f.data[i] else 0
  {}

  /** An entry that can be sent whole. */
  predicate Sendable(item: Item) {
    match item
    case Entry(_, Regular(f)) => f.Some? && |f.value.data| >= f.value.size
    case Entry(_, Folder(_, _)) => true
    case Entry(_, Symlink(target)) => target.Some?
    case _ => false
  }

  /** The frame of an entry when nothing fails: the entry itself. */
  function Copied(item: Item): Frame
    requires Sendable(item)
  {
    match item
    case Entry(path, Regular(Some(f))) => Sized(FileHeader(Slashed(path), f.size), f.data[..f.size])
    case Entry(path, Symlink(Some(target))) => Plain(LinkHeader(Slashed(path), target))
    case Entry(path, _) => Plain(DirHeader(Slashed(path)))
  }

  /** `frames` are the entries, in order, and `end`. */
  ghost predicate Copies(frames: seq<Frame>, items: seq<Item>) {
    && |frames| == |items| + 1 && frames[|items|] == Plain(EndHeader)
    && forall i :: 0 <= i < |items| ==> Sendable(items[i]) && frames[i] == Copied(items[i])
  }

  /** Without a failure the frames are the entries of the tree, in order, and `end`. */
  lemma {:induction false} FaultlessPlanIsTheTree(items: seq<Item>, block: nat)
    requires block > 0 && !Fails(items, block)
    ensures Copies(Plan(items, block), items)
  {
    if |items| > 0 {
      FailsFrom(items, block);
      FaultlessPlanIsTheTree(items[1..], block);
      FirstIsCopied(items[0], block);
      CopiesOneMore(items, Plan(items[1..], block));
    }
  }

  lemma {:induction false} FirstIsCopied(item: Item, block: nat)
    requires block > 0 && FrameOf(item, block).1
    ensures Sendable(item) && FrameOf(item, block).0 == Some(Copied(item))
  {
    if item.node.Regular? { WholeFilesAreCopied(item.node.file.value, block); }
  }

  lemma {:induction false} CopiesOneMore(items: seq<Item>, more: seq<Frame>)
    requires |items| > 0 && Sendable(items[0]) && Copies(more, items[1..])
    ensures Copies([Copied(items[0])] + more, items)
  {
    var frames := [Copied(items[0])] + more;
    forall i | 0 < i < |items| ensures Sendable(items[i]) && frames[i] == Copied(items[i]) {
      assert items[1..][i - 1] == items[i] && frames[i] == more[i - 1];
    }
  }
}
