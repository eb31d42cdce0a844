/** Append-only record files: one JSON object a line, numbered by the writer. JSON and UTF-8 are
    parameters; what is asked of them is in `Lawful`. */
module Jsonl {
  import opened Bytes
  import opened Wrappers

  const NEWLINE: byte := 10

  /** A JSON value: an object with its `seq`, if that is a number, and its other members, or something else. */
  datatype Value = Object(number: Option<int>, members: string) | Other

  datatype Codec = Codec(
    dumps: (int, string) -> Bytes,
    loads: Bytes -> Option<Value>,
    utf8: Bytes -> bool)

  type Record = (int, string)

  function Line(c: Codec, r: Record): Bytes { c.dumps(r.0, r.1) + [NEWLINE] }

  ghost predicate LawfulOn(c: Codec, r: Record) {
    && NEWLINE !in c.dumps(r.0, r.1)
    && c.utf8(Line(c, r))
    && c.loads(Line(c, r)) == Some(Object(Some(r.0), r.1))
  }

  /** An encoded record has no raw newline, and is read back. */
  ghost predicate Lawful(c: Codec) { forall r: Record :: LawfulOn(c, r) }

  function Text(c: Codec, records: seq<Record>): Bytes {
    if |records| == 0 then [] else Line(c, records[0]) + Text(c, records[1..])
  }

  function Objects(records: seq<Record>): seq<Value> {
    if |records| == 0 then [] else [Object(Some(records[0].0), records[0].1)] + Objects(records[1..])
  }

  lemma {:induction false} TextAppends(c: Codec, a: seq<Record>, b: seq<Record>)
    ensures Text(c, a + b) == Text(c, a) + Text(c, b)
  {
    if |a| == 0 {
      assert a + b == b;
    } else {
      assert (a + b)[1..] == a[1..] + b;
      TextAppends(c, a[1..], b);
    }
  }

  // --- lines ---

  /** How long the first line is, its newline included if there is one. */
  function FirstLine(b: Bytes): (n: nat)
    ensures n <= |b| && (|b| > 0 ==> n > 0)
    ensures forall i :: 0 <= i < n - 1 ==> b[i] != NEWLINE
    ensures n < |b| ==> b[n - 1] == NEWLINE
  {
    if |b| == 0 then 0 else if b[0] == NEWLINE then 1 else 1 + FirstLine(b[1..])
  }

  predicate Complete(raw: Bytes) { |raw| > 0 && raw[|raw| - 1] == NEWLINE }

  lemma {:induction false} FirstLineIsOnlyOne(head: Bytes, rest: Bytes)
    requires NEWLINE !in head
    ensures FirstLine(head + [NEWLINE] + rest) == |head| + 1
  {
    var b := head + [NEWLINE] + rest;
    var n := FirstLine(b);
    assert b[|head|] == NEWLINE;
    assert forall i :: 0 <= i < |head| ==> b[i] == head[i];
  }

  // --- reading ---

  datatype Reading = Reading(records: seq<Value>, torn: Option<Bytes>)

  /** Whole object lines up to the first line that is not one; that line is the torn suffix. */
  function Read(c: Codec, b: Bytes): Reading
    decreases |b|
  {
    if |b| == 0 then Reading([], None)
    else
      var raw := b[..FirstLine(b)];
      if !c.utf8(raw) || !Complete(raw) then Reading([], Some(raw))
      else match c.loads(raw)
        case Some(Object(n, m)) =>
          var rest := Read(c, b[|raw|..]);
          Reading([Object(n, m)] + rest.records, rest.torn)
        case _ => Reading([], Some(raw[..|raw| - 1]))
  }

  method ReadJsonl(c: Codec, data: Bytes) returns (r: Reading)
    ensures r == Read(c, data)
  {
    var records: seq<Value> := [];
    var rest := data;
    while |rest| > 0
      invariant var tail := Read(c, rest); Read(c, data) == Reading(records + tail.records, tail.torn)
      decreases |rest|
    {
      var raw := rest[..FirstLine(rest)];
      if !c.utf8(raw) || !Complete(raw) { return Reading(records, Some(raw)); }
      match c.loads(raw) {
        case Some(Object(n, m)) =>
          Regroup(records, [Object(n, m)], Read(c, rest[|raw|..]).records);
          records := records + [Object(n, m)];
          rest := rest[|raw|..];
        case _ =>
          return Reading(records, Some(raw[..|raw| - 1]));
      }
    }
    return Reading(records, None);
  }

  /** A file that starts with a record's line is that line and the rest. */
  lemma {:induction false} StartsWithLine(c: Codec, records: seq<Record>, tail: Bytes)
    requires Lawful(c) && |records| > 0
    ensures var (r, b) := (records[0], Text(c, records) + tail);
      && FirstLine(b) == |Line(c, r)|
      && b[..FirstLine(b)] == Line(c, r)
      && b[FirstLine(b)..] == Text(c, records[1..]) + tail
      && LawfulOn(c, r)
  {
    var (r, rest) := (records[0], Text(c, records[1..]) + tail);
    assert LawfulOn(c, r);
    assert Text(c, records) + tail == c.dumps(r.0, r.1) + [NEWLINE] + rest;
    FirstLineIsOnlyOne(c.dumps(r.0, r.1), rest);
  }

  lemma {:induction false} OneLineIsRead(c: Codec, records: seq<Record>, tail: Bytes)
    requires Lawful(c) && |records| > 0
    ensures var rest := Read(c, Text(c, records[1..]) + tail);
      Read(c, Text(c, records) + tail) == Reading([Object(Some(records[0].0), records[0].1)] + rest.records, rest.torn)
  {
    StartsWithLine(c, records, tail);
  }

  /** Whatever follows them, whole lines are read as their records, and then what follows. */
  lemma {:induction false} WholeLinesAreRead(c: Codec, records: seq<Record>, tail: Bytes)
    requires Lawful(c)
    ensures Read(c, Text(c, records) + tail)
         == Reading(Objects(records) + Read(c, tail).records, Read(c, tail).torn)
  {
    if |records| == 0 {
      assert Text(c, records) + tail == tail;
      assert Objects(records) + Read(c, tail).records == Read(c, tail).records;
    } else {
      OneLineIsRead(c, records, tail);
      WholeLinesAreRead(c, records[1..], tail);
      var first := [Object(Some(records[0].0), records[0].1)];
      Regroup(first, Objects(records[1..]), Read(c, tail).records);
    }
  }

  lemma {:induction false} Regroup<T>(a: seq<T>, b: seq<T>, c: seq<T>)
    ensures (a + b) + c == a + (b + c)
  {}

  /** How many whole lines fit in the first `k` bytes. */
  function Fitting(c: Codec, records: seq<Record>, k: nat): (m: nat)
    ensures m <= |records|
  {
    if |records| == 0 || k < |Line(c, records[0])| then 0 else 1 + Fitting(c, records[1..], k - |Line(c, records[0])|)
  }

  lemma {:induction false} FittingLines(c: Codec, records: seq<Record>, k: nat)
    requires k <= |Text(c, records)|
    ensures var m := Fitting(c, records, k);
      && |Text(c, records[..m])| <= k
      && Text(c, records)[..k] == Text(c, records[..m]) + Text(c, records)[|Text(c, records[..m])|..k]
      && Text(c, records[..m]) <= Text(c, records)
      && (m == |records| ==> k == |Text(c, records[..m])|)
      && (m < |records| ==>
            && |Text(c, records[..m])| + |Line(c, records[m])| <= |Text(c, records)|
            && k - |Text(c, records[..m])| < |Line(c, records[m])|
            && Text(c, records)[|Text(c, records[..m])|..k] == Line(c, records[m])[..k - |Text(c, records[..m])|])
  {
    var m := Fitting(c, records, k);
    TextAppends(c, records[..m], records[m..]);
    assert records[..m] + records[m..] == records;
    var before := Text(c, records[..m]);
    FittingBounds(c, records, k);
    if m < |records| {
      var after := Text(c, records[m..]);
      assert after == Line(c, records[m]) + Text(c, records[m..][1..]);
      assert Text(c, records)[|before|..k] == after[..k - |before|];
    } else {
      assert Text(c, records[m..]) == [];
    }
  }

  lemma {:induction false} FittingBounds(c: Codec, records: seq<Record>, k: nat)
    requires k <= |Text(c, records)|
    ensures var m := Fitting(c, records, k);
      && |Text(c, records[..m])| <= k
      && (m < |records| ==> k < |Text(c, records[..m])| + |Line(c, records[m])|)
  {
    var m := Fitting(c, records, k);
    if m > 0 {
      var size := |Line(c, records[0])|;
      FittingBounds(c, records[1..], k - size);
      assert records[..m][1..] == records[1..][..m - 1];
    }
  }

  lemma {:induction false} PartOfALineIsTorn(c: Codec, r: Record, n: nat)
    requires Lawful(c) && n <= |c.dumps(r.0, r.1)|
    ensures Read(c, Line(c, r)[..n]) == Reading([], if n == 0 then None else Some(Line(c, r)[..n]))
  {
    var part := Line(c, r)[..n];
    assert LawfulOn(c, r);
    if n > 0 {
      assert part == c.dumps(r.0, r.1)[..n];
      assert forall i :: 0 <= i < n ==> part[i] == c.dumps(r.0, r.1)[i];
      assert part[FirstLine(part) - 1] != NEWLINE;
      assert part[..n] == part;
    }
  }

  /** Reading any byte prefix of a record file gives exactly the records whose lines are whole, in
      order, and what is left of the next line as the torn suffix. */
  lemma {:induction false} PrefixReadsWholeLines(c: Codec, records: seq<Record>, k: nat)
    requires Lawful(c) && k <= |Text(c, records)|
    ensures
      var m := Fitting(c, records, k);
      var whole := |Text(c, records[..m])|;
      && whole <= k
      && (m < |records| ==> k < whole + |Line(c, records[m])|)
      && Read(c, Text(c, records)[..k])
           == Reading(Objects(records[..m]), if k == whole then None else Some(Text(c, records)[whole..k]))
  {
    var m := Fitting(c, records, k);
    FittingLines(c, records, k);
    var whole := |Text(c, records[..m])|;
    var tail := Text(c, records)[whole..k];
    WholeLinesAreRead(c, records[..m], tail);
    TailIsTorn(c, records, k, whole, tail);
    assert Objects(records[..m]) + [] == Objects(records[..m]);
  }

  lemma {:induction false} TailIsTorn(c: Codec, records: seq<Record>, k: nat, whole: nat, tail: Bytes)
    requires Lawful(c) && |tail| == k - whole
    requires var m := Fitting(c, records, k);
      if m < |records| then |tail| < |Line(c, records[m])| && tail == Line(c, records[m])[..|tail|] else |tail| == 0
    ensures Read(c, tail) == Reading([], if k == whole then None else Some(tail))
  {
    var m := Fitting(c, records, k);
    if m < |records| { PartOfALineIsTorn(c, records[m], |tail|); }
  }

  // --- writing ---

  /** The highest number among the leading whole lines; undecodable bytes make the scan raise. */
  function Scan(c: Codec, b: Bytes, last: int): Option<int>
    decreases |b|
  {
    if |b| == 0 then Some(last)
    else
      var raw := b[..FirstLine(b)];
      if !Complete(raw) then Some(last)
      else if !c.utf8(raw) then None
      else match c.loads(raw)
        case None => Some(last)
        case Some(Object(Some(n), _)) => Scan(c, b[|raw|..], if n > last then n else last)
        case Some(_) => Scan(c, b[|raw|..], last)
  }

  class File {
    var data: Bytes

    constructor (data: Bytes)
      ensures this.data == data
    {
      this.data := data;
    }
  }

  class JsonlWriter {
    const codec: Codec
    const file: File
    var nextNumber: int

    constructor (codec: Codec, file: File, nextNumber: int)
      ensures this.codec == codec && this.file == file && this.nextNumber == nextNumber
    {
      this.codec, this.file, this.nextNumber := codec, file, nextNumber;
    }

    /** The number is taken first, so a record that cannot be encoded leaves a gap. */
    method Append(members: string, encodes: bool) returns (number: Option<int>)
      modifies this`nextNumber, file
      ensures nextNumber == old(nextNumber) + 1
      ensures number == if encodes then Some(old(nextNumber)) else None
      ensures file.data == if encodes then old(file.data) + Line(codec, (old(nextNumber), members)) else old(file.data)
    {
      var taken := nextNumber;
      nextNumber := nextNumber + 1;
      if !encodes { return None; }
      file.data := file.data + (codec.dumps(taken, members) + [NEWLINE]);
      return Some(taken);
    }
  }

  /** Scan the file for the number to go on from. */
  method Open(codec: Codec, file: File) returns (writer: Option<JsonlWriter>)
    ensures writer.Some? <==> Scan(codec, file.data, -1).Some?
    ensures writer.Some? ==>
      && fresh(writer.value) && writer.value.codec == codec && writer.value.file == file
      && writer.value.nextNumber == Scan(codec, file.data, -1).value + 1
  {
    var last := -1;
    var rest := file.data;
    while |rest| > 0
      invariant Scan(codec, file.data, -1) == Scan(codec, rest, last)
      decreases |rest|
    {
      var raw := rest[..FirstLine(rest)];
      if !Complete(raw) { break; }
      if !codec.utf8(raw) { return None; }
      var value := codec.loads(raw);
      if value.None? { break; }
      if value.value.Object? && value.value.number.Some? && value.value.number.value > last {
        last := value.value.number.value;
      }
      rest := rest[|raw|..];
    }
    var w := new JsonlWriter(codec, file, last + 1);
    return Some(w);
  }

  predicate Increasing(records: seq<Record>) {
    forall i, j :: 0 <= i < j < |records| ==> records[i].0 < records[j].0
  }

  function Highest(records: seq<Record>, last: int): (h: int)
    ensures h >= last && forall i :: 0 <= i < |records| ==> records[i].0 <= h
  {
    if |records| == 0 then last else Highest(records[1..], if records[0].0 > last then records[0].0 else last)
  }

  lemma {:induction false} ScanFindsHighest(c: Codec, records: seq<Record>, last: int)
    requires Lawful(c)
    ensures Scan(c, Text(c, records), last) == Some(Highest(records, last))
  {
    if |records| > 0 {
      var r := records[0];
      assert Text(c, records) + [] == Text(c, records) && Text(c, records[1..]) + [] == Text(c, records[1..]);
      StartsWithLine(c, records, []);
      ScanFindsHighest(c, records[1..], if r.0 > last then r.0 else last);
    }
  }

  lemma {:induction false} OneMoreLine(c: Codec, records: seq<Record>, r: Record)
    ensures Text(c, records + [r]) == Text(c, records) + Line(c, r)
  {
    TextAppends(c, records, [r]);
    assert Text(c, [r]) == Line(c, r) + Text(c, [r][1..]);
  }

  /** `added` was written after `records`, below the next number. */
  ghost predicate Written(c: Codec, data: Bytes, records: seq<Record>, added: seq<Record>, next: int) {
    && data == Text(c, records + added)
    && Increasing(records + added)
    && forall k :: 0 <= k < |records + added| ==> (records + added)[k].0 < next
  }

  lemma {:induction false} WritesOneMore(
    c: Codec, data: Bytes, records: seq<Record>, added: seq<Record>, next: int, members: string)
    requires Written(c, data, records, added, next)
    ensures Written(c, data + Line(c, (next, members)), records, added + [(next, members)], next + 1)
    ensures Payloads(added + [(next, members)]) == Payloads(added) + [members]
  {
    OneMoreLine(c, records + added, (next, members));
    PayloadsAppend(added, [(next, members)]);
    assert records + (added + [(next, members)]) == (records + added) + [(next, members)];
  }

  /** One append, by a writer that has added `added` so far. */
  method AppendNext(w: JsonlWriter, payload: (string, bool), ghost records: seq<Record>, ghost added: seq<Record>)
    returns (ghost all: seq<Record>)
    requires Written(w.codec, w.file.data, records, added, w.nextNumber)
    modifies w`nextNumber, w.file
    ensures Written(w.codec, w.file.data, records, all, w.nextNumber)
    ensures Payloads(all) == Payloads(added) + if payload.1 then [payload.0] else []
  {
    WritesOneMore(w.codec, w.file.data, records, added, w.nextNumber, payload.0);
    all := if payload.1 then added + [(w.nextNumber, payload.0)] else added;
    var number := w.Append(payload.0, payload.1);
  }

  lemma {:induction false} StartsBehindAll(c: Codec, data: Bytes, records: seq<Record>)
    requires Lawful(c) && data == Text(c, records) && Increasing(records)
    ensures Scan(c, data, -1).Some? && Written(c, data, records, [], Scan(c, data, -1).value + 1)
  {
    ScanFindsHighest(c, records, -1);
    assert records + [] == records;
  }

  method AppendAll(w: JsonlWriter, payloads: seq<(string, bool)>, ghost records: seq<Record>)
    returns (ghost added: seq<Record>)
    requires Written(w.codec, w.file.data, records, [], w.nextNumber)
    modifies w`nextNumber, w.file
    ensures Written(w.codec, w.file.data, records, added, w.nextNumber)
    ensures Payloads(added) == Encodable(payloads)
  {
    added := [];
    var i := 0;
    while i < |payloads|
      invariant 0 <= i <= |payloads|
      invariant Written(w.codec, w.file.data, records, added, w.nextNumber)
      invariant Payloads(added) + Encodable(payloads[i..]) == Encodable(payloads)
    {
      FirstPayload(payloads, i);
      ghost var before := Payloads(added);
      added := AppendNext(w, payloads[i], records, added);
      Regroup(before, if payloads[i].1 then [payloads[i].0] else [], Encodable(payloads[i + 1..]));
      i := i + 1;
    }
    assert Payloads(added) + [] == Payloads(added);
  }

  /** One session: a payload and whether it can be encoded, for each append. */
  method Session(codec: Codec, file: File, payloads: seq<(string, bool)>, ghost records: seq<Record>)
    returns (ghost added: seq<Record>)
    requires Lawful(codec) && file.data == Text(codec, records) && Increasing(records)
    modifies file
    ensures file.data == Text(codec, records + added) && Increasing(records + added)
    ensures Payloads(added) == Encodable(payloads)
  {
    StartsBehindAll(codec, file.data, records);
    var writer := Open(codec, file);
    added := AppendAll(writer.value, payloads, records);
  }

  lemma {:induction false} FirstPayload(payloads: seq<(string, bool)>, i: nat)
    requires i < |payloads|
    ensures Encodable(payloads[i..])
         == (if payloads[i].1 then [payloads[i].0] else []) + Encodable(payloads[i + 1..])
  {
    assert payloads[i..][1..] == payloads[i + 1..];
  }

  function Payloads(records: seq<Record>): seq<string> {
    if |records| == 0 then [] else [records[0].1] + Payloads(records[1..])
  }

  lemma {:induction false} PayloadsAppend(a: seq<Record>, b: seq<Record>)
    ensures Payloads(a + b) == Payloads(a) + Payloads(b)
  {
    if |a| == 0 {
      assert a + b == b;
    } else {
      assert (a + b)[1..] == a[1..] + b;
      PayloadsAppend(a[1..], b);
    }
  }

  function Encodable(payloads: seq<(string, bool)>): seq<string> {
    if |payloads| == 0 then []
    else (if payloads[0].1 then [payloads[0].0] else []) + Encodable(payloads[1..])
  }

  /** Over any series of sessions, each on a file of whole lines, numbers increase and every payload
      that can be encoded is there, in order. */
  method Sessions(codec: Codec, file: File, sessions: seq<seq<(string, bool)>>, ghost records: seq<Record>)
    returns (ghost added: seq<Record>)
    requires Lawful(codec) && file.data == Text(codec, records) && Increasing(records)
    modifies file
    ensures file.data == Text(codec, records + added) && Increasing(records + added)
    ensures Payloads(added) == EncodableInAll(sessions)
  {
    added := [];
    assert records + added == records;
    var i := 0;
    while i < |sessions|
      invariant 0 <= i <= |sessions|
      invariant file.data == Text(codec, records + added) && Increasing(records + added)
      invariant Payloads(added) + EncodableInAll(sessions[i..]) == EncodableInAll(sessions)
    {
      assert sessions[i..][0] == sessions[i] && sessions[i..][1..] == sessions[i + 1..];
      ghost var more := Session(codec, file, sessions[i], records + added);
      Regroup(records, added, more);
      PayloadsAppend(added, more);
      Regroup(Payloads(added), Payloads(more), EncodableInAll(sessions[i + 1..]));
      added := added + more;
      i := i + 1;
    }
    assert sessions[i..] == [] && Payloads(added) + [] == Payloads(added);
  }

  function EncodableInAll(sessions: seq<seq<(string, bool)>>): seq<string> {
    if |sessions| == 0 then [] else Encodable(sessions[0]) + EncodableInAll(sessions[1..])
  }
}
