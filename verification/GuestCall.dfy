/** One operation on the guest: its events are handed on and acknowledged one by one. */
module GuestCall {
  import opened Wrappers

  /** A line from the guest. `number` is the output number an event carries, if it carries one. */
  datatype Message =
    | Blank
    | Stale(id: nat)
    | Event(number: Option<int>)
    | Success
    | Failure

  datatype Ending = Returned | OutputFailed | GuestFailed | BadSequence | TimedOut

  /** The event messages among some messages. */
  function Events(messages: seq<Message>): nat {
    if |messages| == 0 then 0
    else Events(messages[..|messages| - 1]) + if messages[|messages| - 1].Event? then 1 else 0
  }

  predicate Final(m: Message) { m.Success? || m.Failure? }

  /** Where an acknowledged event carries another number than the next one. */
  predicate Misnumbered(messages: seq<Message>, k: nat)
    requires k < |messages|
  {
    messages[k].Event? && messages[k].number != Some(Events(messages[..k]) + 1)
  }

  /** The message that ends the call. */
  predicate Ends(messages: seq<Message>, acknowledged: bool, k: nat)
    requires k < |messages|
  {
    Final(messages[k]) || (acknowledged && Misnumbered(messages, k))
  }

  function Upto(n: nat): seq<nat> { seq(n, i => i + 1) }

  /** The first callback among the first `n` that fails. */
  ghost predicate FailsFirst(callback: nat -> bool, n: nat, k: nat) {
    k < n && !callback(k) && forall i :: 0 <= i < k ==> callback(i)
  }

  /** `callback(k)` tells whether the `k`-th callback returns. Every event before the end is
      acknowledged, in order, even after a callback has failed; no callback is made after that. */
  method Call(messages: seq<Message>, acknowledged: bool, callback: nat -> bool)
    returns (ending: Ending, acks: seq<nat>, called: nat, read: nat)
    ensures read <= |messages|
    ensures if ending.TimedOut? then read == |messages| else read > 0 && Ends(messages, acknowledged, read - 1)
    ensures forall k :: 0 <= k < read - 1 ==> !Ends(messages, acknowledged, k)
    ensures ending.TimedOut? ==> forall k :: 0 <= k < read ==> !Ends(messages, acknowledged, k)
    ensures var handled := if ending.BadSequence? then Events(messages[..read - 1]) else Events(messages[..read]);
      && acks == (if acknowledged then Upto(handled) else [])
      && called <= handled
      && (called < handled ==> called > 0 && FailsFirst(callback, called, called - 1))
      && (called == handled ==> forall i :: 0 <= i < called - 1 ==> callback(i))
      && (ending.Returned? <==> read > 0 && messages[read - 1].Success? && forall i :: 0 <= i < handled ==> callback(i))
    ensures ending.OutputFailed? ==> messages[read - 1].Success?
    ensures ending.GuestFailed? <==> read > 0 && messages[read - 1].Failure?
    ensures ending.BadSequence? <==> acknowledged && read > 0 && Misnumbered(messages, read - 1)
  {
    acks, called, read := [], 0, 0;
    var sequence := 0;
    var failed := false;
    while read < |messages|
      invariant read <= |messages| && sequence == Events(messages[..read])
      invariant forall k :: 0 <= k < read ==> !Ends(messages, acknowledged, k)
      invariant acks == if acknowledged then Upto(sequence) else []
      invariant failed ==> 0 < called <= sequence && FailsFirst(callback, called, called - 1)
      invariant !failed ==> called == sequence && forall i :: 0 <= i < called ==> callback(i)
    {
      var message := messages[read];
      assert messages[..read + 1][..read] == messages[..read];
      read := read + 1;
      match message {
        case Blank =>
        case Stale(_) =>
        case Event(number) =>
          if acknowledged && number != Some(sequence + 1) { return BadSequence, acks, called, read; }
          sequence := sequence + 1;
          if !failed {
            failed := !callback(called);
            called := called + 1;
          }
          if acknowledged { acks := acks + [sequence]; }
        case Success =>
          return if failed then OutputFailed else Returned, acks, called, read;
        case Failure =>
          return GuestFailed, acks, called, read;
      }
    }
    assert read > 0 ==> !Ends(messages, acknowledged, read - 1);
    ending := TimedOut;
  }
}
