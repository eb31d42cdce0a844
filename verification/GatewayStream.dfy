/** Relaying a streamed answer: what is recorded for accounting and replay, and what the client gets. */
module GatewayStream {
  import opened Bytes
  import opened Wrappers
  import opened GatewayPump

  datatype Sent = Data(bytes: Bytes) | Heartbeat

  function Delivered(sent: seq<Sent>): seq<Bytes> {
    if |sent| == 0 then []
    else Delivered(sent[..|sent| - 1]) + match sent[|sent| - 1] case Data(b) => [b] case Heartbeat => []
  }

  function SentFor(e: Event): Sent { match e case Chunk(b) => Data(b) case Silence => Heartbeat }

  /** What is written for what is yielded. */
  function Written(events: seq<Event>): seq<Sent> {
    seq(|events|, i requires 0 <= i < |events| => SentFor(events[i]))
  }

  /** The first write that finds the connection lost; their number if none does. */
  function LostAt(writes: nat, resets: nat -> bool): (n: nat)
    ensures n <= writes && (forall k :: 0 <= k < n ==> !resets(k)) && (n < writes ==> resets(n))
  {
    if writes == 0 then 0
    else
      var before := LostAt(writes - 1, resets);
      if before < writes - 1 || resets(writes - 1) then before else writes
  }

  lemma {:induction false} DeliveredIsProvided(events: seq<Event>)
    ensures Delivered(Written(events)) == Provided(events)
  {
    if |events| > 0 {
      DeliveredIsProvided(events[..|events| - 1]);
      assert Written(events)[..|events| - 1] == Written(events[..|events| - 1]);
    }
  }

  lemma {:induction false} ProvidedGrows(events: seq<Event>, n: nat)
    requires n <= |events|
    ensures Provided(events[..n]) <= Provided(events)
    decreases |events|
  {
    if n < |events| {
      ProvidedGrows(events[..|events| - 1], n);
      assert events[..|events| - 1][..n] == events[..n];
    } else {
      assert events[..n] == events;
    }
  }

  /** One more write goes out exactly when none was lost before and it is not lost itself. */
  lemma {:induction false} OneMoreWrite(events: seq<Event>, i: nat, resets: nat -> bool)
    requires i < |events|
    ensures var (n, more) := (LostAt(i, resets), LostAt(i + 1, resets));
      if n == i && !resets(i) then
        more == i + 1 && Written(events[..i + 1]) == Written(events[..i]) + [SentFor(events[i])]
      else more == n
    ensures Provided(events[..i + 1]) == Provided(events[..i]) + match events[i] case Chunk(b) => [b] case Silence => []
  {
    assert events[..i + 1][..i] == events[..i];
    assert events[..i + 1] == events[..i] + [events[i]];
  }

  /** The recorded chunks are those yielded, whatever happens downstream, unless the provider failed; the
      client gets them too, in order and up to a lost connection, with heartbeats in between. `ended` says
      whether the client was told that the answer is complete. */
  method Relay(events: seq<Event>, failure: Option<nat>, resets: nat -> bool)
    returns (recorded: Result<seq<Bytes>, nat>, sent: seq<Sent>, ended: bool)
    ensures recorded == match failure case None => Ok(Provided(events)) case Some(e) => Err(e)
    ensures sent == Written(events[..LostAt(|events|, resets)])
    ensures ended <==> failure.None? && LostAt(|events| + 1, resets) == |events| + 1
  {
    var chunks: seq<Bytes>, connected := [], true;
    sent, ended := [], false;
    var i := 0;
    while i < |events|
      invariant 0 <= i <= |events| && chunks == Provided(events[..i])
      invariant sent == Written(events[..LostAt(i, resets)])
      invariant connected <==> LostAt(i, resets) == i
    {
      OneMoreWrite(events, i, resets);
      if events[i].Chunk? { chunks := chunks + [events[i].bytes]; }
      if connected {
        if resets(i) { connected := false; } else { sent := sent + [SentFor(events[i])]; }
      }
      i := i + 1;
    }
    assert events[..i] == events;
    if failure.Some? { return Err(failure.value), sent, false; }
    return Ok(chunks), sent, connected && !resets(i);
  }

  /** Over every run of the reading: the client gets the provider's chunks up to a lost connection, all of
      them without one, and nothing else where no silences are reported. */
  lemma {:induction false} ClientGetsAPrefix(src: Source, steps: seq<Step>, end: State, resets: nat -> bool)
    requires Run(src, Start(src), steps, end)
    ensures var n := LostAt(|end.yielded|, resets);
      var sent := Written(end.yielded[..n]);
      && Delivered(sent) <= src.chunks
      && (n == |end.yielded| && (end.phase.Ended? || end.phase.Raised?) ==> Delivered(sent) == src.chunks)
      && (!src.keepalive ==> Heartbeat !in sent)
  {
    var (events, n) := (end.yielded, LostAt(|end.yielded|, resets));
    ChunksThenTheEnd(src, steps, end);
    DeliveredIsProvided(events[..n]);
    ProvidedGrows(events, n);
    if n == |events| { assert events[..n] == events; }
    if !src.keepalive {
      forall k | 0 <= k < n ensures Written(events[..n])[k] != Heartbeat { assert events[k] in events; }
    }
  }
}
