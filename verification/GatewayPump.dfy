/** Reading a streamed answer with keep-alives: a task that pumps what arrives into a queue, and a consumer
    whose waits on the queue may time out. */
module GatewayPump {
  import opened Bytes
  import opened Wrappers

  /** What the provider sends before it ends or fails, and whether silences are to be reported. */
  datatype Source = Source(chunks: seq<Bytes>, failure: Option<nat>, keepalive: bool)

  /** What the consumer yields: bytes, or a stretch of silence. */
  datatype Event = Chunk(bytes: Bytes) | Silence

  datatype Item = Piece(bytes: Bytes) | Failure(error: nat) | End

  /** Asking finds something in the queue or waits; a wait is woken by the next item, and may time out
      even then. */
  datatype Phase = Idle | Waiting | Woken | Ended | Raised(error: nat) | Closed

  datatype State = State(read: nat, pumping: bool, queue: seq<Item>, phase: Phase, yielded: seq<Event>)

  datatype Step = Read | Stop | Ask | Resume | Timeout | Close | Pass

  function Start(src: Source): State { State(0, src.keepalive, [], Idle, []) }

  predicate Open(s: State) { s.phase.Idle? || s.phase.Waiting? || s.phase.Woken? }

  predicate Enabled(src: Source, s: State, step: Step) {
    match step
    case Read => s.pumping && s.read < |src.chunks|
    case Stop => s.pumping && s.read == |src.chunks|
    case Ask => src.keepalive && s.phase.Idle?
    case Resume => s.phase.Woken? && |s.queue| > 0
    case Timeout => s.phase.Waiting? || s.phase.Woken?
    case Close => Open(s)
    case Pass => !src.keepalive && s.phase.Idle? && s.read <= |src.chunks|
  }

  function Last(src: Source): Item { match src.failure case None => End case Some(e) => Failure(e) }

  function Finish(src: Source): Phase { match src.failure case None => Ended case Some(e) => Raised(e) }

  function Put(s: State, item: Item): State {
    s.(queue := s.queue + [item], phase := if s.phase.Waiting? then Woken else s.phase)
  }

  function Take(s: State): State
    requires |s.queue| > 0
  {
    var rest := s.(queue := s.queue[1..]);
    match s.queue[0]
    case Piece(b) => rest.(phase := Idle, yielded := s.yielded + [Chunk(b)])
    case Failure(e) => rest.(phase := Raised(e))
    case End => rest.(phase := Ended)
  }

  function After(src: Source, s: State, step: Step): State
    requires Enabled(src, s, step)
  {
    match step
    case Read => Put(s.(read := s.read + 1), Piece(src.chunks[s.read]))
    case Stop => Put(s.(pumping := false), Last(src))
    case Ask => if |s.queue| > 0 then Take(s) else s.(phase := Waiting)
    case Resume => Take(s)
    case Timeout => s.(phase := Idle, yielded := s.yielded + [Silence])
    case Close => s.(phase := Closed, pumping := false)
    case Pass =>
      if s.read < |src.chunks| then s.(read := s.read + 1, yielded := s.yielded + [Chunk(src.chunks[s.read])])
      else s.(phase := Finish(src))
  }

  /** `end` is reached from `s` by `steps`. */
  predicate Run(src: Source, s: State, steps: seq<Step>, end: State)
    decreases |steps|
  {
    if |steps| == 0 then s == end
    else Enabled(src, s, steps[0]) && Run(src, After(src, s, steps[0]), steps[1..], end)
  }

  // --- what every step keeps ---

  /** The bytes among the events. */
  function Provided(events: seq<Event>): seq<Bytes> {
    if |events| == 0 then []
    else Provided(events[..|events| - 1])
         + match events[|events| - 1] case Chunk(b) => [b] case Silence => []
  }

  function Pieces(chunks: seq<Bytes>): seq<Item> { seq(|chunks|, i requires 0 <= i < |chunks| => Piece(chunks[i])) }

  function Yielded(s: State): nat { |Provided(s.yielded)| }

  /** The queue holds what was read and not yet yielded, and then how the provider ended, once it has. */
  ghost predicate Queued(src: Source, s: State)
    requires Yielded(s) <= s.read <= |src.chunks|
  {
    && s.queue == Pieces(src.chunks[Yielded(s)..s.read]) + (if s.pumping then [] else [Last(src)])
    && (!s.pumping ==> s.read == |src.chunks|)
    && (s.phase.Waiting? ==> |s.queue| == 0) && (s.phase.Woken? ==> |s.queue| > 0)
  }

  ghost predicate Accounted(src: Source, s: State) {
    && Yielded(s) <= s.read <= |src.chunks|
    && Provided(s.yielded) == src.chunks[..Yielded(s)]
    && (src.keepalive && Open(s) ==> Queued(src, s))
    && (!src.keepalive ==>
          Yielded(s) == s.read && !s.pumping && Silence !in s.yielded && !s.phase.Waiting? && !s.phase.Woken?)
    && (s.phase.Ended? || s.phase.Raised? ==>
          Yielded(s) == |src.chunks| && s.phase == Finish(src) && !s.pumping)
    && (s.phase.Closed? ==> !s.pumping)
  }

  lemma {:induction false} OneMoreEvent(events: seq<Event>, e: Event)
    ensures Provided(events + [e]) == Provided(events) + match e case Chunk(b) => [b] case Silence => []
  {
    assert (events + [e])[..|events|] == events;
  }

  lemma {:induction false} TakeKeepsAccounts(src: Source, s: State)
    requires Accounted(src, s) && src.keepalive && Open(s) && |s.queue| > 0
    ensures Accounted(src, Take(s))
  {
    var n := Yielded(s);
    if n < s.read {
      var b := src.chunks[n];
      assert Pieces(src.chunks[n..s.read])[0] == Piece(b);
      assert Pieces(src.chunks[n..s.read])[1..] == Pieces(src.chunks[n + 1..s.read]);
      OneMoreEvent(s.yielded, Chunk(b));
      assert src.chunks[..n] + [b] == src.chunks[..n + 1];
    } else {
      assert Pieces(src.chunks[n..s.read]) == [];
    }
  }

  lemma {:induction false} PutKeepsAccounts(src: Source, s: State, step: Step)
    requires Accounted(src, s) && Enabled(src, s, step) && (step.Read? || step.Stop?)
    ensures Accounted(src, After(src, s, step))
  {
    if step.Read? {
      var (n, more) := (Yielded(s), src.chunks[s.read]);
      assert src.chunks[n..s.read + 1] == src.chunks[n..s.read] + [more];
      assert Pieces(src.chunks[n..s.read + 1]) == Pieces(src.chunks[n..s.read]) + [Piece(more)];
    }
  }

  lemma {:induction false} PassKeepsAccounts(src: Source, s: State)
    requires Accounted(src, s) && Enabled(src, s, Pass)
    ensures Accounted(src, After(src, s, Pass))
  {
    if s.read < |src.chunks| {
      OneMoreEvent(s.yielded, Chunk(src.chunks[s.read]));
      assert src.chunks[..s.read] + [src.chunks[s.read]] == src.chunks[..s.read + 1];
    }
  }

  lemma {:induction false} StepKeepsAccounts(src: Source, s: State, step: Step)
    requires Accounted(src, s) && Enabled(src, s, step)
    ensures Accounted(src, After(src, s, step))
  {
    match step
    case Read => PutKeepsAccounts(src, s, step);
    case Stop => PutKeepsAccounts(src, s, step);
    case Ask => if |s.queue| > 0 { TakeKeepsAccounts(src, s); }
    case Resume => TakeKeepsAccounts(src, s);
    case Timeout => OneMoreEvent(s.yielded, Silence);
    case Close =>
    case Pass => PassKeepsAccounts(src, s);
  }

  lemma {:induction false} RunKeepsAccounts(src: Source, s: State, steps: seq<Step>, end: State)
    requires Accounted(src, s) && Run(src, s, steps, end)
    ensures Accounted(src, end)
    decreases |steps|
  {
    if |steps| > 0 {
      StepKeepsAccounts(src, s, steps[0]);
      RunKeepsAccounts(src, After(src, s, steps[0]), steps[1..], end);
    }
  }

  lemma {:induction false} StartIsAccounted(src: Source)
    ensures Accounted(src, Start(src))
  {
    assert Pieces(src.chunks[0..0]) == [] && src.chunks[..0] == [];
  }

  /** However reads and time-outs interleave, the consumer yields the provider's chunks in order, and ends or
      raises only after all of them and as the provider did. */
  lemma {:induction false} ChunksThenTheEnd(src: Source, steps: seq<Step>, end: State)
    requires Run(src, Start(src), steps, end)
    ensures Provided(end.yielded) <= src.chunks && end.read <= |src.chunks|
    ensures end.phase.Ended? || end.phase.Raised? ==> Provided(end.yielded) == src.chunks && end.phase == Finish(src)
    ensures src.keepalive && Open(end) && end.pumping ==>
      Pieces(Provided(end.yielded)) + end.queue == Pieces(src.chunks[..end.read])
    ensures !src.keepalive ==> Silence !in end.yielded
  {
    StartIsAccounted(src);
    RunKeepsAccounts(src, Start(src), steps, end);
    if src.keepalive && Open(end) && end.pumping {
      var n := Yielded(end);
      assert src.chunks[..n] + src.chunks[n..end.read] == src.chunks[..end.read];
    }
  }

  /** Any wait may time out, also one that was woken already; then a silence is yielded, what was queued stays
      and the consumer may ask again. */
  lemma {:induction false} TimeoutLosesNothing(src: Source, s: State)
    requires s.phase.Waiting? || s.phase.Woken?
    ensures Enabled(src, s, Timeout)
    ensures var next := After(src, s, Timeout);
      && next.queue == s.queue && next.read == s.read && next.pumping == s.pumping && next.phase.Idle?
      && next.yielded == s.yielded + [Silence] && Provided(next.yielded) == Provided(s.yielded)
  {
    OneMoreEvent(s.yielded, Silence);
  }

  // --- nothing gets stuck ---

  /** What is left to do, not counting time-outs. */
  function Left(src: Source, s: State): nat
    requires s.read <= |src.chunks|
  {
    2 * (|src.chunks| - s.read) + (if s.pumping then 2 else 0) + |s.queue| + (if Open(s) then 1 else 0)
  }

  /** A step that brings the end nearer; time-outs never do. */
  function Useful(src: Source, s: State): Step {
    if !src.keepalive then Pass
    else if s.phase.Woken? then Resume
    else if s.phase.Idle? && |s.queue| > 0 then Ask
    else if s.read < |src.chunks| then Read
    else Stop
  }

  lemma {:induction false} SomethingIsLeftToDo(src: Source, s: State)
    requires Accounted(src, s) && Open(s)
    ensures Enabled(src, s, Useful(src, s)) && Left(src, After(src, s, Useful(src, s))) < Left(src, s)
  {}

  /** From wherever it is, the consumer can get everything and then the end, without a time-out. */
  lemma {:induction false} ConsumerCanFinish(src: Source, s: State) returns (steps: seq<Step>, end: State)
    requires Accounted(src, s) && Open(s)
    ensures Run(src, s, steps, end) && Timeout !in steps && Close !in steps
    ensures Provided(end.yielded) == src.chunks && end.phase == Finish(src)
    decreases Left(src, s)
  {
    var step := Useful(src, s);
    var next := After(src, s, step);
    SomethingIsLeftToDo(src, s);
    StepKeepsAccounts(src, s, step);
    if Open(next) {
      steps, end := ConsumerCanFinish(src, next);
      var all := [step] + steps;
      assert all[1..] == steps;
      steps := all;
    } else {
      steps, end := [step], next;
      assert steps[1..] == [];
    }
  }
}
