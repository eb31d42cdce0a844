/** Refreshing a subscription's access token. Any number of tasks share credentials, and any number
    of credentials, in any process, share one profile file. A credential's own lock admits one task
    at a time; the profile's file lock admits one credential at a time. A step is what a task does
    between two suspensions. */
module Subscription {
  import opened Wrappers

  const REFRESH_WINDOW: nat := 5 * 60

  datatype Login = Login(access: string, refresh: string, expires: Option<int>)

  datatype Outcome = Refreshed | NotRefreshed | Raised

  datatype Stage =
    | Waiting
    | Queued
    | Locked
    | Holding(login: Login)
    | Asking(sent: Login)
    | Storing(updated: Login)
    | Written(kept: Login)
    | Leaving(outcome: Outcome)
    | Exiting(left: Outcome)
    | Done(result: Outcome)

  /** `stale` is the access token the caller found wanting. */
  datatype Task = Task(credential: nat, stale: string, stage: Stage)

  datatype Credential = Credential(token: string, expires: Option<int>, holder: Option<nat>)

  /** A refresh token sent to the provider, and how many logins had been stored by then. */
  datatype Presentation = Presentation(token: string, version: nat)

  datatype State = State(
    stored: seq<Login>,
    flock: Option<nat>,
    credentials: seq<Credential>,
    tasks: seq<Task>,
    now: int,
    presented: seq<Presentation>,
    answers: seq<Login>,
    issued: set<string>,
    lost: nat,
    rotating: bool)

  datatype Action =
    | Call(credential: nat)
    | Enter(task: nat)
    | Lock(task: nat)
    | Load(task: nat)
    | LoadFails(task: nat, token: string)
    | Present(task: nat)
    | NotSent(task: nat, raised: bool)
    | Answer(task: nat, login: Login)
    | NoAnswer(task: nat, raised: bool)
    | Write(task: nat)
    | NotWritten(task: nat, replaced: bool)
    | Apply(task: nat)
    | Unlock(task: nat)
    | Exit(task: nat)
    | Tick(later: nat)

  /** What the profile file holds: the login stored last. */
  function Profile(st: State): Login
    requires |st.stored| > 0
  {
    st.stored[|st.stored| - 1]
  }

  predicate Expiring(expires: Option<int>, now: int) {
    expires.Some? && expires.value <= now + REFRESH_WINDOW
  }

  /** No reason to exchange again: another token than the stale one, and not about to expire. */
  predicate Serves(token: string, expires: Option<int>, stale: string, now: int) {
    token != stale && !Expiring(expires, now)
  }

  predicate At(st: State, t: nat) { t < |st.tasks| && st.tasks[t].credential < |st.credentials| }

  function Own(st: State, t: nat): Credential
    requires At(st, t)
  {
    st.credentials[st.tasks[t].credential]
  }

  predicate Enabled(st: State, a: Action) {
    && |st.stored| > 0
    && match a
       case Call(c) => c < |st.credentials|
       case Enter(t) => At(st, t) && st.tasks[t].stage.Waiting? && Own(st, t).holder.None?
       case Lock(t) => At(st, t) && st.tasks[t].stage.Queued? && st.flock.None?
       case Load(t) => At(st, t) && st.tasks[t].stage.Locked?
       case LoadFails(t, _) => At(st, t) && st.tasks[t].stage.Locked?
       case Present(t) => At(st, t) && st.tasks[t].stage.Holding? && |st.tasks[t].stage.login.refresh| > 0
       case NotSent(t, _) => At(st, t) && st.tasks[t].stage.Holding?
       // a provider does not issue a refresh token twice
       case Answer(t, login) =>
         && At(st, t) && st.tasks[t].stage.Asking?
         && (login.refresh == st.tasks[t].stage.sent.refresh || login.refresh !in st.issued)
       case NoAnswer(t, _) => At(st, t) && st.tasks[t].stage.Asking?
       case Write(t) => At(st, t) && st.tasks[t].stage.Storing?
       case NotWritten(t, _) => At(st, t) && st.tasks[t].stage.Storing?
       case Apply(t) => At(st, t) && st.tasks[t].stage.Written?
       case Unlock(t) => At(st, t) && st.tasks[t].stage.Leaving?
       case Exit(t) => At(st, t) && st.tasks[t].stage.Exiting?
       case Tick(_) => true
  }

  function Move(st: State, t: nat, stage: Stage): State
    requires At(st, t)
  {
    st.(tasks := st.tasks[t := st.tasks[t].(stage := stage)])
  }

  function WithCredential(st: State, t: nat, c: Credential): State
    requires At(st, t)
  {
    st.(credentials := st.credentials[st.tasks[t].credential := c])
  }

  /** Take the token and expiry of a login. */
  function Applied(st: State, t: nat, login: Login): State
    requires At(st, t)
  {
    WithCredential(st, t, Own(st, t).(token := login.access, expires := login.expires))
  }

  function Failure(raised: bool): Stage { Leaving(if raised then Raised else NotRefreshed) }

  function Next(st: State, a: Action): State
    requires Enabled(st, a)
  {
    match a
    case Call(c) => st.(tasks := st.tasks + [Task(c, st.credentials[c].token, Waiting)])
    case Enter(t) =>
      if Serves(Own(st, t).token, Own(st, t).expires, st.tasks[t].stale, st.now) then Move(st, t, Done(Refreshed))
      else Move(WithCredential(st, t, Own(st, t).(holder := Some(t))), t, Queued)
    case Lock(t) => Move(st.(flock := Some(t)), t, Locked)
    case Load(t) =>
      var login := Profile(st);
      var st' := Applied(st, t, login);
      Move(st', t,
        if Serves(login.access, login.expires, st.tasks[t].stale, st.now) then Leaving(Refreshed) else Holding(login))
    case LoadFails(t, token) =>
      // the access token is taken before the rest of the login is checked
      Move(WithCredential(st, t, Own(st, t).(token := token)), t, Leaving(Raised))
    case Present(t) =>
      var login := st.tasks[t].stage.login;
      Move(st.(presented := st.presented + [Presentation(login.refresh, |st.stored|)]), t, Asking(login))
    case NotSent(t, raised) => Move(st, t, Failure(raised))
    case Answer(t, login) =>
      Move(st.(answers := st.answers + [login], issued := st.issued + {login.refresh},
               rotating := st.rotating && login.refresh != st.tasks[t].stage.sent.refresh), t, Storing(login))
    case NoAnswer(t, raised) => Move(st.(lost := st.lost + 1), t, Failure(raised))
    case Write(t) =>
      var login := st.tasks[t].stage.updated;
      Move(st.(stored := st.stored + [login]), t, Written(login))
    case NotWritten(t, replaced) =>
      var login := st.tasks[t].stage.updated;
      Move(st.(lost := st.lost + 1, stored := if replaced then st.stored + [login] else st.stored),
        t, Leaving(NotRefreshed))
    case Apply(t) => Move(Applied(st, t, st.tasks[t].stage.kept), t, Leaving(Refreshed))
    case Unlock(t) => Move(st.(flock := None), t, Exiting(st.tasks[t].stage.outcome))
    case Exit(t) => Move(WithCredential(st, t, Own(st, t).(holder := None)), t, Done(st.tasks[t].stage.left))
    case Tick(later) => st.(now := st.now + later)
  }

  ghost predicate Initial(st: State) {
    && |st.stored| == 1 && st.flock.None? && st.tasks == [] && st.presented == [] && st.answers == []
    && st.issued == {st.stored[0].refresh} && st.lost == 0 && st.rotating
    && forall c :: 0 <= c < |st.credentials| ==> st.credentials[c].holder.None?
  }

  // --- runs ---

  ghost predicate Runs(st: State, actions: seq<Action>)
    decreases |actions|
  {
    |actions| == 0 || (Enabled(st, actions[0]) && Runs(Next(st, actions[0]), actions[1..]))
  }

  ghost function After(st: State, actions: seq<Action>): State
    requires Runs(st, actions)
    decreases |actions|
  {
    if |actions| == 0 then st else After(Next(st, actions[0]), actions[1..])
  }

  // --- exclusion ---

  /** Between taking and releasing the file lock. */
  predicate InSection(s: Stage) {
    s.Locked? || s.Holding? || s.Asking? || s.Storing? || s.Written? || s.Leaving?
  }

  /** Between taking and releasing the credential's lock. */
  predicate Inside(s: Stage) { InSection(s) || s.Queued? || s.Exiting? }

  /** A task that is to store or has stored a login holds what the profile says. */
  predicate Agrees(stage: Stage, profile: Login) {
    match stage
    case Holding(l) => l == profile
    case Asking(l) => l == profile
    case Written(l) => l == profile
    case _ => true
  }

  predicate TaskFits(st: State, t: nat)
    requires t < |st.tasks| && |st.stored| > 0
  {
    && At(st, t)
    && (InSection(st.tasks[t].stage) <==> st.flock == Some(t))
    && (Inside(st.tasks[t].stage) <==> Own(st, t).holder == Some(t))
    && Agrees(st.tasks[t].stage, Profile(st))
  }

  ghost predicate HolderFits(st: State, c: nat)
    requires c < |st.credentials|
  {
    st.credentials[c].holder.Some? ==>
      st.credentials[c].holder.value < |st.tasks| && st.tasks[st.credentials[c].holder.value].credential == c
  }

  ghost predicate Excluding(st: State) {
    && |st.stored| > 0
    && (forall t :: 0 <= t < |st.tasks| ==> TaskFits(st, t))
    && (st.flock.Some? ==> st.flock.value < |st.tasks|)
    && (forall c :: 0 <= c < |st.credentials| ==> HolderFits(st, c))
  }

  /** A lock after a task went from outside to inside, or back. */
  predicate LockMoves(t: nat, was: bool, inside: bool, before: Option<nat>, after: Option<nat>) {
    && (inside && !was ==> before.None?)
    && after == if inside then Some(t) else if was then None else before
  }

  /** `st` and `st'` differ by one move of task `t`, within the locks it holds. */
  ghost predicate OneMoves(st: State, st': State, t: nat)
    requires At(st, t) && |st.stored| > 0 && |st'.stored| > 0
  {
    && At(st', t)
    && st'.tasks == st.tasks[t := st.tasks[t].(stage := st'.tasks[t].stage)]
    && st'.credentials == st.credentials[st.tasks[t].credential := Own(st', t)]
    && LockMoves(t, InSection(st.tasks[t].stage), InSection(st'.tasks[t].stage), st.flock, st'.flock)
    && LockMoves(t, Inside(st.tasks[t].stage), Inside(st'.tasks[t].stage), Own(st, t).holder, Own(st', t).holder)
    && (st'.stored != st.stored ==> InSection(st.tasks[t].stage))
    && Agrees(st'.tasks[t].stage, Profile(st'))
  }

  lemma {:induction false} OneMoveKeepsExclusion(st: State, st': State, t: nat)
    requires Excluding(st) && At(st, t) && |st'.stored| > 0 && OneMoves(st, st', t)
    ensures Excluding(st')
  {
    assert TaskFits(st, t) && HolderFits(st, st.tasks[t].credential);
    forall u | 0 <= u < |st'.tasks| ensures TaskFits(st', u) { assert TaskFits(st, u); }
    forall c | 0 <= c < |st'.credentials| ensures HolderFits(st', c) { assert HolderFits(st, c); }
  }

  predicate TakesOrLeavesLock(a: Action) { a.Enter? || a.Lock? || a.Unlock? || a.Exit? }

  lemma {:induction false} LockStepIsOneMove(st: State, a: Action)
    requires |st.stored| > 0 && Enabled(st, a) && TakesOrLeavesLock(a) && TaskFits(st, a.task)
    ensures OneMoves(st, Next(st, a), a.task)
  {}

  lemma {:induction false} InnerStepIsOneMove(st: State, a: Action)
    requires |st.stored| > 0 && Enabled(st, a) && !a.Call? && !a.Tick? && !TakesOrLeavesLock(a) && TaskFits(st, a.task)
    ensures OneMoves(st, Next(st, a), a.task)
  {}

  lemma {:induction false} StepIsOneMove(st: State, a: Action)
    requires Excluding(st) && Enabled(st, a) && !a.Call? && !a.Tick?
    ensures OneMoves(st, Next(st, a), a.task)
  {
    assert TaskFits(st, a.task);
    if TakesOrLeavesLock(a) { LockStepIsOneMove(st, a); } else { InnerStepIsOneMove(st, a); }
  }

  lemma {:induction false} StepKeepsExclusion(st: State, a: Action)
    requires Excluding(st) && Enabled(st, a)
    ensures Excluding(Next(st, a))
  {
    if a.Call? || a.Tick? {
      var st' := Next(st, a);
      forall u | 0 <= u < |st'.tasks| ensures TaskFits(st', u) {
        if u < |st.tasks| {
          assert TaskFits(st, u);
        } else {
          assert HolderFits(st, a.credential);
        }
      }
      forall c | 0 <= c < |st'.credentials| ensures HolderFits(st', c) { assert HolderFits(st, c); }
    } else {
      StepIsOneMove(st, a);
      OneMoveKeepsExclusion(st, Next(st, a), a.task);
    }
  }

  /** No two tasks are inside the file lock, and each exchange presents the refresh token last stored,
      while no other task waits for an answer. */
  lemma {:induction false} ExchangesAreSerialized(st: State, t: nat, u: nat)
    requires Excluding(st) && t < |st.tasks| && u < |st.tasks|
    ensures InSection(st.tasks[t].stage) && InSection(st.tasks[u].stage) ==> t == u
    ensures Enabled(st, Present(t)) ==>
      && Next(st, Present(t)).presented == st.presented + [Presentation(Profile(st).refresh, |st.stored|)]
      && !st.tasks[u].stage.Asking?
  {
    assert TaskFits(st, t) && TaskFits(st, u);
  }

  /** Whatever waits for a lock, some task can go on until every call has returned. */
  lemma {:induction false} SomebodyCanMove(st: State, t: nat) returns (a: Action)
    requires Excluding(st) && t < |st.tasks| && !st.tasks[t].stage.Done?
    ensures !a.Call? && !a.Tick? && Enabled(st, a)
  {
    assert TaskFits(st, t);
    if st.flock.Some? {
      a := MoveInSection(st, st.flock.value);
    } else if st.tasks[t].stage.Queued? {
      a := Lock(t);
    } else if st.tasks[t].stage.Exiting? {
      a := Exit(t);
    } else if Own(st, t).holder.None? {
      a := Enter(t);
    } else {
      var u := Own(st, t).holder.value;
      assert HolderFits(st, st.tasks[t].credential);
      assert TaskFits(st, u);
      a := if st.tasks[u].stage.Queued? then Lock(u) else Exit(u);
    }
  }

  lemma {:induction false} MoveInSection(st: State, t: nat) returns (a: Action)
    requires |st.stored| > 0 && t < |st.tasks| && TaskFits(st, t) && st.flock == Some(t)
    ensures !a.Call? && !a.Tick? && Enabled(st, a)
  {
    match st.tasks[t].stage {
      case Locked => a := Load(t);
      case Holding(_) => a := NotSent(t, false);
      case Asking(_) => a := NoAnswer(t, false);
      case Storing(_) => a := Write(t);
      case Written(_) => a := Apply(t);
      case _ => a := Unlock(t);
    }
  }

  // --- which refresh tokens are presented ---

  predicate InFlight(st: State) {
    && st.flock.Some? && st.flock.value < |st.tasks|
    && (st.tasks[st.flock.value].stage.Asking? || st.tasks[st.flock.value].stage.Storing?)
  }

  predicate PresentationFits(st: State, p: Presentation) {
    && 1 <= p.version <= |st.stored|
    && p.token == st.stored[p.version - 1].refresh
    && (st.lost == 0 ==> p.version < |st.stored| || InFlight(st))
  }

  ghost predicate NotStoredYet(st: State, login: Login) {
    && login in st.answers && login.refresh in st.issued
    && (st.rotating ==> forall i :: 0 <= i < |st.stored| ==> st.stored[i].refresh != login.refresh)
  }

  ghost predicate Recorded(st: State) {
    && (forall i :: 0 <= i < |st.presented| ==> PresentationFits(st, st.presented[i]))
    && (st.lost == 0 ==>
          forall i, j :: 0 <= i < j < |st.presented| ==> st.presented[i].version < st.presented[j].version)
    && (forall i :: 0 <= i < |st.stored| ==> st.stored[i].refresh in st.issued)
    && (st.rotating ==> forall i, j :: 0 <= i < j < |st.stored| ==> st.stored[i].refresh != st.stored[j].refresh)
    && (forall t :: 0 <= t < |st.tasks| && st.tasks[t].stage.Storing? ==> NotStoredYet(st, st.tasks[t].stage.updated))
  }

  lemma {:induction false} StepKeepsPresentations(st: State, a: Action)
    requires Excluding(st) && Recorded(st) && Enabled(st, a)
    ensures var st' := Next(st, a);
      forall i :: 0 <= i < |st'.presented| ==> PresentationFits(st', st'.presented[i])
    ensures var st' := Next(st, a);
      st'.lost == 0 ==>
        forall i, j :: 0 <= i < j < |st'.presented| ==> st'.presented[i].version < st'.presented[j].version
  {
    if !a.Call? && !a.Tick? { assert TaskFits(st, a.task); }
    var st' := Next(st, a);
    forall i | 0 <= i < |st'.presented| ensures PresentationFits(st', st'.presented[i]) {
      if i < |st.presented| { assert PresentationFits(st, st.presented[i]); }
    }
  }

  lemma {:induction false} StepKeepsLogins(st: State, a: Action)
    requires Excluding(st) && Recorded(st) && Enabled(st, a)
    ensures var st' := Next(st, a);
      && (forall i :: 0 <= i < |st'.stored| ==> st'.stored[i].refresh in st'.issued)
      && (st'.rotating ==> forall i, j :: 0 <= i < j < |st'.stored| ==> st'.stored[i].refresh != st'.stored[j].refresh)
  {
    if !a.Call? && !a.Tick? { assert TaskFits(st, a.task); }
  }

  lemma {:induction false} StepKeepsPending(st: State, a: Action, t: nat)
    requires Excluding(st) && Recorded(st) && Enabled(st, a)
    requires t < |Next(st, a).tasks| && Next(st, a).tasks[t].stage.Storing?
    ensures NotStoredYet(Next(st, a), Next(st, a).tasks[t].stage.updated)
  {
    if !a.Call? && !a.Tick? { assert TaskFits(st, a.task); }
    if t < |st.tasks| { assert TaskFits(st, t); }
  }

  lemma {:induction false} StepKeepsRecord(st: State, a: Action)
    requires Excluding(st) && Recorded(st) && Enabled(st, a)
    ensures Recorded(Next(st, a))
  {
    var st' := Next(st, a);
    StepKeepsPresentations(st, a);
    StepKeepsLogins(st, a);
    forall t | 0 <= t < |st'.tasks| && st'.tasks[t].stage.Storing?
      ensures NotStoredYet(st', st'.tasks[t].stage.updated)
    {
      StepKeepsPending(st, a, t);
    }
  }

  // --- callers racing with the same stale token ---

  /** Every caller found the same token stale, and every answer serves them all, still. */
  ghost predicate Racing(st: State, stale: string) {
    && (forall t :: 0 <= t < |st.tasks| ==> st.tasks[t].stale == stale)
    && (forall i :: 0 <= i < |st.answers| ==> Serves(st.answers[i].access, st.answers[i].expires, stale, st.now))
  }

  predicate Exchanging(stage: Stage) { stage.Holding? || stage.Asking? || stage.Storing? }

  /** Once an answer is stored, nobody exchanges again. */
  ghost predicate Settled(st: State) {
    && (|st.stored| > 1 ==> Profile(st) in st.answers)
    && (|st.stored| > 1 ==> forall t :: 0 <= t < |st.tasks| ==> !Exchanging(st.tasks[t].stage))
    && |st.stored| <= 2
    && |st.presented| <= st.lost + |st.stored| - 1 + if InFlight(st) then 1 else 0
  }

  ghost predicate RaceSettles(st: State, stale: string) {
    |st.stored| > 0 && (Racing(st, stale) ==> Settled(st))
  }

  /** A race that a later state shows was on before. */
  lemma {:induction false} RaceWasOn(st: State, a: Action, stale: string)
    requires Enabled(st, a) && Racing(Next(st, a), stale)
    ensures Racing(st, stale)
  {
    var st' := Next(st, a);
    forall t | 0 <= t < |st.tasks| ensures st.tasks[t].stale == stale { assert st'.tasks[t].stale == stale; }
    forall i | 0 <= i < |st.answers|
      ensures Serves(st.answers[i].access, st.answers[i].expires, stale, st.now)
    {
      assert st'.answers[i] == st.answers[i];
    }
  }

  /** After a stored answer, a caller that loads the profile is served. */
  lemma {:induction false} LoaderIsServed(st: State, t: nat, stale: string)
    requires Racing(st, stale) && Settled(st) && |st.stored| > 1 && Enabled(st, Load(t))
    ensures Next(st, Load(t)).tasks[t].stage == Leaving(Refreshed)
  {}

  lemma {:induction false} StepKeepsOthersOut(st: State, a: Action, stale: string, u: nat)
    requires Excluding(st) && Racing(st, stale) && Settled(st) && Enabled(st, a)
    requires |Next(st, a).stored| > 1 && u < |Next(st, a).tasks|
    ensures !Exchanging(Next(st, a).tasks[u].stage)
  {
    if !a.Call? && !a.Tick? && u == a.task {
      if a.Load? { LoaderIsServed(st, u, stale); }
    } else if u < |st.tasks| && |st.stored| == 1 {
      // the login was stored by the one task inside the file lock
      assert TaskFits(st, u) && TaskFits(st, a.task);
    }
  }

  lemma {:induction false} StepSettles(st: State, a: Action, stale: string)
    requires Excluding(st) && Recorded(st) && RaceSettles(st, stale) && Enabled(st, a)
    ensures RaceSettles(Next(st, a), stale)
  {
    var st' := Next(st, a);
    if Racing(st', stale) {
      RaceWasOn(st, a, stale);
      if !a.Call? && !a.Tick? { assert TaskFits(st, a.task); }
      if |st'.stored| > 1 {
        forall u | 0 <= u < |st'.tasks| ensures !Exchanging(st'.tasks[u].stage) {
          StepKeepsOthersOut(st, a, stale, u);
        }
      }
    }
  }

  // --- over whole runs ---

  lemma {:induction false} RunKeepsAll(st: State, actions: seq<Action>, stale: string)
    requires Excluding(st) && Recorded(st) && RaceSettles(st, stale) && Runs(st, actions)
    ensures var end := After(st, actions); Excluding(end) && Recorded(end) && RaceSettles(end, stale)
    decreases |actions|
  {
    if |actions| > 0 {
      StepKeepsExclusion(st, actions[0]);
      StepKeepsRecord(st, actions[0]);
      StepSettles(st, actions[0], stale);
      RunKeepsAll(Next(st, actions[0]), actions[1..], stale);
    }
  }

  /** While every exchange is answered with a new refresh token and stored, no token is presented twice. */
  lemma {:induction false} NoTokenIsPresentedTwice(start: State, actions: seq<Action>, i: nat, j: nat)
    requires Initial(start) && Runs(start, actions)
    requires var end := After(start, actions); end.lost == 0 && end.rotating && i < j < |end.presented|
    ensures After(start, actions).presented[i].token != After(start, actions).presented[j].token
  {
    var end := After(start, actions);
    RunKeepsAll(start, actions, "");
    assert PresentationFits(end, end.presented[i]) && PresentationFits(end, end.presented[j]);
  }

  /** Callers with the same stale token cost one exchange in all, besides those whose answer was lost. */
  lemma {:induction false} RaceCostsOneExchange(start: State, actions: seq<Action>, stale: string)
    requires Initial(start) && Runs(start, actions) && Racing(After(start, actions), stale)
    ensures |After(start, actions).presented| <= 1 + After(start, actions).lost
  {
    RunKeepsAll(start, actions, stale);
  }

  // --- without answers ---

  lemma {:induction false} RunOn(st: State, before: seq<Action>, a: Action)
    requires Runs(st, before) && Enabled(After(st, before), a)
    ensures Runs(st, before + [a]) && After(st, before + [a]) == Next(After(st, before), a)
    decreases |before|
  {
    if |before| == 0 {
      assert before + [a] == [a] && [a][1..] == [];
    } else {
      assert (before + [a])[1..] == before[1..] + [a];
      RunOn(Next(st, before[0]), before[1..], a);
    }
  }

  /** Nobody holds a lock, and the credential's token is the profile's. */
  ghost predicate Idle(st: State, c: nat) {
    && |st.stored| > 0 && c < |st.credentials| && st.flock.None?
    && st.credentials[c].holder.None? && st.credentials[c].token == Profile(st).access
    && |Profile(st).refresh| > 0
  }

  /** A caller comes in and presents the refresh token. */
  lemma {:induction false} PresentOnce(start: State, actions: seq<Action>, c: nat) returns (longer: seq<Action>)
    requires Runs(start, actions) && Idle(After(start, actions), c)
    ensures Runs(start, longer)
    ensures var (st, st') := (After(start, actions), After(start, longer));
      && |st'.tasks| == |st.tasks| + 1 && st'.tasks[|st.tasks|].stage.Asking? && st'.tasks[|st.tasks|].credential == c
      && st'.stored == st.stored && st'.lost == st.lost
      && c < |st'.credentials| && st'.credentials[c].token == Profile(st).access
      && st'.presented == st.presented + [Presentation(Profile(st).refresh, |st.stored|)]
  {
    var t := |After(start, actions).tasks|;
    RunOn(start, actions, Call(c));
    RunOn(start, actions + [Call(c)], Enter(t));
    var entered := actions + [Call(c)] + [Enter(t)];
    RunOn(start, entered, Lock(t));
    RunOn(start, entered + [Lock(t)], Load(t));
    RunOn(start, entered + [Lock(t)] + [Load(t)], Present(t));
    longer := entered + [Lock(t)] + [Load(t)] + [Present(t)];
  }

  /** Its answer is lost, and it leaves. */
  lemma {:induction false} LoseOnce(start: State, actions: seq<Action>, t: nat) returns (longer: seq<Action>)
    requires Runs(start, actions) && Enabled(After(start, actions), NoAnswer(t, false))
    ensures Runs(start, longer)
    ensures var (st, st') := (After(start, actions), After(start, longer)); var c := st.tasks[t].credential;
      && st'.flock.None? && st'.stored == st.stored && st'.lost == st.lost + 1 && st'.presented == st.presented
      && c < |st'.credentials| && st'.credentials[c] == st.credentials[c].(holder := None)
  {
    RunOn(start, actions, NoAnswer(t, false));
    var lost := actions + [NoAnswer(t, false)];
    RunOn(start, lost, Unlock(t));
    RunOn(start, lost + [Unlock(t)], Exit(t));
    longer := lost + [Unlock(t)] + [Exit(t)];
  }

  function Times<T>(x: T, n: nat): seq<T> { if n == 0 then [] else Times(x, n - 1) + [x] }

  /** One more lost exchange, with everything else as it was. */
  lemma {:induction false} ExchangeAndLose(start: State, actions: seq<Action>, c: nat) returns (longer: seq<Action>)
    requires Runs(start, actions) && Idle(After(start, actions), c)
    ensures Runs(start, longer) && Idle(After(start, longer), c)
    ensures var (st, st') := (After(start, actions), After(start, longer));
      && st'.stored == st.stored && st'.lost == st.lost + 1
      && st'.presented == st.presented + [Presentation(Profile(st).refresh, |st.stored|)]
  {
    var t := |After(start, actions).tasks|;
    var asked := PresentOnce(start, actions, c);
    longer := LoseOnce(start, asked, t);
  }

  /** `end` is `start` with the same token presented `n` times more, and every answer lost. */
  ghost predicate Repeats(start: State, end: State, n: nat)
    requires |start.stored| > 0
  {
    && end.stored == start.stored && end.lost == start.lost + n
    && end.presented == start.presented + Times(Presentation(Profile(start).refresh, |start.stored|), n)
  }

  lemma {:induction false} RepeatsOnceMore(start: State, middle: State, end: State, n: nat)
    requires |start.stored| > 0 && Repeats(start, middle, n)
    requires end.stored == middle.stored && end.lost == middle.lost + 1
    requires end.presented == middle.presented + [Presentation(Profile(middle).refresh, |middle.stored|)]
    ensures Repeats(start, end, n + 1)
  {}

  /** A token whose answer is lost is presented again by every later caller. */
  lemma {:induction false} LostAnswersRepeatTheToken(start: State, c: nat, n: nat) returns (actions: seq<Action>)
    requires Idle(start, c)
    ensures Runs(start, actions) && Idle(After(start, actions), c) && Repeats(start, After(start, actions), n)
  {
    if n == 0 {
      actions := [];
    } else {
      var before := LostAnswersRepeatTheToken(start, c, n - 1);
      actions := ExchangeAndLose(start, before, c);
      RepeatsOnceMore(start, After(start, before), After(start, actions), n - 1);
    }
  }
}
