/** What a supervisor thread publishes and when it spawns: the order of statuses, the greeting behind
    every `Connected`, and the back-off between attempts. Everything is stated about a thread's log, by
    functions of the log alone. */
module TunnelTrace {
  import opened Powers
  import opened Runs
  import opened Wrappers
  import opened TunnelModel

  function Last<T>(s: seq<T>): T
    requires s != []
  {
    s[|s| - 1]
  }

  function Front<T>(s: seq<T>): seq<T>
    requires s != []
  {
    s[..|s| - 1]
  }

  // ---- Reading a log ----

  function LastStatus(log: seq<Event>): Option<Status> {
    if log == [] then None
    else if Last(log).what.Published? then Some(Last(log).what.status)
    else LastStatus(Front(log))
  }

  predicate Met(log: seq<Event>) {
    log != [] && (Last(log).what == Published(Connected) || Met(Front(log)))
  }

  /** Retry waits announced since the last `Connected`, or since the thread began. */
  function Streak(log: seq<Event>): nat {
    if log == [] || Last(log).what == Published(Connected) then 0
    else Streak(Front(log)) + if Last(log).what.Published? && IsRetry(Last(log).what.status) then 1 else 0
  }

  /** The instant the back-off counts from: five seconds after the last `Connected`, or the thread's birth. */
  function Base(log: seq<Event>, born: nat): nat {
    if log == [] then born
    else if Last(log).what == Published(Connected) then Last(log).at + WATCH_POLL
    else Base(Front(log), born)
  }

  predicate IsRetry(s: Status) { s.Reconnecting? && s.reason.RetryIn? }

  /** A SOCKS greeting succeeded and no process was spawned since. */
  predicate GreetedSinceSpawn(log: seq<Event>) {
    log != [] && (Last(log).what == Greeted || (!Last(log).what.Spawned? && GreetedSinceSpawn(Front(log))))
  }

  // ---- The back-off ----

  /** The wait, in seconds, of the `k`-th consecutive retry, counting from 0. */
  function RetryWait(k: nat): nat { Min(60, 5 * Pow2(k)) }

  function TotalWait(n: nat): nat { if n == 0 then 0 else TotalWait(n - 1) + RetryWait(n - 1) }

  lemma {:induction false} RetryWaitAtLeast(k: nat)
    ensures k >= 4 ==> Pow2(k) >= 16 && RetryWait(k) == MAX_BACKOFF
  {
    if k > 4 {
      RetryWaitAtLeast(k - 1);
    } else if k == 4 {
      assert Pow2(4) == 16;
    }
  }

  lemma NextWait(k: nat)
    ensures RetryWait(k + 1) == Min(RetryWait(k) * 2, MAX_BACKOFF)
  {
  }

  /** Five, fifteen, thirty-five, seventy-five seconds after one to four failures; a minute more for each one after. */
  lemma {:induction false} TotalWaitClosed(n: nat)
    ensures n <= 4 ==> TotalWait(n) == 5 * (Pow2(n) - 1)
    ensures n >= 4 ==> TotalWait(n) == 75 + 60 * (n - 4)
  {
    if n > 4 {
      TotalWaitClosed(n - 1);
      RetryWaitAtLeast(n - 1);
    } else if n > 0 {
      TotalWaitClosed(n - 1);
      assert Pow2(3) == 8;
      assert Pow2(n) == 2 * Pow2(n - 1);
      assert n == 4 || n == 3 || n == 2 || n == 1;
    }
  }

  // ---- What each event owes to the events before it ----

  /** The order of statuses: Starting, perhaps the relay notice, perhaps Connected, then a retry notice
      and round again; an Error ends it, and so does Stopped, which only a `stop()` brings about. */
  predicate MayFollow(prev: Option<Status>, s: Status) {
    match s
    case Starting => prev.None? || IsRetry(prev.value)
    case Reconnecting(RelayNotUp) => prev == Some(Starting)
    case Connected => Attempting(prev)
    case Reconnecting(RetryIn(_)) => Attempting(prev) || prev == Some(Connected)
    case Error(RelayProgram) => prev == Some(Starting)
    case Error(SshProgram) => Attempting(prev)
    case Stopped => prev != Some(Stopped) && (prev.Some? ==> !prev.value.Error?)
  }

  predicate Attempting(prev: Option<Status>) { prev == Some(Starting) || prev == Some(Reconnecting(RelayNotUp)) }

  predicate StatusOwed(prior: seq<Event>, e: Event) {
    e.what.Published? ==>
      && MayFollow(LastStatus(prior), e.what.status)
      && (e.what.status == Connected ==> GreetedSinceSpawn(prior))
      && (IsRetry(e.what.status) ==> e.what.status.reason.secs == RetryWait(Streak(prior)))
  }

  /** An ssh is spawned only after every wait announced since the base has been served. */
  predicate SpawnOwed(prior: seq<Event>, e: Event, born: nat) {
    && (prior != [] ==> Last(prior).at <= e.at)
    && (e.what == Spawned(Ssh) ==>
          && e.at >= Base(prior, born) + Millis(TotalWait(Streak(prior)))
          && (Met(prior) ==> Streak(prior) >= 1))
  }

  predicate StatusesOk(log: seq<Event>) {
    log != [] ==> StatusesOk(Front(log)) && StatusOwed(Front(log), Last(log))
  }

  predicate SpawnsOk(log: seq<Event>, born: nat) {
    log != [] ==> SpawnsOk(Front(log), born) && SpawnOwed(Front(log), Last(log), born)
  }

  lemma {:induction false} StatusesOkAt(log: seq<Event>, k: nat)
    requires StatusesOk(log) && k < |log|
    ensures StatusOwed(log[..k], log[k])
    decreases log
  {
    if k < |log| - 1 {
      StatusesOkAt(Front(log), k);
      assert Front(log)[..k] == log[..k];
    }
  }

  lemma {:induction false} SpawnsOkAt(log: seq<Event>, born: nat, k: nat)
    requires SpawnsOk(log, born) && k < |log|
    ensures SpawnOwed(log[..k], log[k], born) && log[k].at <= Last(log).at
    decreases log
  {
    if k < |log| - 1 {
      SpawnsOkAt(Front(log), born, k);
      assert Front(log)[..k] == log[..k];
    }
  }

  lemma {:induction false} GreetingBehind(log: seq<Event>) returns (j: nat)
    requires GreetedSinceSpawn(log)
    ensures j < |log| && log[j].what == Greeted && forall i | j < i < |log| :: !log[i].what.Spawned?
  {
    if Last(log).what == Greeted {
      j := |log| - 1;
    } else {
      j := GreetingBehind(Front(log));
    }
  }

  /** How one more event changes what the log says. */
  lemma Append(log: seq<Event>, e: Event, born: nat)
    ensures LastStatus(log + [e]) == if e.what.Published? then Some(e.what.status) else LastStatus(log)
    ensures Met(log + [e]) <==> e.what == Published(Connected) || Met(log)
    ensures Streak(log + [e]) ==
      if e.what == Published(Connected) then 0
      else Streak(log) + if e.what.Published? && IsRetry(e.what.status) then 1 else 0
    ensures Base(log + [e], born) == if e.what == Published(Connected) then e.at + WATCH_POLL else Base(log, born)
    ensures GreetedSinceSpawn(log + [e]) <==> e.what == Greeted || (!e.what.Spawned? && GreetedSinceSpawn(log))
    ensures StatusesOk(log + [e]) <==> StatusesOk(log) && StatusOwed(log, e)
    ensures SpawnsOk(log + [e], born) <==> SpawnsOk(log, born) && SpawnOwed(log, e, born)
  {
    assert Front(log + [e]) == log;
  }

  // ---- Statuses: any thread, any interleaving, any starts ----

  predicate StatusAt(t: Thread) {
    var st := LastStatus(t.log);
    match t.pc
    case OnLoop(LoopHead) => st.None? || IsRetry(st.value)
    case OnLoop(SetStarting) => st.None? || IsRetry(st.value)
    case OnRelay(_) => st == Some(Starting)
    case OnSsh(StoreChild) => st == Some(Connected)
    case OnSsh(SetConnected) => Attempting(st) && GreetedSinceSpawn(t.log)
    case OnSsh(_) => Attempting(st)
    case OnWatch(_) => st == Some(Connected)
    case OnLoop(RetryHead(_)) => st.Some? && IsRetry(st.value)
    case OnLoop(RetrySleep(_)) => st.Some? && IsRetry(st.value)
    case OnLoop(_) => Attempting(st) || st == Some(Connected)
    case OnLeave(ExitReap) => st != Some(Stopped) && (st.Some? ==> !st.value.Error?)
    case OnLeave(ExitPublish) => st != Some(Stopped) && (st.Some? ==> !st.value.Error?)
    case OnLeave(Done) => st == Some(Stopped)
    case OnLeave(FailPublish(RelayProgram)) => st == Some(Starting)
    case OnLeave(FailPublish(SshProgram)) => Attempting(st)
    case OnLeave(_) => st.Some? && st.value.Error?
  }

  /** The wait held in `backoff`: the next one to announce, or the one being served. */
  predicate BackoffAt(t: Thread) {
    match t.pc
    case OnLoop(RetryHead(_)) => Streak(t.log) >= 1 && t.backoff == RetryWait(Streak(t.log) - 1)
    case OnLoop(RetrySleep(_)) => Streak(t.log) >= 1 && t.backoff == RetryWait(Streak(t.log) - 1)
    case OnLeave(_) => true
    case _ => t.backoff == RetryWait(Streak(t.log))
  }

  predicate Told(t: Thread) { StatusesOk(t.log) && StatusAt(t) && BackoffAt(t) }

  lemma LoopStepTold(w: World, t: Thread, at: LoopPc)
    requires Told(t) && t.pc == OnLoop(at)
    ensures Told(LoopStep(w, t, at).1)
  {
    match at
    case SetStarting => Append(t.log, Event(Published(Starting), w.now), t.born);
    case SetRetry => Append(t.log, Event(Published(Reconnecting(RetryIn(t.backoff))), w.now), t.born);
    case RetryHead(_) => NextWait(Streak(t.log) - 1);
    case RetrySleep(_) =>
    case LoopHead =>
    case AfterAttempt =>
  }

  lemma RelayStepTold(w: World, t: Thread, at: RelayPc, env: Env)
    requires Told(t) && t.pc == OnRelay(at)
    ensures Told(RelayStep(w, t, at, env).1)
  {
    if at.RelaySpawn? {
      Append(t.log, Event(Spawned(Relay), w.now), t.born);
    } else if at.RelayDown? {
      Append(t.log, Event(Published(Reconnecting(RelayNotUp)), w.now), t.born);
    }
  }

  lemma ConnectTold(w: World, t: Thread, at: SshPc, env: Env)
    requires Told(t) && t.pc == OnSsh(at) && (at.UpProbe? || at.SetConnected?)
    ensures Told(SshStep(w, t, at, env).1)
  {
    Append(t.log, Event(Greeted, w.now), t.born);
    Append(t.log, Event(Published(Connected), w.now), t.born);
  }

  lemma SshStepTold(w: World, t: Thread, at: SshPc, env: Env)
    requires Told(t) && t.pc == OnSsh(at)
    ensures Told(SshStep(w, t, at, env).1)
  {
    match at
    case SshSpawn => Append(t.log, Event(Spawned(Ssh), w.now), t.born);
    case UpProbe(_) => ConnectTold(w, t, at, env);
    case SetConnected => ConnectTold(w, t, at, env);
    case UpHead(_) =>
    case UpTryWait(_) =>
    case UpSleep(_) =>
    case DropChild =>
    case StoreChild =>
  }

  lemma WatchStepTold(w: World, t: Thread, at: WatchPc, env: Env)
    requires Told(t) && t.pc == OnWatch(at)
    ensures Told(WatchStep(w, t, at, env).1)
  {
    Append(t.log, Event(Greeted, w.now), t.born);
  }

  lemma LeaveStepTold(w: World, t: Thread, at: LeavePc)
    requires Told(t) && t.pc == OnLeave(at)
    ensures Told(LeaveStep(w, t, at).1)
  {
    if at.FailPublish? {
      Append(t.log, Event(Published(Error(at.culprit)), w.now), t.born);
    } else if at.ExitPublish? {
      Append(t.log, Event(Published(Stopped), w.now), t.born);
    } else {
      LeaveQuiet(w, t, at);
    }
  }

  lemma LeaveQuiet(w: World, t: Thread, at: LeavePc)
    requires Told(t) && t.pc == OnLeave(at) && !at.FailPublish? && !at.ExitPublish?
    ensures Told(LeaveStep(w, t, at).1)
  {
  }

  lemma StepTold(w: World, t: Thread, env: Env)
    requires Told(t)
    ensures Told(ThreadStep(w, t, env).1)
  {
    match t.pc
    case OnLoop(at) => LoopStepTold(w, t, at);
    case OnRelay(at) => RelayStepTold(w, t, at, env);
    case OnSsh(at) => SshStepTold(w, t, at, env);
    case OnWatch(at) => WatchStepTold(w, t, at, env);
    case OnLeave(at) => LeaveStepTold(w, t, at);
  }

  lemma ReachableTold(s: State)
    requires AnyReachable(s)
    ensures forall t | t in s.threads :: Told(t)
  {
    var acts :| s == Run(Apply, INIT, acts);
    forall x: State, a | (forall t | t in x.threads :: Told(t)) ensures forall t | t in Apply(x, a).threads :: Told(t) {
      if a.Step? && a.thread < |x.threads| { StepTold(x.w, x.threads[a.thread], a.env); }
    }
    AnythingGoes(INIT, acts);
    Invariant(Apply, (x, a) => true, (x: State) => forall t | t in x.threads :: Told(t), INIT, acts);
  }

  lemma {:induction false} AnythingGoes(s: State, acts: seq<Action>)
    ensures Allowed(Apply, (x, a) => true, s, acts)
  {
    if acts != [] { AnythingGoes(s, acts[..|acts| - 1]); }
  }

  /** In every run, of any number of threads and stops: `Connected` is published only after a SOCKS
      greeting succeeded with no spawn in between, statuses come in the order `MayFollow` allows, and the
      k-th consecutive retry notice announces min(60, 5 * 2^k) seconds. */
  lemma StatusesFollowTheLoop(s: State, t: Thread, k: nat)
    requires AnyReachable(s) && t in s.threads && k < |t.log| && t.log[k].what.Published?
    ensures MayFollow(LastStatus(t.log[..k]), t.log[k].what.status)
    ensures t.log[k].what.status == Connected ==>
      exists j :: 0 <= j < k && t.log[j].what == Greeted && forall i | j < i < k :: !t.log[i].what.Spawned?
    ensures IsRetry(t.log[k].what.status) ==> t.log[k].what.status.reason.secs == RetryWait(Streak(t.log[..k]))
  {
    ReachableTold(s);
    StatusesOkAt(t.log, k);
    if t.log[k].what.status == Connected {
      var prior := t.log[..k];
      var j := GreetingBehind(prior);
      assert prior[j] == t.log[j];
      forall i | j < i < k ensures !t.log[i].what.Spawned? { assert prior[i] == t.log[i]; }
    }
  }

  // ---- Without stop() ----

  /** A thread nobody asked to stop: it leaves only through an error. */
  predicate Calm(w: World, t: Thread) {
    && (forall e | e in t.log :: e.what != Published(Stopped))
    && match t.pc
       case OnLeave(at) => at.FailPublish? || at.FailClear? || at.Aborted?
       case _ => w.running
  }

  lemma StepCalm(w: World, t: Thread, env: Env)
    requires Calm(w, t)
    ensures var r := ThreadStep(w, t, env); Calm(r.0, r.1)
  {
    match t.pc
    case OnLoop(at) =>
    case OnRelay(at) =>
    case OnSsh(at) =>
    case OnWatch(at) =>
    case OnLeave(at) =>
  }

  ghost predicate Undisturbed(s: State) {
    s.stops == [] && forall i | 0 <= i < |s.threads| ::
      Calm(s.w, s.threads[i]) && (i < |s.threads| - 1 ==> s.threads[i].pc == OnLeave(Aborted))
  }

  /** A `start` waits for the earlier thread to return, and nobody calls `stop`. */
  predicate NoStop(s: State, a: Action) { Sequential(s, a) && !a.StopCall? }

  lemma ActionUndisturbed(s: State, a: Action)
    requires Undisturbed(s) && NoStop(s, a)
    ensures Undisturbed(Apply(s, a))
  {
    match a
    case Step(i, env) =>
      if i < |s.threads| { StepCalm(s.w, s.threads[i], env); }
    case Start(_) =>
    case StopStep(_) =>
    case Die(_) =>
    case Tick(_) =>
  }

  /** Without `stop()` a thread never publishes Stopped, and when it has returned its last word is an Error. */
  lemma WithoutStopOnlyErrorEnds(acts: seq<Action>, t: Thread)
    requires Allowed(Apply, NoStop, INIT, acts) && t in Run(Apply, INIT, acts).threads
    ensures forall e | e in t.log :: e.what != Published(Stopped)
    ensures Finished(t.pc) ==> LastStatus(t.log).Some? && LastStatus(t.log).value.Error?
  {
    forall x, a | Undisturbed(x) && NoStop(x, a) ensures Undisturbed(Apply(x, a)) { ActionUndisturbed(x, a); }
    Invariant(Apply, NoStop, x => Undisturbed(x), INIT, acts);
    ReachableTold(Run(Apply, INIT, acts));
    assert StatusAt(t);
  }
}
