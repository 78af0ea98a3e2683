/** When the supervisor may spawn ssh again: the waits between attempts, on every run. */
module TunnelTiming {
  import opened Powers
  import opened Runs
  import opened TunnelModel
  import opened TunnelOwnership
  import opened TunnelTrace

  /** The earliest instant the next ssh may be spawned. */
  function Due(t: Thread): nat { Base(t.log, t.born) + Millis(TotalWait(Streak(t.log))) }

  predicate MayDial(w: World, t: Thread) { w.now >= Due(t) && (Met(t.log) ==> Streak(t.log) >= 1) }

  predicate DueAt(w: World, t: Thread) {
    match t.pc
    case OnLoop(at) => DueOnLoop(w, t, at)
    case OnRelay(_) => MayDial(w, t)
    case OnSsh(at) => if at.StoreChild? then JustMet(w, t) else MayDial(w, t)
    case OnWatch(at) => DueOnWatch(w, t, at)
    case OnLeave(_) => true
  }

  /** The five seconds of the first watch are still to come. */
  predicate JustMet(w: World, t: Thread) { Streak(t.log) == 0 && w.now + WATCH_POLL >= Base(t.log, t.born) }

  predicate DueOnLoop(w: World, t: Thread, at: LoopPc) {
    match at
    case LoopHead => (w.running ==> w.now >= Due(t)) && (Met(t.log) ==> Streak(t.log) >= 1)
    case SetStarting => MayDial(w, t)
    case AfterAttempt => w.running ==> w.now >= Due(t)
    case SetRetry => w.now >= Due(t)
    case RetryHead(i) => Serving(w, t, i)
    case RetrySleep(i) => Serving(w, t, i) && i < t.backoff
  }

  predicate DueOnWatch(w: World, t: Thread, at: WatchPc) {
    if at.WatchHead? || at.WatchSleep? then JustMet(w, t)
    else Streak(t.log) == 0 && ((at.WatchReap? && !w.running) || w.now >= Base(t.log, t.born))
  }

  /** `i` seconds of the announced wait have been served. */
  predicate Serving(w: World, t: Thread, i: nat) {
    && Streak(t.log) >= 1
    && i <= t.backoff
    && w.now >= Base(t.log, t.born) + Millis(TotalWait(Streak(t.log) - 1) + i)
  }

  ghost predicate Timed(w: World, t: Thread) {
    && SpawnsOk(t.log, t.born)
    && w.now >= t.born
    && (t.log != [] ==> Last(t.log).at <= w.now)
    && DueAt(w, t)
  }

  ghost predicate Punctual(w: World, t: Thread) { Told(t) && Timed(w, t) }

  lemma RetrySleepTimed(w: World, t: Thread, at: LoopPc)
    requires Timed(w, t) && t.pc == OnLoop(at) && at.RetrySleep?
    ensures var r := LoopStep(w, t, at); Timed(r.0, r.1)
  {
  }

  lemma RetryHeadTimed(w: World, t: Thread, at: LoopPc)
    requires Timed(w, t) && BackoffAt(t) && t.pc == OnLoop(at) && at.RetryHead?
    ensures var r := LoopStep(w, t, at); Timed(r.0, r.1)
  {
    LastWait(t, Streak(t.log));
  }

  lemma LastWait(t: Thread, streak: nat)
    requires BackoffAt(t) && t.pc.OnLoop? && t.pc.loop.RetryHead? && streak == Streak(t.log) && streak >= 1
    ensures TotalWait(streak) == TotalWait(streak - 1) + t.backoff
  {
  }

  lemma RetryTimed(w: World, t: Thread, at: LoopPc)
    requires Timed(w, t) && BackoffAt(t) && t.pc == OnLoop(at) && (at.RetryHead? || at.RetrySleep?)
    ensures var r := LoopStep(w, t, at); Timed(r.0, r.1)
  {
    if at.RetryHead? { RetryHeadTimed(w, t, at); } else { RetrySleepTimed(w, t, at); }
  }

  lemma LoopStepTimed(w: World, t: Thread, at: LoopPc)
    requires Timed(w, t) && BackoffAt(t) && t.pc == OnLoop(at)
    ensures var r := LoopStep(w, t, at); Timed(r.0, r.1)
  {
    if at.SetStarting? {
      Append(t.log, Event(Published(Starting), w.now), t.born);
    } else if at.SetRetry? {
      Append(t.log, Event(Published(Reconnecting(RetryIn(t.backoff))), w.now), t.born);
    } else if at.LoopHead? || at.AfterAttempt? {
      LoopQuiet(w, t, at);
    } else {
      RetryTimed(w, t, at);
    }
  }

  lemma LoopQuiet(w: World, t: Thread, at: LoopPc)
    requires Timed(w, t) && t.pc == OnLoop(at) && (at.LoopHead? || at.AfterAttempt?)
    ensures var r := LoopStep(w, t, at); Timed(r.0, r.1)
  {
  }

  lemma RelayQuiet(w: World, t: Thread, at: RelayPc, env: Env)
    requires Timed(w, t) && t.pc == OnRelay(at) && !(at.RelaySpawn? && env.ok) && !at.RelayDown?
    ensures var r := RelayStep(w, t, at, env); Timed(r.0, r.1)
  {
  }

  lemma RelayStepTimed(w: World, t: Thread, at: RelayPc, env: Env)
    requires Timed(w, t) && t.pc == OnRelay(at)
    ensures var r := RelayStep(w, t, at, env); Timed(r.0, r.1)
  {
    if at.RelaySpawn? && env.ok {
      RelaySpawned(w, t, at, env);
    } else if at.RelayDown? {
      RelayGivesUp(w, t, at, env);
    } else {
      RelayQuiet(w, t, at, env);
    }
  }

  lemma RelaySpawned(w: World, t: Thread, at: RelayPc, env: Env)
    requires Timed(w, t) && t.pc == OnRelay(at) && at.RelaySpawn? && env.ok
    ensures var r := RelayStep(w, t, at, env); Timed(r.0, r.1)
  {
    Append(t.log, Event(Spawned(Relay), w.now), t.born);
  }

  lemma RelayGivesUp(w: World, t: Thread, at: RelayPc, env: Env)
    requires Timed(w, t) && t.pc == OnRelay(at) && at.RelayDown?
    ensures var r := RelayStep(w, t, at, env); Timed(r.0, r.1)
  {
    Append(t.log, Event(Published(Reconnecting(RelayNotUp)), w.now), t.born);
  }

  lemma ConnectTimed(w: World, t: Thread, at: SshPc, env: Env)
    requires Timed(w, t) && t.pc == OnSsh(at) && (at.UpProbe? || at.SetConnected?)
    ensures var r := SshStep(w, t, at, env); Timed(r.0, r.1)
  {
    Append(t.log, Event(Greeted, w.now), t.born);
    Append(t.log, Event(Published(Connected), w.now), t.born);
  }

  lemma AwaitTimed(w: World, t: Thread, at: SshPc, env: Env)
    requires Timed(w, t) && t.pc == OnSsh(at) && !(at.SshSpawn? || at.UpProbe? || at.SetConnected?)
    ensures var r := SshStep(w, t, at, env); Timed(r.0, r.1)
  {
    if at.StoreChild? || at.DropChild? { HandOverTimed(w, t, at, env); } else { UpTimed(w, t, at, env); }
  }

  lemma UpTimed(w: World, t: Thread, at: SshPc, env: Env)
    requires Timed(w, t) && t.pc == OnSsh(at) && (at.UpHead? || at.UpTryWait? || at.UpSleep?)
    ensures var r := SshStep(w, t, at, env); Timed(r.0, r.1)
  {
  }

  lemma HandOverTimed(w: World, t: Thread, at: SshPc, env: Env)
    requires Timed(w, t) && t.pc == OnSsh(at) && (at.StoreChild? || at.DropChild?)
    ensures var r := SshStep(w, t, at, env); Timed(r.0, r.1)
  {
  }

  lemma SshStepTimed(w: World, t: Thread, at: SshPc, env: Env)
    requires Timed(w, t) && t.pc == OnSsh(at)
    ensures var r := SshStep(w, t, at, env); Timed(r.0, r.1)
  {
    if at.SshSpawn? {
        Append(t.log, Event(Spawned(Ssh), w.now), t.born);
    } else if at.UpProbe? || at.SetConnected? {
      ConnectTimed(w, t, at, env);
    } else {
      AwaitTimed(w, t, at, env);
    }
  }

  lemma WatchStepTimed(w: World, t: Thread, at: WatchPc, env: Env)
    requires Timed(w, t) && t.pc == OnWatch(at)
    ensures var r := WatchStep(w, t, at, env); Timed(r.0, r.1)
  {
    if at.WatchProbe? { Append(t.log, Event(Greeted, w.now), t.born); }
  }

  lemma LeaveStepTimed(w: World, t: Thread, at: LeavePc)
    requires Timed(w, t) && t.pc == OnLeave(at)
    ensures var r := LeaveStep(w, t, at); Timed(r.0, r.1)
  {
    if at.ExitPublish? {
      LeavePublished(w, t, Stopped, OnLeave(Done));
    } else if at.FailPublish? {
      LeavePublished(w, t, Error(at.culprit), OnLeave(FailClear));
    } else {
      LeaveQuietTimed(w, t, at);
    }
  }

  lemma LeavePublished(w: World, t: Thread, s: Status, next: Pc)
    requires Timed(w, t) && next.OnLeave?
    ensures var r := Publish(w, t, s, next); Timed(r.0, r.1)
  {
    Append(t.log, Event(Published(s), w.now), t.born);
  }

  lemma LeaveQuietTimed(w: World, t: Thread, at: LeavePc)
    requires Timed(w, t) && t.pc == OnLeave(at) && !at.ExitPublish? && !at.FailPublish?
    ensures var r := LeaveStep(w, t, at); Timed(r.0, r.1)
  {
  }

  lemma ThreadStepPunctual(w: World, t: Thread, env: Env)
    requires Punctual(w, t)
    ensures var r := ThreadStep(w, t, env); Punctual(r.0, r.1)
  {
    StepTold(w, t, env);
    match t.pc
    case OnLoop(at) => LoopStepTimed(w, t, at);
    case OnRelay(at) => RelayStepTimed(w, t, at, env);
    case OnSsh(at) => SshStepTimed(w, t, at, env);
    case OnWatch(at) => WatchStepTimed(w, t, at, env);
    case OnLeave(at) => LeaveStepTimed(w, t, at);
  }

  /** A thread stays punctual while others act: time only grows, and `running` does not come back while it is in its loop. */
  lemma FramePunctual(w: World, w': World, t: Thread)
    requires Punctual(w, t) && w'.now >= w.now && (InLoop(t.pc) && w'.running ==> w.running)
    ensures Punctual(w', t)
  {
    match t.pc
    case OnLoop(_) =>
    case OnRelay(_) =>
    case OnSsh(_) =>
    case OnWatch(_) =>
    case OnLeave(_) =>
  }

  ghost predicate AllPunctual(s: State) {
    OwnedState(s) && forall i | 0 <= i < |s.threads| :: Punctual(s.w, s.threads[i])
  }

  lemma StepWorld(w: World, t: Thread, env: Env)
    ensures var w' := ThreadStep(w, t, env).0; w'.now >= w.now && (w'.running ==> w.running)
  {
    match t.pc
    case OnLoop(at) =>
    case OnRelay(at) =>
    case OnSsh(at) =>
    case OnWatch(at) =>
    case OnLeave(at) =>
  }

  lemma ActionPunctual(s: State, a: Action)
    requires AllPunctual(s) && Spaced(s, a)
    ensures AllPunctual(Apply(s, a))
  {
    StepOwned(s, a);
    var s' := Apply(s, a);
    forall i | 0 <= i < |s'.threads| ensures Punctual(s'.w, s'.threads[i]) {
      OnePunctual(s, a, s', i);
    }
  }

  lemma OnePunctual(s: State, a: Action, s': State, i: nat)
    requires AllPunctual(s) && Spaced(s, a) && s' == Apply(s, a) && i < |s'.threads|
    ensures Punctual(s'.w, s'.threads[i])
  {
    if a.Step? && a.thread < |s.threads| { StepWorld(s.w, s.threads[a.thread], a.env); }
    if a.Step? && a.thread == i {
      ThreadStepPunctual(s.w, s.threads[i], a.env);
    } else if i < |s.threads| {
      FramePunctual(s.w, s'.w, s.threads[i]);
    }
  }

  lemma {:induction false} RunPunctual(acts: seq<Action>)
    requires Allowed(Apply, Spaced, INIT, acts)
    ensures AllPunctual(Run(Apply, INIT, acts))
  {
    if acts != [] {
      var m := |acts| - 1;
      RunPunctual(acts[..m]);
      ActionPunctual(Run(Apply, INIT, acts[..m]), acts[m]);
    }
  }

  lemma ReachablePunctual(s: State)
    requires SpacedReachable(s)
    ensures AllPunctual(s)
  {
    var acts :| Allowed(Apply, Spaced, INIT, acts) && s == Run(Apply, INIT, acts);
    RunPunctual(acts);
  }

  lemma {:induction false} SpawnsOkPrefix(log: seq<Event>, born: nat, k: nat)
    requires SpawnsOk(log, born) && k <= |log|
    ensures SpawnsOk(log[..k], born)
  {
    if k == |log| {
      assert log[..k] == log;
    } else {
      SpawnsOkPrefix(Front(log), born, k);
      assert Front(log)[..k] == log[..k];
    }
  }

  lemma {:induction false} BaseAfter(log: seq<Event>, born: nat, m: nat)
    requires m < |log| && log[m].what == Published(Connected)
    requires SpawnsOk(log, born)
    ensures Met(log) && Base(log, born) >= log[m].at + WATCH_POLL
  {
    if m < |log| - 1 {
      BaseAfter(Front(log), born, m);
      SpawnsOkAt(log, born, m);
    }
  }

  lemma {:induction false} TotalWaitPositive(n: nat)
    requires n >= 1
    ensures TotalWait(n) >= FIRST_BACKOFF
  {
    if n > 1 { TotalWaitPositive(n - 1); }
    else { assert TotalWait(0) == 0 && RetryWait(0) == FIRST_BACKOFF; }
  }

  /** After n consecutive failures ssh is spawned again no sooner than the announced waits add up to,
      counted from the thread's birth or from five seconds after the last connection. */
  lemma SpawnsServeTheBackoff(s: State, t: Thread, k: nat)
    requires SpacedReachable(s) && t in s.threads
    requires k < |t.log| && t.log[k].what == Spawned(Ssh)
    ensures var n := Streak(t.log[..k]);
      t.log[k].at >= Base(t.log[..k], t.born) + 1000 * (if n <= 4 then 5 * (Pow2(n) - 1) else 75 + 60 * (n - 4))
  {
    ReachablePunctual(s);
    SpawnsOkAt(t.log, t.born, k);
    TotalWaitClosed(Streak(t.log[..k]));
  }

  /** Across a connected session, two spawns of ssh are at least ten seconds apart. */
  lemma SpawnsAcrossASession(s: State, t: Thread, i: nat, m: nat, j: nat)
    requires SpacedReachable(s) && t in s.threads
    requires i < m < j < |t.log|
    requires t.log[i].what == Spawned(Ssh) && t.log[m].what == Published(Connected) && t.log[j].what == Spawned(Ssh)
    ensures t.log[j].at >= t.log[i].at + Millis(10)
  {
    ReachablePunctual(s);
    var prior := t.log[..j];
    SpawnsOkAt(t.log, t.born, j);
    SpawnsOkPrefix(t.log, t.born, j);
    BaseAfter(prior, t.born, m);
    InOrder(t.log, t.born, i, m);
    TotalWaitPositive(Streak(prior));
  }

  lemma InOrder(log: seq<Event>, born: nat, i: nat, m: nat)
    requires SpawnsOk(log, born) && i < m < |log|
    ensures log[i].at <= log[m].at
  {
    SpawnsOkPrefix(log, born, m + 1);
    SpawnsOkAt(log[..m + 1], born, i);
  }
}
