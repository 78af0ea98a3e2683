/** Why the supervisor goes where it goes: every decision it takes, in terms of the cells, the process table and what
    the world answers. */
module TunnelDecisions {
  import opened Runs
  import opened Wrappers
  import opened TunnelModel

  /** The process is there and has ended, whether anybody has waited for it or not. */
  predicate HasEnded(w: World, p: nat) { p < |w.phases| && w.phases[p] != Alive }

  /** A SOCKS version 5 answer. */
  predicate AnswersFive(reply: Option<seq<nat>>) { reply.Some? && |reply.value| >= 2 && reply.value[0] == 5 }

  // ---- Leaving the watch ----

  /** What can make a thread leave its watch. */
  predicate WatchCause(s: State, i: nat, env: Env)
    requires i < |s.threads|
  {
    var pc := s.threads[i].pc;
    || (pc == OnWatch(WatchHead) && !s.w.running)
    || (pc == OnWatch(WatchDead) && s.w.child.None?)
    || (pc == OnWatch(WatchDead) && s.w.child.Some? && HasEnded(s.w, s.w.child.value))
    || (pc == OnWatch(WatchProbe) && !AnswersFive(env.reply))
  }

  /** A step of a watching thread makes it give up the watch exactly for one of these causes; and it stays otherwise. */
  lemma WatchStepCause(s: State, i: nat, env: Env)
    requires i < |s.threads| && s.threads[i].pc.OnWatch? && s.threads[i].pc != OnWatch(WatchReap)
    ensures var pc := Apply(s, Step(i, env)).threads[i].pc;
      && (pc == OnWatch(WatchReap) <==> WatchCause(s, i, env))
      && pc.OnWatch?
      && (s.threads[i].pc == OnWatch(WatchDead) && !WatchCause(s, i, env) ==> pc == OnWatch(WatchProbe))
  {
  }

  /** Nothing but its own step takes a thread to the end of its watch. */
  lemma OnlyOwnSteps(s: State, a: Action, i: nat)
    requires i < |Apply(s, a).threads| && Apply(s, a).threads[i].pc.OnWatch?
    requires !(a.Step? && a.thread == i)
    ensures i < |s.threads| && Apply(s, a).threads[i].pc == s.threads[i].pc
  {
  }

  lemma ReapedFrom(s: State, i: nat, env: Env)
    requires i < |s.threads| && Apply(s, Step(i, env)).threads[i].pc == OnWatch(WatchReap)
    ensures s.threads[i].pc.OnWatch? && s.threads[i].pc != OnWatch(WatchReap) && WatchCause(s, i, env)
  {
  }

  /** The `k`-th action was a step of the thread that met a cause, and nothing after it was a step of the thread. */
  ghost predicate GaveUpAt(acts: seq<Action>, i: nat, k: nat, env: Env) {
    && k < |acts| && acts[k] == Step(i, env) && i < |Run(Apply, INIT, acts[..k]).threads|
    && WatchCause(Run(Apply, INIT, acts[..k]), i, env)
    && forall j | k < j < |acts| :: !(acts[j].Step? && acts[j].thread == i)
  }

  lemma GaveUpJustNow(acts: seq<Action>, s: State, i: nat, env: Env)
    requires acts != [] && s == Run(Apply, INIT, acts[..|acts| - 1]) && acts[|acts| - 1] == Step(i, env)
    requires i < |Apply(s, Step(i, env)).threads| && Apply(s, Step(i, env)).threads[i].pc == OnWatch(WatchReap)
    ensures GaveUpAt(acts, i, |acts| - 1, env)
  {
    ReapedFrom(s, i, env);
  }

  lemma GaveUpBefore(acts: seq<Action>, front: seq<Action>, i: nat, k: nat, env: Env)
    requires acts != [] && front == acts[..|acts| - 1] && GaveUpAt(front, i, k, env)
    requires !(acts[|front|].Step? && acts[|front|].thread == i)
    ensures GaveUpAt(acts, i, k, env)
  {
    assert front[..k] == acts[..k] && front[k] == acts[k];
    forall j | k < j < |acts| ensures !(acts[j].Step? && acts[j].thread == i) {
      if j < |front| { assert acts[j] == front[j]; }
    }
  }

  /** In every run: a thread that is giving up its watch did so in its last step, because it found `running` false,
      the slot empty or the process ended, or because the probe was not answered with two bytes of which the first
      is 5. */
  lemma {:induction false} WhyTheWatchEnds(acts: seq<Action>, i: nat) returns (k: nat, env: Env)
    requires i < |Run(Apply, INIT, acts).threads| && Run(Apply, INIT, acts).threads[i].pc == OnWatch(WatchReap)
    ensures GaveUpAt(acts, i, k, env)
  {
    var m := |acts| - 1;
    var s := Run(Apply, INIT, acts[..m]);
    if acts[m].Step? && acts[m].thread == i {
      k, env := m, acts[m].env;
      GaveUpJustNow(acts, s, i, env);
    } else {
      OnlyOwnSteps(s, acts[m], i);
      k, env := WhyTheWatchEnds(acts[..m], i);
      GaveUpBefore(acts, acts[..m], i, k, env);
    }
  }

  // ---- No probe of the dead ----

  predicate Probing(pc: Pc) {
    || pc == OnWatch(WatchProbe)
    || (pc.OnSsh? && pc.ssh.UpProbe?)
    || (pc.OnRelay? && pc.relay.RelayProbe?)
  }

  /** On the way from the end of a watch to the next spawn. */
  predicate BetweenSpawns(pc: Pc) {
    || pc == OnWatch(WatchReap)
    || pc.OnLoop?
    || pc == OnRelay(RelayCheck) || pc == OnRelay(RelaySpawn)
    || pc == OnSsh(SshSpawn)
    || pc.OnLeave?
  }

  predicate SpawnSince(log: seq<Event>, from: nat) { exists k | from <= k < |log| :: log[k].what.Spawned? }

  lemma StepBetween(s: State, a: Action, i: nat, from: nat)
    requires i < |s.threads| && from <= |s.threads[i].log|
    requires BetweenSpawns(s.threads[i].pc) || SpawnSince(s.threads[i].log, from)
    ensures var t := Apply(s, a).threads[i];
      from <= |t.log| && (BetweenSpawns(t.pc) || SpawnSince(t.log, from))
  {
    if a.Step? && a.thread == i {
      var log, log' := s.threads[i].log, Apply(s, a).threads[i].log;
      LogGrows(s.w, s.threads[i], a.env);
      if SpawnSince(log, from) {
        var k :| from <= k < |log| && log[k].what.Spawned?;
        assert log'[k] == log[k];
      } else {
        StepToSpawn(s.w, s.threads[i], a.env);
        if |log'| == |log| + 1 && log'[|log|].what.Spawned? { assert SpawnSince(log', from); }
      }
    }
  }

  lemma LogGrows(w: World, t: Thread, env: Env)
    ensures var t' := ThreadStep(w, t, env).1; t.log <= t'.log && |t'.log| <= |t.log| + 1
  {
    match t.pc
    case OnLoop(at) =>
    case OnRelay(at) =>
    case OnSsh(at) =>
    case OnWatch(at) =>
    case OnLeave(at) =>
  }

  lemma StepToSpawn(w: World, t: Thread, env: Env)
    requires BetweenSpawns(t.pc)
    ensures var t' := ThreadStep(w, t, env).1;
      BetweenSpawns(t'.pc) || (|t'.log| == |t.log| + 1 && t'.log[|t.log|].what.Spawned?)
  {
    match t.pc
    case OnLoop(at) =>
    case OnRelay(at) =>
    case OnSsh(at) =>
    case OnWatch(at) =>
    case OnLeave(at) =>
  }

  lemma {:induction false} RunBetween(s: State, acts: seq<Action>, i: nat)
    requires i < |s.threads| && BetweenSpawns(s.threads[i].pc)
    ensures i < |Run(Apply, s, acts).threads|
    ensures var t := Run(Apply, s, acts).threads[i];
      |s.threads[i].log| <= |t.log| && (BetweenSpawns(t.pc) || SpawnSince(t.log, |s.threads[i].log|))
  {
    if acts != [] {
      var m := |acts| - 1;
      RunBetween(s, acts[..m], i);
      StepBetween(Run(Apply, s, acts[..m]), acts[m], i, |s.threads[i].log|);
    }
  }

  /** A watch that finds its process ended, or its slot empty, sends no further probe of any kind before the next
      spawn, whatever happens meanwhile. */
  lemma DeadAreNotProbed(s: State, i: nat, env: Env, acts: seq<Action>)
    requires i < |s.threads| && s.threads[i].pc == OnWatch(WatchDead)
    requires s.w.child.None? || HasEnded(s.w, s.w.child.value)
    ensures var s1 := Apply(s, Step(i, env));
      var s2 := Run(Apply, s1, acts);
      && i < |s1.threads| && i < |s2.threads|
      && (Probing(s2.threads[i].pc) ==> SpawnSince(s2.threads[i].log, |s1.threads[i].log|))
  {
    RunBetween(Apply(s, Step(i, env)), acts, i);
  }

  // ---- The other decisions ----

  /** A step of a thread, as seen from outside. */
  predicate Steps(s: State, i: nat, env: Env, s': State, from: Pc, to: Pc) {
    i < |s.threads| && s' == Apply(s, Step(i, env)) && s.threads[i].pc == from && |s'.threads| == |s.threads|
    && s'.threads[i].pc == to
  }

  /** A relay is asked for exactly when there is to be one and none is running; it is waited for up to thirty times,
      four tenths of a second apart, and only until it listens; ssh is spawned whether it does or not. */
  lemma RelayDecisions(s: State, i: nat, env: Env, s': State, from: Pc, to: Pc)
    requires Steps(s, i, env, s', from, to)
    ensures from == OnRelay(RelayCheck) ==>
      to == if s.threads[i].useRelay && (s.w.relay.None? || HasEnded(s.w, s.w.relay.value)) then OnRelay(RelaySpawn)
            else OnSsh(SshSpawn)
    ensures from == OnRelay(RelaySpawn) ==>
      to == if env.ok then OnRelay(RelayStore) else OnLeave(FailPublish(RelayProgram))
    ensures from == OnRelay(RelayStore) ==> to == OnRelay(RelayUpHead(0))
    ensures forall n: nat | from == OnRelay(RelayUpHead(n)) ::
      to == if s.w.running && n < 30 then OnRelay(RelayProbe(n)) else OnRelay(RelayDown)
    ensures forall n: nat | from == OnRelay(RelayProbe(n)) ::
      to == if env.ok then OnSsh(SshSpawn) else OnRelay(RelaySleep(n))
    ensures forall n: nat | from == OnRelay(RelaySleep(n)) ::
      to == OnRelay(RelayUpHead(n + 1)) && s'.w.now == s.w.now + 400
    ensures from == OnRelay(RelayDown) ==> to == OnSsh(SshSpawn) && s'.w.status == Reconnecting(RelayNotUp)
  {
  }

  /** A fresh ssh is probed up to thirty times, half a second apart, until it answers, has ended, or `running` is
      false; it is connected exactly if it answers, and dropped otherwise. */
  lemma SshDecisions(s: State, i: nat, env: Env, s': State, from: Pc, to: Pc)
    requires Steps(s, i, env, s', from, to)
    ensures from == OnSsh(SshSpawn) ==> to == if env.ok then OnSsh(UpHead(0)) else OnLeave(FailPublish(SshProgram))
    ensures forall n: nat | from == OnSsh(UpHead(n)) ::
      to == if s.w.running && n < 30 then OnSsh(UpProbe(n)) else OnSsh(DropChild)
    ensures forall n: nat | from == OnSsh(UpProbe(n)) ::
      to == if AnswersFive(env.reply) then OnSsh(SetConnected) else OnSsh(UpTryWait(n))
    ensures forall n: nat | from == OnSsh(UpTryWait(n)) && s.threads[i].child.Some? ::
      to == if HasEnded(s.w, s.threads[i].child.value) then OnSsh(DropChild) else OnSsh(UpSleep(n))
    ensures forall n: nat | from == OnSsh(UpSleep(n)) :: to == OnSsh(UpHead(n + 1)) && s'.w.now == s.w.now + 500
    ensures from == OnSsh(DropChild) ==> to == OnLoop(AfterAttempt)
    ensures from == OnSsh(SetConnected) ==> to == OnSsh(StoreChild) && s'.w.status == Connected && s'.threads[i].backoff == 5
    ensures from == OnSsh(StoreChild) ==> to == OnWatch(WatchHead) && s'.w.child == s.threads[i].child
  {
  }

  /** A connected session is looked at every five seconds. */
  lemma WatchDecisions(s: State, i: nat, env: Env, s': State, from: Pc, to: Pc)
    requires Steps(s, i, env, s', from, to)
    ensures from == OnWatch(WatchHead) && s.w.running ==> to == OnWatch(WatchSleep)
    ensures from == OnWatch(WatchSleep) ==> to == OnWatch(WatchDead) && s'.w.now == s.w.now + 5000
    ensures from == OnWatch(WatchProbe) && AnswersFive(env.reply) ==> to == OnWatch(WatchHead) && s'.w == s.w
    ensures from == OnWatch(WatchReap) ==> to == OnLoop(AfterAttempt) && s'.w.child.None?
    ensures from == OnWatch(WatchReap) && s.w.child.Some? && s.w.child.value < |s.w.phases| ==>
      s'.w.phases == s.w.phases[s.w.child.value := Reaped]
  {
  }

  /** The loop goes round while `running` is true, and a retry is waited for one second at a time, for as many
      seconds as it has been announced, or until `running` is false; the next wait is twice as long, but at most a
      minute. */
  lemma LoopDecisions(s: State, i: nat, env: Env, s': State, from: Pc, to: Pc)
    requires Steps(s, i, env, s', from, to)
    ensures from == OnLoop(LoopHead) ==> to == if s.w.running then OnLoop(SetStarting) else OnLeave(ExitReap)
    ensures from == OnLoop(SetStarting) ==> to == OnRelay(RelayCheck) && s'.w.status == Starting
    ensures from == OnLoop(AfterAttempt) ==> to == if s.w.running then OnLoop(SetRetry) else OnLeave(ExitReap)
    ensures from == OnLoop(SetRetry) ==>
      to == OnLoop(RetryHead(0)) && s'.w.status == Reconnecting(RetryIn(s.threads[i].backoff))
    ensures forall n: nat | from == OnLoop(RetryHead(n)) ::
      to == if s.w.running && n < s.threads[i].backoff then OnLoop(RetrySleep(n)) else OnLoop(LoopHead)
    ensures forall n: nat | from == OnLoop(RetrySleep(n)) ::
      to == OnLoop(RetryHead(n + 1)) && s'.w.now == s.w.now + 1000
    ensures from.OnLoop? && from.loop.RetryHead? && to == OnLoop(LoopHead) ==>
      s'.threads[i].backoff == (if s.threads[i].backoff < 30 then s.threads[i].backoff * 2 else 60)
  {
  }

  /** How a thread ends: nothing in its slots and Stopped, or, where a program could not be started, its name in the
      status and `running` false. */
  lemma LeaveDecisions(s: State, i: nat, env: Env, s': State, from: Pc, to: Pc)
    requires Steps(s, i, env, s', from, to)
    ensures from == OnLeave(ExitReap) ==> to == OnLeave(ExitPublish) && s'.w.relay.None?
    ensures from == OnLeave(ExitReap) && s.w.relay.Some? && s.w.relay.value < |s.w.phases| ==>
      s'.w.phases == s.w.phases[s.w.relay.value := Reaped]
    ensures from == OnLeave(ExitPublish) ==> to == OnLeave(Done) && s'.w.status == Stopped
    ensures forall c | from == OnLeave(FailPublish(c)) :: to == OnLeave(FailClear) && s'.w.status == Error(c)
    ensures from == OnLeave(FailClear) ==> to == OnLeave(Aborted) && !s'.w.running
    ensures Finished(from) ==> s' == s
  {
    if Finished(from) { assert s.threads[i := s.threads[i]] == s.threads; }
  }

  // ---- stop() ----

  predicate IsReaped(w: World, p: nat) { p < |w.phases| ==> w.phases[p] == Reaped }

  /** The parts of a `stop()`, in order: `running` goes false; the ssh in the slot, if there is one, is killed and
      waited for and the slot is empty; then the relay likewise; then the status is Stopped. */
  lemma StopParts(s: State, j: nat)
    requires j < |s.stops|
    ensures var s' := Apply(s, StopStep(j));
      && |s'.stops| == |s.stops| && s'.threads == s.threads
      && (s.stops[j] == ClearRunning ==> s'.stops[j] == TakeChild && s'.w == s.w.(running := false))
      && (s.stops[j] == TakeChild ==>
            && s'.stops[j] == TakeRelay && s'.w.child.None? && s'.w.relay == s.w.relay
            && (s.w.child.Some? ==> IsReaped(s'.w, s.w.child.value))
            && forall p: nat | p < |s.w.phases| && s.w.child != Some(p) :: s'.w.phases[p] == s.w.phases[p])
      && (s.stops[j] == TakeRelay ==>
            && s'.stops[j] == PublishStopped && s'.w.relay.None? && s'.w.child == s.w.child
            && (s.w.relay.Some? ==> IsReaped(s'.w, s.w.relay.value))
            && forall p: nat | p < |s.w.phases| && s.w.relay != Some(p) :: s'.w.phases[p] == s.w.phases[p])
      && (s.stops[j] == PublishStopped ==> s'.stops[j] == Returned && s'.w == s.w.(status := Stopped))
      && (s.stops[j] == Returned ==> s' == s)
  {
    if s.stops[j] == Returned { assert s.stops[j := Returned] == s.stops; }
  }

  // ---- start(), and the world ----

  /** A `start` does nothing while `running` is true; otherwise it sets it and adds a thread that begins at the head of
      its loop, empty-handed and with a first wait of five seconds. */
  lemma StartMeans(s: State, useRelay: bool)
    ensures var s' := Apply(s, Start(useRelay));
      if s.w.running then s' == s
      else
        && s'.w == s.w.(running := true) && s'.stops == s.stops
        && |s'.threads| == |s.threads| + 1 && s'.threads[..|s.threads|] == s.threads
        && var t := s'.threads[|s.threads|];
           t.pc == OnLoop(LoopHead) && t.child.None? && t.newRelay.None? && t.backoff == 5
           && t.useRelay == useRelay && t.born == s.w.now && t.log == []
  {
  }

  /** Dying ends a living process and changes nothing else; time passing moves the clock and nothing else. */
  lemma WorldMeans(s: State, p: nat, ms: nat)
    ensures var s' := Apply(s, Die(p));
      && s'.threads == s.threads && s'.stops == s.stops && |s'.w.phases| == |s.w.phases|
      && s'.w.(phases := s.w.phases) == s.w
      && forall q: nat | q < |s.w.phases| ::
           s'.w.phases[q] == if q == p && s.w.phases[q] == Alive then Exited else s.w.phases[q]
    ensures Apply(s, Tick(ms)) == s.(w := s.w.(now := s.w.now + ms))
  {
  }
}
