/** The supervisor as the program has it: four shared cells updated in place over an operating system
    that owns the processes and the clock. Each method is one critical section or one atomic step, and
    together they carry out exactly the steps of `TunnelModel`. */
module TunnelSupervisor {
  import opened Runs
  import opened Wrappers
  import opened TunnelModel
  import opened TunnelOwnership

  /** The process table and the clock. */
  class Os {
    var kinds: seq<Kind>
    var phases: seq<Phase>
    var now: nat

    constructor ()
      ensures kinds == [] && phases == [] && now == 0
    {
      kinds, phases, now := [], [], 0;
    }

    method Spawn(k: Kind) returns (p: nat)
      modifies this
      ensures p == old(|phases|) && kinds == old(kinds) + [k] && phases == old(phases) + [Alive] && now == old(now)
    {
      p := |phases|;
      kinds, phases := kinds + [k], phases + [Alive];
    }

    /** `kill` followed by `wait`. */
    method KillAndWait(p: nat)
      modifies `phases
      ensures phases == if p < |old(phases)| then old(phases)[p := Reaped] else old(phases)
    {
      if p < |phases| { phases := phases[p := Reaped]; }
    }

    method TryWait(p: nat) returns (ended: bool)
      modifies `phases
      ensures ended == (p < |old(phases)| && old(phases)[p] != Alive)
      ensures phases == if ended then old(phases)[p := Reaped] else old(phases)
    {
      ended := p < |phases| && phases[p] != Alive;
      if ended { phases := phases[p := Reaped]; }
    }

    method Die(p: nat)
      modifies `phases
      ensures phases ==
        if p < |old(phases)| && old(phases)[p] == Alive then old(phases)[p := Exited] else old(phases)
    {
      if p < |phases| && phases[p] == Alive { phases := phases[p := Exited]; }
    }

    method Sleep(ms: nat)
      modifies `now
      ensures now == old(now) + ms
    {
      now := now + ms;
    }
  }

  class Supervisor {
    const os: Os
    var running: bool
    var status: Status
    var child: Option<nat>
    var relayChild: Option<nat>
    /** The locals of every thread ever spawned, and how far each `stop()` call has got. */
    var threads: seq<Thread>
    var stops: seq<StopPc>

    ghost function Shared(): World
      reads this, os
    {
      World(running, status, child, relayChild, os.kinds, os.phases, os.now)
    }

    ghost function Value(): State
      reads this, os
    {
      State(Shared(), threads, stops)
    }

    constructor ()
      ensures Value() == INIT && fresh(os)
    {
      os := new Os();
      running, status, child, relayChild := false, Stopped, None, None;
      threads, stops := [], [];
    }

    method Publish(t: Thread, s: Status, next: Pc) returns (t': Thread)
      modifies `status
      ensures (Shared(), t') == TunnelModel.Publish(old(Shared()), t, s, next)
    {
      status := s;
      t' := t.(log := t.log + [Event(Published(s), os.now)], pc := next);
    }

    /** Takes the child out of its slot and, under the same lock, kills it and waits for it. */
    method ReapChild()
      modifies `child, os`phases
      ensures Shared() == TakeChildSlot(old(Shared()))
    {
      if child.Some? {
        os.KillAndWait(child.value);
        child := None;
      }
    }

    method ReapRelay()
      modifies `relayChild, os`phases
      ensures Shared() == TakeRelaySlot(old(Shared()))
    {
      if relayChild.Some? {
        os.KillAndWait(relayChild.value);
        relayChild := None;
      }
    }

    method LoopStep(t: Thread, at: LoopPc) returns (t': Thread)
      modifies `status, os`now
      ensures (Shared(), t') == TunnelModel.LoopStep(old(Shared()), t, at)
    {
      t' := t;
      match at
      case LoopHead => t' := t.(pc := if running then OnLoop(SetStarting) else OnLeave(ExitReap));
      case SetStarting => t' := Publish(t, Starting, OnRelay(RelayCheck));
      case AfterAttempt => t' := t.(pc := if running then OnLoop(SetRetry) else OnLeave(ExitReap));
      case SetRetry => t' := Publish(t, Reconnecting(RetryIn(t.backoff)), OnLoop(RetryHead(0)));
      case RetryHead(i) =>
        if i < t.backoff && running {
          t' := t.(pc := OnLoop(RetrySleep(i)));
        } else {
          t' := t.(backoff := Min(t.backoff * 2, MAX_BACKOFF), pc := OnLoop(LoopHead));
        }
      case RetrySleep(i) =>
        os.Sleep(Millis(1));
        t' := t.(pc := OnLoop(RetryHead(i + 1)));
    }

    method RelayStep(t: Thread, at: RelayPc, env: Env) returns (t': Thread)
      modifies `status, `relayChild, os
      ensures (Shared(), t') == TunnelModel.RelayStep(old(Shared()), t, at, env)
    {
      t' := t;
      match at
      case RelayCheck =>
        if !t.useRelay {
          t' := t.(pc := OnSsh(SshSpawn));
        } else {
          var need := true;
          if relayChild.Some? { need := os.TryWait(relayChild.value); }
          t' := t.(pc := if need then OnRelay(RelaySpawn) else OnSsh(SshSpawn));
        }
      case RelaySpawn =>
        if env.ok {
          var log := t.log + [Event(Spawned(Relay), os.now)];
          var p := os.Spawn(Relay);
          t' := t.(log := log, newRelay := Some(p), pc := OnRelay(RelayStore));
        } else {
          t' := t.(pc := OnLeave(FailPublish(RelayProgram)));
        }
      case RelayStore =>
        relayChild := t.newRelay;
        t' := t.(newRelay := None, pc := OnRelay(RelayUpHead(0)));
      case RelayUpHead(i) => t' := t.(pc := OnRelay(if i < TRIES && running then RelayProbe(i) else RelayDown));
      case RelayProbe(i) => t' := t.(pc := if env.ok then OnSsh(SshSpawn) else OnRelay(RelaySleep(i)));
      case RelaySleep(i) =>
        os.Sleep(RELAY_POLL);
        t' := t.(pc := OnRelay(RelayUpHead(i + 1)));
      case RelayDown => t' := Publish(t, Reconnecting(RelayNotUp), OnSsh(SshSpawn));
    }

    method SshStep(t: Thread, at: SshPc, env: Env) returns (t': Thread)
      modifies `status, `child, os
      ensures (Shared(), t') == TunnelModel.SshStep(old(Shared()), t, at, env)
    {
      t' := t;
      match at
      case SshSpawn =>
        if env.ok {
          var log := t.log + [Event(Spawned(Ssh), os.now)];
          var p := os.Spawn(Ssh);
          t' := t.(log := log, child := Some(p), pc := OnSsh(UpHead(0)));
        } else {
          t' := t.(pc := OnLeave(FailPublish(SshProgram)));
        }
      case UpHead(i) => t' := t.(pc := OnSsh(if i < TRIES && running then UpProbe(i) else DropChild));
      case UpProbe(i) =>
        if SocksHealthy(env.reply) {
          t' := t.(log := t.log + [Event(Greeted, os.now)], pc := OnSsh(SetConnected));
        } else {
          t' := t.(pc := OnSsh(UpTryWait(i)));
        }
      case UpTryWait(i) =>
        var ended := false;
        if t.child.Some? { ended := os.TryWait(t.child.value); }
        t' := t.(pc := OnSsh(if ended then DropChild else UpSleep(i)));
      case UpSleep(i) =>
        os.Sleep(UP_POLL);
        t' := t.(pc := OnSsh(UpHead(i + 1)));
      case DropChild =>
        if t.child.Some? { os.KillAndWait(t.child.value); }
        t' := t.(child := None, pc := OnLoop(AfterAttempt));
      case SetConnected => t' := Publish(t.(backoff := FIRST_BACKOFF), Connected, OnSsh(StoreChild));
      case StoreChild =>
        child := t.child;
        t' := t.(child := None, pc := OnWatch(WatchHead));
    }

    method WatchStep(t: Thread, at: WatchPc, env: Env) returns (t': Thread)
      modifies `child, os
      ensures (Shared(), t') == TunnelModel.WatchStep(old(Shared()), t, at, env)
    {
      t' := t;
      match at
      case WatchHead => t' := t.(pc := OnWatch(if running then WatchSleep else WatchReap));
      case WatchSleep =>
        os.Sleep(WATCH_POLL);
        t' := t.(pc := OnWatch(WatchDead));
      case WatchDead =>
        var dead := true;
        if child.Some? { dead := os.TryWait(child.value); }
        t' := t.(pc := OnWatch(if dead then WatchReap else WatchProbe));
      case WatchProbe =>
        if SocksHealthy(env.reply) {
          t' := t.(log := t.log + [Event(Greeted, os.now)], pc := OnWatch(WatchHead));
        } else {
          t' := t.(pc := OnWatch(WatchReap));
        }
      case WatchReap =>
        ReapChild();
        t' := t.(pc := OnLoop(AfterAttempt));
    }

    method LeaveStep(t: Thread, at: LeavePc) returns (t': Thread)
      modifies `running, `status, `relayChild, os`phases
      ensures (Shared(), t') == TunnelModel.LeaveStep(old(Shared()), t, at)
    {
      t' := t;
      match at
      case ExitReap =>
        ReapRelay();
        t' := t.(pc := OnLeave(ExitPublish));
      case ExitPublish => t' := Publish(t, Stopped, OnLeave(Done));
      case FailPublish(c) => t' := Publish(t, Error(c), OnLeave(FailClear));
      case FailClear =>
        running := false;
        t' := t.(pc := OnLeave(Aborted));
      case Done =>
      case Aborted =>
    }

    /** One atomic step of thread `i`. */
    method Step(i: nat, env: Env)
      requires i < |threads|
      modifies this, os
      ensures Value() == Apply(old(Value()), Action.Step(i, env))
    {
      var t := threads[i];
      var t';
      match t.pc {
        case OnLoop(at) => t' := LoopStep(t, at);
        case OnRelay(at) => t' := RelayStep(t, at, env);
        case OnSsh(at) => t' := SshStep(t, at, env);
        case OnWatch(at) => t' := WatchStep(t, at, env);
        case OnLeave(at) => t' := LeaveStep(t, at);
      }
      threads := threads[i := t'];
    }

    method Start(useRelay: bool)
      modifies this
      ensures Value() == StartStep(old(Value()), useRelay)
    {
      var was := running;
      running := true;
      if !was {
        threads := threads + [Thread(OnLoop(LoopHead), None, None, FIRST_BACKOFF, useRelay, os.now, [])];
      }
    }

    /** One atomic step of the `j`-th `stop()` call. */
    method StopStep(j: nat)
      requires j < |stops|
      modifies this, os
      ensures Value() == Apply(old(Value()), Action.StopStep(j))
    {
      match stops[j] {
        case ClearRunning =>
          running := false;
          stops := stops[j := TakeChild];
        case TakeChild =>
          ReapChild();
          stops := stops[j := TakeRelay];
        case TakeRelay =>
          ReapRelay();
          stops := stops[j := PublishStopped];
        case PublishStopped =>
          status := Stopped;
          stops := stops[j := Returned];
        case Returned =>
      }
    }

    method Perform(a: Action)
      modifies this, os
      ensures Value() == Apply(old(Value()), a)
    {
      match a
      case Start(useRelay) => Start(useRelay);
      case Step(i, env) => if i < |threads| { Step(i, env); }
      case StopCall => stops := stops + [ClearRunning];
      case StopStep(j) => if j < |stops| { StopStep(j); }
      case Die(p) => os.Die(p);
      case Tick(ms) => os.Sleep(ms);
    }

    /** A whole interleaving, carried out in place. As long as no start overlaps an earlier thread's loop, the
        cells and the threads own every process afterwards. */
    method Interleave(acts: seq<Action>)
      modifies this, os
      ensures Value() == Run(Apply, old(Value()), acts)
      ensures OwnedState(old(Value())) && Allowed(Apply, Spaced, old(Value()), acts) ==> OwnedState(Value())
    {
      ghost var before := Value();
      for k := 0 to |acts|
        invariant Value() == Run(Apply, old(Value()), acts[..k])
      {
        assert acts[..k + 1][..k] == acts[..k];
        Perform(acts[k]);
      }
      assert acts[..|acts|] == acts;
      if OwnedState(before) && Allowed(Apply, Spaced, before, acts) { RunOwned(before, acts); }
    }
  }

  /** From a new supervisor, through any such interleaving: every process that is not reaped is in exactly one of
      the two slots or one thread's hands, and there is at most one of each kind. */
  method Supervise(acts: seq<Action>) returns (sup: Supervisor)
    requires Allowed(Apply, Spaced, INIT, acts)
    ensures fresh(sup) && fresh(sup.os)
    ensures forall p: nat :: Unreaped(sup.Shared(), p) ==>
      exists place :: Holds(sup.Value(), place, p) && forall other :: Holds(sup.Value(), other, p) ==> other == place
    ensures forall p: nat, q: nat | Unreaped(sup.Shared(), p) && Unreaped(sup.Shared(), q) ::
      (OfKind(sup.Shared(), p, Ssh) <==> OfKind(sup.Shared(), q, Ssh)) ==> p == q
  {
    sup := new Supervisor();
    sup.Interleave(acts);
    OneOwner(sup.Value());
  }
}
