/** What is left running once `running` goes false, and once the thread has returned. */
module TunnelExit {
  import opened Runs
  import opened Wrappers
  import opened TunnelModel
  import opened TunnelOwnership

  /** How many processes of kind `k` were ever spawned. */
  function Spawns(kinds: seq<Kind>, k: Kind): nat {
    if kinds == [] then 0
    else Spawns(kinds[..|kinds| - 1], k) + if kinds[|kinds| - 1] == k then 1 else 0
  }

  /** How many more of kind `k` the thread can spawn once `running` is false. */
  function Left(pc: Pc, k: Kind): nat {
    match pc
    case OnLoop(SetStarting) => 1
    case OnRelay(at) => if k == Ssh || at.RelayCheck? || at.RelaySpawn? then 1 else 0
    case OnSsh(SshSpawn) => if k == Ssh then 1 else 0
    case _ => 0
  }

  lemma SpawnCounted(kinds: seq<Kind>, spawned: Kind, k: Kind)
    ensures Spawns(kinds + [spawned], k) == Spawns(kinds, k) + if spawned == k then 1 else 0
  {
    assert (kinds + [spawned])[..|kinds|] == kinds;
  }

  /** The potential behind the bound: spawns so far plus spawns still possible. */
  function Potential(w: World, t: Thread, k: Kind): nat { Spawns(w.kinds, k) + Left(t.pc, k) }

  lemma RelayMove(w: World, t: Thread, at: RelayPc, env: Env, k: Kind)
    requires !w.running && t.pc == OnRelay(at)
    ensures var r := RelayStep(w, t, at, env);
      && !r.0.running
      && (|| (r.0.kinds == w.kinds && Left(r.1.pc, k) <= Left(t.pc, k))
          || (r.0.kinds == w.kinds + [Relay] && (if Relay == k then 1 else 0) + Left(r.1.pc, k) <= Left(t.pc, k)))
  {
  }

  lemma SshMove(w: World, t: Thread, at: SshPc, env: Env, k: Kind)
    requires !w.running && t.pc == OnSsh(at)
    ensures var r := SshStep(w, t, at, env);
      && !r.0.running
      && (|| (r.0.kinds == w.kinds && Left(r.1.pc, k) <= Left(t.pc, k))
          || (r.0.kinds == w.kinds + [Ssh] && (if Ssh == k then 1 else 0) + Left(r.1.pc, k) <= Left(t.pc, k)))
  {
  }

  lemma RelayStepLeft(w: World, t: Thread, at: RelayPc, env: Env, k: Kind)
    requires !w.running && t.pc == OnRelay(at)
    ensures var r := RelayStep(w, t, at, env); !r.0.running && Potential(r.0, r.1, k) <= Potential(w, t, k)
  {
    RelayMove(w, t, at, env, k);
    SpawnCounted(w.kinds, Relay, k);
  }

  lemma SshStepLeft(w: World, t: Thread, at: SshPc, env: Env, k: Kind)
    requires !w.running && t.pc == OnSsh(at)
    ensures var r := SshStep(w, t, at, env); !r.0.running && Potential(r.0, r.1, k) <= Potential(w, t, k)
  {
    SshMove(w, t, at, env, k);
    SpawnCounted(w.kinds, Ssh, k);
  }

  lemma StepLeft(w: World, t: Thread, env: Env, k: Kind)
    requires !w.running
    ensures var r := ThreadStep(w, t, env); !r.0.running && Potential(r.0, r.1, k) <= Potential(w, t, k)
  {
    match t.pc
    case OnRelay(at) => RelayStepLeft(w, t, at, env, k);
    case OnSsh(at) => SshStepLeft(w, t, at, env, k);
    case OnLoop(at) =>
    case OnWatch(at) =>
    case OnLeave(at) =>
  }

  predicate NoStarts(acts: seq<Action>) { forall a | a in acts :: !a.Start? }

  lemma ActionLeft(s: State, a: Action, k: Kind)
    requires OwnedState(s) && !s.w.running && !a.Start?
    ensures var s' := Apply(s, a);
      !s'.w.running && Potential(s'.w, Newest(s'), k) <= Potential(s.w, Newest(s), k)
  {
    if a.Step? && a.thread < |s.threads| {
      assert a.thread < |s.threads| - 1 ==> Leaving(s.threads[a.thread]);
      StepLeft(s.w, s.threads[a.thread], a.env, k);
    }
  }

  lemma {:induction false} RunLeft(s: State, acts: seq<Action>, k: Kind)
    requires OwnedState(s) && !s.w.running && NoStarts(acts)
    ensures var s' := Run(Apply, s, acts);
      OwnedState(s') && !s'.w.running && Potential(s'.w, Newest(s'), k) <= Potential(s.w, Newest(s), k)
  {
    if acts != [] {
      var m := |acts| - 1;
      assert acts[m] in acts;
      RunLeft(s, acts[..m], k);
      StepOwned(Run(Apply, s, acts[..m]), acts[m]);
      ActionLeft(Run(Apply, s, acts[..m]), acts[m], k);
    }
  }

  /** Once `running` is false, and until the next `start`, at most one more relay and one more ssh are
      ever spawned, whatever the interleaving. */
  lemma AtMostOneMoreSpawn(s: State, acts: seq<Action>, k: Kind)
    requires SpacedReachable(s) && !s.w.running && NoStarts(acts)
    ensures Spawns(Run(Apply, s, acts).w.kinds, k) <= Spawns(s.w.kinds, k) + 1
  {
    ReachableOwned(s);
    RunLeft(s, acts, k);
  }

  // ---- What is left once the thread has returned ----

  /** Past the reaping of its normal exit, the newest thread has left no relay in the slot. */
  predicate Emptied(w: World, t: Thread) { t.pc == OnLeave(ExitPublish) || t.pc == OnLeave(Done) ==> w.relay.None? }

  ghost predicate EmptiedState(s: State) { OwnedState(s) && Emptied(s.w, Newest(s)) }

  lemma ThreadStepEmptied(w: World, t: Thread, env: Env)
    requires Emptied(w, t)
    ensures var r := ThreadStep(w, t, env); Emptied(r.0, r.1)
  {
    match t.pc
    case OnLoop(at) =>
    case OnRelay(at) =>
    case OnSsh(at) =>
    case OnWatch(at) =>
    case OnLeave(at) =>
  }

  /** A thread on its way out never fills the slot. */
  lemma LeaveStepEmpties(w: World, t: Thread, at: LeavePc)
    ensures w.relay.None? ==> LeaveStep(w, t, at).0.relay.None?
  {
  }

  lemma StepEmptied(s: State, a: Action)
    requires EmptiedState(s) && Spaced(s, a)
    ensures EmptiedState(Apply(s, a))
  {
    StepOwned(s, a);
    match a
    case Step(i, env) =>
      if i == |s.threads| - 1 {
        ThreadStepEmptied(s.w, s.threads[i], env);
      } else if i < |s.threads| {
        assert Leaving(s.threads[i]);
        LeaveStepEmpties(s.w, s.threads[i], s.threads[i].pc.leave);
      }
    case Start(_) =>
    case StopCall =>
    case StopStep(_) =>
    case Die(_) =>
    case Tick(_) =>
  }

  lemma {:induction false} RunEmptied(acts: seq<Action>)
    requires Allowed(Apply, Spaced, INIT, acts)
    ensures EmptiedState(Run(Apply, INIT, acts))
  {
    if acts != [] {
      var m := |acts| - 1;
      RunEmptied(acts[..m]);
      StepEmptied(Run(Apply, INIT, acts[..m]), acts[m]);
    }
  }

  /** After a normal exit of the newest thread every process is reaped; after an error exit the only process that
      can remain is the relay, in its slot; and after either, the part of a `stop()` that takes the relay leaves
      nothing. Earlier threads may still be on their way out. */
  lemma ExitLeavesNothing(s: State)
    requires SpacedReachable(s)
    ensures Newest(s).pc == OnLeave(Done) ==> forall p: nat :: !Unreaped(s.w, p)
    ensures Newest(s).pc == OnLeave(Aborted) ==>
      forall p: nat :: Unreaped(s.w, p) ==> s.w.relay == Some(p) && OfKind(s.w, p, Relay)
    ensures Finished(Newest(s).pc) ==> forall j, p: nat :: 0 <= j < |s.stops| && s.stops[j] == TakeRelay ==>
      !Unreaped(Apply(s, StopStep(j)).w, p)
  {
    var acts :| Allowed(Apply, Spaced, INIT, acts) && s == Run(Apply, INIT, acts);
    RunEmptied(acts);
    if Finished(Newest(s).pc) {
      forall j, p: nat | 0 <= j < |s.stops| && s.stops[j] == TakeRelay
        ensures !Unreaped(Apply(s, StopStep(j)).w, p)
      {
        TakeRelayOwned(s.w, Newest(s));
        assert Apply(s, StopStep(j)).w == TakeRelaySlot(s.w);
      }
    }
  }

  // ---- What it says it is ----

  /** The newest thread has published Stopped by the time it has returned. */
  predicate Departed(w: World, t: Thread) { t.pc == OnLeave(Done) ==> w.status == Stopped }

  ghost predicate SequentialState(s: State) {
    && OwnedState(s)
    && Departed(s.w, Newest(s))
    && forall i | 0 <= i < |s.threads| - 1 :: Finished(s.threads[i].pc)
  }

  lemma ThreadStepDeparted(w: World, t: Thread, env: Env)
    requires Departed(w, t)
    ensures var r := ThreadStep(w, t, env); Departed(r.0, r.1)
  {
    match t.pc
    case OnLoop(at) =>
    case OnRelay(at) =>
    case OnSsh(at) =>
    case OnWatch(at) =>
    case OnLeave(at) =>
  }

  lemma StepSequential(s: State, a: Action)
    requires SequentialState(s) && Sequential(s, a)
    ensures SequentialState(Apply(s, a))
  {
    StepOwned(s, a);
    match a
    case Step(i, env) =>
      if i == |s.threads| - 1 { ThreadStepDeparted(s.w, s.threads[i], env); }
    case Start(_) =>
      if !s.w.running {
        assert Apply(s, a).threads[..|s.threads|] == s.threads;
      }
    case StopCall =>
    case StopStep(_) =>
    case Die(_) =>
    case Tick(_) =>
  }

  lemma {:induction false} RunSequential(acts: seq<Action>)
    requires Allowed(Apply, Sequential, INIT, acts)
    ensures SequentialState(Run(Apply, INIT, acts))
  {
    if acts != [] {
      var m := |acts| - 1;
      RunSequential(acts[..m]);
      StepSequential(Run(Apply, INIT, acts[..m]), acts[m]);
    }
  }

  /** Where every start waits for the earlier thread to return, the status after a normal exit is Stopped, and stays
      so until the next start. */
  lemma ExitIsStopped(s: State)
    requires SequentialReachable(s)
    ensures Newest(s).pc == OnLeave(Done) ==> s.w.status == Stopped
  {
    var acts :| Allowed(Apply, Sequential, INIT, acts) && s == Run(Apply, INIT, acts);
    RunSequential(acts);
  }
}
