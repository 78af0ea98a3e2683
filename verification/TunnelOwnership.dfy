/** Who owns which process, in every interleaving of the supervisor thread, `stop()` and process death. */
module TunnelOwnership {
  import opened Runs
  import opened Wrappers
  import opened TunnelModel

  /** The four kinds of place a process handle can sit in. */
  datatype Place = LocalChild(thread: nat) | LocalRelay(thread: nat) | ChildSlot | RelaySlot

  ghost predicate Holds(s: State, place: Place, p: nat) {
    match place
    case LocalChild(i) => i < |s.threads| && s.threads[i].child == Some(p)
    case LocalRelay(i) => i < |s.threads| && s.threads[i].newRelay == Some(p)
    case ChildSlot => s.w.child == Some(p)
    case RelaySlot => s.w.relay == Some(p)
  }

  /** A process that nobody has waited for: losing its last handle would leak it. */
  predicate Unreaped(w: World, p: nat) { Known(w, p) && w.phases[p] != Reaped }

  predicate OfKind(w: World, p: nat, k: Kind) { p < |w.kinds| && w.kinds[p] == k }

  predicate HoldsChild(pc: Pc) { pc.OnSsh? && !pc.ssh.SshSpawn? }

  /** The thread is about to store a freshly spawned relay, or about to spawn it. */
  predicate ReplacingRelay(pc: Pc) { pc.OnRelay? && (pc.relay.RelaySpawn? || pc.relay.RelayStore?) }

  /** Every unreaped process of kind `k` sits in one of the two given handles. */
  ghost predicate Covered(w: World, k: Kind, a: Option<nat>, b: Option<nat>) {
    forall p: nat :: Unreaped(w, p) && OfKind(w, p, k) ==> a == Some(p) || b == Some(p)
  }

  /** The ownership invariant, seen from the newest thread. */
  ghost predicate Owned(w: World, t: Thread) {
    && |w.kinds| == |w.phases|
    && (t.child.Some? <==> HoldsChild(t.pc))
    && (t.child.Some? ==> Known(w, t.child.value) && OfKind(w, t.child.value, Ssh))
    && (t.newRelay.Some? <==> t.pc == OnRelay(RelayStore))
    && (t.newRelay.Some? ==> Unreaped(w, t.newRelay.value) && OfKind(w, t.newRelay.value, Relay))
    && (w.child.Some? ==> t.pc.OnWatch? && Known(w, w.child.value) && OfKind(w, w.child.value, Ssh))
    && (w.relay.Some? ==> Known(w, w.relay.value) && OfKind(w, w.relay.value, Relay))
    && (w.relay.Some? && ReplacingRelay(t.pc) ==> !Unreaped(w, w.relay.value))
    && Covered(w, Ssh, t.child, w.child)
    && Covered(w, Relay, t.newRelay, w.relay)
  }

  const NOBODY: Thread := Thread(OnLeave(Done), None, None, FIRST_BACKOFF, false, 0, [])

  function Newest(s: State): Thread { if s.threads == [] then NOBODY else s.threads[|s.threads| - 1] }

  /** An earlier thread: past its loop and empty-handed. */
  predicate Leaving(t: Thread) { !InLoop(t.pc) && t.child.None? && t.newRelay.None? }

  ghost predicate OwnedState(s: State) {
    && Owned(s.w, Newest(s))
    && forall i | 0 <= i < |s.threads| - 1 :: Leaving(s.threads[i])
  }

  /** Ownership does not depend on `running`, `status` or the clock. */
  lemma FrameOwned(w: World, w': World, t: Thread)
    requires Owned(w, t)
    requires w'.child == w.child && w'.relay == w.relay && w'.kinds == w.kinds && w'.phases == w.phases
    ensures Owned(w', t)
  {
  }

  lemma TakeChildOwned(w: World, t: Thread)
    requires Owned(w, t)
    ensures Owned(TakeChildSlot(w), t) && TakeChildSlot(w).child.None?
  {
  }

  lemma TakeRelayOwned(w: World, t: Thread)
    requires Owned(w, t)
    ensures Owned(TakeRelaySlot(w), t) && TakeRelaySlot(w).relay.None?
  {
  }

  lemma TryWaitOwned(w: World, t: Thread, p: nat)
    requires Owned(w, t) && t.newRelay != Some(p)
    ensures Owned(TryWait(w, p), t) && (Ended(w, p) ==> !Unreaped(TryWait(w, p), p))
  {
  }

  lemma LoopStepOwned(w: World, t: Thread, at: LoopPc)
    requires Owned(w, t) && t.pc == OnLoop(at)
    ensures var r := LoopStep(w, t, at); Owned(r.0, r.1)
  {
  }

  lemma RelayStepOwned(w: World, t: Thread, at: RelayPc, env: Env)
    requires Owned(w, t) && t.pc == OnRelay(at)
    ensures var r := RelayStep(w, t, at, env); Owned(r.0, r.1)
  {
    if at.RelayCheck? && w.relay.Some? {
      TryWaitOwned(w, t, w.relay.value);
    }
  }

  lemma SshStepOwned(w: World, t: Thread, at: SshPc, env: Env)
    requires Owned(w, t) && t.pc == OnSsh(at)
    ensures var r := SshStep(w, t, at, env); Owned(r.0, r.1)
  {
    if at.UpTryWait? {
      TryWaitOwned(w, t, t.child.value);
    } else if at.SshSpawn? || at.DropChild? || at.StoreChild? {
    } else {
      FrameOwned(w, SshStep(w, t, at, env).0, t);
    }
  }

  lemma WatchStepOwned(w: World, t: Thread, at: WatchPc, env: Env)
    requires Owned(w, t) && t.pc == OnWatch(at)
    ensures var r := WatchStep(w, t, at, env); Owned(r.0, r.1)
  {
    if at.WatchDead? && w.child.Some? {
      TryWaitOwned(w, t, w.child.value);
    } else if at.WatchReap? {
      TakeChildOwned(w, t);
    }
  }

  lemma LeaveStepOwned(w: World, t: Thread, at: LeavePc)
    requires Owned(w, t) && t.pc == OnLeave(at)
    ensures var r := LeaveStep(w, t, at); Owned(r.0, r.1)
  {
  }

  lemma ThreadStepOwned(w: World, t: Thread, env: Env)
    requires Owned(w, t)
    ensures var r := ThreadStep(w, t, env); Owned(r.0, r.1)
  {
    match t.pc
    case OnLoop(at) => LoopStepOwned(w, t, at);
    case OnRelay(at) => RelayStepOwned(w, t, at, env);
    case OnSsh(at) => SshStepOwned(w, t, at, env);
    case OnWatch(at) => WatchStepOwned(w, t, at, env);
    case OnLeave(at) => LeaveStepOwned(w, t, at);
  }

  /** A thread past its loop disturbs nothing the newest thread relies on. */
  lemma LeavingStepOwned(w: World, t: Thread, gone: Thread)
    requires Owned(w, t) && Leaving(gone)
    ensures var r := LeaveStep(w, gone, gone.pc.leave); Owned(r.0, t) && Leaving(r.1)
  {
    if gone.pc.leave.ExitReap? {
      TakeRelayOwned(w, t);
    } else {
      FrameOwned(w, LeaveStep(w, gone, gone.pc.leave).0, t);
    }
  }

  lemma StopStepOwned(w: World, t: Thread, pc: StopPc)
    requires Owned(w, t)
    ensures Owned(StopCallStep(w, pc).0, t)
  {
    TakeChildOwned(w, t);
    TakeRelayOwned(w, t);
  }

  lemma DieOwned(w: World, t: Thread, p: nat)
    requires Owned(w, t)
    ensures Owned(DieStep(w, p), t)
  {
  }

  lemma StartOwned(s: State, useRelay: bool)
    requires OwnedState(s) && Spaced(s, Start(useRelay))
    ensures OwnedState(StartStep(s, useRelay))
  {
    var s' := StartStep(s, useRelay);
    if !s.w.running {
      forall i | 0 <= i < |s'.threads| - 1 ensures Leaving(s'.threads[i]) {
        assert s'.threads[i] == s.threads[i];
        assert i == |s.threads| - 1 ==> s.threads[i] == Newest(s);
      }
      assert Newest(s') == NewThread(s.w, useRelay);
      assert !InLoop(Newest(s).pc);
    }
  }

  lemma StepOwned(s: State, a: Action)
    requires OwnedState(s) && Spaced(s, a)
    ensures OwnedState(Apply(s, a))
  {
    match a
    case Start(useRelay) => StartOwned(s, useRelay);
    case Step(i, env) =>
      if i < |s.threads| {
        if i == |s.threads| - 1 {
          ThreadStepOwned(s.w, s.threads[i], env);
        } else {
          LeavingStepOwned(s.w, Newest(s), s.threads[i]);
        }
      }
    case StopStep(j) => if j < |s.stops| { StopStepOwned(s.w, Newest(s), s.stops[j]); }
    case Die(p) => DieOwned(s.w, Newest(s), p);
    case StopCall =>
    case Tick(_) =>
  }

  lemma ReachableOwned(s: State)
    requires SpacedReachable(s)
    ensures OwnedState(s)
  {
    var acts :| Allowed(Apply, Spaced, INIT, acts) && s == Run(Apply, INIT, acts);
    RunOwned(INIT, acts);
  }

  lemma RunOwned(s: State, acts: seq<Action>)
    requires OwnedState(s) && Allowed(Apply, Spaced, s, acts)
    ensures OwnedState(Run(Apply, s, acts))
  {
    forall x, a | OwnedState(x) && Spaced(x, a) ensures OwnedState(Apply(x, a)) { StepOwned(x, a); }
    Invariant(Apply, Spaced, x => OwnedState(x), s, acts);
  }

  function HolderOf(s: State, p: nat): Place {
    if s.w.child == Some(p) then ChildSlot
    else if s.w.relay == Some(p) then RelaySlot
    else var last := if s.threads == [] then 0 else |s.threads| - 1;
      if OfKind(s.w, p, Ssh) then LocalChild(last) else LocalRelay(last)
  }

  lemma UniqueHolder(s: State, p: nat)
    requires OwnedState(s) && Unreaped(s.w, p)
    ensures Holds(s, HolderOf(s, p), p)
    ensures forall other :: Holds(s, other, p) ==> other == HolderOf(s, p)
  {
    forall other | Holds(s, other, p) ensures other == HolderOf(s, p) {
      match other
      case LocalChild(i) => assert i < |s.threads| - 1 ==> Leaving(s.threads[i]);
      case LocalRelay(i) => assert i < |s.threads| - 1 ==> Leaving(s.threads[i]);
      case ChildSlot =>
      case RelaySlot =>
    }
  }

  /** In every interleaving, each unreaped process is held in exactly one place, so no live handle is
      ever overwritten or dropped; and at most one ssh and one relay are unreaped at any time. */
  lemma OneOwner(s: State)
    requires SpacedReachable(s)
    ensures forall p: nat :: Unreaped(s.w, p) ==>
      exists place :: Holds(s, place, p) && forall other :: Holds(s, other, p) ==> other == place
    ensures forall p: nat, q: nat :: Unreaped(s.w, p) && Unreaped(s.w, q) && (OfKind(s.w, p, Ssh) <==> OfKind(s.w, q, Ssh)) ==> p == q
  {
    ReachableOwned(s);
    forall p: nat | Unreaped(s.w, p)
      ensures exists place :: Holds(s, place, p) && forall other :: Holds(s, other, p) ==> other == place
    {
      UniqueHolder(s, p);
    }
  }
}
