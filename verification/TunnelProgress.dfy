/** A supervisor that has been told to stop does stop: the thread returns within a dozen of its own steps. */
module TunnelProgress {
  import opened Runs
  import opened Wrappers
  import opened TunnelModel
  import opened TunnelOwnership
  import opened TunnelExit

  function LoopRest(at: LoopPc): nat {
    match at
    case LoopHead => 3
    case AfterAttempt => 3
    case RetryHead(_) => 4
    case RetrySleep(_) => 5
    case SetRetry => 5
    case SetStarting => 12
  }

  function RelayRest(at: RelayPc): nat {
    match at
    case RelayDown => 7
    case RelayUpHead(_) => 8
    case RelayStore => 9
    case RelaySleep(_) => 9
    case RelayProbe(_) => 10
    case RelaySpawn => 10
    case RelayCheck => 11
  }

  function SshRest(at: SshPc): nat {
    match at
    case DropChild => 4
    case UpHead(_) => 5
    case SshSpawn => 6
    case UpSleep(_) => 6
    case StoreChild => 6
    case UpTryWait(_) => 7
    case SetConnected => 7
    case UpProbe(_) => 8
  }

  function WatchRest(at: WatchPc): nat {
    match at
    case WatchReap => 4
    case WatchHead => 5
    case WatchProbe => 6
    case WatchDead => 7
    case WatchSleep => 8
  }

  function LeaveRest(at: LeavePc): nat {
    match at
    case Done => 0
    case Aborted => 0
    case ExitPublish => 1
    case FailClear => 1
    case ExitReap => 2
    case FailPublish(_) => 2
  }

  /** The most steps the thread has left once `running` is false, whatever the world answers. */
  function Rest(pc: Pc): (rest: nat)
    ensures rest <= 12 && (rest == 0 <==> Finished(pc))
  {
    match pc
    case OnLoop(at) => LoopRest(at)
    case OnRelay(at) => RelayRest(at)
    case OnSsh(at) => SshRest(at)
    case OnWatch(at) => WatchRest(at)
    case OnLeave(at) => LeaveRest(at)
  }

  lemma RelayOwnStep(w: World, t: Thread, at: RelayPc, env: Env)
    requires !w.running && t.pc == OnRelay(at)
    ensures var r := RelayStep(w, t, at, env); !r.0.running && Rest(r.1.pc) < Rest(t.pc)
  {
  }

  lemma SshOwnStep(w: World, t: Thread, at: SshPc, env: Env)
    requires !w.running && t.pc == OnSsh(at)
    ensures var r := SshStep(w, t, at, env); !r.0.running && Rest(r.1.pc) < Rest(t.pc)
  {
  }

  lemma OwnStep(w: World, t: Thread, env: Env)
    requires !w.running
    ensures var r := ThreadStep(w, t, env);
      !r.0.running && (Rest(r.1.pc) < Rest(t.pc) || Finished(t.pc)) && (Finished(t.pc) ==> r.1.pc == t.pc)
  {
    match t.pc
    case OnLoop(at) =>
    case OnRelay(at) => RelayOwnStep(w, t, at, env);
    case OnSsh(at) => SshOwnStep(w, t, at, env);
    case OnWatch(at) =>
    case OnLeave(at) =>
  }

  /** How many of the actions are steps of thread `i`. */
  function StepsOf(acts: seq<Action>, i: nat): nat {
    if acts == [] then 0
    else
      var last := acts[|acts| - 1];
      StepsOf(acts[..|acts| - 1], i) + if last.Step? && last.thread == i then 1 else 0
  }

  lemma ActionCloser(s: State, a: Action, i: nat)
    requires !s.w.running && !a.Start? && i < |s.threads|
    ensures var s' := Apply(s, a);
      && !s'.w.running && |s'.threads| == |s.threads|
      && Rest(s'.threads[i].pc) + (if a.Step? && a.thread == i && !Finished(s.threads[i].pc) then 1 else 0)
         <= Rest(s.threads[i].pc)
  {
    if a.Step? && a.thread < |s.threads| { OwnStep(s.w, s.threads[a.thread], a.env); }
  }

  lemma {:induction false} RunCloser(s: State, acts: seq<Action>, i: nat)
    requires !s.w.running && NoStarts(acts) && i < |s.threads|
    ensures var s' := Run(Apply, s, acts);
      && !s'.w.running && |s'.threads| == |s.threads|
      && (Finished(s'.threads[i].pc) || Rest(s'.threads[i].pc) + StepsOf(acts, i) <= Rest(s.threads[i].pc))
  {
    if acts != [] {
      var m := |acts| - 1;
      assert acts[m] in acts;
      RunCloser(s, acts[..m], i);
      ActionCloser(Run(Apply, s, acts[..m]), acts[m], i);
    }
  }

  /** Once `running` is false and while nothing starts again, a thread that is given twelve steps has returned, from
      wherever it was and in any interleaving. */
  lemma ReturnsWithinTwelve(s: State, acts: seq<Action>, i: nat)
    requires !s.w.running && NoStarts(acts) && i < |s.threads| && StepsOf(acts, i) >= 12
    ensures i < |Run(Apply, s, acts).threads| && Finished(Run(Apply, s, acts).threads[i].pc)
  {
    RunCloser(s, acts, i);
  }

  lemma {:induction false} NoStartsAreSpaced(s: State, acts: seq<Action>)
    requires NoStarts(acts)
    ensures Allowed(Apply, Spaced, s, acts)
  {
    if acts != [] {
      assert acts[|acts| - 1] in acts;
      NoStartsAreSpaced(s, acts[..|acts| - 1]);
    }
  }

  lemma StillReachable(s: State, acts: seq<Action>)
    requires SpacedReachable(s) && NoStarts(acts)
    ensures SpacedReachable(Run(Apply, s, acts))
  {
    var before :| Allowed(Apply, Spaced, INIT, before) && s == Run(Apply, INIT, before);
    NoStartsAreSpaced(s, acts);
    Concat(Apply, Spaced, INIT, before, acts);
  }

  /** The newest thread has returned, nothing is left but a relay in its slot after an error, and the part of any
      `stop()` that takes the relay leaves nothing at all. */
  ghost predicate NothingRuns(s: State) {
    && Finished(Newest(s).pc)
    && (forall p: nat :: Unreaped(s.w, p) ==> Newest(s).pc == OnLeave(Aborted) && s.w.relay == Some(p))
    && forall j, p: nat :: 0 <= j < |s.stops| && s.stops[j] == TakeRelay ==> !Unreaped(Apply(s, StopStep(j)).w, p)
  }

  lemma ReturnedWithNothing(s: State)
    requires SpacedReachable(s) && Finished(Newest(s).pc)
    ensures NothingRuns(s)
  {
    ExitLeavesNothing(s);
  }

  lemma NewestReturns(s: State, acts: seq<Action>, s': State)
    requires s.threads != [] && !s.w.running && NoStarts(acts) && StepsOf(acts, |s.threads| - 1) >= 12
    requires s' == Run(Apply, s, acts)
    ensures Finished(Newest(s').pc)
  {
    RunCloser(s, acts, |s.threads| - 1);
    ReturnsWithinTwelve(s, acts, |s.threads| - 1);
  }

  /** So a stopped supervisor ends with nothing running. */
  lemma StoppedEndsWithNothing(s: State, acts: seq<Action>)
    requires SpacedReachable(s) && s.threads != [] && !s.w.running && NoStarts(acts)
    requires StepsOf(acts, |s.threads| - 1) >= 12
    ensures NothingRuns(Run(Apply, s, acts))
  {
    var s' := Run(Apply, s, acts);
    StillReachable(s, acts);
    NewestReturns(s, acts, s');
    ReturnedWithNothing(s');
  }
}
