/** A `stop()` followed by a `start()` while the old thread is still in its loop: exactly then a live
    process can be lost. */
module TunnelOverlap {
  import opened Runs
  import opened Wrappers
  import opened TunnelModel
  import opened TunnelOwnership

  ghost predicate NothingLost(s: State) {
    forall p: nat :: Unreaped(s.w, p) ==> exists place :: Holds(s, place, p)
  }

  predicate OnlySteps(acts: seq<Action>) { forall a | a in acts :: a.Step? }

  lemma {:induction false} StepsAreSpaced(s: State, acts: seq<Action>)
    requires OnlySteps(acts)
    ensures Allowed(Apply, Spaced, s, acts)
  {
    if acts != [] {
      assert acts[|acts| - 1] in acts;
      StepsAreSpaced(s, acts[..|acts| - 1]);
    }
  }

  /** What the world answers so that the thread comes round to the head of its loop. */
  function RoundTrip(pc: Pc): Env {
    if pc == OnWatch(WatchProbe) then Env(true, None) else Env(true, Some([5, 0]))
  }

  /** At least the wait in force now, and at least the one a fresh connection would set. */
  function Wait(t: Thread): nat { if t.backoff < FIRST_BACKOFF then FIRST_BACKOFF else t.backoff }

  function RetryDistance(at: LoopPc, wait: nat): nat {
    match at
    case LoopHead => 0
    case RetryHead(i) => if i < wait then 2 * (wait - i) + 1 else 1
    case RetrySleep(i) => if i < wait then 2 * (wait - i) else 2
    case SetRetry => 2 * wait + 2
    case AfterAttempt => 2 * wait + 3
    case SetStarting => 2 * wait + 23
  }

  function WatchDistance(at: WatchPc): nat {
    match at
    case WatchReap => 4
    case WatchProbe => 5
    case WatchDead => 6
    case WatchSleep => 7
    case WatchHead => 8
  }

  function SshDistance(at: SshPc): nat {
    match at
    case DropChild => 4
    case StoreChild => 9
    case SetConnected => 10
    case UpProbe(_) => 11
    case UpHead(_) => 12
    case UpSleep(_) => 13
    case UpTryWait(_) => 14
    case SshSpawn => 15
  }

  function RelayDistance(at: RelayPc): nat {
    match at
    case RelayDown => 16
    case RelayProbe(_) => 17
    case RelayUpHead(_) => 18
    case RelaySleep(_) => 19
    case RelayStore => 20
    case RelaySpawn => 21
    case RelayCheck => 22
  }

  /** Bounds the steps left until the thread is back at its loop's head when the world answers `RoundTrip`. */
  function Distance(t: Thread): nat {
    match t.pc
    case OnLoop(at) => RetryDistance(at, Wait(t))
    case OnWatch(at) => 2 * Wait(t) + WatchDistance(at)
    case OnSsh(at) => 2 * Wait(t) + SshDistance(at)
    case OnRelay(at) => 2 * Wait(t) + RelayDistance(at)
    case OnLeave(_) => 0
  }

  /** Slots name known processes and a thread holds a relay only while storing it. */
  ghost predicate Sane(w: World, t: Thread) {
    && w.running
    && InLoop(t.pc)
    && (w.relay.Some? ==> Known(w, w.relay.value))
    && (t.newRelay.Some? ==> t.pc == OnRelay(RelayStore) && Known(w, t.newRelay.value))
  }

  lemma LoopRoundTrip(w: World, t: Thread, at: LoopPc)
    requires Sane(w, t) && t.pc == OnLoop(at) && at != LoopHead
    ensures var r := LoopStep(w, t, at); Sane(r.0, r.1) && Distance(r.1) < Distance(t)
  {
  }

  lemma RelayRoundTrip(w: World, t: Thread, at: RelayPc)
    requires Sane(w, t) && t.pc == OnRelay(at)
    ensures var r := RelayStep(w, t, at, RoundTrip(t.pc)); Sane(r.0, r.1) && Distance(r.1) < Distance(t)
  {
  }

  lemma SshRoundTrip(w: World, t: Thread, at: SshPc)
    requires Sane(w, t) && t.pc == OnSsh(at)
    ensures var r := SshStep(w, t, at, RoundTrip(t.pc)); Sane(r.0, r.1) && Distance(r.1) < Distance(t)
  {
  }

  lemma WatchRoundTrip(w: World, t: Thread, at: WatchPc)
    requires Sane(w, t) && t.pc == OnWatch(at)
    ensures var r := WatchStep(w, t, at, RoundTrip(t.pc)); Sane(r.0, r.1) && Distance(r.1) < Distance(t)
  {
  }

  lemma OneRoundTripStep(w: World, t: Thread)
    requires Sane(w, t) && t.pc != OnLoop(LoopHead)
    ensures var r := ThreadStep(w, t, RoundTrip(t.pc)); Sane(r.0, r.1) && Distance(r.1) < Distance(t)
  {
    match t.pc
    case OnLoop(at) => LoopRoundTrip(w, t, at);
    case OnRelay(at) => RelayRoundTrip(w, t, at);
    case OnSsh(at) => SshRoundTrip(w, t, at);
    case OnWatch(at) => WatchRoundTrip(w, t, at);
  }

  /** A thread in its loop can be brought back to the loop's head while `running` is true. */
  lemma {:induction false} DriveToHead(s: State, i: nat) returns (acts: seq<Action>)
    requires i < |s.threads| && Sane(s.w, s.threads[i])
    ensures OnlySteps(acts)
    ensures var s' := Run(Apply, s, acts);
      && |s'.threads| == |s.threads| && Sane(s'.w, s'.threads[i]) && s'.threads[i].pc == OnLoop(LoopHead)
      && forall j | 0 <= j < |s.threads| && j != i :: s'.threads[j] == s.threads[j]
    decreases Distance(s.threads[i])
  {
    if s.threads[i].pc == OnLoop(LoopHead) {
      acts := [];
    } else {
      OneRoundTripStep(s.w, s.threads[i]);
      var a := Step(i, RoundTrip(s.threads[i].pc));
      var rest := DriveToHead(Apply(s, a), i);
      acts := [a] + rest;
      Concat(Apply, Spaced, s, [a], rest);
      One(Apply, Spaced, s, a);
    }
  }

  const OBLIGING: Env := Env(true, Some([5, 0]))

  /** Steps left until the thread is about to store a fresh, connected ssh, when everything succeeds. */
  function Climb(pc: Pc): nat {
    match pc
    case OnSsh(StoreChild) => 0
    case OnSsh(SetConnected) => 1
    case OnSsh(UpProbe(_)) => 2
    case OnSsh(UpHead(_)) => 3
    case OnSsh(SshSpawn) => 4
    case OnRelay(RelayProbe(_)) => 5
    case OnRelay(RelayUpHead(_)) => 6
    case OnRelay(RelayStore) => 7
    case OnRelay(RelaySpawn) => 8
    case OnRelay(RelayCheck) => 9
    case OnLoop(SetStarting) => 10
    case OnLoop(LoopHead) => 11
    case _ => 12
  }

  /** On the way from the loop's head to storing an ssh no older than `floor`. */
  ghost predicate Climbing(w: World, t: Thread, floor: nat) {
    && w.running
    && floor <= |w.phases|
    && Climb(t.pc) < 12
    && (t.newRelay.Some? <==> t.pc == OnRelay(RelayStore))
    && (t.newRelay.Some? ==> t.newRelay.value >= floor && Known(w, t.newRelay.value))
    && (w.relay.Some? ==> Known(w, w.relay.value))
    && (t.pc == OnRelay(RelayUpHead(0)) || !(t.pc.OnRelay? && t.pc.relay.RelayUpHead?))
    && (t.pc == OnSsh(UpHead(0)) || !(t.pc.OnSsh? && t.pc.ssh.UpHead?))
    && (HoldsChild(t.pc) ==>
          t.child.Some? && t.child != w.relay && t.child.value >= floor && Known(w, t.child.value) && w.phases[t.child.value] == Alive)
  }

  /** A climb kills nothing older than `floor`, and the relay slot only ever gains something newer. */
  ghost predicate Kept(w: World, w': World, floor: nat) {
    && w'.child == w.child
    && |w.phases| <= |w'.phases|
    && (forall p: nat | p < |w.phases| && w.phases[p] == Alive :: w'.phases[p] == Alive)
    && (w'.relay == w.relay || (w'.relay.Some? && w'.relay.value >= floor))
  }

  lemma ClimbRelayStep(w: World, t: Thread, floor: nat)
    requires Climbing(w, t, floor) && t.pc.OnRelay?
    ensures var r := ThreadStep(w, t, OBLIGING);
      Climbing(r.0, r.1, floor) && Kept(w, r.0, floor) && Climb(r.1.pc) < Climb(t.pc)
  {
  }

  lemma ClimbSshStep(w: World, t: Thread, floor: nat)
    requires Climbing(w, t, floor) && t.pc.OnSsh? && t.pc != OnSsh(StoreChild)
    ensures var r := ThreadStep(w, t, OBLIGING);
      Climbing(r.0, r.1, floor) && Kept(w, r.0, floor) && Climb(r.1.pc) < Climb(t.pc)
  {
  }

  lemma ClimbStep(w: World, t: Thread, floor: nat)
    requires Climbing(w, t, floor) && t.pc != OnSsh(StoreChild)
    ensures var r := ThreadStep(w, t, OBLIGING);
      Climbing(r.0, r.1, floor) && Kept(w, r.0, floor) && Climb(r.1.pc) < Climb(t.pc)
  {
    if t.pc.OnRelay? {
      ClimbRelayStep(w, t, floor);
    } else if t.pc.OnSsh? {
      ClimbSshStep(w, t, floor);
    }
  }

  lemma {:induction false} DriveToStore(s: State, i: nat, floor: nat) returns (acts: seq<Action>)
    requires i < |s.threads| && Climbing(s.w, s.threads[i], floor)
    ensures OnlySteps(acts)
    ensures var s' := Run(Apply, s, acts);
      && |s'.threads| == |s.threads| && Climbing(s'.w, s'.threads[i], floor) && s'.threads[i].pc == OnSsh(StoreChild)
      && Kept(s.w, s'.w, floor)
      && forall j | 0 <= j < |s.threads| && j != i :: s'.threads[j] == s.threads[j]
    decreases Climb(s.threads[i].pc)
  {
    if s.threads[i].pc == OnSsh(StoreChild) {
      acts := [];
    } else {
      ClimbStep(s.w, s.threads[i], floor);
      var a := Step(i, OBLIGING);
      var rest := DriveToStore(Apply(s, a), i, floor);
      acts := [a] + rest;
      Concat(Apply, Spaced, s, [a], rest);
      One(Apply, Spaced, s, a);
    }
  }

  lemma StoreStep(s: State, i: nat) returns (s': State)
    requires i < |s.threads| && s.threads[i].pc == OnSsh(StoreChild)
    ensures s' == Apply(s, Step(i, OBLIGING))
    ensures s' == State(s.w.(child := s.threads[i].child),
                        s.threads[i := s.threads[i].(child := None, pc := OnWatch(WatchHead))], s.stops)
  {
    s' := Apply(s, Step(i, OBLIGING));
  }

  /** The two newest threads are about to store their own ssh, the elder's being `lost`. */
  ghost predicate BothStoring(s: State, lost: nat) {
    && |s.threads| >= 2
    && (var elder, young := s.threads[|s.threads| - 2], s.threads[|s.threads| - 1];
        && elder.pc == young.pc == OnSsh(StoreChild)
        && elder.child == Some(lost) && young.child.Some? && young.child != Some(lost)
        && elder.newRelay.None? && young.newRelay.None?)
    && (forall i | 0 <= i < |s.threads| - 2 :: Leaving(s.threads[i]))
    && Unreaped(s.w, lost) && s.w.relay != Some(lost)
  }

  /** The second store overwrites the first. */
  lemma SecondStoreLoses(s: State, lost: nat) returns (acts: seq<Action>)
    requires BothStoring(s, lost)
    ensures OnlySteps(acts) && !NothingLost(Run(Apply, s, acts))
  {
    var n := |s.threads|;
    var a, b := Step(n - 2, OBLIGING), Step(n - 1, OBLIGING);
    acts := [a] + [b];
    var s1 := StoreStep(s, n - 2);
    var s2 := StoreStep(s1, n - 1);
    Concat(Apply, Spaced, s, [a], [b]);
    One(Apply, Spaced, s, a);
    One(Apply, Spaced, s1, b);
    assert Unreaped(s2.w, lost);
    forall place ensures !Holds(s2, place, lost) {
      match place
      case LocalChild(i) => assert i < n - 2 ==> s2.threads[i] == s.threads[i] && Leaving(s.threads[i]);
      case LocalRelay(i) => assert i < n - 2 ==> s2.threads[i] == s.threads[i] && Leaving(s.threads[i]);
      case ChildSlot =>
      case RelaySlot =>
    }
  }

  lemma NewestInLoop(s: State)
    requires OwnedState(s) && !NobodyInLoop(s)
    ensures s.threads != [] && InLoop(Newest(s).pc)
  {
    var i :| 0 <= i < |s.threads| && InLoop(s.threads[i].pc);
    assert i < |s.threads| - 1 ==> Leaving(s.threads[i]);
  }

  lemma Joined(s: State, a: seq<Action>, b: seq<Action>, c: seq<Action>)
    requires OnlySteps(a) && OnlySteps(b) && OnlySteps(c)
    ensures Run(Apply, s, a + (b + c)) == Run(Apply, Run(Apply, Run(Apply, s, a), b), c)
    ensures OnlySteps(a + (b + c))
  {
    Concat(Apply, Spaced, s, a, b + c);
    Concat(Apply, Spaced, Run(Apply, s, a), b, c);
  }

  /** The state a `start` gives while the previous thread is in its loop: the two newest threads are both in
      theirs, and the rest are leaving. */
  ghost predicate Overlapping(s: State) {
    && |s.threads| >= 2
    && Sane(s.w, s.threads[|s.threads| - 2])
    && s.threads[|s.threads| - 1].pc == OnLoop(LoopHead)
    && s.threads[|s.threads| - 1].newRelay.None?
    && forall i | 0 <= i < |s.threads| - 2 :: Leaving(s.threads[i])
  }

  lemma StartOverlaps(s: State, useRelay: bool)
    requires OwnedState(s) && !s.w.running && !NobodyInLoop(s)
    ensures Overlapping(StartStep(s, useRelay))
  {
    NewestInLoop(s);
    var s0 := StartStep(s, useRelay);
    var elder := |s.threads| - 1;
    assert s0.threads[elder] == Newest(s) && s0.threads[|s.threads|] == NewThread(s.w, useRelay);
    forall i | 0 <= i < elder ensures Leaving(s0.threads[i]) { assert s0.threads[i] == s.threads[i]; }
  }

  /** The elder thread comes round and climbs to its store, then the younger climbs to its own. */
  lemma DriveBoth(s0: State) returns (acts: seq<Action>, lost: nat)
    requires Overlapping(s0)
    ensures OnlySteps(acts) && BothStoring(Run(Apply, s0, acts), lost)
  {
    var young := |s0.threads| - 1;
    var elder := young - 1;
    var round := DriveToHead(s0, elder);
    var s1 := Run(Apply, s0, round);
    var first := DriveToStore(s1, elder, |s1.w.phases|);
    var s2 := Run(Apply, s1, first);
    var second := DriveToStore(s2, young, |s2.w.phases|);
    var s3 := Run(Apply, s2, second);
    forall i | 0 <= i < elder ensures Leaving(s3.threads[i]) {
      assert s3.threads[i] == s0.threads[i];
    }
    lost := s2.threads[elder].child.value;
    acts := round + (first + second);
    Joined(s0, round, first, second);
  }

  lemma OverlappingLoses(s0: State) returns (acts: seq<Action>)
    requires Overlapping(s0)
    ensures OnlySteps(acts) && !NothingLost(Run(Apply, s0, acts))
  {
    var drive, lost := DriveBoth(s0);
    var stores := SecondStoreLoses(Run(Apply, s0, drive), lost);
    acts := drive + (stores + []);
    Joined(s0, drive, stores, []);
    assert stores + [] == stores;
  }

  /** If a `start` takes effect while the previous thread is in its loop, some continuation made of
      thread steps alone leaves a live process that no place holds. */
  lemma OverlapLoses(s: State, useRelay: bool) returns (acts: seq<Action>)
    requires OwnedState(s) && !s.w.running && !NobodyInLoop(s)
    ensures OnlySteps(acts) && !NothingLost(Run(Apply, StartStep(s, useRelay), acts))
  {
    StartOverlaps(s, useRelay);
    acts := OverlappingLoses(StartStep(s, useRelay));
  }

  /** Exactly when `start` may take effect: from any state reached so far, nothing is ever lost in any
      continuation that starts no further overlapping thread if and only if no thread is in its loop. */
  lemma StartKeepsOwnershipIff(s: State, useRelay: bool)
    requires SpacedReachable(s) && !s.w.running
    ensures NobodyInLoop(s) <==>
      forall acts :: Allowed(Apply, Spaced, StartStep(s, useRelay), acts) ==> NothingLost(Run(Apply, StartStep(s, useRelay), acts))
  {
    var before :| Allowed(Apply, Spaced, INIT, before) && s == Run(Apply, INIT, before);
    var s' := StartStep(s, useRelay);
    if NobodyInLoop(s) {
      var start := [Start(useRelay)];
      One(Apply, Spaced, s, Start(useRelay));
      Concat(Apply, Spaced, INIT, before, start);
      forall acts | Allowed(Apply, Spaced, s', acts) ensures NothingLost(Run(Apply, s', acts)) {
        Concat(Apply, Spaced, INIT, before + start, acts);
        OneOwner(Run(Apply, s', acts));
      }
    } else {
      ReachableOwned(s);
      var acts := OverlapLoses(s, useRelay);
      StepsAreSpaced(s', acts);
    }
  }

  /** One run that gets there: a start, and a `stop()` that has cleared `running` and nothing more. */
  function StopTooSoon(): seq<Action> { [Start(false), StopCall, StopStep(0)] }

  lemma StopTooSoonState()
    ensures var s := Run(Apply, INIT, StopTooSoon());
      SpacedReachable(s) && !s.w.running && |s.threads| == 1 && s.threads[0].pc == OnLoop(LoopHead)
  {
    var a, b, c := Start(false), StopCall, StopStep(0);
    var s1 := StartStep(INIT, false);
    var s2 := Apply(s1, b);
    var s3 := Apply(s2, c);
    assert StopTooSoon() == ([a] + [b]) + [c];
    One(Apply, Spaced, INIT, a);
    One(Apply, Spaced, s1, b);
    One(Apply, Spaced, s2, c);
    Concat(Apply, Spaced, INIT, [a], [b]);
    Concat(Apply, Spaced, INIT, [a] + [b], [c]);
    assert s3 == Run(Apply, INIT, StopTooSoon());
  }

  /** So the loss does happen: start, `stop()`, start again at once, and thread steps. */
  lemma RestartTooSoonLoses(useRelay: bool) returns (acts: seq<Action>)
    ensures OnlySteps(acts)
    ensures !NothingLost(Run(Apply, StartStep(Run(Apply, INIT, StopTooSoon()), useRelay), acts))
  {
    var s := Run(Apply, INIT, StopTooSoon());
    StopTooSoonState();
    ReachableOwned(s);
    assert !NobodyInLoop(s) by { assert InLoop(s.threads[0].pc); }
    acts := OverlapLoses(s, useRelay);
  }
}
