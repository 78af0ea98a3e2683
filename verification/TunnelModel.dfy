/** The tunnel supervisor (`src-tauri/src/tunnel.rs`) as an interleaved step machine.

    Four cells are shared by the supervisor thread and by every caller of `stop()`: `running`,
    `status`, the child slot and the relay slot. Each critical section, each spawn, each sleep and
    each probe of the thread is one atomic step; `stop()` is four atomic steps. Processes may die
    at any time and time may pass at any time. */
module TunnelModel {
  import opened Runs
  import opened Wrappers

  datatype Culprit = RelayProgram | SshProgram
  datatype Reason = RelayNotUp | RetryIn(secs: nat)
  datatype Status = Stopped | Starting | Connected | Reconnecting(reason: Reason) | Error(culprit: Culprit)

  datatype Kind = Ssh | Relay

  /** `Exited` is a dead process nobody has waited for yet; `Reaped` means `wait` or `try_wait` saw it end. */
  datatype Phase = Alive | Exited | Reaped

  /** The shared cells, the process table (a pid is an index) and the clock in milliseconds. */
  datatype World = World(
    running: bool,
    status: Status,
    child: Option<nat>,
    relay: Option<nat>,
    kinds: seq<Kind>,
    phases: seq<Phase>,
    now: nat)

  datatype What = Spawned(kind: Kind) | Greeted | Published(status: Status)
  datatype Event = Event(what: What, at: nat)

  /** Where the supervisor thread is. A counter argument is the index of the enclosing `for` loop. */
  datatype Pc = OnLoop(loop: LoopPc) | OnRelay(relay: RelayPc) | OnSsh(ssh: SshPc) | OnWatch(watch: WatchPc)
    | OnLeave(leave: LeavePc)

  datatype LoopPc = LoopHead | SetStarting | AfterAttempt | SetRetry | RetryHead(i: nat) | RetrySleep(i: nat)

  datatype RelayPc = RelayCheck | RelaySpawn | RelayStore | RelayUpHead(i: nat) | RelayProbe(i: nat) | RelaySleep(i: nat)
    | RelayDown

  datatype SshPc = SshSpawn | UpHead(i: nat) | UpProbe(i: nat) | UpTryWait(i: nat) | UpSleep(i: nat) | DropChild
    | SetConnected | StoreChild

  datatype WatchPc = WatchHead | WatchSleep | WatchDead | WatchProbe | WatchReap

  datatype LeavePc = ExitReap | ExitPublish | Done | FailPublish(culprit: Culprit) | FailClear | Aborted

  /** A supervisor thread: its locals, the instant it began and everything it did so far. */
  datatype Thread = Thread(
    pc: Pc,
    child: Option<nat>,
    newRelay: Option<nat>,
    backoff: nat,
    useRelay: bool,
    born: nat,
    log: seq<Event>)

  datatype StopPc = ClearRunning | TakeChild | TakeRelay | PublishStopped | Returned

  /** Any number of threads ever started and any number of `stop()` calls ever made. */
  datatype State = State(w: World, threads: seq<Thread>, stops: seq<StopPc>)

  /** What the outside world answers to the thread's next step: whether a spawn or a TCP probe
      succeeds, and the bytes a SOCKS greeting brought back (`None` when it could not be sent). */
  datatype Env = Env(ok: bool, reply: Option<seq<nat>>)

  datatype Action =
    | Start(useRelay: bool)
    | Step(thread: nat, env: Env)
    | StopCall
    | StopStep(caller: nat)
    | Die(pid: nat)
    | Tick(ms: nat)

  const TRIES: nat := 30
  const FIRST_BACKOFF: nat := 5
  const MAX_BACKOFF: nat := 60
  const RELAY_POLL: nat := 400
  const UP_POLL: nat := 500
  const WATCH_POLL: nat := 5000

  function Millis(secs: nat): nat { 1000 * secs }

  function Min(a: nat, b: nat): nat { if a < b then a else b }

  /** The greeting counts as answered when two bytes arrive and the first is SOCKS version 5. */
  predicate SocksHealthy(reply: Option<seq<nat>>) {
    reply.Some? && |reply.value| >= 2 && reply.value[0] == 5
  }

  predicate Known(w: World, p: nat) { p < |w.phases| }

  function Reap(w: World, p: nat): World {
    if Known(w, p) then w.(phases := w.phases[p := Reaped]) else w
  }

  /** `try_wait`: reports whether the process has ended, and reaps it if so. */
  predicate Ended(w: World, p: nat) { Known(w, p) && w.phases[p] != Alive }

  function TryWait(w: World, p: nat): World { if Ended(w, p) then Reap(w, p) else w }

  function TakeChildSlot(w: World): World {
    match w.child
    case None => w
    case Some(p) => Reap(w, p).(child := None)
  }

  function TakeRelaySlot(w: World): World {
    match w.relay
    case None => w
    case Some(p) => Reap(w, p).(relay := None)
  }

  function Spawn(w: World, k: Kind): World {
    w.(kinds := w.kinds + [k], phases := w.phases + [Alive])
  }

  function Elapse(w: World, ms: nat): World { w.(now := w.now + ms) }

  function Note(w: World, t: Thread, what: What): Thread { t.(log := t.log + [Event(what, w.now)]) }

  function Publish(w: World, t: Thread, s: Status, next: Pc): (World, Thread) {
    (w.(status := s), Note(w, t, Published(s)).(pc := next))
  }

  /** The thread can still come back to a spawn; otherwise it is on a path that only leaves. */
  predicate InLoop(pc: Pc) { !pc.OnLeave? }

  /** The thread has returned. */
  predicate Finished(pc: Pc) { pc == OnLeave(Done) || pc == OnLeave(Aborted) }

  /** The head and the tail of the `while running` loop. */
  function LoopStep(w: World, t: Thread, at: LoopPc): (World, Thread) {
    match at
    case LoopHead => (w, t.(pc := if w.running then OnLoop(SetStarting) else OnLeave(ExitReap)))
    case SetStarting => Publish(w, t, Starting, OnRelay(RelayCheck))
    case AfterAttempt => (w, t.(pc := if w.running then OnLoop(SetRetry) else OnLeave(ExitReap)))
    case SetRetry => Publish(w, t, Reconnecting(RetryIn(t.backoff)), OnLoop(RetryHead(0)))
    case RetryHead(i) =>
      if i < t.backoff && w.running then (w, t.(pc := OnLoop(RetrySleep(i))))
      else (w, t.(backoff := Min(t.backoff * 2, MAX_BACKOFF), pc := OnLoop(LoopHead)))
    case RetrySleep(i) => (Elapse(w, Millis(1)), t.(pc := OnLoop(RetryHead(i + 1))))
  }

  /** Bringing the relay up, unless one is already running. */
  function RelayStep(w: World, t: Thread, at: RelayPc, env: Env): (World, Thread) {
    match at
    case RelayCheck =>
      if !t.useRelay then (w, t.(pc := OnSsh(SshSpawn)))
      else if w.relay.None? then (w, t.(pc := OnRelay(RelaySpawn)))
      else (TryWait(w, w.relay.value),
            t.(pc := if Ended(w, w.relay.value) then OnRelay(RelaySpawn) else OnSsh(SshSpawn)))
    case RelaySpawn =>
      if env.ok then
        (Spawn(w, Relay), Note(w, t, Spawned(Relay)).(newRelay := Some(|w.phases|), pc := OnRelay(RelayStore)))
      else (w, t.(pc := OnLeave(FailPublish(RelayProgram))))
    case RelayStore => (w.(relay := t.newRelay), t.(newRelay := None, pc := OnRelay(RelayUpHead(0))))
    case RelayUpHead(i) => (w, t.(pc := OnRelay(if i < TRIES && w.running then RelayProbe(i) else RelayDown)))
    case RelayProbe(i) => (w, t.(pc := if env.ok then OnSsh(SshSpawn) else OnRelay(RelaySleep(i))))
    case RelaySleep(i) => (Elapse(w, RELAY_POLL), t.(pc := OnRelay(RelayUpHead(i + 1))))
    case RelayDown => Publish(w, t, Reconnecting(RelayNotUp), OnSsh(SshSpawn))
  }

  /** Spawning ssh and waiting for its forward, the handle local to the thread until it is stored or dropped. */
  function SshStep(w: World, t: Thread, at: SshPc, env: Env): (World, Thread) {
    match at
    case SshSpawn =>
      if env.ok then (Spawn(w, Ssh), Note(w, t, Spawned(Ssh)).(child := Some(|w.phases|), pc := OnSsh(UpHead(0))))
      else (w, t.(pc := OnLeave(FailPublish(SshProgram))))
    case UpHead(i) => (w, t.(pc := OnSsh(if i < TRIES && w.running then UpProbe(i) else DropChild)))
    case UpProbe(i) =>
      if SocksHealthy(env.reply) then (w, Note(w, t, Greeted).(pc := OnSsh(SetConnected)))
      else (w, t.(pc := OnSsh(UpTryWait(i))))
    case UpTryWait(i) =>
      if t.child.None? then (w, t.(pc := OnSsh(UpSleep(i))))
      else (TryWait(w, t.child.value), t.(pc := OnSsh(if Ended(w, t.child.value) then DropChild else UpSleep(i))))
    case UpSleep(i) => (Elapse(w, UP_POLL), t.(pc := OnSsh(UpHead(i + 1))))
    case DropChild =>
      if t.child.None? then (w, t.(pc := OnLoop(AfterAttempt)))
      else (Reap(w, t.child.value), t.(child := None, pc := OnLoop(AfterAttempt)))
    case SetConnected => Publish(w, t.(backoff := FIRST_BACKOFF), Connected, OnSsh(StoreChild))
    case StoreChild => (w.(child := t.child), t.(child := None, pc := OnWatch(WatchHead)))
  }

  /** The connected session: the handle is in the slot, where it is watched and finally taken. */
  function WatchStep(w: World, t: Thread, at: WatchPc, env: Env): (World, Thread) {
    match at
    case WatchHead => (w, t.(pc := OnWatch(if w.running then WatchSleep else WatchReap)))
    case WatchSleep => (Elapse(w, WATCH_POLL), t.(pc := OnWatch(WatchDead)))
    case WatchDead =>
      if w.child.None? then (w, t.(pc := OnWatch(WatchReap)))
      else (TryWait(w, w.child.value), t.(pc := OnWatch(if Ended(w, w.child.value) then WatchReap else WatchProbe)))
    case WatchProbe =>
      if SocksHealthy(env.reply) then (w, Note(w, t, Greeted).(pc := OnWatch(WatchHead)))
      else (w, t.(pc := OnWatch(WatchReap)))
    case WatchReap => (TakeChildSlot(w), t.(pc := OnLoop(AfterAttempt)))
  }

  /** The normal exit and the two error exits. */
  function LeaveStep(w: World, t: Thread, at: LeavePc): (World, Thread) {
    match at
    case ExitReap => (TakeRelaySlot(w), t.(pc := OnLeave(ExitPublish)))
    case ExitPublish => Publish(w, t, Stopped, OnLeave(Done))
    case FailPublish(c) => Publish(w, t, Error(c), OnLeave(FailClear))
    case FailClear => (w.(running := false), t.(pc := OnLeave(Aborted)))
    case Done => (w, t)
    case Aborted => (w, t)
  }

  /** One atomic step of the supervisor thread. */
  function ThreadStep(w: World, t: Thread, env: Env): (World, Thread) {
    match t.pc
    case OnLoop(at) => LoopStep(w, t, at)
    case OnRelay(at) => RelayStep(w, t, at, env)
    case OnSsh(at) => SshStep(w, t, at, env)
    case OnWatch(at) => WatchStep(w, t, at, env)
    case OnLeave(at) => LeaveStep(w, t, at)
  }

  /** One atomic step of a `stop()` call. */
  function StopCallStep(w: World, pc: StopPc): (World, StopPc) {
    match pc
    case ClearRunning => (w.(running := false), TakeChild)
    case TakeChild => (TakeChildSlot(w), TakeRelay)
    case TakeRelay => (TakeRelaySlot(w), PublishStopped)
    case PublishStopped => (w.(status := Stopped), Returned)
    case Returned => (w, Returned)
  }

  /** A process of its own accord. */
  function DieStep(w: World, p: nat): World {
    if Known(w, p) && w.phases[p] == Alive then w.(phases := w.phases[p := Exited]) else w
  }

  function NewThread(w: World, useRelay: bool): Thread {
    Thread(OnLoop(LoopHead), None, None, FIRST_BACKOFF, useRelay, w.now, [])
  }

  /** `start`: swaps `running` to true and, if it was false, spawns a supervisor thread. */
  function StartStep(s: State, useRelay: bool): State {
    if s.w.running then s
    else s.(w := s.w.(running := true), threads := s.threads + [NewThread(s.w, useRelay)])
  }

  function Apply(s: State, a: Action): State {
    match a
    case Start(useRelay) => StartStep(s, useRelay)
    case Step(i, env) =>
      if i < |s.threads| then
        var (w, t) := ThreadStep(s.w, s.threads[i], env);
        s.(w := w, threads := s.threads[i := t])
      else s
    case StopCall => s.(stops := s.stops + [ClearRunning])
    case StopStep(j) =>
      if j < |s.stops| then
        var (w, pc) := StopCallStep(s.w, s.stops[j]);
        s.(w := w, stops := s.stops[j := pc])
      else s
    case Die(p) => s.(w := DieStep(s.w, p))
    case Tick(ms) => s.(w := Elapse(s.w, ms))
  }

  const INIT: State := State(World(false, Stopped, None, None, [], [], 0), [], [])

  predicate NobodyInLoop(s: State) { forall i | 0 <= i < |s.threads| :: !InLoop(s.threads[i].pc) }

  predicate AllFinished(s: State) { forall i | 0 <= i < |s.threads| :: Finished(s.threads[i].pc) }

  /** `start` takes effect only when no earlier thread is still in its loop. */
  predicate Spaced(s: State, a: Action) { a.Start? && !s.w.running ==> NobodyInLoop(s) }

  /** `start` takes effect only when every earlier thread has returned. */
  predicate Sequential(s: State, a: Action) { a.Start? && !s.w.running ==> AllFinished(s) }

  /** Reached from the initial state by starts that never overlap an earlier thread's loop. */
  ghost predicate SpacedReachable(s: State) {
    exists acts :: Allowed(Apply, Spaced, INIT, acts) && s == Run(Apply, INIT, acts)
  }

  /** Reached from the initial state by starts that always wait for the earlier thread to return. */
  ghost predicate SequentialReachable(s: State) {
    exists acts :: Allowed(Apply, Sequential, INIT, acts) && s == Run(Apply, INIT, acts)
  }

  /** Reached from the initial state in any way at all. */
  ghost predicate AnyReachable(s: State) { exists acts :: s == Run(Apply, INIT, acts) }
}
