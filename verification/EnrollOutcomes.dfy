/** What becomes of a request, traced to the actions of the run: who is issued a certificate and who is not, with
    which serial, and who is turned away by the limiter. */
module EnrollOutcomes {
  import opened EnrollConservation
  import opened EnrollModel
  import opened EnrollSerials
  import opened RateLimit
  import opened Runs
  import opened Wrappers

  function After(cfg: Config, file: string, clock: real, acts: seq<Action>): State {
    Run(Stepper(cfg), Start(file, clock), acts)
  }

  predicate Is(s: State, w: nat, pc: Pc) { w < |s.workers| && s.workers[w] == pc }

  // ---- Certificates ----

  /** The action is the request's step out of waiting for `ssh-keygen`, which succeeded or not. */
  predicate SigningEnds(s: State, a: Action, w: nat, c: Caller, n: int, succeeded: bool) {
    a.Step? && a.w == w && a.signed == succeeded && Is(s, w, Signing(c, n))
  }

  /** Some action of the run was. */
  ghost predicate SignedInRun(
    cfg: Config, file: string, clock: real, acts: seq<Action>, w: nat, c: Caller, n: int, succeeded: bool)
  {
    exists k | 0 <= k < |acts| :: SigningEnds(After(cfg, file, clock, acts[..k]), acts[k], w, c, n, succeeded)
  }

  lemma StepOutcome(cfg: Config, s: State, a: Action, w: nat, c: Caller, n: int)
    ensures Is(Apply(cfg, s, a), w, Issued(c, n)) <==> Is(s, w, Issued(c, n)) || SigningEnds(s, a, w, c, n, true)
    ensures Is(Apply(cfg, s, a), w, Failed(c, n)) <==> Is(s, w, Failed(c, n)) || SigningEnds(s, a, w, c, n, false)
  {
    match a
    case Arrive(r) =>
    case Step(v, now, signed) =>
      if v < |s.workers| {
        assert s.workers[v := s.workers[v]] == s.workers;
        OthersStay(cfg, s, v, now, signed);
      }
  }

  lemma OthersStay(cfg: Config, s: State, v: nat, now: real, signed: bool)
    requires v < |s.workers|
    ensures var t := WorkerStep(cfg, s, v, now, signed);
      |t.workers| == |s.workers| && t.workers == s.workers[v := t.workers[v]]
  {
    assert s.workers[v := s.workers[v]] == s.workers;
  }

  lemma SignedSoFar(
    cfg: Config, file: string, clock: real, acts: seq<Action>, w: nat, c: Caller, n: int, succeeded: bool)
    requires acts != []
    ensures var m := |acts| - 1;
      SignedInRun(cfg, file, clock, acts, w, c, n, succeeded) <==>
        || SignedInRun(cfg, file, clock, acts[..m], w, c, n, succeeded)
        || SigningEnds(After(cfg, file, clock, acts[..m]), acts[m], w, c, n, succeeded)
  {
    var m := |acts| - 1;
    forall k | 0 <= k < m ensures acts[..m][..k] == acts[..k] && acts[..m][k] == acts[k] {
    }
    if SignedInRun(cfg, file, clock, acts[..m], w, c, n, succeeded) {
      var k :| 0 <= k < m &&
        SigningEnds(After(cfg, file, clock, acts[..m][..k]), acts[..m][k], w, c, n, succeeded);
      assert SigningEnds(After(cfg, file, clock, acts[..k]), acts[k], w, c, n, succeeded);
    }
    if SignedInRun(cfg, file, clock, acts, w, c, n, succeeded) {
      var k :| 0 <= k < |acts| && SigningEnds(After(cfg, file, clock, acts[..k]), acts[k], w, c, n, succeeded);
      if k < m {
        assert SigningEnds(After(cfg, file, clock, acts[..m][..k]), acts[..m][k], w, c, n, succeeded);
      }
    }
  }

  /** Over every run: a request is issued a certificate with a serial exactly if `ssh-keygen` succeeded for it
      while it held that serial, and has failed with one exactly if `ssh-keygen` failed. */
  lemma {:induction false} IssuedIffSigned(
    cfg: Config, file: string, clock: real, acts: seq<Action>, w: nat, c: Caller, n: int)
    ensures Is(After(cfg, file, clock, acts), w, Issued(c, n)) <==>
      SignedInRun(cfg, file, clock, acts, w, c, n, true)
    ensures Is(After(cfg, file, clock, acts), w, Failed(c, n)) <==>
      SignedInRun(cfg, file, clock, acts, w, c, n, false)
  {
    if acts != [] {
      var m := |acts| - 1;
      IssuedIffSigned(cfg, file, clock, acts[..m], w, c, n);
      StepOutcome(cfg, After(cfg, file, clock, acts[..m]), acts[m], w, c, n);
      SignedSoFar(cfg, file, clock, acts, w, c, n, true);
      SignedSoFar(cfg, file, clock, acts, w, c, n, false);
    }
  }

  // ---- Counted ----

  predicate EndsSigning(s: State, a: Action, succeeded: bool) {
    a.Step? && a.signed == succeeded && a.w < |s.workers| && s.workers[a.w].Signing?
  }

  /** How many signings of the run succeeded, or failed. */
  function Signings(cfg: Config, file: string, clock: real, acts: seq<Action>, succeeded: bool): nat {
    if acts == [] then 0
    else
      var m := |acts| - 1;
      Signings(cfg, file, clock, acts[..m], succeeded) +
        if EndsSigning(After(cfg, file, clock, acts[..m]), acts[m], succeeded) then 1 else 0
  }

  function IsIssued(): Pc -> bool { (pc: Pc) => pc.Issued? }

  function IsFailed(): Pc -> bool { (pc: Pc) => pc.Failed? }

  lemma StepOutcomes(cfg: Config, s: State, a: Action)
    ensures var t := Apply(cfg, s, a);
      && Count(t.workers, IsIssued()) == Count(s.workers, IsIssued()) + EnrollConservation.One(EndsSigning(s, a, true))
      && Count(t.workers, IsFailed()) == Count(s.workers, IsFailed()) + EnrollConservation.One(EndsSigning(s, a, false))
  {
    match a
    case Arrive(r) =>
      CountMore(s.workers, IsIssued(), Arrival(cfg, r));
      CountMore(s.workers, IsFailed(), Arrival(cfg, r));
    case Step(v, now, signed) =>
      if v < |s.workers| {
        var pc := WorkerStep(cfg, s, v, now, signed).workers[v];
        OthersStay(cfg, s, v, now, signed);
        CountPut(s.workers, IsIssued(), v, pc);
        CountPut(s.workers, IsFailed(), v, pc);
      }
  }

  /** Over every run: as many certificates as signings that succeeded, and as many failures as signings that failed. */
  lemma {:induction false} OutcomesAreSignings(cfg: Config, file: string, clock: real, acts: seq<Action>)
    ensures var s := After(cfg, file, clock, acts);
      && Count(s.workers, IsIssued()) == Signings(cfg, file, clock, acts, true)
      && Count(s.workers, IsFailed()) == Signings(cfg, file, clock, acts, false)
  {
    if acts != [] {
      var m := |acts| - 1;
      OutcomesAreSignings(cfg, file, clock, acts[..m]);
      StepOutcomes(cfg, After(cfg, file, clock, acts[..m]), acts[m]);
    }
  }

  lemma {:induction false} SameCounts(workers: seq<Pc>)
    ensures Count(workers, (pc: Pc) => pc.Issued?) == Count(workers, IsIssued())
    ensures Count(workers, (pc: Pc) => pc.Failed?) == Count(workers, IsFailed())
  {
    if workers != [] { SameCounts(workers[..|workers| - 1]); }
  }

  /** When no request is under way, the serial has advanced by the signings that succeeded and those that failed. */
  lemma AdvanceIsSignings(cfg: Config, file: string, clock: real, acts: seq<Action>)
    requires forall w | 0 <= w < |After(cfg, file, clock, acts).workers| ::
      Done(After(cfg, file, clock, acts).workers[w])
    ensures var s := After(cfg, file, clock, acts);
      Stored(s.file) - Stored(file) ==
        Signings(cfg, file, clock, acts, true) + Signings(cfg, file, clock, acts, false)
  {
    var workers := After(cfg, file, clock, acts).workers;
    forall w | 0 <= w < |Run(Stepper(cfg), Start(file, clock), acts).workers|
      ensures Done(Run(Stepper(cfg), Start(file, clock), acts).workers[w])
    {
      assert Done(workers[w]);
    }
    AdvanceIsIssuedPlusFailed(cfg, file, clock, acts);
    SameCounts(workers);
    OutcomesAreSignings(cfg, file, clock, acts);
  }

  // ---- Serials ----

  /** The action is the request's step that read the file and took the serial after the one there. */
  predicate Takes(s: State, a: Action, w: nat, n: int, t: State) {
    && a.Step? && a.w == w && w < |s.workers| && s.holder == Some(w)
    && !HasSerial(s.workers[w]) && n == Stored(s.file) + 1 && t.taken == s.taken + [n]
  }

  ghost predicate TakenInRun(cfg: Config, file: string, clock: real, acts: seq<Action>, w: nat, n: int) {
    exists k | 0 <= k < |acts| ::
      Takes(After(cfg, file, clock, acts[..k]), acts[k], w, n, After(cfg, file, clock, acts[..k + 1]))
  }

  lemma StepTakes(cfg: Config, s: State, a: Action, w: nat)
    requires OneHolder(s)
    ensures var t := Apply(cfg, s, a);
      w < |t.workers| && HasSerial(t.workers[w]) ==>
        || (w < |s.workers| && HasSerial(s.workers[w]) && s.workers[w].serial == t.workers[w].serial)
        || Takes(s, a, w, t.workers[w].serial, t)
  {
    match a
    case Arrive(r) =>
    case Step(v, now, signed) =>
      if v < |s.workers| {
        OthersStay(cfg, s, v, now, signed);
        assert Critical(s.workers[v]) <==> s.holder == Some(v);
      }
  }

  lemma TakenBefore(cfg: Config, file: string, clock: real, acts: seq<Action>, w: nat, n: int)
    requires acts != [] && TakenInRun(cfg, file, clock, acts[..|acts| - 1], w, n)
    ensures TakenInRun(cfg, file, clock, acts, w, n)
  {
    var front := acts[..|acts| - 1];
    var k :| 0 <= k < |front| &&
      Takes(After(cfg, file, clock, front[..k]), front[k], w, n, After(cfg, file, clock, front[..k + 1]));
    assert front[..k] == acts[..k] && front[..k + 1] == acts[..k + 1] && front[k] == acts[k];
  }

  /** Over every run: a request's serial is the one it took itself, holding the lock, as the successor of what the
      file then said; the certificate issued to it has no other. */
  lemma {:induction false} SerialIsItsOwn(cfg: Config, file: string, clock: real, acts: seq<Action>, w: nat)
    requires w < |After(cfg, file, clock, acts).workers| && HasSerial(After(cfg, file, clock, acts).workers[w])
    ensures TakenInRun(cfg, file, clock, acts, w, After(cfg, file, clock, acts).workers[w].serial)
  {
    if acts != [] {
      var m := |acts| - 1;
      var s, t := After(cfg, file, clock, acts[..m]), After(cfg, file, clock, acts);
      SerialsStrictlyIncrease(cfg, file, clock, acts[..m]);
      StepTakes(cfg, s, acts[m], w);
      if w < |s.workers| && HasSerial(s.workers[w]) && s.workers[w].serial == t.workers[w].serial {
        SerialIsItsOwn(cfg, file, clock, acts[..m], w);
        TakenBefore(cfg, file, clock, acts, w, t.workers[w].serial);
      } else {
        assert acts[..m + 1] == acts;
      }
    }
  }

  // ---- The limiter ----

  /** The action is the step that counts the request, and whether the subject's last hour had room for it. */
  predicate Counts(s: State, a: Action, w: nat, c: Caller) { a.Step? && a.w == w && Is(s, w, Cleared(c)) }

  /** A cleared request is turned away, with 429, exactly if its subject has had the limit of admissions in the closed
      hour before now; otherwise it goes on and is logged, under its subject, at this second. */
  lemma LimiterDecides(cfg: Config, s: State, a: Action, w: nat, c: Caller)
    requires Counts(s, a, w, c)
    ensures var t := Apply(cfg, s, a);
      if |LastHour(s.log, c.subject, a.now)| < cfg.limit
      then Is(t, w, Opening(c)) && t.log == s.log + [Admission(c.subject, a.now)]
      else Is(t, w, Denied(429)) && t.log == s.log
  {
    WithinCounts(s.log, c.subject, a.now);
  }

  ghost predicate OverLimit(cfg: Config, s: State, a: Action, w: nat) {
    a.Step? && a.w == w && w < |s.workers| && s.workers[w].Cleared?
    && |LastHour(s.log, s.workers[w].caller.subject, a.now)| >= cfg.limit
  }

  ghost predicate OverLimitInRun(cfg: Config, file: string, clock: real, acts: seq<Action>, w: nat) {
    exists k | 0 <= k < |acts| :: OverLimit(cfg, After(cfg, file, clock, acts[..k]), acts[k], w)
  }

  lemma StepOverLimit(cfg: Config, s: State, a: Action, w: nat)
    ensures Is(Apply(cfg, s, a), w, Denied(429)) <==> Is(s, w, Denied(429)) || OverLimit(cfg, s, a, w)
  {
    match a
    case Arrive(r) =>
      StatusOfArrival(cfg, r);
    case Step(v, now, signed) =>
      if v < |s.workers| {
        assert s.workers[v := s.workers[v]] == s.workers;
        OthersStay(cfg, s, v, now, signed);
        if s.workers[v].Cleared? { LimiterDecides(cfg, s, a, v, s.workers[v].caller); }
      }
  }

  lemma StatusOfArrival(cfg: Config, r: Request)
    ensures Arrival(cfg, r) != Denied(429)
  {
  }

  lemma OverLimitStill(cfg: Config, file: string, clock: real, acts: seq<Action>, front: seq<Action>, w: nat)
    requires acts != [] && front == acts[..|acts| - 1] && OverLimitInRun(cfg, file, clock, front, w)
    ensures OverLimitInRun(cfg, file, clock, acts, w)
  {
    var k :| 0 <= k < |front| && OverLimit(cfg, After(cfg, file, clock, front[..k]), front[k], w);
    assert front[..k] == acts[..k] && front[k] == acts[k];
  }

  lemma OverLimitNow(cfg: Config, file: string, clock: real, acts: seq<Action>, front: seq<Action>, w: nat)
    requires acts != [] && front == acts[..|acts| - 1] && OverLimitInRun(cfg, file, clock, acts, w)
    ensures OverLimitInRun(cfg, file, clock, front, w) || OverLimit(cfg, After(cfg, file, clock, front), acts[|front|], w)
  {
    var k :| 0 <= k < |acts| && OverLimit(cfg, After(cfg, file, clock, acts[..k]), acts[k], w);
    if k < |front| {
      assert front[..k] == acts[..k] && front[k] == acts[k];
    }
  }

  /** Over every run: 429 goes exactly to the requests that were counted when their subject had used up its hour. */
  lemma {:induction false} TurnedAwayIff(cfg: Config, file: string, clock: real, acts: seq<Action>, w: nat)
    ensures Is(After(cfg, file, clock, acts), w, Denied(429)) <==> OverLimitInRun(cfg, file, clock, acts, w)
  {
    if acts != [] {
      var m := |acts| - 1;
      TurnedAwayIff(cfg, file, clock, acts[..m], w);
      StepOverLimit(cfg, After(cfg, file, clock, acts[..m]), acts[m], w);
      if OverLimitInRun(cfg, file, clock, acts[..m], w) { OverLimitStill(cfg, file, clock, acts, acts[..m], w); }
      if OverLimitInRun(cfg, file, clock, acts, w) { OverLimitNow(cfg, file, clock, acts, acts[..m], w); }
    }
  }

  // ---- Nothing gets stuck ----

  /** How many steps of its own are left to a request that need not wait. */
  function StepsLeft(pc: Pc): nat {
    match pc
    case Cleared(_) => 7
    case Opening(_) => 6
    case Holding(_) => 5
    case Counted(_, _) => 4
    case Emptied(_, _) => 3
    case Written(_, _) => 2
    case Signing(_, _) => 1
    case Denied(_) => 0
    case Issued(_, _) => 0
    case Failed(_, _) => 0
  }

  predicate LockFreeFor(s: State, w: nat) { s.holder == None || s.holder == Some(w) }

  lemma StepAdvances(cfg: Config, s: State, w: nat, now: real, signed: bool)
    requires w < |s.workers| && OneHolder(s) && LockFreeFor(s, w)
    ensures var t := WorkerStep(cfg, s, w, now, signed);
      && |t.workers| == |s.workers| && OneHolder(t) && LockFreeFor(t, w)
      && (Done(s.workers[w]) ==> t.workers[w] == s.workers[w])
      && (!Done(s.workers[w]) ==> StepsLeft(t.workers[w]) < StepsLeft(s.workers[w]))
  {
    assert Critical(s.workers[w]) <==> s.holder == Some(w);
  }

  predicate OwnSteps(acts: seq<Action>, w: nat) { forall k | 0 <= k < |acts| :: acts[k].Step? && acts[k].w == w }

  lemma {:induction false} StepsRunOut(cfg: Config, s: State, acts: seq<Action>, w: nat)
    requires w < |s.workers| && OneHolder(s) && LockFreeFor(s, w) && OwnSteps(acts, w)
    ensures var t := Run(Stepper(cfg), s, acts);
      && |t.workers| == |s.workers| && OneHolder(t) && LockFreeFor(t, w)
      && (Done(t.workers[w]) || StepsLeft(t.workers[w]) + |acts| <= StepsLeft(s.workers[w]))
  {
    if acts != [] {
      var m := |acts| - 1;
      StepsRunOut(cfg, s, acts[..m], w);
      StepAdvances(cfg, Run(Stepper(cfg), s, acts[..m]), w, acts[m].now, acts[m].signed);
    }
  }

  /** After any run: a request that finds the lock free, or holds it, is over within seven steps of its own. */
  lemma OverWithinSeven(cfg: Config, file: string, clock: real, acts: seq<Action>, own: seq<Action>, w: nat)
    requires w < |After(cfg, file, clock, acts).workers| && LockFreeFor(After(cfg, file, clock, acts), w)
    requires OwnSteps(own, w) && |own| >= 7
    ensures var t := Run(Stepper(cfg), After(cfg, file, clock, acts), own);
      w < |t.workers| && Done(t.workers[w])
  {
    SerialsStrictlyIncrease(cfg, file, clock, acts);
    StepsRunOut(cfg, After(cfg, file, clock, acts), own, w);
  }
}
