/** What comes in and what goes out: admissions, serials and certificates balance over every run. */
module EnrollConservation {
  import opened EnrollModel
  import opened EnrollSerials
  import opened RateLimit
  import opened Runs

  function Count(workers: seq<Pc>, which: Pc -> bool): nat {
    if workers == [] then 0
    else Count(workers[..|workers| - 1], which) + if which(workers[|workers| - 1]) then 1 else 0
  }

  lemma {:induction false} CountPut(workers: seq<Pc>, which: Pc -> bool, w: nat, pc: Pc)
    requires w < |workers|
    ensures Count(workers[w := pc], which) ==
      Count(workers, which) - (if which(workers[w]) then 1 else 0) + (if which(pc) then 1 else 0)
  {
    var m := |workers| - 1;
    if w == m {
      assert workers[w := pc][..m] == workers[..m];
    } else {
      CountPut(workers[..m], which, w, pc);
      assert workers[w := pc][..m] == workers[..m][w := pc];
    }
  }

  lemma CountMore(workers: seq<Pc>, which: Pc -> bool, pc: Pc)
    ensures Count(workers + [pc], which) == Count(workers, which) + if which(pc) then 1 else 0
  {
    assert (workers + [pc])[..|workers|] == workers;
  }

  /** Admitted, but without a serial yet. */
  predicate Waiting(pc: Pc) { pc.Opening? || pc.Holding? }

  predicate Done(pc: Pc) { pc.Denied? || pc.Issued? || pc.Failed? }

  /** Every admission has a serial or is about to get one; every serial belongs to one request. */
  predicate Balanced(s: State) {
    && |s.taken| == Count(s.workers, HasSerial)
    && |s.log| == |s.taken| + Count(s.workers, Waiting)
  }

  function One(b: bool): nat { if b then 1 else 0 }

  /** A serial is taken by the step that gives the request one, and an admission logged by the step that admits it. */
  lemma StepCounts(cfg: Config, s: State, w: nat, now: real, signed: bool, t: State, was: Pc, pc: Pc)
    requires w < |s.workers| && t == WorkerStep(cfg, s, w, now, signed) && was == s.workers[w]
    requires |t.workers| == |s.workers| && pc == t.workers[w]
    ensures t.workers == s.workers[w := pc]
    ensures |t.taken| == |s.taken| - One(HasSerial(was)) + One(HasSerial(pc))
    ensures |t.log| - |t.taken| == |s.log| - |s.taken| - One(Waiting(was)) + One(Waiting(pc))
  {
    assert s.workers[w := was] == s.workers;
  }

  lemma StepBalanced(cfg: Config, s: State, a: Action, t: State)
    requires Balanced(s) && t == Apply(cfg, s, a)
    ensures Balanced(t)
  {
    match a
    case Arrive(r) =>
      CountMore(s.workers, HasSerial, Arrival(cfg, r));
      CountMore(s.workers, Waiting, Arrival(cfg, r));
    case Step(w, now, signed) =>
      if w < |s.workers| {
        var pc := t.workers[w];
        StepCounts(cfg, s, w, now, signed, t, s.workers[w], pc);
        CountPut(s.workers, HasSerial, w, pc);
        CountPut(s.workers, Waiting, w, pc);
      }
  }

  lemma {:induction false} Balance(cfg: Config, file: string, clock: real, acts: seq<Action>)
    ensures Balanced(Run(Stepper(cfg), Start(file, clock), acts))
  {
    if acts != [] {
      var m := |acts| - 1;
      Balance(cfg, file, clock, acts[..m]);
      StepBalanced(cfg, Run(Stepper(cfg), Start(file, clock), acts[..m]), acts[m],
        Run(Stepper(cfg), Start(file, clock), acts));
    }
  }

  lemma {:induction false} AllDone(workers: seq<Pc>)
    requires forall w | 0 <= w < |workers| :: Done(workers[w])
    ensures Count(workers, Waiting) == 0
    ensures Count(workers, HasSerial) == Count(workers, (pc: Pc) => pc.Issued?) + Count(workers, (pc: Pc) => pc.Failed?)
  {
    if workers != [] { AllDone(workers[..|workers| - 1]); }
  }

  /** When no request is under way, the serial has advanced by the certificates issued and the signings that
      failed, and by exactly the admissions: a request refused earlier, at a gate or by the limiter, moved
      neither. */
  lemma AdvanceIsIssuedPlusFailed(cfg: Config, file: string, clock: real, acts: seq<Action>)
    requires forall w | 0 <= w < |Run(Stepper(cfg), Start(file, clock), acts).workers| ::
      Done(Run(Stepper(cfg), Start(file, clock), acts).workers[w])
    ensures var s := Run(Stepper(cfg), Start(file, clock), acts);
      && Stored(s.file) - Stored(file) == |s.log|
      && |s.log| == Count(s.workers, (pc: Pc) => pc.Issued?) + Count(s.workers, (pc: Pc) => pc.Failed?)
  {
    var s := Run(Stepper(cfg), Start(file, clock), acts);
    SerialsStrictlyIncrease(cfg, file, clock, acts);
    Balance(cfg, file, clock, acts);
    AllDone(s.workers);
    if s.holder.Some? { assert Critical(s.workers[s.holder.value]); }
  }

  // ---- The limiter, over whole runs of the service ----

  ghost predicate HistoryOk(log: seq<Admission>, clock: real, limit: int) {
    forall s: string :: Tracks(Times(log, s), Times(log, s), clock, limit)
  }

  lemma HistoryGrows(log: seq<Admission>, clock: real, limit: int, subject: string, now: real)
    requires HistoryOk(log, clock, limit) && clock <= now
    requires Within(Times(log, subject), now - WINDOW, now) < limit
    ensures HistoryOk(log + [Admission(subject, now)], now, limit)
  {
    var more := log + [Admission(subject, now)];
    forall x: string ensures Tracks(Times(more, x), Times(more, x), now, limit) {
      Later(Times(log, x), Times(log, x), clock, limit, now);
      Recorded(log, Admission(subject, now), x);
      if x == subject {
        OneMore(Times(log, x), Times(log, x), clock, limit, now);
        assert Times(more, x) == Times(log, x) + [now];
      } else {
        assert Times(more, x) == Times(log, x);
      }
    }
  }

  lemma HistoryAges(log: seq<Admission>, clock: real, limit: int, now: real)
    requires HistoryOk(log, clock, limit) && clock <= now
    ensures HistoryOk(log, now, limit)
  {
    forall x: string ensures Tracks(Times(log, x), Times(log, x), now, limit) {
      Later(Times(log, x), Times(log, x), clock, limit, now);
    }
  }

  lemma StepHistory(cfg: Config, s: State, a: Action, t: State)
    requires HistoryOk(s.log, s.clock, cfg.limit) && Timely(s, a) && t == Apply(cfg, s, a)
    ensures HistoryOk(t.log, t.clock, cfg.limit)
  {
    if a.Step? && a.w < |s.workers| && s.workers[a.w].Cleared? {
      var subject := s.workers[a.w].caller.subject;
      if Within(Times(s.log, subject), a.now - WINDOW, a.now) < cfg.limit {
        HistoryGrows(s.log, s.clock, cfg.limit, subject, a.now);
      } else {
        HistoryAges(s.log, s.clock, cfg.limit, a.now);
      }
    }
  }

  lemma {:induction false} HistoryKept(cfg: Config, file: string, clock: real, acts: seq<Action>)
    requires Allowed(Stepper(cfg), Timely, Start(file, clock), acts)
    ensures var s := Run(Stepper(cfg), Start(file, clock), acts); HistoryOk(s.log, s.clock, cfg.limit)
  {
    if acts != [] {
      var m := |acts| - 1;
      HistoryKept(cfg, file, clock, acts[..m]);
      StepHistory(cfg, Run(Stepper(cfg), Start(file, clock), acts[..m]), acts[m],
        Run(Stepper(cfg), Start(file, clock), acts));
    }
  }

  /** No subject is ever admitted more often than the limit in any hour, whatever the interleaving. */
  lemma NobodyExceedsTheLimit(cfg: Config, file: string, clock: real, acts: seq<Action>, subject: string, t: real)
    requires Allowed(Stepper(cfg), Timely, Start(file, clock), acts)
    ensures |LastHour(Run(Stepper(cfg), Start(file, clock), acts).log, subject, t)|
      <= if cfg.limit < 0 then 0 else cfg.limit
  {
    HistoryKept(cfg, file, clock, acts);
    var s := Run(Stepper(cfg), Start(file, clock), acts);
    assert Tracks(Times(s.log, subject), Times(s.log, subject), s.clock, cfg.limit);
    NeverMoreThanTheLimit(Times(s.log, subject), cfg.limit, t);
    WithinCounts(s.log, subject, t);
  }
}
