/** The enrolment service with its real state, changed in place: the limiter's queues, the serial file and its
    lock, and how far each request has got. */
module EnrollServer {
  import opened Decimal
  import opened EnrollModel
  import opened RateLimit
  import opened Runs
  import opened Wrappers

  class Server {
    const cfg: Config
    const limiter: Limiter
    var file: string
    var holder: Option<nat>
    var workers: seq<Pc>
    ghost var taken: seq<int>

    ghost predicate Valid()
      reads this, limiter
    {
      limiter.limit == cfg.limit && limiter.Valid()
    }

    ghost function Value(): State
      reads this, limiter
    {
      State(file, holder, workers, limiter.log, limiter.clock, taken)
    }

    constructor (cfg: Config, file: string)
      ensures Valid() && fresh(limiter) && this.cfg == cfg && Value() == Start(file, limiter.clock)
    {
      this.cfg, this.file, holder, workers, taken := cfg, file, None, [], [];
      limiter := new Limiter(cfg.limit);
    }

    method Put(w: nat, pc: Pc)
      requires w < |workers|
      modifies this`workers
      ensures workers == old(workers)[w := pc]
    {
      workers := workers[w := pc];
    }

    method LimitStep(w: nat, now: real)
      requires Valid() && w < |workers| && workers[w].Cleared? && limiter.clock <= now
      modifies this, limiter
      ensures Valid() && Value() == EnrollModel.LimitStep(cfg, old(Value()), w, now)
    {
      var c := workers[w].caller;
      var ok := limiter.Admit(c.subject, now);
      workers := workers[w := if ok then Opening(c) else Denied(429)];
    }

    /** `next_serial`, one file operation at a time. */
    method SerialStep(w: nat, now: real)
      requires Valid() && w < |workers|
      requires var pc := workers[w]; pc.Opening? || pc.Holding? || pc.Counted? || pc.Emptied? || pc.Written?
      modifies this
      ensures Valid() && Value() == WorkerStep(cfg, old(Value()), w, now, true)
    {
      match workers[w]
      case Opening(c) =>
        if holder == None {
          holder := Some(w);
          Put(w, Holding(c));
        }
      case Holding(c) =>
        var n := Stored(file) + 1;
        taken := taken + [n];
        Put(w, Counted(c, n));
      case Counted(c, n) =>
        file := "";
        Put(w, Emptied(c, n));
      case Emptied(c, n) =>
        file := file + Text(n);
        Put(w, Written(c, n));
      case Written(c, n) =>
        holder := None;
        Put(w, Signing(c, n));
    }

    method Step(w: nat, now: real, signed: bool)
      requires Valid() && w < |workers| && limiter.clock <= now
      modifies this, limiter
      ensures Valid() && Value() == WorkerStep(cfg, old(Value()), w, now, signed)
    {
      match workers[w]
      case Cleared(_) => LimitStep(w, now);
      case Signing(c, n) => Put(w, if signed then Issued(c, n) else Failed(c, n));
      case Denied(_) =>
      case Issued(_, _) =>
      case Failed(_, _) =>
      case Opening(_) => SerialStep(w, now);
      case Holding(_) => SerialStep(w, now);
      case Counted(_, _) => SerialStep(w, now);
      case Emptied(_, _) => SerialStep(w, now);
      case Written(_, _) => SerialStep(w, now);
    }

    method Perform(a: Action)
      requires Valid() && Timely(Value(), a)
      modifies this, limiter
      ensures Valid() && Value() == Apply(cfg, old(Value()), a)
    {
      match a
      case Arrive(r) => workers := workers + [Arrival(cfg, r)];
      case Step(w, now, signed) => if w < |workers| { Step(w, now, signed); }
    }

    /** Any interleaving at all is a run of the machine. */
    method Interleave(acts: seq<Action>)
      requires Valid() && Allowed(Stepper(cfg), Timely, Value(), acts)
      modifies this, limiter
      ensures Valid() && Value() == Run(Stepper(cfg), old(Value()), acts)
    {
      ghost var s := Value();
      for i := 0 to |acts|
        invariant Valid() && Value() == Run(Stepper(cfg), s, acts[..i])
      {
        AllowedAt(cfg, s, acts, i);
        Perform(acts[i]);
      }
      assert acts[..|acts|] == acts;
    }
  }

  lemma {:induction false} AllowedAt(cfg: Config, s: State, acts: seq<Action>, i: nat)
    requires i < |acts| && Allowed(Stepper(cfg), Timely, s, acts)
    ensures Timely(Run(Stepper(cfg), s, acts[..i]), acts[i])
    ensures Run(Stepper(cfg), s, acts[..i + 1]) == Apply(cfg, Run(Stepper(cfg), s, acts[..i]), acts[i])
  {
    var m := |acts| - 1;
    assert acts[..i + 1][..i] == acts[..i];
    if i < m {
      AllowedAt(cfg, s, acts[..m], i);
      assert acts[..m][..i] == acts[..i] && acts[..m][..i + 1] == acts[..i + 1];
    } else {
      assert acts[..i + 1] == acts;
    }
  }
}
