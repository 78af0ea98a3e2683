/** The enrolment service (`server/enroll/enroll.py`) as a machine: any number of requests at once, each taking
    its steps in any order relative to the others. */
module EnrollModel {
  import opened Decimal
  import opened RateLimit
  import opened Wrappers

  // ---- The gates ----

  datatype Claims = Claims(sub: string, scopes: set<string>, email: string, emailVerified: bool)

  /** What the handler sees of one request. A token is `None` when it does not verify, and the key when it does not parse. */
  datatype Request = Request(
    bearer: bool,
    jsonObject: bool,
    idToken: string,
    key: Option<string>,
    access: Option<Claims>,
    identity: Option<Claims>)

  datatype Config = Config(
    scope: string, requireEmail: bool, requireVerified: bool, allowed: set<string>, limit: int)

  datatype Caller = Caller(subject: string, who: string, key: string)

  /** Everything the handler checks before it counts the request, with the HTTP status of a refusal. */
  function Gates(cfg: Config, r: Request): Result<Caller, nat> {
    if !r.bearer then Err(401)
    else if !r.jsonObject then Err(400)
    else if r.idToken == "" then Err(400)
    else if r.key == None then Err(400)
    else if r.access == None then Err(401)
    else
      var access := r.access.value;
      if cfg.scope !in access.scopes then Err(403)
      else if r.identity == None then Err(401)
      else
        var identity := r.identity.value;
        if identity.sub != access.sub then Err(401)
        else if identity.email != "" then
          if cfg.requireVerified && !identity.emailVerified then Err(403)
          else if cfg.allowed != {} && identity.email !in cfg.allowed then Err(403)
          else Ok(Caller(access.sub, identity.email, r.key.value))
        else if cfg.requireEmail then Err(403)
        else Ok(Caller(access.sub, "logto:" + access.sub, r.key.value))
  }

  // ---- One request ----

  datatype Pc =
    | Denied(status: nat)
    | Cleared(caller: Caller)
    | Opening(caller: Caller)
    | Holding(caller: Caller)
    | Counted(caller: Caller, serial: int)
    | Emptied(caller: Caller, serial: int)
    | Written(caller: Caller, serial: int)
    | Signing(caller: Caller, serial: int)
    | Issued(caller: Caller, serial: int)
    | Failed(caller: Caller, serial: int)

  /** `taken` lists the serials in the order in which the lock was held; `log` lists the admissions. */
  datatype State = State(
    file: string, holder: Option<nat>, workers: seq<Pc>, log: seq<Admission>, clock: real, taken: seq<int>)

  datatype Action = Arrive(r: Request) | Step(w: nat, now: real, signed: bool)

  /** What `next_serial` makes of the file: empty, or not a number, counts as zero. */
  function Stored(file: string): int {
    var v := Parse(Strip(if file == "" then "0" else file));
    if v.Some? then v.value else 0
  }

  predicate Blank(c: char) { c == ' ' || '\t' <= c <= '\r' }

  function StripEnd(s: string): string {
    if s != [] && Blank(s[|s| - 1]) then StripEnd(s[..|s| - 1]) else s
  }

  function Strip(s: string): string {
    if s != [] && Blank(s[0]) then Strip(s[1..]) else StripEnd(s)
  }

  function Put(s: State, w: nat, pc: Pc): State
    requires w < |s.workers|
  {
    s.(workers := s.workers[w := pc])
  }

  /** `_rate_limit`, by the whole history. */
  function LimitStep(cfg: Config, s: State, w: nat, now: real): State
    requires w < |s.workers| && s.workers[w].Cleared?
  {
    var c := s.workers[w].caller;
    if Within(Times(s.log, c.subject), now - WINDOW, now) < cfg.limit then
      Put(s, w, Opening(c)).(log := s.log + [Admission(c.subject, now)], clock := now)
    else
      Put(s, w, Denied(429)).(clock := now)
  }

  /** One step of one request. Waiting for the lock changes nothing. The file is open for appending, so it is the
      truncation that makes the text written the whole text. */
  function WorkerStep(cfg: Config, s: State, w: nat, now: real, signed: bool): State
    requires w < |s.workers|
  {
    match s.workers[w]
    case Denied(_) => s
    case Cleared(_) => LimitStep(cfg, s, w, now)
    case Opening(c) => if s.holder == None then Put(s, w, Holding(c)).(holder := Some(w)) else s
    case Holding(c) =>
      var n := Stored(s.file) + 1;
      Put(s, w, Counted(c, n)).(taken := s.taken + [n])
    case Counted(c, n) => Put(s, w, Emptied(c, n)).(file := "")
    case Emptied(c, n) => Put(s, w, Written(c, n)).(file := s.file + Text(n))
    case Written(c, n) => Put(s, w, Signing(c, n)).(holder := None)
    case Signing(c, n) => Put(s, w, if signed then Issued(c, n) else Failed(c, n))
    case Issued(_, _) => s
    case Failed(_, _) => s
  }

  function Arrival(cfg: Config, r: Request): Pc {
    match Gates(cfg, r)
    case Ok(c) => Cleared(c)
    case Err(status) => Denied(status)
  }

  function Apply(cfg: Config, s: State, a: Action): State {
    match a
    case Arrive(r) => s.(workers := s.workers + [Arrival(cfg, r)])
    case Step(w, now, signed) => if w < |s.workers| then WorkerStep(cfg, s, w, now, signed) else s
  }

  function Stepper(cfg: Config): (State, Action) -> State { (s, a) => Apply(cfg, s, a) }

  /** The clock does not go backwards. */
  predicate Timely(s: State, a: Action) { a.Step? ==> s.clock <= a.now }

  function Start(file: string, clock: real): State { State(file, None, [], [], clock, []) }
}
