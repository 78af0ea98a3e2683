/** Who can get a certificate at all. */
module EnrollGates {
  import opened EnrollModel
  import opened Runs
  import opened Wrappers

  /** An address present is held to the full standard; an address missing passes only where none is required. */
  predicate EmailAllowed(cfg: Config, identity: Claims) {
    if identity.email == "" then !cfg.requireEmail
    else
      && (cfg.requireVerified ==> identity.emailVerified)
      && (cfg.allowed == {} || identity.email in cfg.allowed)
  }

  predicate Entitled(cfg: Config, r: Request) {
    && r.bearer && r.jsonObject && r.idToken != "" && r.key.Some?
    && r.access.Some? && r.identity.Some?
    && cfg.scope in r.access.value.scopes
    && r.identity.value.sub == r.access.value.sub
    && EmailAllowed(cfg, r.identity.value)
  }

  predicate Names(c: Caller, r: Request)
    requires r.key.Some? && r.access.Some? && r.identity.Some?
  {
    && c.subject == r.access.value.sub
    && c.key == r.key.value
    && c.who == if r.identity.value.email == "" then "logto:" + c.subject else r.identity.value.email
  }

  /** With a bearer token, and a body with an identity token and a key. */
  predicate WellFormed(r: Request) { r.bearer && r.jsonObject && r.idToken != "" && r.key.Some? }

  /** Two verified tokens of one person. */
  predicate OnePerson(r: Request) {
    r.access.Some? && r.identity.Some? && r.identity.value.sub == r.access.value.sub
  }

  predicate InScope(cfg: Config, r: Request) { r.access.Some? && cfg.scope in r.access.value.scopes }

  /** The gates open exactly for the entitled, under their name. A refusal is 400 for a body that is not well formed,
      403 for a verified access token without the scope, or for a person whose email the policy does not allow, and
      401 for everything that is missing, unverified or somebody else's. */
  lemma GatesOpenIff(cfg: Config, r: Request)
    ensures Gates(cfg, r).Ok? <==> Entitled(cfg, r)
    ensures Entitled(cfg, r) ==> Names(Gates(cfg, r).value, r)
    ensures Gates(cfg, r) == Err(400) <==> r.bearer && !WellFormed(r)
    ensures Gates(cfg, r) == Err(403) <==>
      WellFormed(r) && r.access.Some? && (InScope(cfg, r) ==> OnePerson(r) && !EmailAllowed(cfg, r.identity.value))
    ensures Gates(cfg, r) == Err(401) <==>
      !r.bearer || (WellFormed(r) && (r.access == None || (InScope(cfg, r) && !OnePerson(r))))
    ensures Gates(cfg, r).Err? ==> Gates(cfg, r).error in {400, 401, 403}
  {
  }

  /** A request that comes in is one more; it is cleared to be counted exactly if it is entitled, and refused with the
      gates' status otherwise; and nothing else changes. */
  lemma ArrivalMeans(cfg: Config, s: State, r: Request)
    ensures var t := Apply(cfg, s, Arrive(r));
      && |t.workers| == |s.workers| + 1 && t.workers[..|s.workers|] == s.workers && t.(workers := s.workers) == s
      && var pc := t.workers[|s.workers|];
         if Entitled(cfg, r) then pc.Cleared? && Names(pc.caller, r) else Gates(cfg, r).Err? && pc == Denied(Gates(cfg, r).error)
  {
    GatesOpenIff(cfg, r);
  }

  predicate Sent(cfg: Config, acts: seq<Action>, c: Caller) {
    exists i | 0 <= i < |acts| :: acts[i].Arrive? && Entitled(cfg, acts[i].r) && Gates(cfg, acts[i].r) == Ok(c)
  }

  predicate AllSent(cfg: Config, acts: seq<Action>, workers: seq<Pc>) {
    forall w: nat | w < |workers| :: workers[w].Denied? || Sent(cfg, acts, workers[w].caller)
  }

  lemma SentStays(cfg: Config, acts: seq<Action>, a: Action, c: Caller)
    requires Sent(cfg, acts, c)
    ensures Sent(cfg, acts + [a], c)
  {
    var i :| 0 <= i < |acts| && acts[i].Arrive? && Entitled(cfg, acts[i].r) && Gates(cfg, acts[i].r) == Ok(c);
    assert (acts + [a])[i] == acts[i];
  }

  /** A step never changes whose request it is. */
  lemma SameCaller(cfg: Config, s: State, w: nat, now: real, signed: bool, t: State)
    requires w < |s.workers| && t == WorkerStep(cfg, s, w, now, signed)
    ensures |t.workers| == |s.workers| && forall v: nat | v < |s.workers| && v != w :: t.workers[v] == s.workers[v]
    ensures s.workers[w].Denied? ==> t.workers[w].Denied?
    ensures !t.workers[w].Denied? ==> t.workers[w].caller == s.workers[w].caller
  {
  }

  lemma StepSent(cfg: Config, s: State, acts: seq<Action>, a: Action, t: State)
    requires AllSent(cfg, acts, s.workers) && t == Apply(cfg, s, a)
    ensures AllSent(cfg, acts + [a], t.workers)
  {
    if a.Step? && a.w < |s.workers| { SameCaller(cfg, s, a.w, a.now, a.signed, t); }
    forall v: nat | v < |t.workers| && !t.workers[v].Denied? ensures Sent(cfg, acts + [a], t.workers[v].caller) {
      if v < |s.workers| {
        SentStays(cfg, acts, a, s.workers[v].caller);
      } else {
        GatesOpenIff(cfg, a.r);
        assert (acts + [a])[|acts|] == a;
      }
    }
  }

  /** In every run, whoever is issued a certificate, or gets anywhere on the way to one, sent a request entitled
      to it, and the certificate is for the key in that request. */
  lemma {:induction false} OnlyTheEntitled(cfg: Config, file: string, clock: real, acts: seq<Action>)
    ensures AllSent(cfg, acts, Run(Stepper(cfg), Start(file, clock), acts).workers)
  {
    if acts != [] {
      var m := |acts| - 1;
      OnlyTheEntitled(cfg, file, clock, acts[..m]);
      StepSent(cfg, Run(Stepper(cfg), Start(file, clock), acts[..m]), acts[..m], acts[m],
        Run(Stepper(cfg), Start(file, clock), acts));
      assert acts[..m] + [acts[m]] == acts;
    }
  }
}
