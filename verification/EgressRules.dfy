/** What the egress script (`server/egress/split-tunnel-egress.sh`) means: the verdict of every packet
    before, while and after it rewrites the firewall. */
module EgressRules {
  import opened Firewall
  import opened Wrappers

  const CHAIN: string := "SPLITTUNNEL"

  function Hook(uid: nat): Rule { Rule(Owner(uid), Jump(CHAIN)) }

  /** The rules of the chain, in order. `withReply` tells whether the first spelling of the last rule was accepted. */
  function FixedChain(allowed: string, withReply: bool): seq<Rule> {
    [ Rule(EstablishedOrRelated, Accept),
      Rule(ToLoopback, Accept),
      Rule(ToPort(Udp, 53), Accept),
      Rule(ToPort(Tcp, 53), Accept),
      Rule(InSet(allowed), Accept),
      Rule(UnderRateLimit, Log),
      Rule(Always, Reject(if withReply then PortUnreachable else Default)) ]
  }

  /** The hook is the only way into the chain. */
  predicate Private(fw: Fw, uid: nat) {
    !JumpsTo(Without(fw.output, Hook(uid)), CHAIN) && Unreferenced(fw.chains, CHAIN)
  }

  /** The two firewalls differ in nothing but copies of the hook and the contents of the chain. */
  predicate SameHost(a: Fw, b: Fw, uid: nat) {
    && Without(a.output, Hook(uid)) == Without(b.output, Hook(uid))
    && a.chains - {CHAIN} == b.chains - {CHAIN}
    && a.policy == b.policy
  }

  /** The host's own rules, with the tunnel's part taken out. */
  function HostOnly(fw: Fw, uid: nat): Fw {
    Fw(Without(fw.output, Hook(uid)), fw.chains - {CHAIN}, fw.policy)
  }

  /** Packets of every other user, and of none, get the same verdict from any two such firewalls. */
  lemma OthersUnaffected(a: Fw, b: Fw, uid: nat, env: Surroundings, p: Packet, depth: nat)
    requires Private(a, uid) && Private(b, uid) && SameHost(a, b, uid) && p.uid != Some(uid)
    ensures VerdictOf(a, env, p, depth) == VerdictOf(b, env, p, depth)
  {
    EvalWithout(a, env, a.output, Hook(uid), p, depth);
    EvalWithout(b, env, b.output, Hook(uid), p, depth);
    EvalElsewhere(a, b, env, Without(a.output, Hook(uid)), CHAIN, p, depth);
  }

  /** What one enabled run leaves behind. */
  function Enforced(fw: Fw, uid: nat, allowed: string, withReply: bool): Fw {
    Fw([Hook(uid)] + Without(fw.output, Hook(uid)), fw.chains[CHAIN := FixedChain(allowed, withReply)], fw.policy)
  }

  predicate MayPass(env: Surroundings, allowed: string, p: Packet) {
    || p.established
    || p.loopback
    || ((p.proto == Udp || p.proto == Tcp) && p.dport == 53)
    || (allowed in env.sets && p.dst in env.sets[allowed])
  }

  lemma Skip(fw: Fw, env: Surroundings, r: Rule, rest: seq<Rule>, p: Packet, depth: nat)
    ensures !Matches(env, r.on, p) || r.target == Log ==>
      Eval(fw, env, [r] + rest, p, depth) == Eval(fw, env, rest, p, depth)
    ensures Matches(env, r.on, p) && r.target == Accept ==> Eval(fw, env, [r] + rest, p, depth) == Accepted
    ensures Matches(env, r.on, p) && r.target.Reject? ==> Eval(fw, env, [r] + rest, p, depth) == Rejected
  {
    assert ([r] + rest)[1..] == rest;
  }

  /** The rules from the address set on. */
  lemma TailDecides(fw: Fw, env: Surroundings, allowed: string, refuse: Rule, p: Packet, depth: nat)
    requires refuse.on == Always && refuse.target.Reject?
    ensures Eval(fw, env, [Rule(InSet(allowed), Accept)] + ([Rule(UnderRateLimit, Log)] + ([refuse] + [])), p, depth) ==
      if Matches(env, InSet(allowed), p) then Accepted else Rejected
  {
    Skip(fw, env, Rule(InSet(allowed), Accept), [Rule(UnderRateLimit, Log)] + ([refuse] + []), p, depth);
    Skip(fw, env, Rule(UnderRateLimit, Log), [refuse] + [], p, depth);
    Skip(fw, env, refuse, [], p, depth);
  }

  /** Four accepting rules in front of the rest. */
  lemma AcceptFour(fw: Fw, env: Surroundings, a: Condition, b: Condition, c: Condition, d: Condition, rest: seq<Rule>,
                   p: Packet, depth: nat)
    ensures Eval(fw, env, [Rule(a, Accept)] + ([Rule(b, Accept)] + ([Rule(c, Accept)] + ([Rule(d, Accept)] + rest))), p, depth) ==
      if Matches(env, a, p) || Matches(env, b, p) || Matches(env, c, p) || Matches(env, d, p) then Accepted
      else Eval(fw, env, rest, p, depth)
  {
    Skip(fw, env, Rule(d, Accept), rest, p, depth);
    Skip(fw, env, Rule(c, Accept), [Rule(d, Accept)] + rest, p, depth);
    Skip(fw, env, Rule(b, Accept), [Rule(c, Accept)] + ([Rule(d, Accept)] + rest), p, depth);
    Skip(fw, env, Rule(a, Accept), [Rule(b, Accept)] + ([Rule(c, Accept)] + ([Rule(d, Accept)] + rest)), p, depth);
  }

  /** The finished chain decides every packet. */
  lemma ChainDecides(fw: Fw, env: Surroundings, allowed: string, withReply: bool, p: Packet, depth: nat)
    ensures Eval(fw, env, FixedChain(allowed, withReply), p, depth) ==
      if MayPass(env, allowed, p) then Accepted else Rejected
  {
    var refuse := Rule(Always, Reject(if withReply then PortUnreachable else Default));
    var tail := [Rule(InSet(allowed), Accept)] + ([Rule(UnderRateLimit, Log)] + ([refuse] + []));
    TailDecides(fw, env, allowed, refuse, p, depth);
    AcceptFour(fw, env, EstablishedOrRelated, ToLoopback, ToPort(Udp, 53), ToPort(Tcp, 53), tail, p, depth);
    assert FixedChain(allowed, withReply) ==
      [Rule(EstablishedOrRelated, Accept)] + ([Rule(ToLoopback, Accept)] + ([Rule(ToPort(Udp, 53), Accept)]
      + ([Rule(ToPort(Tcp, 53), Accept)] + tail)));
  }

  /** What a chain without jumps does to a packet, in order, up to the target that decides. */
  function Effects(env: Surroundings, rules: seq<Rule>, p: Packet): seq<Target> {
    if rules == [] then []
    else if !Matches(env, rules[0].on, p) then Effects(env, rules[1..], p)
    else if rules[0].target == Log then [Log] + Effects(env, rules[1..], p)
    else [rules[0].target]
  }

  lemma EffectsNext(env: Surroundings, r: Rule, rest: seq<Rule>, p: Packet)
    ensures Effects(env, [r] + rest, p) ==
      if !Matches(env, r.on, p) then Effects(env, rest, p)
      else if r.target == Log then [Log] + Effects(env, rest, p)
      else [r.target]
  {
    assert ([r] + rest)[1..] == rest;
  }

  lemma TailEffects(env: Surroundings, allowed: string, how: RejectWith, p: Packet)
    ensures Effects(env, [Rule(InSet(allowed), Accept)] + ([Rule(UnderRateLimit, Log)] + ([Rule(Always, Reject(how))] + [])), p) ==
      if allowed in env.sets && p.dst in env.sets[allowed] then [Accept]
      else (if env.underLimit then [Log] else []) + [Reject(how)]
  {
    EffectsNext(env, Rule(Always, Reject(how)), [], p);
    EffectsNext(env, Rule(UnderRateLimit, Log), [Rule(Always, Reject(how))] + [], p);
    EffectsNext(env, Rule(InSet(allowed), Accept), [Rule(UnderRateLimit, Log)] + ([Rule(Always, Reject(how))] + []), p);
  }

  /** A packet that may pass is accepted and leaves no trace. Any other is logged, if the rate limit has room, and
      refused; with an unreachable port where the family has that answer, in the default way elsewhere. */
  lemma ChainDoes(env: Surroundings, allowed: string, withReply: bool, p: Packet)
    ensures Effects(env, FixedChain(allowed, withReply), p) ==
      if MayPass(env, allowed, p) then [Accept]
      else (if env.underLimit then [Log] else []) + [Reject(if withReply then PortUnreachable else Default)]
  {
    var how := if withReply then PortUnreachable else Default;
    var tail := [Rule(InSet(allowed), Accept)] + ([Rule(UnderRateLimit, Log)] + ([Rule(Always, Reject(how))] + []));
    var three := [Rule(ToPort(Tcp, 53), Accept)] + tail;
    var two := [Rule(ToPort(Udp, 53), Accept)] + three;
    var one := [Rule(ToLoopback, Accept)] + two;
    TailEffects(env, allowed, how, p);
    EffectsNext(env, Rule(ToPort(Tcp, 53), Accept), tail, p);
    EffectsNext(env, Rule(ToPort(Udp, 53), Accept), three, p);
    EffectsNext(env, Rule(ToLoopback, Accept), two, p);
    EffectsNext(env, Rule(EstablishedOrRelated, Accept), one, p);
    assert FixedChain(allowed, withReply) == [Rule(EstablishedOrRelated, Accept)] + one;
  }

  /** From any firewall whatever, duplicate hooks and stale chain contents included, one enabled run makes
      the tunnel user's packets pass exactly when they are established or related, for the loopback, for
      DNS or to an allowed address, and be rejected otherwise. */
  lemma TunnelVerdict(fw: Fw, uid: nat, env: Surroundings, allowed: string, withReply: bool, p: Packet, depth: nat)
    requires p.uid == Some(uid) && depth > 0
    ensures VerdictOf(Enforced(fw, uid, allowed, withReply), env, p, depth) ==
      if MayPass(env, allowed, p) then Accepted else Rejected
  {
    var done := Enforced(fw, uid, allowed, withReply);
    ChainDecides(done, env, allowed, withReply, p, depth - 1);
    assert done.output[0] == Hook(uid) && done.chains[CHAIN] == FixedChain(allowed, withReply);
  }

  lemma EnforcedOnce(fw: Fw, uid: nat, allowed: string, withReply: bool)
    ensures Copies(Enforced(fw, uid, allowed, withReply).output, Hook(uid)) == 1
    ensures Without(Enforced(fw, uid, allowed, withReply).output, Hook(uid)) == Without(fw.output, Hook(uid))
  {
    var host := Without(fw.output, Hook(uid));
    NothingToRemove(fw.output, Hook(uid));
    NothingToRemove(host, Hook(uid));
    assert ([Hook(uid)] + host)[1..] == host;
  }

  /** A second run changes nothing. */
  lemma SecondRunChangesNothing(fw: Fw, uid: nat, allowed: string, withReply: bool)
    ensures var once := Enforced(fw, uid, allowed, withReply); Enforced(once, uid, allowed, withReply) == once
  {
    EnforcedOnce(fw, uid, allowed, withReply);
  }

  /** Turning enforcement on and off again leaves the host's own rules, and nothing of the tunnel. */
  lemma OnThenOff(fw: Fw, uid: nat, allowed: string, withReply: bool)
    ensures HostOnly(Enforced(fw, uid, allowed, withReply), uid) == HostOnly(fw, uid)
  {
    EnforcedOnce(fw, uid, allowed, withReply);
    assert fw.chains[CHAIN := FixedChain(allowed, withReply)] - {CHAIN} == fw.chains - {CHAIN};
  }

  // ---- While the chain is being rebuilt ----

  /** A state the script passes through from the flush onwards: the chain holds the first few fixed rules. */
  predicate Rebuilding(fw: Fw, uid: nat, allowed: string, withReply: bool) {
    Private(fw, uid) && CHAIN in fw.chains && fw.chains[CHAIN] <= FixedChain(allowed, withReply)
  }

  /** From the flush onwards an established packet of the tunnel user is accepted, or gets what the host's own
      rules say: the chain never rejects it. */
  lemma EstablishedNeverCut(fw: Fw, uid: nat, env: Surroundings, allowed: string, withReply: bool, p: Packet, depth: nat)
    requires Rebuilding(fw, uid, allowed, withReply) && p.established
    ensures var v := VerdictOf(fw, env, p, depth);
      v == Accepted || v == VerdictOf(HostOnly(fw, uid), env, p, depth)
  {
    var host := Without(fw.output, Hook(uid));
    EstablishedIn(fw, uid, env, allowed, withReply, fw.output, p, depth);
    HostChains(fw);
    EvalElsewhere(fw, HostOnly(fw, uid), env, host, CHAIN, p, depth);
  }

  lemma HostChains(fw: Fw)
    requires Unreferenced(fw.chains, CHAIN)
    ensures Unreferenced(fw.chains - {CHAIN}, CHAIN) && (fw.chains - {CHAIN}) - {CHAIN} == fw.chains - {CHAIN}
  {
    forall c | c in fw.chains - {CHAIN} ensures !JumpsTo((fw.chains - {CHAIN})[c], CHAIN) {
      assert (fw.chains - {CHAIN})[c] == fw.chains[c];
    }
  }

  lemma {:induction false} EstablishedIn(
    fw: Fw, uid: nat, env: Surroundings, allowed: string, withReply: bool, rules: seq<Rule>, p: Packet, depth: nat)
    requires Rebuilding(fw, uid, allowed, withReply) && p.established
    ensures var v := Eval(fw, env, rules, p, depth);
      v == Accepted || v == Eval(fw, env, Without(rules, Hook(uid)), p, depth)
    decreases |rules|
  {
    if rules != [] {
      EstablishedIn(fw, uid, env, allowed, withReply, rules[1..], p, depth);
      if rules[0] == Hook(uid) {
        if depth > 0 { EstablishedInChain(fw, env, fw.chains[CHAIN], allowed, withReply, p, depth - 1); }
      } else {
        assert ([rules[0]] + Without(rules[1..], Hook(uid)))[1..] == Without(rules[1..], Hook(uid));
      }
    }
  }

  lemma EstablishedInChain(
    fw: Fw, env: Surroundings, chain: seq<Rule>, allowed: string, withReply: bool, p: Packet, depth: nat)
    requires chain <= FixedChain(allowed, withReply) && p.established
    ensures Eval(fw, env, chain, p, depth) == if chain == [] then Undecided else Accepted
  {
    if chain != [] { assert chain[0] == FixedChain(allowed, withReply)[0]; }
  }

  // ---- What is not enforced meanwhile ----

  /** Evaluation comes to `hook`: no rule in front of it decides. */
  predicate Reaches(fw: Fw, env: Surroundings, rules: seq<Rule>, hook: Rule, p: Packet, depth: nat)
    decreases |rules|
  {
    rules != [] &&
    if rules[0] == hook then true
    else if !Matches(env, rules[0].on, p) || rules[0].target.Log? then Reaches(fw, env, rules[1..], hook, p, depth)
    else
      && rules[0].target.Jump?
      && (depth > 0 && rules[0].target.chain in fw.chains ==>
            Eval(fw, env, fw.chains[rules[0].target.chain], p, depth - 1) == Undecided)
      && Reaches(fw, env, rules[1..], hook, p, depth)
  }

  /** A chain that rejects the packet rejects it wherever the hook is reached, and otherwise the hooks might as well
      not be there. */
  lemma {:induction false} RejectedWhereReached(
    fw: Fw, uid: nat, env: Surroundings, rules: seq<Rule>, p: Packet, depth: nat)
    requires p.uid == Some(uid) && depth > 0 && CHAIN in fw.chains
    requires Eval(fw, env, fw.chains[CHAIN], p, depth - 1) == Rejected
    ensures Eval(fw, env, rules, p, depth) ==
      if Reaches(fw, env, rules, Hook(uid), p, depth) then Rejected
      else Eval(fw, env, Without(rules, Hook(uid)), p, depth)
    decreases |rules|
  {
    if rules != [] && rules[0] != Hook(uid) {
      RejectedWhereReached(fw, uid, env, rules[1..], p, depth);
      assert ([rules[0]] + Without(rules[1..], Hook(uid)))[1..] == Without(rules[1..], Hook(uid));
    }
  }

  /** A chain that decides nothing for the packet might as well not be hooked. */
  lemma {:induction false} UndecidedIdle(
    fw: Fw, uid: nat, env: Surroundings, rules: seq<Rule>, p: Packet, depth: nat)
    requires CHAIN in fw.chains && (depth > 0 ==> Eval(fw, env, fw.chains[CHAIN], p, depth - 1) == Undecided)
    ensures Eval(fw, env, rules, p, depth) == Eval(fw, env, Without(rules, Hook(uid)), p, depth)
    decreases |rules|
  {
    if rules != [] {
      UndecidedIdle(fw, uid, env, rules[1..], p, depth);
      if rules[0] != Hook(uid) {
        assert ([rules[0]] + Without(rules[1..], Hook(uid)))[1..] == Without(rules[1..], Hook(uid));
      }
    }
  }

  /** Without its last rule the chain refuses nothing. */
  lemma PartialRefusesNothing(
    fw: Fw, env: Surroundings, chain: seq<Rule>, allowed: string, withReply: bool, p: Packet, depth: nat)
    requires chain <= FixedChain(allowed, withReply) && chain != FixedChain(allowed, withReply)
    requires !MayPass(env, allowed, p)
    ensures Eval(fw, env, chain, p, depth) == Undecided
  {
    var fixed := FixedChain(allowed, withReply);
    assert |chain| < 7 && forall i | 0 <= i < |chain| :: chain[i] == fixed[i];
    PolicyDecides(fw, env, chain, p, depth);
  }

  /** The exact price of rebuilding in place. In every state from the flush onwards, a packet of the tunnel user that
      may not pass is refused by the tunnel's rules if and only if the chain is complete and its hook is there and
      reached; in every other state it gets the verdict of the host's own rules. */
  lemma RefusedExactlyWhen(
    fw: Fw, uid: nat, env: Surroundings, allowed: string, withReply: bool, p: Packet, depth: nat)
    requires Rebuilding(fw, uid, allowed, withReply) && p.uid == Some(uid) && depth > 0
    requires !MayPass(env, allowed, p)
    ensures VerdictOf(fw, env, p, depth) ==
      if fw.chains[CHAIN] == FixedChain(allowed, withReply) && Reaches(fw, env, fw.output, Hook(uid), p, depth)
      then Rejected
      else VerdictOf(HostOnly(fw, uid), env, p, depth)
  {
    if fw.chains[CHAIN] == FixedChain(allowed, withReply) {
      ChainDecides(fw, env, allowed, withReply, p, depth - 1);
      RejectedWhereReached(fw, uid, env, fw.output, p, depth);
    } else {
      PartialRefusesNothing(fw, env, fw.chains[CHAIN], allowed, withReply, p, depth - 1);
      UndecidedIdle(fw, uid, env, fw.output, p, depth);
    }
    HostVerdict(fw, uid, env, p, depth);
  }

  lemma HostVerdict(fw: Fw, uid: nat, env: Surroundings, p: Packet, depth: nat)
    requires Private(fw, uid)
    ensures Eval(fw, env, Without(fw.output, Hook(uid)), p, depth) ==
      Eval(HostOnly(fw, uid), env, Without(fw.output, Hook(uid)), p, depth)
  {
    HostChains(fw);
    EvalElsewhere(fw, HostOnly(fw, uid), env, Without(fw.output, Hook(uid)), CHAIN, p, depth);
  }

  /** While the chain is empty, and while it is unhooked, this is so for every packet of the tunnel user. */
  lemma NothingEnforcedMeanwhile(fw: Fw, uid: nat, env: Surroundings, p: Packet, depth: nat)
    requires Private(fw, uid) && CHAIN in fw.chains && (fw.chains[CHAIN] == [] || Hook(uid) !in fw.output)
    ensures VerdictOf(fw, env, p, depth) == VerdictOf(HostOnly(fw, uid), env, p, depth)
  {
    if fw.chains[CHAIN] == [] {
      UndecidedIdle(fw, uid, env, fw.output, p, depth);
    } else {
      NothingToRemove(fw.output, Hook(uid));
    }
    HostVerdict(fw, uid, env, p, depth);
  }
}
