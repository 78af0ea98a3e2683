/** Packet filtering as `iptables` does it: an OUTPUT chain and named chains, rules tried in order, and
    the verdict of a packet. */
module Firewall {
  import opened Wrappers

  datatype Proto = Udp | Tcp | Other

  /** What the rules can see of an outgoing packet. `tags` are the foreign conditions it satisfies. */
  datatype Packet = Packet(
    uid: Option<nat>,
    established: bool,
    loopback: bool,
    proto: Proto,
    dport: nat,
    dst: nat,
    tags: set<nat>)

  datatype Condition =
    | Owner(uid: nat)
    | EstablishedOrRelated
    | ToLoopback
    | ToPort(proto: Proto, port: nat)
    | InSet(name: string)
    | UnderRateLimit
    | Always
    | Foreign(tag: nat)

  datatype RejectWith = PortUnreachable | Default

  datatype Target = Accept | Drop | Reject(how: RejectWith) | Log | Return | Jump(chain: string)

  datatype Rule = Rule(on: Condition, target: Target)

  /** `policy` is what happens to a packet no rule decides. */
  datatype Fw = Fw(output: seq<Rule>, chains: map<string, seq<Rule>>, policy: Verdict)

  datatype Verdict = Accepted | Dropped | Rejected | Undecided

  /** The members of every address set, and whether the rate limiter would let a log line through. */
  datatype Surroundings = Surroundings(sets: map<string, set<nat>>, underLimit: bool)

  predicate Matches(env: Surroundings, c: Condition, p: Packet) {
    match c
    case Owner(u) => p.uid == Some(u)
    case EstablishedOrRelated => p.established
    case ToLoopback => p.loopback
    case ToPort(proto, port) => p.proto == proto && p.dport == port
    case InSet(name) => name in env.sets && p.dst in env.sets[name]
    case UnderRateLimit => env.underLimit
    case Always => true
    case Foreign(tag) => tag in p.tags
  }

  /** First match wins; LOG does not decide; falling off a chain, or RETURN, goes back to the caller.
      `depth` is how many jumps may still be nested; a jump beyond it is not taken. */
  function Eval(fw: Fw, env: Surroundings, rules: seq<Rule>, p: Packet, depth: nat): Verdict
    decreases depth, |rules|
  {
    if rules == [] then Undecided
    else if !Matches(env, rules[0].on, p) then Eval(fw, env, rules[1..], p, depth)
    else
      match rules[0].target
      case Accept => Accepted
      case Drop => Dropped
      case Reject(_) => Rejected
      case Log => Eval(fw, env, rules[1..], p, depth)
      case Return => Undecided
      case Jump(c) =>
        var inner := if depth > 0 && c in fw.chains then Eval(fw, env, fw.chains[c], p, depth - 1) else Undecided;
        if inner == Undecided then Eval(fw, env, rules[1..], p, depth) else inner
  }

  function VerdictOf(fw: Fw, env: Surroundings, p: Packet, depth: nat): Verdict {
    var v := Eval(fw, env, fw.output, p, depth);
    if v == Undecided then fw.policy else v
  }

  /** The first rule that matches and does not merely log decides, whatever stands before it. */
  lemma {:induction false} FirstMatchDecides(
    fw: Fw, env: Surroundings, rules: seq<Rule>, i: nat, p: Packet, depth: nat)
    requires i < |rules| && Matches(env, rules[i].on, p)
    requires forall k | 0 <= k < i :: !Matches(env, rules[k].on, p) || rules[k].target == Log
    ensures rules[i].target == Accept ==> Eval(fw, env, rules, p, depth) == Accepted
    ensures rules[i].target == Drop ==> Eval(fw, env, rules, p, depth) == Dropped
    ensures rules[i].target.Reject? ==> Eval(fw, env, rules, p, depth) == Rejected
    ensures rules[i].target == Return ==> Eval(fw, env, rules, p, depth) == Undecided
    ensures rules[i].target.Jump? && depth > 0 && rules[i].target.chain in fw.chains ==>
      var inner := Eval(fw, env, fw.chains[rules[i].target.chain], p, depth - 1);
      Eval(fw, env, rules, p, depth) == if inner == Undecided then Eval(fw, env, rules[i + 1..], p, depth) else inner
  {
    if i > 0 {
      forall k | 0 <= k < i - 1 ensures !Matches(env, rules[1..][k].on, p) || rules[1..][k].target == Log {
        assert rules[1..][k] == rules[k + 1];
      }
      FirstMatchDecides(fw, env, rules[1..], i - 1, p, depth);
      assert rules[1..][i..] == rules[i + 1..];
    }
  }

  /** With no such rule the policy does. */
  lemma {:induction false} PolicyDecides(fw: Fw, env: Surroundings, rules: seq<Rule>, p: Packet, depth: nat)
    requires forall k | 0 <= k < |rules| :: !Matches(env, rules[k].on, p) || rules[k].target == Log
    ensures Eval(fw, env, rules, p, depth) == Undecided
    ensures rules == fw.output ==> VerdictOf(fw, env, p, depth) == fw.policy
    decreases |rules|
  {
    if rules != [] {
      forall k | 0 <= k < |rules[1..]| ensures !Matches(env, rules[1..][k].on, p) || rules[1..][k].target == Log {
        assert rules[1..][k] == rules[k + 1];
      }
      PolicyDecides(fw, env, rules[1..], p, depth);
    }
  }

  predicate JumpsTo(rules: seq<Rule>, chain: string) { exists r | r in rules :: r.target == Jump(chain) }

  /** Every copy of a rule removed. */
  function Without(rules: seq<Rule>, r: Rule): seq<Rule> {
    if rules == [] then []
    else if rules[0] == r then Without(rules[1..], r)
    else [rules[0]] + Without(rules[1..], r)
  }

  /** The first copy of a rule removed. */
  function WithoutFirst(rules: seq<Rule>, r: Rule): seq<Rule> {
    if rules == [] then [] else if rules[0] == r then rules[1..] else [rules[0]] + WithoutFirst(rules[1..], r)
  }

  function Copies(rules: seq<Rule>, r: Rule): nat {
    if rules == [] then 0 else (if rules[0] == r then 1 else 0) + Copies(rules[1..], r)
  }

  lemma {:induction false} RemovingOne(rules: seq<Rule>, r: Rule)
    requires r in rules
    ensures Without(WithoutFirst(rules, r), r) == Without(rules, r)
    ensures Copies(WithoutFirst(rules, r), r) == Copies(rules, r) - 1
  {
    if rules[0] != r {
      RemovingOne(rules[1..], r);
      var rest := WithoutFirst(rules[1..], r);
      assert ([rules[0]] + rest)[1..] == rest;
    }
  }

  lemma {:induction false} NothingToRemove(rules: seq<Rule>, r: Rule)
    ensures r !in rules <==> Copies(rules, r) == 0
    ensures r !in rules ==> Without(rules, r) == rules
    ensures r !in Without(rules, r)
    ensures forall x | x in Without(rules, r) :: x in rules
  {
    if rules != [] { NothingToRemove(rules[1..], r); }
  }

  /** Removal, and the count of copies, by multiplicities. */
  lemma {:induction false} CopiesAre(rules: seq<Rule>, r: Rule, x: Rule)
    ensures Copies(rules, r) == multiset(rules)[r]
    ensures multiset(Without(rules, r))[x] == if x == r then 0 else multiset(rules)[x]
  {
    if rules != [] {
      CopiesAre(rules[1..], r, x);
      assert rules == [rules[0]] + rules[1..];
    }
  }

  /** A rule that does not match a packet might as well not be there. */
  lemma {:induction false} EvalWithout(fw: Fw, env: Surroundings, rules: seq<Rule>, r: Rule, p: Packet, depth: nat)
    requires !Matches(env, r.on, p)
    ensures Eval(fw, env, Without(rules, r), p, depth) == Eval(fw, env, rules, p, depth)
  {
    if rules != [] {
      EvalWithout(fw, env, rules[1..], r, p, depth);
      if rules[0] != r {
        assert ([rules[0]] + Without(rules[1..], r))[1..] == Without(rules[1..], r);
      }
    }
  }

  /** Nothing outside `chain` jumps into it. */
  predicate Unreferenced(chains: map<string, seq<Rule>>, chain: string) {
    forall c | c in chains :: !JumpsTo(chains[c], chain)
  }

  /** What a chain nobody jumps into contains makes no difference. */
  lemma {:induction false} EvalElsewhere(
    a: Fw, b: Fw, env: Surroundings, rules: seq<Rule>, chain: string, p: Packet, depth: nat)
    requires !JumpsTo(rules, chain) && Unreferenced(a.chains, chain) && Unreferenced(b.chains, chain)
    requires a.chains - {chain} == b.chains - {chain}
    ensures Eval(a, env, rules, p, depth) == Eval(b, env, rules, p, depth)
    decreases depth, |rules|
  {
    if rules != [] {
      forall r | r in rules[1..] ensures r.target != Jump(chain) { assert r in rules; }
      EvalElsewhere(a, b, env, rules[1..], chain, p, depth);
      if rules[0].target.Jump? && depth > 0 {
        var c := rules[0].target.chain;
        assert rules[0] in rules;
        assert c in a.chains <==> c in a.chains - {chain};
        assert c in b.chains <==> c in b.chains - {chain};
        if c in a.chains {
          assert (a.chains - {chain})[c] == (b.chains - {chain})[c];
          EvalElsewhere(a, b, env, a.chains[c], chain, p, depth - 1);
        }
      }
    }
  }
}
