/** The egress script itself: commands that change one firewall in place, and the functions built from them. */
module EgressScript {
  import opened EgressRules
  import opened Firewall
  import opened Wrappers

  /** One address family's tables. Every command that changes something is remembered, so that what the
      script passes through can be spoken about. */
  class Tables {
    var output: seq<Rule>
    var chains: map<string, seq<Rule>>
    const policy: Verdict
    ghost var passed: seq<Fw>

    ghost function Value(): Fw
      reads this
    {
      Fw(output, chains, policy)
    }

    constructor (output: seq<Rule>, chains: map<string, seq<Rule>>, policy: Verdict)
      ensures Value() == Fw(output, chains, policy) && passed == []
    {
      this.output, this.chains, this.policy, passed := output, chains, policy, [];
    }

    /** `-N`: refused when the chain exists. */
    method NewChain(name: string) returns (ok: bool)
      modifies this
      ensures ok == (name !in old(chains))
      ensures output == old(output) && chains == if ok then old(chains)[name := []] else old(chains)
      ensures passed == old(passed) + if ok then [Value()] else []
    {
      ok := name !in chains;
      if ok {
        chains := chains[name := []];
        passed := passed + [Value()];
      }
    }

    /** `-F`: refused when there is no such chain. */
    method Flush(name: string) returns (ok: bool)
      modifies this
      ensures ok == (name in old(chains))
      ensures output == old(output) && chains == if ok then old(chains)[name := []] else old(chains)
      ensures passed == old(passed) + if ok then [Value()] else []
    {
      ok := name in chains;
      if ok {
        chains := chains[name := []];
        passed := passed + [Value()];
      }
    }

    /** `-A`. */
    method Append(name: string, r: Rule)
      requires name in chains
      modifies this
      ensures output == old(output) && chains == old(chains)[name := old(chains)[name] + [r]]
      ensures passed == old(passed) + [Value()]
    {
      chains := chains[name := chains[name] + [r]];
      passed := passed + [Value()];
    }

    /** `-C OUTPUT`. */
    method Check(r: Rule) returns (found: bool)
      ensures found == (r in output)
    {
      found := r in output;
    }

    /** `-D OUTPUT`: removes one copy. */
    method Delete(r: Rule) returns (ok: bool)
      modifies this
      ensures ok == (r in old(output)) && chains == old(chains)
      ensures output == if ok then WithoutFirst(old(output), r) else old(output)
      ensures passed == old(passed) + if ok then [Value()] else []
    {
      ok := r in output;
      if ok {
        output := WithoutFirst(output, r);
        passed := passed + [Value()];
      }
    }

    /** `-I OUTPUT`: at the head. */
    method Insert(r: Rule)
      modifies this
      ensures output == [r] + old(output) && chains == old(chains) && passed == old(passed) + [Value()]
    {
      output := [r] + output;
      passed := passed + [Value()];
    }

    /** `-X`: refused unless the chain exists, is empty and nothing jumps to it. */
    method DeleteChain(name: string) returns (ok: bool)
      modifies this
      ensures ok == (name in old(chains) && old(chains)[name] == []
                     && !JumpsTo(old(output), name) && Unreferenced(old(chains), name))
      ensures output == old(output) && chains == if ok then old(chains) - {name} else old(chains)
      ensures passed == old(passed) + if ok then [Value()] else []
    {
      ok := name in chains && chains[name] == [] && !JumpsTo(output, name) && Unreferenced(chains, name);
      if ok {
        chains := chains - {name};
        passed := passed + [Value()];
      }
    }

    /** Everything passed through since `from` left the rest of the host alone, if the chain was the tunnel's own. */
    ghost predicate HostKept(from: nat, start: Fw, uid: nat)
      reads this
    {
      from <= |passed| && (Private(start, uid) ==> forall k | from <= k < |passed| :: Kept(start, passed[k], uid))
    }

    /** ... and had the chain holding the first few of its fixed rules. */
    ghost predicate OnlyRebuilding(from: nat, start: Fw, uid: nat, allowed: string, withReply: bool)
      reads this
    {
      from <= |passed| && (Private(start, uid) ==>
        forall k | from <= k < |passed| :: Rebuilding(passed[k], uid, allowed, withReply))
    }

    /** `unhook`: deletes every copy of the hook, one at a time. */
    method Unhook(uid: nat)
      modifies this
      ensures output == Without(old(output), Hook(uid)) && chains == old(chains)
      ensures old(passed) <= passed && HostKept(|old(passed)|, old(Value()), uid)
      ensures forall k | |old(passed)| <= k < |passed| :: passed[k].chains == old(chains)
      ensures |passed| == |old(passed)| + Copies(old(output), Hook(uid))
      ensures Copies(old(output), Hook(uid)) > 0 ==> passed[|passed| - 1] == Value()
    {
      var hook := Hook(uid);
      var more := Check(hook);
      while more
        invariant more == (hook in output)
        invariant Without(output, hook) == Without(old(output), hook) && chains == old(chains)
        invariant old(passed) <= passed && HostKept(|old(passed)|, old(Value()), uid)
        invariant forall k | |old(passed)| <= k < |passed| :: passed[k].chains == old(chains)
        invariant |passed| == |old(passed)| + Copies(old(output), hook) - Copies(output, hook)
        invariant |passed| > |old(passed)| ==> passed[|passed| - 1] == Value()
        decreases Copies(output, hook)
      {
        RemovingOne(output, hook);
        var ok := Delete(hook);
        if !ok { break; }
        more := Check(hook);
      }
      NothingToRemove(output, hook);
    }

    /** `teardown`, for this family. A chain the host itself jumps to is emptied but stays. */
    method Teardown(uid: nat)
      modifies this
      ensures SameHost(old(Value()), Value(), uid) && Hook(uid) !in output
      ensures CHAIN in chains ==> chains[CHAIN] == []
      ensures Private(old(Value()), uid) ==> Value() == HostOnly(old(Value()), uid)
      ensures old(passed) <= passed && HostKept(|old(passed)|, old(Value()), uid)
    {
      ghost var start := Value();
      Unhook(uid);
      UnhookedKept(start, uid);
      var flushed := Flush(CHAIN);
      var deleted := DeleteChain(CHAIN);
    }

    /** The states since `from` are those with an empty chain, with its first rule, and so on up to its first `i`. */
    ghost predicate Filled(from: nat, start: Fw, allowed: string, withReply: bool, i: nat)
      requires i <= 7
      reads this
    {
      && |passed| == from + i + 1
      && forall k: nat | k <= i :: passed[from + k] == Partial(start, allowed, withReply, k)
    }

    /** The chain holds its first `i` rules, and every state since `from` was harmless. */
    ghost predicate Filling(start: Fw, from: nat, uid: nat, allowed: string, withReply: bool, i: nat)
      requires i <= 7
      reads this
    {
      && Value() == Partial(start, allowed, withReply, i)
      && Filled(from, start, allowed, withReply, i)
      && HostKept(from, start, uid)
      && OnlyRebuilding(from, start, uid, allowed, withReply)
    }

    /** `-N`, or `-F` if the chain is already there. */
    method EmptyChain(uid: nat, allowed: string, withReply: bool)
      modifies this
      ensures old(passed) <= passed && Filling(old(Value()), |old(passed)|, uid, allowed, withReply, 0)
    {
      ghost var start := Value();
      var made := NewChain(CHAIN);
      if !made { var flushed := Flush(CHAIN); }
      assert FixedChain(allowed, withReply)[..0] == [];
      PartialKept(start, uid, allowed, withReply, 0);
    }

    /** One `-A` of the fixed list. */
    method AppendNext(
      r: Rule, i: nat, ghost start: Fw, ghost from: nat, uid: nat, allowed: string, withReply: bool)
      requires i < 7 && FixedChain(allowed, withReply)[i] == r
      requires Filling(start, from, uid, allowed, withReply, i)
      modifies this
      ensures old(passed) <= passed && Filling(start, from, uid, allowed, withReply, i + 1)
    {
      Append(CHAIN, r);
      assert FixedChain(allowed, withReply)[..i + 1] == FixedChain(allowed, withReply)[..i] + [r];
      PartialKept(start, uid, allowed, withReply, i + 1);
    }

    method AppendAccepts(ghost start: Fw, ghost from: nat, uid: nat, allowed: string, withReply: bool)
      requires Filling(start, from, uid, allowed, withReply, 0)
      modifies this
      ensures old(passed) <= passed && Filling(start, from, uid, allowed, withReply, 5)
    {
      AppendNext(Rule(EstablishedOrRelated, Accept), 0, start, from, uid, allowed, withReply);
      AppendNext(Rule(ToLoopback, Accept), 1, start, from, uid, allowed, withReply);
      AppendNext(Rule(ToPort(Udp, 53), Accept), 2, start, from, uid, allowed, withReply);
      AppendNext(Rule(ToPort(Tcp, 53), Accept), 3, start, from, uid, allowed, withReply);
      AppendNext(Rule(InSet(allowed), Accept), 4, start, from, uid, allowed, withReply);
    }

    /** The log rule and then the refusal, in its second spelling where the first is not understood. */
    method AppendRefusal(ghost start: Fw, ghost from: nat, uid: nat, allowed: string, withReply: bool)
      requires Filling(start, from, uid, allowed, withReply, 5)
      modifies this
      ensures old(passed) <= passed && Filling(start, from, uid, allowed, withReply, 7)
    {
      AppendNext(Rule(UnderRateLimit, Log), 5, start, from, uid, allowed, withReply);
      if withReply {
        AppendNext(Rule(Always, Reject(PortUnreachable)), 6, start, from, uid, allowed, withReply);
      } else {
        AppendNext(Rule(Always, Reject(Default)), 6, start, from, uid, allowed, withReply);
      }
    }

    /** The first half of `build_chain`: the chain is emptied and filled. */
    method FillChain(uid: nat, allowed: string, withReply: bool)
      modifies this
      ensures old(passed) <= passed && Filling(old(Value()), |old(passed)|, uid, allowed, withReply, 7)
    {
      ghost var start := Value();
      EmptyChain(uid, allowed, withReply);
      AppendAccepts(start, |old(passed)|, uid, allowed, withReply);
      AppendRefusal(start, |old(passed)|, uid, allowed, withReply);
    }

    /** The second half: every copy of the hook goes, and one comes back. */
    method HookUp(uid: nat, allowed: string, withReply: bool, ghost start: Fw)
      requires Value() == Complete(start, allowed, withReply)
      modifies this
      ensures Value() == Enforced(start, uid, allowed, withReply) && old(passed) <= passed
      ensures HostKept(|old(passed)|, start, uid) && OnlyRebuilding(|old(passed)|, start, uid, allowed, withReply)
      ensures |passed| == |old(passed)| + Copies(start.output, Hook(uid)) + 1 && passed[|passed| - 1] == Value()
      ensures Copies(start.output, Hook(uid)) > 0 ==> passed[|passed| - 2] == Unhooked(start, uid, allowed, withReply)
    {
      CompleteKept(start, uid, allowed, withReply);
      Unhook(uid);
      ghost var bare := passed;
      ghost var hookless := Value();
      assert forall k | |old(passed)| <= k < |bare| :: Private(start, uid) ==> Rebuilding(bare[k], uid, allowed, withReply);
      Insert(Hook(uid));
      HookedKept(start, uid, allowed, withReply);
    }

    /** `build_chain`. `withReply` tells whether this family accepts the first spelling of the last rule. The states
        passed through are: the chain empty, with its first rule, and so on to all seven, the old hooks still there;
        then a hook fewer each time; then the new hook. */
    method BuildChain(uid: nat, allowed: string, withReply: bool)
      modifies this
      ensures Value() == Enforced(old(Value()), uid, allowed, withReply) && old(passed) <= passed
      ensures HostKept(|old(passed)|, old(Value()), uid) && OnlyRebuilding(|old(passed)|, old(Value()), uid, allowed, withReply)
      ensures |passed| == |old(passed)| + 9 + Copies(old(output), Hook(uid)) && passed[|passed| - 1] == Value()
      ensures forall k: nat | k <= 7 :: passed[|old(passed)| + k] == Partial(old(Value()), allowed, withReply, k)
      ensures Copies(old(output), Hook(uid)) > 0 ==>
        passed[|passed| - 2] == Unhooked(old(Value()), uid, allowed, withReply)
    {
      ghost var start := Value();
      FillChain(uid, allowed, withReply);
      CompleteIs(start, allowed, withReply);
      ghost var filled := passed;
      HookUp(uid, allowed, withReply, start);
      forall k: nat | k <= 7 ensures passed[|old(passed)| + k] == Partial(start, allowed, withReply, k) {
        assert passed[|old(passed)| + k] == filled[|old(passed)| + k];
      }
    }

    /** A refresh, from the tables an earlier run has left: of the ten states it passes through, the tunnel user is
        held back in two, the one in which the chain is complete and still hooked and the last one. In the other
        eight every packet gets the verdict of the host's own rules. */
    method Refresh(uid: nat, allowed: string, withReply: bool, ghost fw: Fw)
      requires Value() == Enforced(fw, uid, allowed, withReply) && Private(fw, uid)
      modifies this
      ensures Value() == old(Value()) && old(passed) <= passed && |passed| == |old(passed)| + 10
      ensures forall j | |old(passed)| <= j < |passed| ::
        HoldsBack(passed[j], fw, uid, allowed, j == |old(passed)| + 7 || j == |old(passed)| + 9)
    {
      ghost var start, from := Value(), |passed|;
      EnforcedOnce(fw, uid, allowed, withReply);
      SecondRunChangesNothing(fw, uid, allowed, withReply);
      BuildChain(uid, allowed, withReply);
      forall j | from <= j < |passed| ensures HoldsBack(passed[j], fw, uid, allowed, j == from + 7 || j == from + 9) {
        if j <= from + 7 {
          PartialHoldsBack(fw, uid, allowed, withReply, j - from);
          assert passed[from + (j - from)] == Partial(start, allowed, withReply, j - from);
        } else if j == from + 8 {
          UnhookedHoldsBack(fw, uid, allowed, withReply);
        } else {
          EnforcedHoldsBack(fw, uid, allowed, withReply);
        }
      }
    }
  }

  /** All seven rules in the chain. */
  function Complete(start: Fw, allowed: string, withReply: bool): Fw {
    start.(chains := start.chains[CHAIN := FixedChain(allowed, withReply)])
  }

  /** ... and no hook. */
  function Unhooked(start: Fw, uid: nat, allowed: string, withReply: bool): Fw {
    Complete(start, allowed, withReply).(output := Without(start.output, Hook(uid)))
  }

  /** Whether the tunnel's rules refuse what may not pass, or leave it to the host. */
  ghost predicate HoldsBack(state: Fw, fw: Fw, uid: nat, allowed: string, held: bool) {
    forall env: Surroundings, p: Packet, depth: nat | p.uid == Some(uid) && depth > 0 && !MayPass(env, allowed, p) ::
      VerdictOf(state, env, p, depth) == if held then Rejected else VerdictOf(HostOnly(fw, uid), env, p, depth)
  }

  lemma CompleteIs(start: Fw, allowed: string, withReply: bool)
    ensures Partial(start, allowed, withReply, 7) == Complete(start, allowed, withReply)
  {
    assert FixedChain(allowed, withReply)[..7] == FixedChain(allowed, withReply);
  }

  lemma CompleteKept(start: Fw, uid: nat, allowed: string, withReply: bool)
    ensures Private(start, uid) ==>
      && Kept(start, Complete(start, allowed, withReply), uid)
      && Rebuilding(Complete(start, allowed, withReply), uid, allowed, withReply)
  {
    CompleteIs(start, allowed, withReply);
    PartialKept(start, uid, allowed, withReply, 7);
  }

  /** A state that rebuilding passes through, with the host's part of `fw`. */
  lemma StateHoldsBack(state: Fw, fw: Fw, uid: nat, allowed: string, withReply: bool, held: bool)
    requires Rebuilding(state, uid, allowed, withReply) && HostOnly(state, uid) == HostOnly(fw, uid)
    requires held ==> state.chains[CHAIN] == FixedChain(allowed, withReply) && state.output != [] && state.output[0] == Hook(uid)
    requires !held ==> state.chains[CHAIN] != FixedChain(allowed, withReply) || Hook(uid) !in state.output
    ensures HoldsBack(state, fw, uid, allowed, held)
  {
    forall env: Surroundings, p: Packet, depth: nat | p.uid == Some(uid) && depth > 0 && !MayPass(env, allowed, p)
      ensures VerdictOf(state, env, p, depth) == if held then Rejected else VerdictOf(HostOnly(fw, uid), env, p, depth)
    {
      RefusedExactlyWhen(state, uid, env, allowed, withReply, p, depth);
      if Hook(uid) !in state.output { NeverReached(state, env, state.output, Hook(uid), p, depth); }
    }
  }

  lemma {:induction false} NeverReached(
    fw: Fw, env: Surroundings, rules: seq<Rule>, hook: Rule, p: Packet, depth: nat)
    requires hook !in rules
    ensures !Reaches(fw, env, rules, hook, p, depth)
    decreases |rules|
  {
    if rules != [] { NeverReached(fw, env, rules[1..], hook, p, depth); }
  }

  lemma EnforcedHoldsBack(fw: Fw, uid: nat, allowed: string, withReply: bool)
    requires Private(fw, uid)
    ensures HoldsBack(Enforced(fw, uid, allowed, withReply), fw, uid, allowed, true)
  {
    HookedKept(fw, uid, allowed, withReply);
    OnThenOff(fw, uid, allowed, withReply);
    StateHoldsBack(Enforced(fw, uid, allowed, withReply), fw, uid, allowed, withReply, true);
  }

  lemma PartialHoldsBack(fw: Fw, uid: nat, allowed: string, withReply: bool, k: nat)
    requires Private(fw, uid) && k <= 7
    ensures HoldsBack(Partial(Enforced(fw, uid, allowed, withReply), allowed, withReply, k), fw, uid, allowed, k == 7)
  {
    var start := Enforced(fw, uid, allowed, withReply);
    var state := Partial(start, allowed, withReply, k);
    HookedKept(fw, uid, allowed, withReply);
    OnThenOff(fw, uid, allowed, withReply);
    PartialKept(start, uid, allowed, withReply, k);
    CompleteIs(start, allowed, withReply);
    assert |state.chains[CHAIN]| == k && HostOnly(state, uid) == HostOnly(start, uid);
    StateHoldsBack(state, fw, uid, allowed, withReply, k == 7);
  }

  lemma UnhookedHoldsBack(fw: Fw, uid: nat, allowed: string, withReply: bool)
    requires Private(fw, uid)
    ensures HoldsBack(Unhooked(Enforced(fw, uid, allowed, withReply), uid, allowed, withReply), fw, uid, allowed, false)
  {
    var start := Enforced(fw, uid, allowed, withReply);
    var state := Unhooked(start, uid, allowed, withReply);
    HookedKept(fw, uid, allowed, withReply);
    OnThenOff(fw, uid, allowed, withReply);
    CompleteKept(start, uid, allowed, withReply);
    NothingToRemove(start.output, Hook(uid));
    NothingToRemove(state.output, Hook(uid));
    StateHoldsBack(state, fw, uid, allowed, withReply, false);
  }

  predicate Kept(start: Fw, fw: Fw, uid: nat) { Private(fw, uid) && SameHost(start, fw, uid) }

  /** The chain holds its first `i` fixed rules and nothing else has changed. */
  function Partial(start: Fw, allowed: string, withReply: bool, i: nat): Fw
    requires i <= 7
  {
    start.(chains := start.chains[CHAIN := FixedChain(allowed, withReply)[..i]])
  }

  lemma NoJumps(allowed: string, withReply: bool, i: nat)
    requires i <= 7
    ensures !JumpsTo(FixedChain(allowed, withReply)[..i], CHAIN)
  {
  }

  lemma ChainKept(fw: Fw, uid: nat, rules: seq<Rule>)
    requires !JumpsTo(rules, CHAIN)
    ensures var next := fw.(chains := fw.chains[CHAIN := rules]);
      SameHost(fw, next, uid) && (Private(fw, uid) ==> Kept(fw, next, uid))
  {
    var chains := fw.chains[CHAIN := rules];
    assert chains - {CHAIN} == fw.chains - {CHAIN};
  }

  lemma PartialKept(start: Fw, uid: nat, allowed: string, withReply: bool, i: nat)
    requires i <= 7
    ensures Private(start, uid) ==>
      && Kept(start, Partial(start, allowed, withReply, i), uid)
      && Rebuilding(Partial(start, allowed, withReply, i), uid, allowed, withReply)
  {
    NoJumps(allowed, withReply, i);
    ChainKept(start, uid, FixedChain(allowed, withReply)[..i]);
  }

  lemma HookedKept(start: Fw, uid: nat, allowed: string, withReply: bool)
    ensures Private(start, uid) ==>
      && Kept(start, Enforced(start, uid, allowed, withReply), uid)
      && Rebuilding(Enforced(start, uid, allowed, withReply), uid, allowed, withReply)
  {
    EnforcedOnce(start, uid, allowed, withReply);
    NoJumps(allowed, withReply, 7);
    ChainKept(start, uid, FixedChain(allowed, withReply)[..7]);
    assert FixedChain(allowed, withReply)[..7] == FixedChain(allowed, withReply);
  }

  /** With the hook gone, the chain may be emptied, and deleted where nothing else jumps to it. */
  lemma UnhookedKept(start: Fw, uid: nat)
    ensures var host := Without(start.output, Hook(uid));
      && Without(host, Hook(uid)) == host && Hook(uid) !in host
      && start.chains[CHAIN := []] - {CHAIN} == start.chains - {CHAIN}
      && (start.chains - {CHAIN}) - {CHAIN} == start.chains - {CHAIN}
      && (Private(start, uid) ==>
            && !JumpsTo(host, CHAIN)
            && Kept(start, Fw(host, start.chains[CHAIN := []], start.policy), uid)
            && Kept(start, Fw(host, start.chains - {CHAIN}, start.policy), uid))
  {
    var host := Without(start.output, Hook(uid));
    NothingToRemove(start.output, Hook(uid));
    NothingToRemove(host, Hook(uid));
    if Private(start, uid) { HostChains(start); }
    ChainKept(start, uid, []);
  }
}
