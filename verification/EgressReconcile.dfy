/** Runs of the whole egress script, over both address families: one, and any number. */
module EgressReconcile {
  import opened AddressSets
  import opened EgressRules
  import opened EgressScript
  import opened Firewall
  import opened Wrappers

  const SET4: string := "splittunnel-allow4"
  const SET6: string := "splittunnel-allow6"

  /** One run, from the clock at `clock`. `withReply4` and `withReply6` tell whether each family accepts the first
      spelling of the last rule. */
  method Reconcile(
    v4: Tables, v6: Tables, set4: AddressSet, set6: AddressSet, uid: nat, enabled: bool, ipsetInstalled: bool,
    domains: seq<Domain>, withReply4: bool, withReply6: bool, clock: nat)
    returns (status: nat, later: nat)
    requires v4 != v6 && set4 != set6 && set4.Valid() && set6.Valid()
    modifies v4, v6, set4, set6
    ensures set4.Valid() && set6.Valid()
    ensures !enabled ==>
      && status == 0 && later == clock
      && SameHost(old(v4.Value()), v4.Value(), uid) && Hook(uid) !in v4.output
      && SameHost(old(v6.Value()), v6.Value(), uid) && Hook(uid) !in v6.output
      && (Private(old(v4.Value()), uid) ==> v4.Value() == HostOnly(old(v4.Value()), uid))
      && (Private(old(v6.Value()), uid) ==> v6.Value() == HostOnly(old(v6.Value()), uid))
      && set4.adds == old(set4.adds) && set6.adds == old(set6.adds)
    ensures enabled && !ipsetInstalled ==>
      status == 1 && later == clock && unchanged(v4) && unchanged(v6) && unchanged(set4) && unchanged(set6)
    ensures enabled && ipsetInstalled ==>
      && status == 0
      && v4.Value() == Enforced(old(v4.Value()), uid, SET4, withReply4)
      && v6.Value() == Enforced(old(v6.Value()), uid, SET6, withReply6)
      && (var r := Resolved(domains, clock);
          set4.adds == old(set4.adds) + r.four && set6.adds == old(set6.adds) + r.six && later == r.clock)
      && NewLines(old(set4.adds), set4.adds, domains, false, clock)
      && NewLines(old(set6.adds), set6.adds, domains, true, clock) && later == clock + Spent(domains)
    ensures old(v4.passed) <= v4.passed && v4.HostKept(|old(v4.passed)|, old(v4.Value()), uid)
    ensures old(v6.passed) <= v6.passed && v6.HostKept(|old(v6.passed)|, old(v6.Value()), uid)
  {
    later := clock;
    if !enabled {
      v4.Teardown(uid);
      v6.Teardown(uid);
      return 0, later;
    }
    if !ipsetInstalled {
      return 1, later;
    }
    later := Resolve(set4, set6, domains, clock);
    v4.BuildChain(uid, SET4, withReply4);
    v6.BuildChain(uid, SET6, withReply6);
    status := 0;
  }

  // ---- Any number of runs ----

  /** A run of the timer, `idle` seconds after the one before it ended. */
  datatype Round = Round(idle: nat, enabled: bool, ipset: bool, domains: seq<Domain>)

  /** The round gets as far as the sets and the chains; an enabled one that finds no `ipset` gives up before. */
  predicate Enforces(r: Round) { r.enabled && r.ipset }

  /** Whether the last round that did anything to the tables enforced or took down; `None` if none did. */
  function LastEffect(rounds: seq<Round>): Option<bool> {
    if rounds == [] then None
    else
      var last := rounds[|rounds| - 1];
      if last.enabled && !last.ipset then LastEffect(rounds[..|rounds| - 1]) else Some(last.enabled)
  }

  /** What one round adds, when the rounds before it have added `so`. */
  function RoundAdds(so: Added, r: Round): Added {
    if Enforces(r) then Resolved(r.domains, so.clock + r.idle) else Added([], [], so.clock + r.idle)
  }

  function AllAdded(rounds: seq<Round>, clock: nat): Added {
    if rounds == [] then Added([], [], clock)
    else
      var so := AllAdded(rounds[..|rounds| - 1], clock);
      var r := RoundAdds(so, rounds[|rounds| - 1]);
      Added(so.four + r.four, so.six + r.six, r.clock)
  }

  /** When these rounds are over: each waits, and asks only if it is enabled and finds `ipset`. */
  function Over(rounds: seq<Round>, clock: nat): nat {
    if rounds == [] then clock
    else
      var last := rounds[|rounds| - 1];
      Over(rounds[..|rounds| - 1], clock) + last.idle + if last.enabled && last.ipset then Spent(last.domains) else 0
  }

  /** The round was enabled, found `ipset`, and resolved an allowed name to the address less than a day before `now`. */
  ghost predicate RoundGave(rounds: seq<Round>, clock: nat, six: bool, ip: nat, now: nat, r: nat)
    requires r < |rounds|
  {
    && rounds[r].enabled && rounds[r].ipset
    && LineWithinADay(rounds[r].domains, six, Over(rounds[..r], clock) + rounds[r].idle, ip, now)
  }

  /** Some round did. */
  ghost predicate ResolvedLately(rounds: seq<Round>, clock: nat, six: bool, ip: nat, now: nat) {
    exists r | 0 <= r < |rounds| :: RoundGave(rounds, clock, six, ip, now, r)
  }

  lemma {:induction false} OverIs(rounds: seq<Round>, clock: nat)
    ensures AllAdded(rounds, clock).clock == Over(rounds, clock)
  {
    if rounds != [] {
      var front, last := rounds[..|rounds| - 1], rounds[|rounds| - 1];
      OverIs(front, clock);
      ResolvedTakes(last.domains, Over(front, clock) + last.idle);
    }
  }

  lemma LatelyBefore(rounds: seq<Round>, clock: nat, six: bool, ip: nat, now: nat)
    requires rounds != []
    ensures var m := |rounds| - 1;
      ResolvedLately(rounds, clock, six, ip, now) <==>
        ResolvedLately(rounds[..m], clock, six, ip, now) || RoundGave(rounds, clock, six, ip, now, m)
  {
    var m := |rounds| - 1;
    forall r | 0 <= r < m
      ensures RoundGave(rounds[..m], clock, six, ip, now, r) <==> RoundGave(rounds, clock, six, ip, now, r)
    {
      assert rounds[..m][..r] == rounds[..r];
    }
    if ResolvedLately(rounds[..m], clock, six, ip, now) {
      var r :| 0 <= r < m && RoundGave(rounds[..m], clock, six, ip, now, r);
      assert RoundGave(rounds, clock, six, ip, now, r);
    }
    if ResolvedLately(rounds, clock, six, ip, now) {
      var r :| 0 <= r < |rounds| && RoundGave(rounds, clock, six, ip, now, r);
      if r < m { assert RoundGave(rounds[..m], clock, six, ip, now, r); }
    }
  }

  lemma RoundAdded(so: Added, front: seq<Round>, rounds: seq<Round>, clock: nat, six: bool, ip: nat, now: nat)
    requires rounds != [] && front == rounds[..|rounds| - 1] && so.clock == Over(front, clock)
    ensures AddedWithinTtl(Of(RoundAdds(so, rounds[|front|]), six), ip, now) <==>
      RoundGave(rounds, clock, six, ip, now, |front|)
  {
    var last := rounds[|front|];
    if Enforces(last) {
      var start := so.clock + last.idle;
      ResolvedLines(last.domains, six, start);
      LinesWithinADay(Of(Resolved(last.domains, start), six), last.domains, six, start, ip, now);
    }
  }

  lemma {:induction false} AllAddedLately(rounds: seq<Round>, clock: nat, six: bool, ip: nat, now: nat)
    ensures AddedWithinTtl(Of(AllAdded(rounds, clock), six), ip, now) <==> ResolvedLately(rounds, clock, six, ip, now)
  {
    if rounds != [] {
      var front, last := rounds[..|rounds| - 1], rounds[|rounds| - 1];
      var so := AllAdded(front, clock);
      AllAddedLately(front, clock, six, ip, now);
      AddedByEither(Of(so, six), Of(RoundAdds(so, last), six), ip, now);
      OverIs(front, clock);
      LatelyBefore(rounds, clock, six, ip, now);
      RoundAdded(so, front, rounds, clock, six, ip, now);
    }
  }

  lemma RoundBetween(so: Added, r: Round)
    ensures var a := RoundAdds(so, r);
      so.clock <= a.clock && Between(a.four, so.clock, a.clock) && Between(a.six, so.clock, a.clock)
  {
    if Enforces(r) {
      ResolvedBetween(r.domains, so.clock + r.idle);
      var a := RoundAdds(so, r);
      Wider(a.four, so.clock + r.idle, a.clock, so.clock, a.clock);
      Wider(a.six, so.clock + r.idle, a.clock, so.clock, a.clock);
    }
  }

  /** However many runs there are, and whatever they resolve, their adds come in order. */
  lemma {:induction false} AllBetween(rounds: seq<Round>, clock: nat)
    ensures var a := AllAdded(rounds, clock); Between(a.four, clock, a.clock) && Between(a.six, clock, a.clock)
  {
    if rounds != [] {
      var so, last := AllAdded(rounds[..|rounds| - 1], clock), rounds[|rounds| - 1];
      var a := RoundAdds(so, last);
      AllBetween(rounds[..|rounds| - 1], clock);
      RoundBetween(so, last);
      BetweenJoined(so.four, a.four, clock, so.clock, a.clock);
      BetweenJoined(so.six, a.six, clock, so.clock, a.clock);
    }
  }

  lemma EnforcedAgain(start: Fw, fw: Fw, uid: nat, allowed: string, withReply: bool)
    requires SameHost(start, fw, uid)
    ensures Enforced(fw, uid, allowed, withReply) == Enforced(start, uid, allowed, withReply)
    ensures SameHost(start, Enforced(start, uid, allowed, withReply), uid)
  {
    var chain := FixedChain(allowed, withReply);
    assert start.chains[CHAIN := chain] == (start.chains - {CHAIN})[CHAIN := chain];
    assert fw.chains[CHAIN := chain] == (fw.chains - {CHAIN})[CHAIN := chain];
    assert start.chains[CHAIN := chain] - {CHAIN} == start.chains - {CHAIN};
    EnforcedOnce(start, uid, allowed, withReply);
  }

  /** A new packet of the tunnel user, to an ordinary port. */
  predicate NewTraffic(p: Packet, uid: nat) { p.uid == Some(uid) && !p.established && !p.loopback && p.dport != 53 }

  /** At every second, with the members the set then has, new traffic passes exactly to the addresses that were in
      the set before and have not timed out, and to those some enforcing run of the last day resolved. */
  ghost predicate PassesLately(
    fw: Fw, uid: nat, allowed: string, expiry: map<nat, nat>, before: seq<Entry>, rounds: seq<Round>, clock: nat, six: bool)
  {
    forall env: Surroundings, p: Packet, depth: nat, now: nat |
      && NewTraffic(p, uid) && depth > 0
      && allowed in env.sets && env.sets[allowed] == Members(expiry, now) ::
      VerdictOf(fw, env, p, depth) ==
        if AddedWithinTtl(before, p.dst, now) || ResolvedLately(rounds, clock, six, p.dst, now) then Accepted else Rejected
  }

  /** At every second the set has exactly the addresses it had before that have not timed out, and those some
      enforcing run of the last day resolved. */
  ghost predicate HoldsLately(expiry: map<nat, nat>, before: seq<Entry>, rounds: seq<Round>, clock: nat, six: bool) {
    forall ip: nat, now: nat ::
      ip in Members(expiry, now) <==> AddedWithinTtl(before, ip, now) || ResolvedLately(rounds, clock, six, ip, now)
  }

  lemma AddressHeldIff(
    adds: seq<Entry>, before: seq<Entry>, rounds: seq<Round>, clock: nat, six: bool, ip: nat, now: nat)
    requires adds == before + Of(AllAdded(rounds, clock), six) && Between(before, 0, clock)
    ensures ip in Members(Expiries(adds), now) <==>
      AddedWithinTtl(before, ip, now) || ResolvedLately(rounds, clock, six, ip, now)
  {
    var a := AllAdded(rounds, clock);
    AllBetween(rounds, clock);
    BetweenJoined(before, Of(a, six), 0, clock, a.clock);
    MemberIff(adds, ip, now);
    AddedByEither(before, Of(a, six), ip, now);
    AllAddedLately(rounds, clock, six, ip, now);
  }

  lemma AllHeldLately(
    expiry: map<nat, nat>, adds: seq<Entry>, before: seq<Entry>, rounds: seq<Round>, clock: nat, six: bool)
    requires adds == before + Of(AllAdded(rounds, clock), six) && Between(before, 0, clock) && expiry == Expiries(adds)
    ensures HoldsLately(expiry, before, rounds, clock, six)
  {
    forall ip: nat, now: nat
      ensures ip in Members(expiry, now) <==>
        AddedWithinTtl(before, ip, now) || ResolvedLately(rounds, clock, six, ip, now)
    {
      AddressHeldIff(adds, before, rounds, clock, six, ip, now);
    }
  }

  /** One moment of it. */
  lemma NewTrafficPassesIff(
    fw: Fw, uid: nat, env: Surroundings, allowed: string, withReply: bool, p: Packet, depth: nat,
    adds: seq<Entry>, before: seq<Entry>, rounds: seq<Round>, clock: nat, six: bool, now: nat)
    requires NewTraffic(p, uid) && depth > 0
    requires adds == before + Of(AllAdded(rounds, clock), six) && Between(before, 0, clock)
    requires allowed in env.sets && env.sets[allowed] == Members(Expiries(adds), now)
    ensures VerdictOf(Enforced(fw, uid, allowed, withReply), env, p, depth) ==
      if AddedWithinTtl(before, p.dst, now) || ResolvedLately(rounds, clock, six, p.dst, now) then Accepted else Rejected
  {
    TunnelVerdict(fw, uid, env, allowed, withReply, p, depth);
    AddressHeldIff(adds, before, rounds, clock, six, p.dst, now);
  }

  lemma AllPassLately(
    fw: Fw, uid: nat, allowed: string, withReply: bool, expiry: map<nat, nat>,
    adds: seq<Entry>, before: seq<Entry>, rounds: seq<Round>, clock: nat, six: bool)
    requires adds == before + Of(AllAdded(rounds, clock), six) && Between(before, 0, clock) && expiry == Expiries(adds)
    ensures PassesLately(Enforced(fw, uid, allowed, withReply), uid, allowed, expiry, before, rounds, clock, six)
  {
    forall env: Surroundings, p: Packet, depth: nat, now: nat |
      && NewTraffic(p, uid) && depth > 0
      && allowed in env.sets && env.sets[allowed] == Members(expiry, now)
      ensures VerdictOf(Enforced(fw, uid, allowed, withReply), env, p, depth) ==
        if AddedWithinTtl(before, p.dst, now) || ResolvedLately(rounds, clock, six, p.dst, now) then Accepted else Rejected
    {
      NewTrafficPassesIff(fw, uid, env, allowed, withReply, p, depth, adds, before, rounds, clock, six, now);
    }
  }

  /** What the rounds leave of one family's tables. */
  ghost predicate Left(
    start: Fw, fw: Fw, uid: nat, allowed: string, withReply: bool, effect: Option<bool>)
  {
    match effect
    case None => fw == start
    case Some(true) => fw == Enforced(start, uid, allowed, withReply)
    case Some(false) => SameHost(start, fw, uid) && Hook(uid) !in fw.output
  }

  lemma LeftSameHost(start: Fw, fw: Fw, uid: nat, allowed: string, withReply: bool, effect: Option<bool>)
    requires Left(start, fw, uid, allowed, withReply, effect)
    ensures SameHost(start, fw, uid)
    ensures Enforced(fw, uid, allowed, withReply) == Enforced(start, uid, allowed, withReply)
  {
    EnforcedAgain(start, start, uid, allowed, withReply);
    EnforcedAgain(start, fw, uid, allowed, withReply);
  }

  /** Any number of runs, at any intervals: enabled or not, with `ipset` or without. The tables are those the last
      run that touched them leaves, however many there were; the sets have every address every enforcing run
      resolved, in the order of their times; and while enforced, new traffic passes exactly to the addresses on the
      lines of the answers of the last day. */
  method ReconcileAll(
    v4: Tables, v6: Tables, set4: AddressSet, set6: AddressSet, uid: nat, rounds: seq<Round>,
    withReply4: bool, withReply6: bool, clock: nat)
    returns (later: nat)
    requires v4 != v6 && set4 != set6 && set4.Valid() && set6.Valid()
    requires Between(set4.adds, 0, clock) && Between(set6.adds, 0, clock)
    modifies v4, v6, set4, set6
    ensures set4.Valid() && set6.Valid()
    ensures var a := AllAdded(rounds, clock);
      set4.adds == old(set4.adds) + a.four && set6.adds == old(set6.adds) + a.six && later == a.clock
    ensures Ordered(set4.adds) && Ordered(set6.adds) && later == Over(rounds, clock)
    ensures HoldsLately(set4.expiry, old(set4.adds), rounds, clock, false)
    ensures HoldsLately(set6.expiry, old(set6.adds), rounds, clock, true)
    ensures Left(old(v4.Value()), v4.Value(), uid, SET4, withReply4, LastEffect(rounds))
    ensures Left(old(v6.Value()), v6.Value(), uid, SET6, withReply6, LastEffect(rounds))
    ensures LastEffect(rounds) == Some(true) ==>
      && PassesLately(v4.Value(), uid, SET4, set4.expiry, old(set4.adds), rounds, clock, false)
      && PassesLately(v6.Value(), uid, SET6, set6.expiry, old(set6.adds), rounds, clock, true)
  {
    later := RunAll(v4, v6, set4, set6, uid, rounds, withReply4, withReply6, clock);
    AllBetween(rounds, clock);
    OverIs(rounds, clock);
    AllHeldLately(set4.expiry, set4.adds, old(set4.adds), rounds, clock, false);
    AllHeldLately(set6.expiry, set6.adds, old(set6.adds), rounds, clock, true);
    BetweenJoined(old(set4.adds), AllAdded(rounds, clock).four, 0, clock, later);
    BetweenJoined(old(set6.adds), AllAdded(rounds, clock).six, 0, clock, later);
    AllPassLately(
      old(v4.Value()), uid, SET4, withReply4, set4.expiry, set4.adds, old(set4.adds), rounds, clock, false);
    AllPassLately(
      old(v6.Value()), uid, SET6, withReply6, set6.expiry, set6.adds, old(set6.adds), rounds, clock, true);
  }

  function EffectAfter(before: Option<bool>, r: Round): Option<bool> {
    if r.enabled && !r.ipset then before else Some(r.enabled)
  }

  method RunOne(
    v4: Tables, v6: Tables, set4: AddressSet, set6: AddressSet, uid: nat, r: Round,
    withReply4: bool, withReply6: bool, clock: nat, ghost start4: Fw, ghost start6: Fw, ghost so: Added,
    ghost effect: Option<bool>, ghost before4: seq<Entry>, ghost before6: seq<Entry>)
    returns (later: nat)
    requires v4 != v6 && set4 != set6 && set4.Valid() && set6.Valid() && so.clock == clock
    requires set4.adds == before4 + so.four && set6.adds == before6 + so.six
    requires Left(start4, v4.Value(), uid, SET4, withReply4, effect)
    requires Left(start6, v6.Value(), uid, SET6, withReply6, effect)
    modifies v4, v6, set4, set6
    ensures set4.Valid() && set6.Valid()
    ensures set4.adds == before4 + (so.four + RoundAdds(so, r).four)
    ensures set6.adds == before6 + (so.six + RoundAdds(so, r).six) && later == RoundAdds(so, r).clock
    ensures Left(start4, v4.Value(), uid, SET4, withReply4, EffectAfter(effect, r))
    ensures Left(start6, v6.Value(), uid, SET6, withReply6, EffectAfter(effect, r))
  {
    LeftSameHost(start4, v4.Value(), uid, SET4, withReply4, effect);
    LeftSameHost(start6, v6.Value(), uid, SET6, withReply6, effect);
    Associate(before4, so.four, RoundAdds(so, r).four);
    Associate(before6, so.six, RoundAdds(so, r).six);
    var status;
    status, later := Reconcile(
      v4, v6, set4, set6, uid, r.enabled, r.ipset, r.domains, withReply4, withReply6, clock + r.idle);
  }

  lemma RoundsNext(rounds: seq<Round>, i: nat, clock: nat, so: Added)
    requires i < |rounds| && so == AllAdded(rounds[..i], clock)
    ensures var r := RoundAdds(so, rounds[i]);
      AllAdded(rounds[..i + 1], clock) == Added(so.four + r.four, so.six + r.six, r.clock)
    ensures LastEffect(rounds[..i + 1]) == EffectAfter(LastEffect(rounds[..i]), rounds[i])
  {
    assert rounds[..i + 1][..i] == rounds[..i];
  }

  /** The runs themselves. */
  method RunAll(
    v4: Tables, v6: Tables, set4: AddressSet, set6: AddressSet, uid: nat, rounds: seq<Round>,
    withReply4: bool, withReply6: bool, clock: nat)
    returns (later: nat)
    requires v4 != v6 && set4 != set6 && set4.Valid() && set6.Valid()
    modifies v4, v6, set4, set6
    ensures set4.Valid() && set6.Valid()
    ensures var a := AllAdded(rounds, clock);
      set4.adds == old(set4.adds) + a.four && set6.adds == old(set6.adds) + a.six && later == a.clock
    ensures Left(old(v4.Value()), v4.Value(), uid, SET4, withReply4, LastEffect(rounds))
    ensures Left(old(v6.Value()), v6.Value(), uid, SET6, withReply6, LastEffect(rounds))
  {
    later := clock;
    ghost var start4, start6, so := v4.Value(), v6.Value(), Added([], [], clock);
    for i := 0 to |rounds|
      invariant set4.Valid() && set6.Valid() && so == AllAdded(rounds[..i], clock)
      invariant set4.adds == old(set4.adds) + so.four && set6.adds == old(set6.adds) + so.six && later == so.clock
      invariant Left(start4, v4.Value(), uid, SET4, withReply4, LastEffect(rounds[..i]))
      invariant Left(start6, v6.Value(), uid, SET6, withReply6, LastEffect(rounds[..i]))
    {
      RoundsNext(rounds, i, clock, so);
      later := RunOne(
        v4, v6, set4, set6, uid, rounds[i], withReply4, withReply6, later, start4, start6, so, LastEffect(rounds[..i]),
        old(set4.adds), old(set6.adds));
      so := AllAdded(rounds[..i + 1], clock);
    }
    assert rounds[..|rounds|] == rounds;
  }
}
