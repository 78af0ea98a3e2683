/** The address sets of the egress script: `ipset` entries that time out, refreshed by every run. */
module AddressSets {
  const TTL: nat := 86400

  /** One line of the resolver's answer, with the second at which it is added. */
  datatype Entry = Entry(at: nat, ip: nat)

  predicate Ordered(adds: seq<Entry>) {
    forall i, j | 0 <= i < j < |adds| :: adds[i].at <= adds[j].at
  }

  /** When each address goes, after these adds. */
  function Expiries(adds: seq<Entry>): map<nat, nat> {
    if adds == [] then map[]
    else var last := adds[|adds| - 1]; Expiries(adds[..|adds| - 1])[last.ip := last.at + TTL]
  }

  /** The addresses still in the set at second `now`. */
  function Members(expiry: map<nat, nat>, now: nat): set<nat> {
    set ip | ip in expiry && now < expiry[ip]
  }

  /** Some add of the address is less than a day old. */
  predicate AddedWithinTtl(adds: seq<Entry>, ip: nat, now: nat) {
    exists k | 0 <= k < |adds| :: adds[k].ip == ip && now < adds[k].at + TTL
  }

  /** Over any number of refreshes: an address is in the set exactly while some add of it, the first or any
      later one, is less than a day old. Nothing accumulates and nothing is dropped early. */
  lemma {:induction false} MemberIff(adds: seq<Entry>, ip: nat, now: nat)
    requires Ordered(adds)
    ensures ip in Members(Expiries(adds), now) <==> AddedWithinTtl(adds, ip, now)
  {
    if adds != [] {
      var m := |adds| - 1;
      MemberIff(adds[..m], ip, now);
      if adds[m].ip == ip {
        if AddedWithinTtl(adds, ip, now) {
          var k :| 0 <= k < |adds| && adds[k].ip == ip && now < adds[k].at + TTL;
          assert adds[k].at <= adds[m].at;
        }
      } else {
        if AddedWithinTtl(adds, ip, now) {
          var k :| 0 <= k < |adds| && adds[k].ip == ip && now < adds[k].at + TTL;
          assert adds[..m][k] == adds[k];
        }
        if AddedWithinTtl(adds[..m], ip, now) {
          var k :| 0 <= k < m && adds[..m][k].ip == ip && now < adds[..m][k].at + TTL;
          assert adds[k].ip == ip;
        }
      }
    }
  }

  // ---- Resolving, against a clock ----

  /** One line of a resolver's answer, added `delay` seconds after whatever came before it. */
  datatype Line = Line(delay: nat, ip: nat)

  /** What one domain resolves to, in each family. */
  datatype Domain = Domain(four: seq<Line>, six: seq<Line>)

  function After(lines: seq<Line>, clock: nat): (later: nat)
    ensures later >= clock
  {
    if lines == [] then clock else After(lines[..|lines| - 1], clock) + lines[|lines| - 1].delay
  }

  function Stamped(lines: seq<Line>, clock: nat): seq<Entry> {
    if lines == [] then []
    else Stamped(lines[..|lines| - 1], clock) + [Entry(After(lines, clock), lines[|lines| - 1].ip)]
  }

  /** What a run adds to the two sets, and the clock when it is done. */
  datatype Added = Added(four: seq<Entry>, six: seq<Entry>, clock: nat)

  function OneMore(so: Added, d: Domain): Added {
    var between := After(d.four, so.clock);
    Added(so.four + Stamped(d.four, so.clock), so.six + Stamped(d.six, between), After(d.six, between))
  }

  function Resolved(domains: seq<Domain>, clock: nat): Added {
    if domains == [] then Added([], [], clock)
    else OneMore(Resolved(domains[..|domains| - 1], clock), domains[|domains| - 1])
  }

  // ---- Line by line ----

  function LinesOf(d: Domain, six: bool): seq<Line> { if six then d.six else d.four }

  /** How long all these lines took. */
  function Delays(lines: seq<Line>): nat {
    if lines == [] then 0 else Delays(lines[..|lines| - 1]) + lines[|lines| - 1].delay
  }

  /** How long it took to ask for these domains, in both families. */
  function Spent(domains: seq<Domain>): nat {
    if domains == [] then 0
    else
      var d := domains[|domains| - 1];
      Spent(domains[..|domains| - 1]) + Delays(d.four) + Delays(d.six)
  }

  function LineCount(domains: seq<Domain>, six: bool): nat {
    if domains == [] then 0
    else LineCount(domains[..|domains| - 1], six) + |LinesOf(domains[|domains| - 1], six)|
  }

  /** The second at which the `l`-th line of the `d`-th domain is added, in a run that started asking at `clock`:
      everything asked before, the domain's first family before its second, and the lines up to this one. */
  function LineTime(domains: seq<Domain>, six: bool, clock: nat, d: nat, l: nat): nat
    requires d < |domains| && l < |LinesOf(domains[d], six)|
  {
    clock + Spent(domains[..d]) + (if six then Delays(domains[d].four) else 0) + Delays(LinesOf(domains[d], six)[..l + 1])
  }

  /** One entry for each line of the family, in the order of the lines, with the line's address and its second;
      and no other. */
  ghost predicate OneEntryPerLine(adds: seq<Entry>, domains: seq<Domain>, six: bool, clock: nat) {
    && |adds| == LineCount(domains, six)
    && forall d, l | 0 <= d < |domains| && 0 <= l < |LinesOf(domains[d], six)| ::
         EntryOfLine(adds, domains, six, clock, d, l)
  }

  predicate EntryOfLine(adds: seq<Entry>, domains: seq<Domain>, six: bool, clock: nat, d: nat, l: nat)
    requires d < |domains| && l < |LinesOf(domains[d], six)|
  {
    var k := LineCount(domains[..d], six) + l;
    k < |adds| && adds[k] == Entry(LineTime(domains, six, clock, d, l), LinesOf(domains[d], six)[l].ip)
  }

  lemma {:induction false} StampedLines(lines: seq<Line>, clock: nat)
    ensures After(lines, clock) == clock + Delays(lines) && |Stamped(lines, clock)| == |lines|
    ensures forall l | 0 <= l < |lines| :: Stamped(lines, clock)[l] == Entry(clock + Delays(lines[..l + 1]), lines[l].ip)
  {
    if lines != [] {
      var m := |lines| - 1;
      StampedLines(lines[..m], clock);
      assert lines[..m + 1] == lines;
      forall l | 0 <= l < m ensures Stamped(lines, clock)[l] == Entry(clock + Delays(lines[..l + 1]), lines[l].ip) {
        assert lines[..m][..l + 1] == lines[..l + 1] && Stamped(lines, clock)[l] == Stamped(lines[..m], clock)[l];
      }
    }
  }

  lemma {:induction false} ResolvedTakes(domains: seq<Domain>, clock: nat)
    ensures Resolved(domains, clock).clock == clock + Spent(domains)
  {
    if domains != [] {
      var so, d := Resolved(domains[..|domains| - 1], clock), domains[|domains| - 1];
      ResolvedTakes(domains[..|domains| - 1], clock);
      StampedLines(d.four, so.clock);
      StampedLines(d.six, After(d.four, so.clock));
    }
  }

  function Of(a: Added, six: bool): seq<Entry> { if six then a.six else a.four }

  lemma EntriesAppended(
    adds: seq<Entry>, more: seq<Entry>, front: seq<Domain>, d: Domain, domains: seq<Domain>, six: bool, clock: nat,
    start: nat)
    requires domains == front + [d] && OneEntryPerLine(adds, front, six, clock) && |more| == |LinesOf(d, six)|
    requires start == clock + Spent(front) + if six then Delays(d.four) else 0
    requires forall l | 0 <= l < |more| :: more[l] == Entry(start + Delays(LinesOf(d, six)[..l + 1]), LinesOf(d, six)[l].ip)
    ensures OneEntryPerLine(adds + more, domains, six, clock)
  {
    assert domains[..|domains| - 1] == front;
    forall e, l | 0 <= e < |domains| && 0 <= l < |LinesOf(domains[e], six)|
      ensures EntryOfLine(adds + more, domains, six, clock, e, l)
    {
      if e < |front| {
        assert domains[..e] == front[..e] && domains[e] == front[e];
        assert EntryOfLine(adds, front, six, clock, e, l);
        assert (adds + more)[LineCount(front[..e], six) + l] == adds[LineCount(front[..e], six) + l];
      } else {
        assert domains[..e] == front && domains[e] == d;
        assert (adds + more)[|adds| + l] == more[l];
      }
    }
  }

  /** What a run adds, without a word about how it goes about it. */
  lemma {:induction false} ResolvedLines(domains: seq<Domain>, six: bool, clock: nat)
    ensures OneEntryPerLine(Of(Resolved(domains, clock), six), domains, six, clock)
  {
    if domains != [] {
      var front, d := domains[..|domains| - 1], domains[|domains| - 1];
      var so := Resolved(front, clock);
      var between := After(d.four, so.clock);
      ResolvedLines(front, six, clock);
      ResolvedTakes(front, clock);
      StampedLines(d.four, so.clock);
      StampedLines(d.six, between);
      assert front + [d] == domains;
      if six {
        EntriesAppended(so.six, Stamped(d.six, between), front, d, domains, six, clock, between);
      } else {
        EntriesAppended(so.four, Stamped(d.four, so.clock), front, d, domains, six, clock, so.clock);
      }
    }
  }

  /** The line an entry stands for. */
  lemma {:induction false} LineOfEntry(domains: seq<Domain>, six: bool, k: nat) returns (d: nat, l: nat)
    requires k < LineCount(domains, six)
    ensures d < |domains| && l < |LinesOf(domains[d], six)| && k == LineCount(domains[..d], six) + l
  {
    var m := |domains| - 1;
    if k < LineCount(domains[..m], six) {
      d, l := LineOfEntry(domains[..m], six, k);
      assert domains[..m][..d] == domains[..d];
    } else {
      d, l := m, k - LineCount(domains[..m], six);
    }
  }

  /** Some line of the family of some domain has the address. */
  predicate OnSomeLine(domains: seq<Domain>, six: bool, ip: nat) {
    exists d | 0 <= d < |domains| :: HasLine(LinesOf(domains[d], six), ip)
  }

  predicate HasLine(lines: seq<Line>, ip: nat) { exists l | 0 <= l < |lines| :: lines[l].ip == ip }

  predicate Adds(adds: seq<Entry>, ip: nat) { exists k | 0 <= k < |adds| :: adds[k].ip == ip }

  /** An address is among the entries exactly if some line of the family has it. */
  lemma AddsExactlyTheLines(adds: seq<Entry>, domains: seq<Domain>, six: bool, clock: nat, ip: nat)
    requires OneEntryPerLine(adds, domains, six, clock)
    ensures Adds(adds, ip) <==> OnSomeLine(domains, six, ip)
  {
    if Adds(adds, ip) {
      var k :| 0 <= k < |adds| && adds[k].ip == ip;
      var d, l := LineOfEntry(domains, six, k);
      assert EntryOfLine(adds, domains, six, clock, d, l);
      assert HasLine(LinesOf(domains[d], six), ip);
    }
    if OnSomeLine(domains, six, ip) {
      var d :| 0 <= d < |domains| && HasLine(LinesOf(domains[d], six), ip);
      var l :| 0 <= l < |LinesOf(domains[d], six)| && LinesOf(domains[d], six)[l].ip == ip;
      assert EntryOfLine(adds, domains, six, clock, d, l);
    }
  }

  /** Some line with the address was added less than a day before `now`. */
  ghost predicate LineWithinADay(domains: seq<Domain>, six: bool, clock: nat, ip: nat, now: nat) {
    exists d, l | 0 <= d < |domains| && 0 <= l < |LinesOf(domains[d], six)| ::
      LinesOf(domains[d], six)[l].ip == ip && now < LineTime(domains, six, clock, d, l) + 86400
  }

  lemma LinesWithinADay(adds: seq<Entry>, domains: seq<Domain>, six: bool, clock: nat, ip: nat, now: nat)
    requires OneEntryPerLine(adds, domains, six, clock)
    ensures AddedWithinTtl(adds, ip, now) <==> LineWithinADay(domains, six, clock, ip, now)
  {
    if AddedWithinTtl(adds, ip, now) {
      var k :| 0 <= k < |adds| && adds[k].ip == ip && now < adds[k].at + TTL;
      var d, l := LineOfEntry(domains, six, k);
      assert EntryOfLine(adds, domains, six, clock, d, l);
    }
    if LineWithinADay(domains, six, clock, ip, now) {
      var d, l :| 0 <= d < |domains| && 0 <= l < |LinesOf(domains[d], six)| &&
        LinesOf(domains[d], six)[l].ip == ip && now < LineTime(domains, six, clock, d, l) + 86400;
      assert EntryOfLine(adds, domains, six, clock, d, l);
    }
  }

  /** In order, and between two readings of the clock. */
  predicate Between(adds: seq<Entry>, from: nat, to: nat) {
    Ordered(adds) && from <= to && forall i | 0 <= i < |adds| :: from <= adds[i].at <= to
  }

  lemma BetweenJoined(a: seq<Entry>, b: seq<Entry>, from: nat, middle: nat, to: nat)
    requires Between(a, from, middle) && Between(b, middle, to)
    ensures Between(a + b, from, to)
  {
    var all := a + b;
    forall i, j | 0 <= i < j < |all| ensures all[i].at <= all[j].at {
      if j < |a| { assert all[i] == a[i] && all[j] == a[j]; }
      else if i < |a| { assert all[i] == a[i] && all[j] == b[j - |a|]; }
      else { assert all[i] == b[i - |a|] && all[j] == b[j - |a|]; }
    }
  }

  lemma {:induction false} StampedBetween(lines: seq<Line>, clock: nat)
    ensures Between(Stamped(lines, clock), clock, After(lines, clock))
  {
    if lines != [] {
      var m := |lines| - 1;
      var last := [Entry(After(lines, clock), lines[m].ip)];
      StampedBetween(lines[..m], clock);
      BetweenJoined(Stamped(lines[..m], clock), last, clock, After(lines[..m], clock), After(lines, clock));
    }
  }

  lemma Wider(adds: seq<Entry>, from: nat, to: nat, from': nat, to': nat)
    requires Between(adds, from, to) && from' <= from && to <= to'
    ensures Between(adds, from', to')
  {
  }

  /** A run's adds come in order, whatever the resolver answers and however long it takes. */
  lemma {:induction false} ResolvedBetween(domains: seq<Domain>, clock: nat)
    ensures var r := Resolved(domains, clock);
      Between(r.four, clock, r.clock) && Between(r.six, clock, r.clock)
  {
    if domains != [] {
      var so, d := Resolved(domains[..|domains| - 1], clock), domains[|domains| - 1];
      var between := After(d.four, so.clock);
      var end := After(d.six, between);
      ResolvedBetween(domains[..|domains| - 1], clock);
      StampedBetween(d.four, so.clock);
      StampedBetween(d.six, between);
      Wider(Stamped(d.four, so.clock), so.clock, between, so.clock, end);
      Wider(Stamped(d.six, between), between, end, so.clock, end);
      BetweenJoined(so.four, Stamped(d.four, so.clock), clock, so.clock, end);
      BetweenJoined(so.six, Stamped(d.six, between), clock, so.clock, end);
    }
  }

  /** An address added within the last day, by the one or by the other. */
  lemma AddedByEither(a: seq<Entry>, b: seq<Entry>, ip: nat, now: nat)
    ensures AddedWithinTtl(a + b, ip, now) <==> AddedWithinTtl(a, ip, now) || AddedWithinTtl(b, ip, now)
  {
    if AddedWithinTtl(a, ip, now) {
      var k :| 0 <= k < |a| && a[k].ip == ip && now < a[k].at + TTL;
      assert (a + b)[k] == a[k];
    }
    if AddedWithinTtl(b, ip, now) {
      var k :| 0 <= k < |b| && b[k].ip == ip && now < b[k].at + TTL;
      assert (a + b)[|a| + k] == b[k];
    }
    if AddedWithinTtl(a + b, ip, now) {
      var k :| 0 <= k < |a + b| && (a + b)[k].ip == ip && now < (a + b)[k].at + TTL;
      if k < |a| { assert (a + b)[k] == a[k]; } else { assert (a + b)[k] == b[k - |a|]; }
    }
  }

  class AddressSet {
    var expiry: map<nat, nat>
    /** Every add ever made. */
    ghost var adds: seq<Entry>

    ghost predicate Valid()
      reads this
    {
      expiry == Expiries(adds)
    }

    constructor ()
      ensures Valid() && adds == []
    {
      expiry, adds := map[], [];
    }

    /** `ipset add ... timeout 86400 -exist`: an address already there gets a fresh time-out. */
    method Add(e: Entry)
      requires Valid()
      modifies this
      ensures Valid() && adds == old(adds) + [e]
    {
      expiry := expiry[e.ip := e.at + TTL];
      adds := adds + [e];
      assert adds[..|adds| - 1] == old(adds);
    }

    /** The inner loop: every address of one domain is added, in order, and nothing else is. */
    method Refresh(lines: seq<Line>, clock: nat) returns (later: nat)
      requires Valid()
      modifies this
      ensures Valid() && adds == old(adds) + Stamped(lines, clock) && later == After(lines, clock)
    {
      later := clock;
      for i := 0 to |lines|
        invariant Valid() && adds == old(adds) + Stamped(lines[..i], clock) && later == After(lines[..i], clock)
      {
        assert lines[..i + 1][..i] == lines[..i];
        later := later + lines[i].delay;
        Add(Entry(later, lines[i].ip));
      }
      assert lines[..|lines|] == lines;
    }
  }

  lemma ResolvedNext(domains: seq<Domain>, i: nat, clock: nat, so: Added)
    requires i < |domains| && so == Resolved(domains[..i], clock)
    ensures Resolved(domains[..i + 1], clock) == OneMore(so, domains[i])
  {
    assert domains[..i + 1][..i] == domains[..i];
  }

  lemma Associate(a: seq<Entry>, b: seq<Entry>, c: seq<Entry>)
    ensures (a + b) + c == a + (b + c)
  {
  }

  /** The outer loop's body: one domain, first in one family and then in the other. */
  method ResolveOne(
    four: AddressSet, six: AddressSet, d: Domain, clock: nat,
    ghost so: Added, ghost before4: seq<Entry>, ghost before6: seq<Entry>)
    returns (later: nat)
    requires four != six && four.Valid() && six.Valid() && so.clock == clock
    requires four.adds == before4 + so.four && six.adds == before6 + so.six
    modifies four, six
    ensures four.Valid() && six.Valid() && later == OneMore(so, d).clock
    ensures four.adds == before4 + OneMore(so, d).four && six.adds == before6 + OneMore(so, d).six
  {
    later := four.Refresh(d.four, clock);
    Associate(before4, so.four, Stamped(d.four, clock));
    Associate(before6, so.six, Stamped(d.six, later));
    later := six.Refresh(d.six, later);
  }

  /** The set has new entries: one for each line of its family. */
  ghost predicate NewLines(before: seq<Entry>, after: seq<Entry>, domains: seq<Domain>, six: bool, clock: nat) {
    before <= after && OneEntryPerLine(after[|before|..], domains, six, clock)
  }

  lemma NewLinesResolved(before: seq<Entry>, after: seq<Entry>, domains: seq<Domain>, six: bool, clock: nat)
    requires after == before + Of(Resolved(domains, clock), six)
    ensures NewLines(before, after, domains, six, clock)
  {
    ResolvedLines(domains, six, clock);
    assert after[|before|..] == Of(Resolved(domains, clock), six);
  }

  /** The outer loop: domain after domain, both families of each. */
  method Resolve(four: AddressSet, six: AddressSet, domains: seq<Domain>, clock: nat) returns (later: nat)
    requires four != six && four.Valid() && six.Valid()
    modifies four, six
    ensures four.Valid() && six.Valid()
    ensures var r := Resolved(domains, clock);
      four.adds == old(four.adds) + r.four && six.adds == old(six.adds) + r.six && later == r.clock
    ensures NewLines(old(four.adds), four.adds, domains, false, clock)
    ensures NewLines(old(six.adds), six.adds, domains, true, clock) && later == clock + Spent(domains)
  {
    later := clock;
    ghost var so := Added([], [], clock);
    for i := 0 to |domains|
      invariant four.Valid() && six.Valid() && so == Resolved(domains[..i], clock)
      invariant four.adds == old(four.adds) + so.four && six.adds == old(six.adds) + so.six && later == so.clock
    {
      ResolvedNext(domains, i, clock, so);
      later := ResolveOne(four, six, domains[i], later, so, old(four.adds), old(six.adds));
      so := OneMore(so, domains[i]);
    }
    assert domains[..|domains|] == domains;
    NewLinesResolved(old(four.adds), four.adds, domains, false, clock);
    NewLinesResolved(old(six.adds), six.adds, domains, true, clock);
    ResolvedTakes(domains, clock);
  }
}
