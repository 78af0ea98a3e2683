/** Serials: over any interleaving they are consecutive in lock order, no two requests share one, and the
    unlocked file holds the last. */
module EnrollSerials {
  import opened Decimal
  import opened EnrollModel
  import opened Runs
  import opened Wrappers

  predicate Critical(pc: Pc) { pc.Holding? || pc.Counted? || pc.Emptied? || pc.Written? }

  predicate HasSerial(pc: Pc) {
    pc.Counted? || pc.Emptied? || pc.Written? || pc.Signing? || pc.Issued? || pc.Failed?
  }

  /** The file at rest: the number it stood for at first, plus the serials taken since; once one has been
      taken, exactly the decimal of the last. */
  predicate Resting(first: int, file: string, taken: nat) {
    Stored(file) == first + taken && (taken > 0 ==> file == Text(first + taken))
  }

  predicate FileOk(first: int, file: string, taken: nat, pc: Pc) {
    match pc
    case Holding(_) => Resting(first, file, taken)
    case Counted(_, n) => taken > 0 && n == first + taken
    case Emptied(_, n) => taken > 0 && n == first + taken && file == ""
    case Written(_, n) => taken > 0 && n == first + taken && file == Text(n)
    case _ => true
  }

  /** The lock holder, and only it, is between taking and releasing the lock. */
  predicate OneHolder(s: State) {
    && (s.holder.Some? ==> s.holder.value < |s.workers|)
    && forall w: nat | w < |s.workers| :: Critical(s.workers[w]) <==> s.holder == Some(w)
  }

  predicate FileKept(first: int, s: State) {
    && OneHolder(s)
    && (s.holder == None ==> Resting(first, s.file, |s.taken|))
    && (s.holder.Some? ==> FileOk(first, s.file, |s.taken|, s.workers[s.holder.value]))
  }

  /** The serials come out as `first + 1`, `first + 2`, ... in the order in which the lock was held. */
  predicate Consecutive(first: int, taken: seq<int>) {
    forall k | 0 <= k < |taken| :: taken[k] == first + 1 + k
  }

  predicate NoneShared(first: int, s: State) {
    && (forall w: nat | w < |s.workers| :: HasSerial(s.workers[w]) ==>
          first < s.workers[w].serial <= first + |s.taken|)
    && (forall v: nat, w: nat | v < w < |s.workers| :: HasSerial(s.workers[v]) && HasSerial(s.workers[w]) ==>
          s.workers[v].serial != s.workers[w].serial)
  }

  predicate SerialsOk(first: int, s: State) {
    FileKept(first, s) && Consecutive(first, s.taken) && NoneShared(first, s)
  }

  // ---- The file text reads back ----

  lemma {:induction false} DecimalNotBlank(n: nat)
    ensures Numeral(n) != [] && forall c | c in Numeral(n) :: IsDigit(c)
  {
    if n >= 10 { DecimalNotBlank(n / 10); }
  }

  lemma StripNothing(s: string)
    requires s != [] && !Blank(s[0]) && !Blank(s[|s| - 1])
    ensures Strip(s) == s
  {
  }

  lemma StoredText(n: int)
    ensures Stored(Text(n)) == n
  {
    var m: nat := if n < 0 then -n else n;
    DecimalNotBlank(m);
    ParseText(n);
    assert Text(n)[|Text(n)| - 1] == Numeral(m)[|Numeral(m)| - 1];
    assert Numeral(m)[|Numeral(m)| - 1] in Numeral(m) && Numeral(m)[0] in Numeral(m);
    StripNothing(Text(n));
  }

  /** A file whose text is no number, the empty one among them, stands for 0. */
  lemma StoredOtherwise(file: string)
    ensures Stored(file) == match Parse(Strip(file)) case None => 0 case Some(n) => n
  {
    if file == "" {
      assert Strip("0") == "0" && "0"[..0] == "";
      assert Number("0") == 0;
    }
  }

  predicate AllBlank(s: string) {
    forall i | 0 <= i < |s| :: s[i] == ' ' || s[i] == '\t' || s[i] == '\n' || '\U{B}' <= s[i] <= '\r'
  }

  lemma {:induction false} StripEndTakes(s: string)
    ensures var t := StripEnd(s); t <= s && AllBlank(s[|t|..]) && (t != [] ==> !Blank(t[|t| - 1]))
  {
    if s != [] && Blank(s[|s| - 1]) {
      var m := |s| - 1;
      StripEndTakes(s[..m]);
      var t := StripEnd(s);
      assert s[|t|..] == s[..m][|t|..] + [s[m]];
    }
  }

  predicate Trimmed(s: string) { s != [] ==> !Blank(s[0]) && !Blank(s[|s| - 1]) }

  lemma BlankIs(c: char)
    ensures Blank(c) <==> AllBlank([c])
  {
    assert [c][0] == c;
  }

  lemma OneMoreInFront(s: string, c: char, rest: string, before: string, middle: string, after: string)
    requires s == [c] + rest && rest == before + middle + after && Blank(c) && AllBlank(before)
    ensures s == ([c] + before) + middle + after && AllBlank([c] + before)
  {
    BlankIs(c);
  }

  /** Stripping takes the white space off both ends, and nothing else. */
  lemma {:induction false} StripTakes(s: string) returns (before: string, after: string)
    ensures s == before + Strip(s) + after && AllBlank(before) && AllBlank(after) && Trimmed(Strip(s))
  {
    if s != [] && Blank(s[0]) {
      before, after := StripTakes(s[1..]);
      OneMoreInFront(s, s[0], s[1..], before, Strip(s), after);
      before := [s[0]] + before;
    } else {
      StripEndTakes(s);
      before, after := "", s[|StripEnd(s)|..];
    }
  }

  // ---- Every step ----

  /** What the step does to the lock and the file, seen from the request that takes it. */
  lemma StepAlone(cfg: Config, first: int, s: State, w: nat, now: real, signed: bool, t: State, was: Pc, pc: Pc)
    requires w < |s.workers| && t == WorkerStep(cfg, s, w, now, signed) && was == s.workers[w]
    requires |t.workers| == |s.workers| && pc == t.workers[w]
    requires Critical(was) <==> s.holder == Some(w)
    requires s.holder == None ==> Resting(first, s.file, |s.taken|)
    requires s.holder == Some(w) ==> FileOk(first, s.file, |s.taken|, was)
    ensures t.workers == s.workers[w := pc]
    ensures Critical(pc) <==> t.holder == Some(w)
    ensures t.holder == Some(w) ==> FileOk(first, t.file, |t.taken|, pc)
    ensures s.holder.Some? && s.holder != Some(w) ==>
      t.holder == s.holder && t.file == s.file && t.taken == s.taken
    ensures s.holder == None && t.holder == None ==> t.file == s.file && t.taken == s.taken
    ensures s.holder == Some(w) && t.holder == None ==> Resting(first, t.file, |t.taken|) && t.taken == s.taken
    ensures t.holder == None || t.holder == Some(w) || t.holder == s.holder
  {
    assert s.workers[w := was] == s.workers;
    if was.Written? { StoredText(was.serial); }
  }

  lemma StepFile(cfg: Config, first: int, s: State, a: Action, t: State)
    requires FileKept(first, s) && t == Apply(cfg, s, a)
    ensures FileKept(first, t)
  {
    match a
    case Arrive(r) =>
      assert !Critical(Arrival(cfg, r));
    case Step(w, now, signed) =>
      if w < |s.workers| {
        StepAlone(cfg, first, s, w, now, signed, t, s.workers[w], t.workers[w]);
      }
  }

  /** A serial is only ever the next one, and a request keeps the one it got. */
  lemma StepSerial(cfg: Config, first: int, s: State, w: nat, now: real, signed: bool, t: State, was: Pc, pc: Pc)
    requires w < |s.workers| && t == WorkerStep(cfg, s, w, now, signed) && was == s.workers[w]
    requires |t.workers| == |s.workers| && pc == t.workers[w]
    requires was.Holding? ==> Stored(s.file) == first + |s.taken|
    ensures t.workers == s.workers[w := pc]
    ensures HasSerial(was) ==> HasSerial(pc) && pc.serial == was.serial && t.taken == s.taken
    ensures !HasSerial(was) && HasSerial(pc) ==>
      pc.serial == first + |s.taken| + 1 && t.taken == s.taken + [pc.serial]
    ensures !HasSerial(pc) ==> t.taken == s.taken
  {
    assert s.workers[w := was] == s.workers;
  }

  lemma StepShared(cfg: Config, first: int, s: State, a: Action, t: State)
    requires SerialsOk(first, s) && t == Apply(cfg, s, a)
    ensures Consecutive(first, t.taken) && NoneShared(first, t)
  {
    match a
    case Arrive(r) =>
      assert !HasSerial(Arrival(cfg, r));
    case Step(w, now, signed) =>
      if w < |s.workers| {
        assert Critical(s.workers[w]) <==> s.holder == Some(w);
        StepSerial(cfg, first, s, w, now, signed, t, s.workers[w], t.workers[w]);
      }
  }

  /** Any number of requests, in any interleaving, from any contents of the serial file. */
  lemma {:induction false} SerialsStrictlyIncrease(cfg: Config, file: string, clock: real, acts: seq<Action>)
    ensures SerialsOk(Stored(file), Run(Stepper(cfg), Start(file, clock), acts))
  {
    if acts != [] {
      var m := |acts| - 1;
      SerialsStrictlyIncrease(cfg, file, clock, acts[..m]);
      var s := Run(Stepper(cfg), Start(file, clock), acts[..m]);
      var t := Run(Stepper(cfg), Start(file, clock), acts);
      StepFile(cfg, Stored(file), s, acts[m], t);
      StepShared(cfg, Stored(file), s, acts[m], t);
    }
  }
}
