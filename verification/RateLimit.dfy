/** The sliding window of the enrolment service: a pruned queue per subject, against the whole history. */
module RateLimit {
  const WINDOW: real := 3600.0

  datatype Admission = Admission(subject: string, at: real)

  /** One subject's admissions, oldest first. */
  function Times(log: seq<Admission>, subject: string): seq<real> {
    if log == [] then []
    else
      var last := log[|log| - 1];
      Times(log[..|log| - 1], subject) + if last.subject == subject then [last.at] else []
  }

  /** How many of these times lie in a closed window. */
  function Within(times: seq<real>, from: real, to: real): nat {
    if times == [] then 0
    else Within(times[..|times| - 1], from, to) + if from <= times[|times| - 1] <= to then 1 else 0
  }

  /** The admissions of one subject in the closed hour that ends at `to`, by their places in the history. */
  ghost function LastHour(log: seq<Admission>, subject: string, to: real): set<nat> {
    set k: nat | k < |log| && log[k].subject == subject && to - 3600.0 <= log[k].at <= to
  }

  /** Counting down the subject's times counts these. */
  lemma {:induction false} WithinCounts(log: seq<Admission>, subject: string, to: real)
    ensures Within(Times(log, subject), to - WINDOW, to) == |LastHour(log, subject, to)|
  {
    if log == [] {
      assert LastHour(log, subject, to) == {};
    } else {
      var m := |log| - 1;
      WithinCounts(log[..m], subject, to);
      var before, all := LastHour(log[..m], subject, to), LastHour(log, subject, to);
      OneTimeMore(Times(log[..m], subject), log[m].at, to);
      if log[m].subject == subject && to - 3600.0 <= log[m].at <= to {
        assert all == before + {m};
      } else {
        assert all == before;
      }
    }
  }

  lemma OneTimeMore(times: seq<real>, at: real, to: real)
    ensures Within(times + [at], to - WINDOW, to) == Within(times, to - WINDOW, to) +
      if to - WINDOW <= at <= to then 1 else 0
    ensures Within(times + [], to - WINDOW, to) == Within(times, to - WINDOW, to)
  {
    assert (times + [at])[..|times|] == times;
    assert times + [] == times;
  }

  predicate Sorted(times: seq<real>) { forall i, j | 0 <= i < j < |times| :: times[i] <= times[j] }

  predicate UpTo(times: seq<real>, now: real) { forall i | 0 <= i < |times| :: times[i] <= now }

  /** Every admission found fewer than `limit` others in the hour before it. */
  predicate Granted(times: seq<real>, limit: int) {
    times != [] ==>
      var m := |times| - 1;
      Granted(times[..m], limit) && Within(times[..m], times[m] - WINDOW, times[m]) < limit
  }

  lemma {:induction false} NarrowerHoldsFewer(times: seq<real>, from: real, to: real, last: real)
    requires UpTo(times, last) && last <= to
    ensures Within(times, from, to) <= Within(times, last - WINDOW, last) || from < last - WINDOW
  {
    if times != [] {
      NarrowerHoldsFewer(times[..|times| - 1], from, to, last);
    }
  }

  /** No window of one hour, wherever it is put, holds more admissions than the limit allows. */
  lemma {:induction false} NeverMoreThanTheLimit(times: seq<real>, limit: int, t: real)
    requires Sorted(times) && Granted(times, limit)
    ensures Within(times, t - WINDOW, t) <= if limit < 0 then 0 else limit
  {
    if times != [] {
      var m := |times| - 1;
      var rest := times[..m];
      NeverMoreThanTheLimit(rest, limit, t);
      if t - WINDOW <= times[m] <= t {
        NarrowerHoldsFewer(rest, t - WINDOW, t, times[m]);
      }
    }
  }

  /** The queue holds the end of the history, and what it has dropped is more than an hour old. */
  predicate Follows(window: seq<real>, times: seq<real>, clock: real) {
    && |window| <= |times|
    && window == times[|times| - |window|..]
    && forall i | 0 <= i < |times| - |window| :: clock - times[i] > WINDOW
  }

  lemma {:induction false} AllInside(times: seq<real>, drop: nat, now: real)
    requires drop <= |times| && UpTo(times, now)
    requires forall i | 0 <= i < drop :: now - times[i] > WINDOW
    requires forall i | drop <= i < |times| :: now - times[i] <= WINDOW
    ensures Within(times, now - WINDOW, now) == |times| - drop
  {
    if times != [] {
      var m := |times| - 1;
      AllInside(times[..m], if drop <= m then drop else m, now);
    }
  }

  predicate Tracks(window: seq<real>, times: seq<real>, clock: real, limit: int) {
    Sorted(times) && UpTo(times, clock) && Granted(times, limit) && Follows(window, times, clock)
  }

  lemma OneMore(window: seq<real>, times: seq<real>, clock: real, limit: int, now: real)
    requires Sorted(times) && UpTo(times, now) && Granted(times, limit) && Follows(window, times, now)
    requires Within(times, now - WINDOW, now) < limit && clock <= now
    ensures Tracks(window + [now], times + [now], now, limit)
  {
    GrantedMore(times, limit, now);
    FollowsMore(window, times, now);
  }

  lemma GrantedMore(times: seq<real>, limit: int, now: real)
    requires Granted(times, limit) && Within(times, now - WINDOW, now) < limit
    ensures Granted(times + [now], limit)
  {
    assert (times + [now])[..|times|] == times;
  }

  lemma FollowsMore(window: seq<real>, times: seq<real>, now: real)
    requires Follows(window, times, now)
    ensures Follows(window + [now], times + [now], now)
  {
    var more := times + [now];
    assert window + [now] == more[|more| - |window| - 1..];
  }

  lemma Later(window: seq<real>, times: seq<real>, clock: real, limit: int, now: real)
    requires Tracks(window, times, clock, limit) && clock <= now
    ensures Tracks(window, times, now, limit)
  {
  }

  lemma Recorded(log: seq<Admission>, a: Admission, subject: string)
    ensures Times(log + [a], subject) == Times(log, subject) + if a.subject == subject then [a.at] else []
  {
    assert (log + [a])[..|log + [a]| - 1] == log;
  }

  /** The loop at the head of the queue: what is left is the part of the history that counts. */
  method Prune(queue: seq<real>, ghost times: seq<real>, now: real) returns (window: seq<real>)
    requires Sorted(times) && UpTo(times, now) && Follows(queue, times, now)
    ensures Follows(window, times, now) && |window| == Within(times, now - WINDOW, now)
  {
    window := queue;
    while window != [] && now - window[0] > WINDOW
      invariant Follows(window, times, now)
    {
      window := window[1..];
    }
    ghost var drop := |times| - |window|;
    forall i | drop <= i < |times| ensures now - times[i] <= WINDOW {
      assert window[0] == times[drop];
    }
    AllInside(times, drop, now);
  }

  function Queue(hits: map<string, seq<real>>, subject: string): seq<real> {
    if subject in hits then hits[subject] else []
  }

  /** Every subject's queue follows that subject's history. */
  ghost predicate AllOk(hits: map<string, seq<real>>, log: seq<Admission>, clock: real, limit: int) {
    forall s: string :: Tracks(Queue(hits, s), Times(log, s), clock, limit)
  }

  lemma Refused(hits: map<string, seq<real>>, log: seq<Admission>, clock: real, limit: int,
                subject: string, window: seq<real>, now: real)
    requires AllOk(hits, log, clock, limit) && clock <= now && Follows(window, Times(log, subject), now)
    ensures AllOk(hits[subject := window], log, now, limit)
  {
    Later(Queue(hits, subject), Times(log, subject), clock, limit, now);
    forall s: string ensures Tracks(Queue(hits[subject := window], s), Times(log, s), now, limit) {
      if s != subject {
        assert Queue(hits[subject := window], s) == Queue(hits, s);
        Later(Queue(hits, s), Times(log, s), clock, limit, now);
      }
    }
  }

  lemma Admitted(hits: map<string, seq<real>>, log: seq<Admission>, clock: real, limit: int,
                 subject: string, window: seq<real>, now: real)
    requires AllOk(hits, log, clock, limit) && clock <= now && Follows(window, Times(log, subject), now)
    requires Within(Times(log, subject), now - WINDOW, now) < limit
    ensures AllOk(hits[subject := window + [now]], log + [Admission(subject, now)], now, limit)
  {
    Later(Queue(hits, subject), Times(log, subject), clock, limit, now);
    OneMore(window, Times(log, subject), clock, limit, now);
    forall s: string
      ensures Tracks(Queue(hits[subject := window + [now]], s), Times(log + [Admission(subject, now)], s), now, limit)
    {
      Recorded(log, Admission(subject, now), s);
      if s != subject {
        assert Times(log + [Admission(subject, now)], s) == Times(log, s);
        Later(Queue(hits, s), Times(log, s), clock, limit, now);
      }
    }
  }

  /** Hence no subject ever gets more than the limit in any hour. */
  lemma HourlyLimit(hits: map<string, seq<real>>, log: seq<Admission>, clock: real, limit: int, subject: string, t: real)
    requires AllOk(hits, log, clock, limit)
    ensures |LastHour(log, subject, t)| <= if limit < 0 then 0 else limit
  {
    assert Tracks(Queue(hits, subject), Times(log, subject), clock, limit);
    NeverMoreThanTheLimit(Times(log, subject), limit, t);
    WithinCounts(log, subject, t);
  }

  class Limiter {
    const limit: int
    var hits: map<string, seq<real>>
    /** Every admission there ever was, and the last reading of the clock. */
    ghost var log: seq<Admission>
    ghost var clock: real

    ghost predicate Valid()
      reads this
    {
      AllOk(hits, log, clock, limit)
    }

    constructor (limit: int)
      ensures Valid() && this.limit == limit && log == []
    {
      this.limit, hits, log := limit, map[], [];
    }

    /** `_rate_limit`: refused exactly when the subject's whole history has `limit` admissions in the closed
        hour before now, although only the pruned queue is looked at. */
    method Admit(subject: string, now: real) returns (ok: bool)
      requires Valid() && clock <= now
      modifies this
      ensures Valid() && clock == now
      ensures ok <==> Within(Times(old(log), subject), now - WINDOW, now) < limit
      ensures ok <==> |LastHour(old(log), subject, now)| < limit
      ensures log == old(log) + if ok then [Admission(subject, now)] else []
    {
      Later(Queue(hits, subject), Times(log, subject), clock, limit, now);
      var window := Prune(Queue(hits, subject), Times(log, subject), now);
      ok := |window| < limit;
      WithinCounts(log, subject, now);
      if ok {
        Admitted(hits, log, clock, limit, subject, window, now);
        hits := hits[subject := window + [now]];
        log := log + [Admission(subject, now)];
      } else {
        Refused(hits, log, clock, limit, subject, window, now);
        hits := hits[subject := window];
      }
      clock := now;
    }
  }
}
