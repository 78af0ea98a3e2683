/** The polling loop of the device authorization grant (`src-tauri/src/auth.rs`), section 3.5 of RFC 8628:
    a clock, an interval that only grows, and a deadline. */
module DeviceFlow {
  import opened Wrappers

  datatype Reply = Granted | Pending | SlowDown | Refused(code: nat) | NetworkError

  datatype Outcome = Tokens | Expired | Cancelled | Denied(code: nat) | Unreachable

  /** What the world does: how long each sleep and each request really takes (seconds), whether the user has
      cancelled at a given check, and what the provider answers to each request. */
  datatype World = World(
    overshoot: nat -> nat,
    delay: nat -> nat,
    cancelled: nat -> bool,
    reply: nat -> Reply)

  /** The interval `begin` settles on: the provider's, five seconds if it gave none, and never below one. */
  function Clamp(offered: Option<nat>): (interval: nat)
    ensures interval >= 1
    ensures offered.Some? && offered.value >= 1 ==> interval == offered.value
    ensures offered == None ==> interval == 5
    ensures offered == Some(0) ==> interval == 1
  {
    var i := if offered.Some? then offered.value else 5;
    if i < 1 then 1 else i
  }

  predicate Unfinished(r: Reply) { r == Pending || r == SlowDown }

  /** What `poll` returns on a reply that ends it. */
  function Final(r: Reply): Outcome
    requires !Unfinished(r)
  {
    match r
    case Granted => Tokens
    case Refused(code) => Denied(code)
    case NetworkError => Unreachable
  }

  /** Everything that came back so far was "not yet". */
  predicate AllUnfinished(replies: seq<Reply>) {
    replies != [] ==> Unfinished(replies[|replies| - 1]) && AllUnfinished(replies[..|replies| - 1])
  }

  function SlowDowns(replies: seq<Reply>): nat {
    if replies == [] then 0
    else SlowDowns(replies[..|replies| - 1]) + if replies[|replies| - 1] == SlowDown then 1 else 0
  }

  /** The wait before the next request, after the given replies. */
  function Gap(interval: nat, replies: seq<Reply>): nat { interval + 5 * SlowDowns(replies) }

  /** The waits before all requests that drew the given replies. */
  function TotalGap(interval: nat, replies: seq<Reply>): nat {
    if replies == [] then 0
    else var front := replies[..|replies| - 1]; TotalGap(interval, front) + Gap(interval, front)
  }

  function Deadline(start: nat, expiresIn: nat): nat { (start + expiresIn) % 0x1_0000_0000_0000_0000 }

  // ---- The clock ----

  /** How long the first `n` one-second sleeps take. */
  function Slept(w: World, n: nat): nat { if n == 0 then 0 else Slept(w, n - 1) + 1 + w.overshoot(n - 1) }

  /** How long the first `n` requests take. */
  function Delayed(w: World, n: nat): nat { if n == 0 then 0 else Delayed(w, n - 1) + w.delay(n - 1) }

  /** The clock when the deadline is looked at, after the given replies. */
  function ClockAfter(w: World, start: nat, interval: nat, replies: seq<Reply>): nat {
    start + Slept(w, TotalGap(interval, replies)) + Delayed(w, |replies|)
  }

  /** The clock when the request after the given replies is sent. */
  function SendTime(w: World, start: nat, interval: nat, replies: seq<Reply>): nat {
    start + Slept(w, TotalGap(interval, replies) + Gap(interval, replies)) + Delayed(w, |replies|)
  }

  /** Requests sent at `times` drew `replies`: each was begun before the deadline, none after a final reply,
      and each went out when its wait was over. */
  predicate Session(w: World, start: nat, expiresIn: nat, interval: nat, times: seq<nat>, replies: seq<Reply>) {
    && |times| == |replies|
    && (times != [] ==>
          var n := |times| - 1;
          && Session(w, start, expiresIn, interval, times[..n], replies[..n])
          && AllUnfinished(replies[..n])
          && ClockAfter(w, start, interval, replies[..n]) < Deadline(start, expiresIn)
          && times[n] == SendTime(w, start, interval, replies[..n])
          && replies[n] == w.reply(n))
  }

  /** The user did not cancel at any of the first `n` checks. */
  predicate Patient(w: World, n: nat) { n > 0 ==> !w.cancelled(n - 1) && Patient(w, n - 1) }

  lemma Extend(
    w: World, start: nat, expiresIn: nat, interval: nat, times: seq<nat>, replies: seq<Reply>, time: nat, reply: Reply)
    requires Session(w, start, expiresIn, interval, times, replies) && AllUnfinished(replies)
    requires ClockAfter(w, start, interval, replies) < Deadline(start, expiresIn)
    requires time == SendTime(w, start, interval, replies) && reply == w.reply(|replies|)
    ensures Session(w, start, expiresIn, interval, times + [time], replies + [reply])
    ensures ClockAfter(w, start, interval, replies + [reply]) == time + w.delay(|replies|)
    ensures TotalGap(interval, replies + [reply]) == TotalGap(interval, replies) + Gap(interval, replies)
    ensures Gap(interval, replies + [reply]) == Gap(interval, replies) + if reply == SlowDown then 5 else 0
    ensures AllUnfinished(replies + [reply]) <==> Unfinished(reply)
  {
    assert (times + [time])[..|times|] == times && (replies + [reply])[..|replies|] == replies;
    ClockStep(w, start, interval, replies, reply);
  }

  /** `for _ in 0..interval`: one second at a time, giving up when the user cancels. */
  method Wait(now: nat, interval: nat, checks: nat, w: World) returns (done: bool, later: nat, checked: nat)
    requires Patient(w, checks)
    ensures Patient(w, checked) && later + Slept(w, checks) == now + Slept(w, checked)
    ensures done ==> checked == checks + interval
    ensures !done ==> checks <= checked < checks + interval && w.cancelled(checked)
  {
    later, checked := now, checks;
    for i := 0 to interval
      invariant checked == checks + i && Patient(w, checked)
      invariant later + Slept(w, checks) == now + Slept(w, checked)
    {
      if w.cancelled(checked) { return false, later, checked; }
      later := later + 1 + w.overshoot(checked);
      checked := checked + 1;
    }
    done := true;
  }

  /** The loop's variables between two rounds, all replies so far being "not yet". */
  ghost predicate Polling(
    w: World, start: nat, expiresIn: nat, interval0: nat, times: seq<nat>, replies: seq<Reply>,
    interval: nat, checks: nat, now: nat)
  {
    && Session(w, start, expiresIn, interval0, times, replies)
    && AllUnfinished(replies)
    && interval == Gap(interval0, replies)
    && checks == TotalGap(interval0, replies)
    && Patient(w, checks)
    && now == ClockAfter(w, start, interval0, replies)
  }

  lemma Round(
    w: World, start: nat, expiresIn: nat, interval0: nat, times: seq<nat>, replies: seq<Reply>,
    interval: nat, checks: nat, now: nat, later: nat, reply: Reply)
    requires Polling(w, start, expiresIn, interval0, times, replies, interval, checks, now)
    requires now < Deadline(start, expiresIn) && reply == w.reply(|times|) && Patient(w, checks + interval)
    requires later + Slept(w, checks) == now + Slept(w, checks + interval)
    ensures now + interval <= later
    ensures Session(w, start, expiresIn, interval0, times + [later], replies + [reply])
    ensures TotalGap(interval0, replies + [reply]) == checks + interval
    ensures Unfinished(reply) ==>
      Polling(w, start, expiresIn, interval0, times + [later], replies + [reply],
              interval + if reply == SlowDown then 5 else 0, checks + interval, later + w.delay(|times|))
  {
    SleptGrows(w, checks, checks + interval);
    Extend(w, start, expiresIn, interval0, times, replies, later, reply);
  }

  /** Why the polling ended: the deadline passed, the user cancelled during the wait, or the last reply was final. */
  ghost predicate Concluded(
    w: World, start: nat, expiresIn: nat, interval0: nat, replies: seq<Reply>, r: Outcome)
  {
    if r.Expired? then
      AllUnfinished(replies) && ClockAfter(w, start, interval0, replies) >= Deadline(start, expiresIn)
    else if r.Cancelled? then
      && AllUnfinished(replies) && ClockAfter(w, start, interval0, replies) < Deadline(start, expiresIn)
      && !Patient(w, TotalGap(interval0, replies) + Gap(interval0, replies))
    else
      replies != [] && !Unfinished(replies[|replies| - 1]) && r == Final(replies[|replies| - 1])
  }

  lemma GaveUp(
    w: World, start: nat, expiresIn: nat, interval0: nat, times: seq<nat>, replies: seq<Reply>,
    interval: nat, checks: nat, now: nat, checked: nat)
    requires Polling(w, start, expiresIn, interval0, times, replies, interval, checks, now)
    requires now < Deadline(start, expiresIn) && checks <= checked < checks + interval && w.cancelled(checked)
    ensures Concluded(w, start, expiresIn, interval0, replies, Cancelled)
  {
    ImpatientStays(w, checked, checks + interval);
  }

  lemma EndsWith(
    w: World, start: nat, expiresIn: nat, interval0: nat, replies: seq<Reply>, reply: Reply)
    requires !Unfinished(reply)
    ensures Concluded(w, start, expiresIn, interval0, replies + [reply], Final(reply))
  {
    assert (replies + [reply])[|replies|] == reply;
  }

  // ---- Why it ended, in terms of what was sent and what came back ----

  predicate LastIs(replies: seq<Reply>, r: Reply) { replies != [] && replies[|replies| - 1] == r }

  predicate NotYet(replies: seq<Reply>) { replies == [] || LastIs(replies, Pending) || LastIs(replies, SlowDown) }

  /** The clock when the last request so far has been answered. */
  function Answered(w: World, start: nat, times: seq<nat>): nat {
    if times == [] then start else times[|times| - 1] + w.delay(|times| - 1)
  }

  /** Tokens for a grant, the provider's own refusal for a refusal, and no answer for none, each exactly if it came
      last; before it only "not yet". Expired exactly if after "not yet" the clock was at the deadline; cancelled
      exactly if it was not, and then the user did cancel at some check. */
  ghost predicate EndedBecause(
    w: World, start: nat, expiresIn: nat, times: seq<nat>, replies: seq<Reply>, r: Outcome)
  {
    var late := Answered(w, start, times) >= (start + expiresIn) % 0x1_0000_0000_0000_0000;
    && (r == Tokens <==> LastIs(replies, Granted))
    && (forall code :: r == Denied(code) <==> LastIs(replies, Refused(code)))
    && (r == Unreachable <==> LastIs(replies, NetworkError))
    && (r == Expired <==> NotYet(replies) && late)
    && (r == Cancelled <==> NotYet(replies) && !late)
    && (r == Cancelled ==> exists n :: w.cancelled(n))
    && (forall k | 0 <= k < |replies| - 1 :: replies[k] == Pending || replies[k] == SlowDown)
  }

  lemma {:induction false} AllNotYet(replies: seq<Reply>)
    ensures AllUnfinished(replies) <==> forall k | 0 <= k < |replies| :: replies[k] == Pending || replies[k] == SlowDown
  {
    if replies != [] { AllNotYet(replies[..|replies| - 1]); }
  }

  lemma {:induction false} PatientIff(w: World, n: nat)
    ensures Patient(w, n) <==> forall k: nat | k < n :: !w.cancelled(k)
  {
    if n > 0 { PatientIff(w, n - 1); }
  }

  lemma AnsweredIs(w: World, start: nat, expiresIn: nat, interval: nat, times: seq<nat>, replies: seq<Reply>)
    requires Session(w, start, expiresIn, interval, times, replies)
    ensures ClockAfter(w, start, interval, replies) == Answered(w, start, times)
  {
    if times != [] {
      var n := |times| - 1;
      assert replies == replies[..n] + [replies[n]];
      ClockStep(w, start, interval, replies[..n], replies[n]);
    }
  }

  lemma SomebodyCancelled(w: World, n: nat)
    requires !Patient(w, n)
    ensures exists k :: w.cancelled(k)
  {
    PatientIff(w, n);
  }

  lemma OnlyNotYetBefore(
    w: World, start: nat, expiresIn: nat, interval: nat, times: seq<nat>, replies: seq<Reply>)
    requires Session(w, start, expiresIn, interval, times, replies)
    ensures forall k | 0 <= k < |replies| - 1 :: replies[k] == Pending || replies[k] == SlowDown
  {
    if replies != [] { AllNotYet(replies[..|replies| - 1]); }
  }

  lemma WhyItEnded(
    w: World, start: nat, expiresIn: nat, interval: nat, times: seq<nat>, replies: seq<Reply>, r: Outcome)
    requires Session(w, start, expiresIn, interval, times, replies)
    requires Concluded(w, start, expiresIn, interval, replies, r)
    ensures EndedBecause(w, start, expiresIn, times, replies, r)
  {
    AnsweredIs(w, start, expiresIn, interval, times, replies);
    OnlyNotYetBefore(w, start, expiresIn, interval, times, replies);
    if r == Cancelled { SomebodyCancelled(w, TotalGap(interval, replies) + Gap(interval, replies)); }
  }

  lemma SentPunctually(w: World, start: nat, interval: nat, prior: seq<Reply>)
    requires forall n :: w.overshoot(n) == 0
    ensures SendTime(w, start, interval, prior) == ClockAfter(w, start, interval, prior) + Gap(interval, prior)
  {
    SleptExactly(w, TotalGap(interval, prior));
    SleptExactly(w, TotalGap(interval, prior) + Gap(interval, prior));
  }

  /** Every request belongs to a round begun before the deadline. */
  lemma {:induction false} BegunInTime(
    w: World, start: nat, expiresIn: nat, interval: nat, times: seq<nat>, replies: seq<Reply>, k: nat)
    requires Session(w, start, expiresIn, interval, times, replies) && k < |times|
    ensures Answered(w, start, times[..k]) < (start + expiresIn) % 0x1_0000_0000_0000_0000
    decreases times
  {
    var n := |times| - 1;
    if k < n {
      BegunInTime(w, start, expiresIn, interval, times[..n], replies[..n], k);
      assert times[..n][..k] == times[..k];
    } else {
      AnsweredIs(w, start, expiresIn, interval, times[..n], replies[..n]);
    }
  }

  /** When every sleep and every request takes exactly its time, each request goes out exactly when the waiting is
      done: no later than the spacing demands. */
  lemma {:induction false} SentWithoutDelay(
    w: World, start: nat, expiresIn: nat, interval: nat, times: seq<nat>, replies: seq<Reply>, k: nat)
    requires Session(w, start, expiresIn, interval, times, replies) && k < |times|
    requires forall n :: w.overshoot(n) == 0 && w.delay(n) == 0
    ensures times[k] == (if k == 0 then start else times[k - 1]) + interval + 5 * |SlowDownsAmong(replies[..k])|
    decreases times
  {
    var n := |times| - 1;
    if k < n {
      SentWithoutDelay(w, start, expiresIn, interval, times[..n], replies[..n], k);
      assert replies[..n][..k] == replies[..k];
    } else {
      var prior := replies[..n];
      SentPunctually(w, start, interval, prior);
      AnsweredIs(w, start, expiresIn, interval, times[..n], prior);
      SlowDownsCounted(prior);
    }
  }

  lemma {:induction false} SleptExactly(w: World, n: nat)
    requires forall k :: w.overshoot(k) == 0
    ensures Slept(w, n) == n
  {
    if n > 0 { SleptExactly(w, n - 1); }
  }

  /** Which replies said slow_down. */
  ghost function SlowDownsAmong(replies: seq<Reply>): set<nat> {
    set k: nat | k < |replies| && replies[k] == SlowDown
  }

  lemma {:induction false} SlowDownsCounted(replies: seq<Reply>)
    ensures SlowDowns(replies) == |SlowDownsAmong(replies)|
  {
    if replies == [] {
      assert SlowDownsAmong(replies) == {};
    } else {
      var m := |replies| - 1;
      SlowDownsCounted(replies[..m]);
      var before, all := SlowDownsAmong(replies[..m]), SlowDownsAmong(replies);
      if replies[m] == SlowDown {
        assert all == before + {m};
      } else {
        assert all == before;
      }
    }
  }

  /** `poll`, from the clock at `start`. `times` and `replies` record every request sent and what came back. */
  method Poll(start: nat, expiresIn: nat, interval0: nat, w: World)
    returns (r: Outcome, times: seq<nat>, replies: seq<Reply>)
    requires interval0 >= 1
    ensures Session(w, start, expiresIn, interval0, times, replies) && Patient(w, TotalGap(interval0, replies))
    ensures Concluded(w, start, expiresIn, interval0, replies, r)
    ensures EndedBecause(w, start, expiresIn, times, replies, r)
  {
    var now := start;
    var deadline := Deadline(start, expiresIn);
    var interval := interval0;
    var checks: nat := 0;
    times, replies := [], [];
    while now < deadline
      invariant interval >= 1 && Polling(w, start, expiresIn, interval0, times, replies, interval, checks, now)
      decreases deadline - now
    {
      var done, later, checked := Wait(now, interval, checks, w);
      if !done {
        GaveUp(w, start, expiresIn, interval0, times, replies, interval, checks, now, checked);
        WhyItEnded(w, start, expiresIn, interval0, times, replies, Cancelled);
        return Cancelled, times, replies;
      }
      var n := |times|;
      var reply := w.reply(n);
      Round(w, start, expiresIn, interval0, times, replies, interval, checks, now, later, reply);
      if !Unfinished(reply) { EndsWith(w, start, expiresIn, interval0, replies, reply); }
      times, replies := times + [later], replies + [reply];
      now, checks := later + w.delay(n), checked;
      if reply == SlowDown {
        interval := interval + 5;
      } else if reply != Pending {
        WhyItEnded(w, start, expiresIn, interval0, times, replies, Final(reply));
        return Final(reply), times, replies;
      }
    }
    WhyItEnded(w, start, expiresIn, interval0, times, replies, Expired);
    return Expired, times, replies;
  }

  lemma {:induction false} ImpatientStays(w: World, j: nat, n: nat)
    requires j < n && w.cancelled(j)
    ensures !Patient(w, n)
  {
    if j < n - 1 { ImpatientStays(w, j, n - 1); }
  }

  lemma {:induction false} SleptGrows(w: World, m: nat, n: nat)
    requires m <= n
    ensures Slept(w, n) >= Slept(w, m) + (n - m)
  {
    if m < n { SleptGrows(w, m, n - 1); }
  }

  /** What a session means for its `k`-th request: it follows the one before by at least the first interval
      plus five seconds for every slow_down so far, and the waits served before it fit the code's lifetime. */
  lemma {:induction false} SpacedRequests(
    w: World, start: nat, expiresIn: nat, interval: nat, times: seq<nat>, replies: seq<Reply>, k: nat)
    requires Session(w, start, expiresIn, interval, times, replies) && k < |times|
    ensures times[k] >= (if k == 0 then start else times[k - 1]) + interval + 5 * |SlowDownsAmong(replies[..k])|
    ensures TotalGap(interval, replies[..k]) < expiresIn
    decreases times
  {
    var n := |times| - 1;
    SlowDownsCounted(replies[..k]);
    if k < n {
      SpacedRequests(w, start, expiresIn, interval, times[..n], replies[..n], k);
      assert replies[..n][..k] == replies[..k];
    } else {
      var prior := replies[..n];
      WaitBeforeSending(w, start, interval, prior);
      if n > 0 {
        assert prior == replies[..n - 1] + [replies[n - 1]];
        assert prior[..n - 1] == replies[..n - 1] && times[..n][n - 1] == times[n - 1];
        ClockStep(w, start, interval, replies[..n - 1], replies[n - 1]);
      }
    }
  }

  lemma WaitBeforeSending(w: World, start: nat, interval: nat, prior: seq<Reply>)
    ensures SendTime(w, start, interval, prior) >= ClockAfter(w, start, interval, prior) + Gap(interval, prior)
    ensures ClockAfter(w, start, interval, prior) >= start + TotalGap(interval, prior)
  {
    var total, gap := TotalGap(interval, prior), Gap(interval, prior);
    SentLater(w, total, gap);
    Clocks(w, start, interval, prior, total, gap);
  }

  lemma Clocks(w: World, start: nat, interval: nat, prior: seq<Reply>, total: nat, gap: nat)
    requires total == TotalGap(interval, prior) && gap == Gap(interval, prior)
    ensures SendTime(w, start, interval, prior) == start + Slept(w, total + gap) + Delayed(w, |prior|)
    ensures ClockAfter(w, start, interval, prior) == start + Slept(w, total) + Delayed(w, |prior|)
  {
  }

  lemma SentLater(w: World, total: nat, gap: nat)
    ensures Slept(w, total + gap) >= Slept(w, total) + gap && Slept(w, total) >= total
  {
    SleptGrows(w, total, total + gap);
    SleptGrows(w, 0, total);
  }

  lemma ClockStep(w: World, start: nat, interval: nat, front: seq<Reply>, reply: Reply)
    ensures ClockAfter(w, start, interval, front + [reply]) ==
      SendTime(w, start, interval, front) + w.delay(|front|)
  {
    assert (front + [reply])[..|front|] == front;
  }

  lemma {:induction false} TotalGapAtLeast(interval: nat, replies: seq<Reply>)
    ensures TotalGap(interval, replies) >= |replies| * interval
  {
    if replies != [] {
      TotalGapAtLeast(interval, replies[..|replies| - 1]);
    }
  }

  /** Polling is over within ceil(expires_in / interval) requests. */
  lemma RequestsBounded(w: World, start: nat, expiresIn: nat, interval: nat, times: seq<nat>, replies: seq<Reply>)
    requires interval >= 1 && Session(w, start, expiresIn, interval, times, replies)
    ensures |times| <= (expiresIn + interval - 1) / interval
  {
    if times != [] {
      var n := |times| - 1;
      SpacedRequests(w, start, expiresIn, interval, times, replies, n);
      TotalGapAtLeast(interval, replies[..n]);
      CeilingAbove(n, interval, expiresIn);
    }
  }

  lemma CeilingAbove(n: nat, d: nat, x: nat)
    requires d >= 1 && n * d < x
    ensures n + 1 <= (x + d - 1) / d
  {
    assert (n + 1) * d == n * d + d;
    QuotientAtLeast(n + 1, d, x + d - 1);
  }

  lemma QuotientAtLeast(n: nat, d: nat, x: nat)
    requires d >= 1 && n * d <= x
    ensures n <= x / d
  {
    var gap := x / d + 1 - n;
    assert x == x / d * d + x % d;
    assert gap * d == x - x % d + d - n * d;
  }

  /** 0 + 1 + ... + (n - 1). */
  function Triangle(n: nat): nat { if n == 0 then 0 else Triangle(n - 1) + (n - 1) }

  lemma {:induction false} TriangleClosed(n: nat)
    ensures 2 * Triangle(n) == n * (n - 1)
  {
    if n > 0 {
      TriangleClosed(n - 1);
      assert n * (n - 1) == (n - 1) * (n - 2) + 2 * (n - 1);
    }
  }

  lemma {:induction false} AllSlowDown(interval: nat, replies: seq<Reply>, n: nat)
    requires n == |replies| && forall k | 0 <= k < n :: replies[k] == SlowDown
    ensures SlowDowns(replies) == n && TotalGap(interval, replies) == n * interval + 5 * Triangle(n)
  {
    if n > 0 {
      AllSlowDown(interval, replies[..n - 1], n - 1);
      assert n * interval == (n - 1) * interval + interval;
    }
  }

  /** The loop is entered once more after `n` replies: it went on to send another request, or the clock has not
      reached the deadline, whatever becomes of the wait that follows. */
  predicate RoundBegins(
    w: World, start: nat, expiresIn: nat, interval: nat, times: seq<nat>, replies: seq<Reply>, n: nat)
    requires n <= |replies| == |times|
  {
    n < |times| || ClockAfter(w, start, interval, replies) < Deadline(start, expiresIn)
  }

  /** If the first n replies were all slow_down, another round begins only if n*i + 5*n*(n-1)/2 < expires_in. */
  lemma SlowDownsRunOut(
    w: World, start: nat, expiresIn: nat, interval: nat, times: seq<nat>, replies: seq<Reply>, n: nat)
    requires Session(w, start, expiresIn, interval, times, replies) && n <= |times|
    requires RoundBegins(w, start, expiresIn, interval, times, replies, n)
    requires forall k | 0 <= k < n :: replies[k] == SlowDown
    ensures 2 * (n * interval) + 5 * (n * (n - 1)) < 2 * expiresIn
  {
    if n < |times| {
      SpacedRequests(w, start, expiresIn, interval, times, replies, n);
    } else {
      WaitBeforeSending(w, start, interval, replies);
      assert replies[..n] == replies;
    }
    AllSlowDown(interval, replies[..n], n);
    TriangleClosed(n);
  }
}
