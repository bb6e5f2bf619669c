/**
 * What the brute-force rule promises over a sequence of calls: the window
 * of an address is exactly its recent failed logins, the rule fires once
 * the window is full and then stays quiet for the cooldown, a burst at a
 * constant clock fires on its N-th failure, and the alert's description
 * states the count.
 */
module RulesProperties {
  import opened Wrappers
  import opened Decimal
  import opened Parser
  import opened Rules

  /** One call of `apply_rules`: the event handed to it and the clock's reading. */
  datatype Call = Call(event: Option<ParsedLog>, now: int)

  /** The state after the calls, made in order from `s`. */
  function Replay(t: Thresholds, s: RuleState, calls: seq<Call>): RuleState
    decreases |calls|
  {
    if calls == [] then s
    else Apply(t, Replay(t, s, calls[..|calls| - 1]), calls[|calls| - 1].event, calls[|calls| - 1].now).0
  }

  /** The alerts the last of the calls returns. */
  function LastAlerts(t: Thresholds, s: RuleState, calls: seq<Call>): seq<Alert>
    requires calls != []
  {
    Apply(t, Replay(t, s, calls[..|calls| - 1]), calls[|calls| - 1].event, calls[|calls| - 1].now).1
  }

  /** Every alert the calls return, in order. */
  function AllAlerts(t: Thresholds, s: RuleState, calls: seq<Call>): seq<Alert>
    decreases |calls|
  {
    if calls == [] then [] else AllAlerts(t, s, calls[..|calls| - 1]) + LastAlerts(t, s, calls)
  }

  /** The clock never runs backwards across the calls. */
  predicate NonDecreasing(calls: seq<Call>) {
    forall i, j :: 0 <= i < j < |calls| ==> calls[i].now <= calls[j].now
  }

  predicate Sorted(w: seq<int>) {
    forall i, j :: 0 <= i < j < |w| ==> w[i] <= w[j]
  }

  /** The times of the failed logins from `ip` among the calls, in order. */
  function FailureTimes(calls: seq<Call>, ip: string): seq<int>
    decreases |calls|
  {
    if calls == [] then []
    else
      var last := calls[|calls| - 1];
      FailureTimes(calls[..|calls| - 1], ip)
        + (if IsFailedLogin(last.event) && last.event.value.ipAddress == ip then [last.now] else [])
  }

  /** The entries at or after the cutoff, in order. */
  function Recent(w: seq<int>, cutoff: int): seq<int>
    decreases |w|
  {
    if w == [] then []
    else (if w[0] >= cutoff then [w[0]] else []) + Recent(w[1..], cutoff)
  }

  lemma SortedSnoc(w: seq<int>, x: int)
    requires Sorted(w) && forall y :: y in w ==> y <= x
    ensures Sorted(w + [x])
  {
    forall i, j | 0 <= i < j < |w + [x]|
      ensures (w + [x])[i] <= (w + [x])[j]
    {
      assert (w + [x])[i] == w[i];
      if j == |w| {
        assert w[i] in w;
      } else {
        assert (w + [x])[j] == w[j];
      }
    }
  }

  lemma SortedCons(x: int, w: seq<int>)
    requires Sorted(w) && forall y :: y in w ==> x <= y
    ensures Sorted([x] + w)
  {
    forall i, j | 0 <= i < j < |[x] + w|
      ensures ([x] + w)[i] <= ([x] + w)[j]
    {
      assert ([x] + w)[j] == w[j - 1];
      if i == 0 {
        assert w[j - 1] in w;
      } else {
        assert ([x] + w)[i] == w[i - 1];
      }
    }
  }

  // ---------------------------------------------------------------------
  // Facts about Recent and Prune
  // ---------------------------------------------------------------------

  lemma {:induction false} RecentAppend(a: seq<int>, b: seq<int>, cutoff: int)
    ensures Recent(a + b, cutoff) == Recent(a, cutoff) + Recent(b, cutoff)
    decreases |a|
  {
    if a == [] {
      assert a + b == b;
    } else {
      assert (a + b)[1..] == a[1..] + b;
      RecentAppend(a[1..], b, cutoff);
      var head := if a[0] >= cutoff then [a[0]] else [];
      calc {
        Recent(a + b, cutoff);
        head + Recent(a[1..] + b, cutoff);
        head + (Recent(a[1..], cutoff) + Recent(b, cutoff));
        (head + Recent(a[1..], cutoff)) + Recent(b, cutoff);
      }
    }
  }

  /** The recent entries are entries of the window, at or after the cutoff. */
  lemma {:induction false} RecentMembers(w: seq<int>, cutoff: int)
    ensures forall x :: x in Recent(w, cutoff) ==> x in w && x >= cutoff
    decreases |w|
  {
    if w != [] {
      RecentMembers(w[1..], cutoff);
    }
  }

  lemma {:induction false} RecentOfRecent(w: seq<int>, c1: int, c2: int)
    requires c1 <= c2
    ensures Recent(Recent(w, c1), c2) == Recent(w, c2)
    decreases |w|
  {
    if w != [] {
      RecentOfRecent(w[1..], c1, c2);
      var head := if w[0] >= c1 then [w[0]] else [];
      RecentAppend(head, Recent(w[1..], c1), c2);
    }
  }

  lemma {:induction false} RecentKeepsAll(w: seq<int>, cutoff: int)
    requires forall k :: 0 <= k < |w| ==> w[k] >= cutoff
    ensures Recent(w, cutoff) == w
    decreases |w|
  {
    if w != [] {
      RecentKeepsAll(w[1..], cutoff);
    }
  }

  lemma {:induction false} RecentSorted(w: seq<int>, cutoff: int)
    requires Sorted(w)
    ensures Sorted(Recent(w, cutoff))
    decreases |w|
  {
    if w != [] {
      RecentSorted(w[1..], cutoff);
      var tail := Recent(w[1..], cutoff);
      if w[0] >= cutoff {
        RecentMembers(w[1..], cutoff);
        forall x | x in tail
          ensures w[0] <= x
        {
          var k :| 0 <= k < |w[1..]| && w[1..][k] == x;
          assert w[k + 1] == x;
        }
        SortedCons(w[0], tail);
      } else {
        assert Recent(w, cutoff) == tail;
      }
    }
  }

  /** On a sorted window, dropping the expired front leaves exactly the recent entries. */
  lemma {:induction false} PruneSortedIsRecent(w: seq<int>, cutoff: int)
    requires Sorted(w)
    ensures Prune(w, cutoff) == Recent(w, cutoff)
    decreases |w|
  {
    if w != [] {
      if w[0] < cutoff {
        PruneSortedIsRecent(w[1..], cutoff);
      } else {
        RecentKeepsAll(w, cutoff);
      }
    }
  }

  // ---------------------------------------------------------------------
  // The window is the recent failures
  // ---------------------------------------------------------------------

  lemma {:induction false} FailureTimesBounded(calls: seq<Call>, ip: string, bound: int)
    requires forall i :: 0 <= i < |calls| ==> calls[i].now <= bound
    ensures forall x :: x in FailureTimes(calls, ip) ==> x <= bound
    decreases |calls|
  {
    if calls != [] {
      FailureTimesBounded(calls[..|calls| - 1], ip, bound);
    }
  }

  lemma {:induction false} FailureTimesSorted(calls: seq<Call>, ip: string)
    requires NonDecreasing(calls)
    ensures Sorted(FailureTimes(calls, ip))
    decreases |calls|
  {
    if calls != [] {
      var init := calls[..|calls| - 1];
      FailureTimesSorted(init, ip);
      var last := calls[|calls| - 1];
      if IsFailedLogin(last.event) && last.event.value.ipAddress == ip {
        FailureTimesBounded(init, ip, last.now);
        SortedSnoc(FailureTimes(init, ip), last.now);
      } else {
        assert FailureTimes(calls, ip) == FailureTimes(init, ip);
      }
    }
  }

  /** One step of the induction below: a failed login from `ip` at `now`. */
  lemma WindowStep(prev: seq<int>, kept: seq<int>, cutoffBefore: int, now: int, timeWindow: nat)
    requires Sorted(prev) && forall x :: x in prev ==> x <= now
    requires cutoffBefore <= now - timeWindow && kept == Recent(prev, cutoffBefore)
    ensures Prune(kept + [now], now - timeWindow) == Recent(prev + [now], now - timeWindow)
  {
    RecentSorted(prev, cutoffBefore);
    RecentMembers(prev, cutoffBefore);
    SortedSnoc(kept, now);
    PruneSortedIsRecent(kept + [now], now - timeWindow);
    RecentAppend(kept, [now], now - timeWindow);
    RecentOfRecent(prev, cutoffBefore, now - timeWindow);
    RecentAppend(prev, [now], now - timeWindow);
  }

  /**
   * The address has a window exactly when it has failure times, and the
   * window holds those of its failure times no older than the time window,
   * measured from the latest.
   */
  predicate WindowIsRecent(s: RuleState, ip: string, times: seq<int>, timeWindow: nat) {
    && (ip in s.failedLogins <==> times != [])
    && (times != [] ==> s.failedLogins[ip] == Recent(times, times[|times| - 1] - timeWindow))
  }

  /** The window a failed login from `ip` leaves, when the window held its recent failures. */
  lemma WindowStepFrom(m: map<string, seq<int>>, ip: string, prev: seq<int>, timeWindow: nat, now: int)
    requires ip in m <==> prev != []
    requires prev != [] ==> m[ip] == Recent(prev, prev[|prev| - 1] - timeWindow)
    requires Sorted(prev) && forall x :: x in prev ==> x <= now
    ensures Prune(WindowOf(m, ip) + [now], now - timeWindow) == Recent(prev + [now], now - timeWindow)
  {
    if prev == [] {
      WindowStep(prev, [], now - timeWindow, now, timeWindow);
    } else {
      assert prev[|prev| - 1] in prev;
      WindowStep(prev, m[ip], prev[|prev| - 1] - timeWindow, now, timeWindow);
    }
  }

  /** A failed login from `ip` at a time no earlier than its earlier failures. */
  lemma WindowGrows(t: Thresholds, s: RuleState, log: ParsedLog, now: int, prev: seq<int>)
    requires log.eventType == FailedLogin
    requires WindowIsRecent(s, log.ipAddress, prev, t.timeWindow)
    requires Sorted(prev) && forall x :: x in prev ==> x <= now
    ensures WindowIsRecent(Apply(t, s, Some(log), now).0, log.ipAddress, prev + [now], t.timeWindow)
  {
    WindowStepFrom(s.failedLogins, log.ipAddress, prev, t.timeWindow, now);
    var grown := prev + [now];
    assert grown[|grown| - 1] == now;
    WindowReplaced(Apply(t, s, Some(log), now).0, s.failedLogins, log.ipAddress, grown, t.timeWindow);
  }

  /** A window set to the recent part of `times` is recent for `times`. */
  lemma WindowReplaced(r: RuleState, m: map<string, seq<int>>, ip: string, times: seq<int>, timeWindow: nat)
    requires times != [] && r.failedLogins == m[ip := Recent(times, times[|times| - 1] - timeWindow)]
    ensures WindowIsRecent(r, ip, times, timeWindow)
  {
  }

  /** A call that is not a failed login from `ip` leaves its window alone. */
  lemma WindowStays(t: Thresholds, s: RuleState, event: Option<ParsedLog>, now: int, ip: string, prev: seq<int>)
    requires !(IsFailedLogin(event) && event.value.ipAddress == ip)
    requires WindowIsRecent(s, ip, prev, t.timeWindow)
    ensures WindowIsRecent(Apply(t, s, event, now).0, ip, prev, t.timeWindow)
  {
  }

  /**
   * Under a clock that never runs backwards, an address has a window
   * exactly when it has failed a login, and its window holds the times of
   * its failed logins no older than the time window, measured from its
   * latest failed login.
   */
  lemma {:induction false} WindowIsRecentFailures(t: Thresholds, calls: seq<Call>, ip: string)
    requires NonDecreasing(calls)
    ensures WindowIsRecent(Replay(t, EMPTY_STATE, calls), ip, FailureTimes(calls, ip), t.timeWindow)
    decreases |calls|
  {
    if calls != [] {
      var init := calls[..|calls| - 1];
      var last := calls[|calls| - 1];
      assert NonDecreasing(init);
      WindowIsRecentFailures(t, init, ip);
      var before := Replay(t, EMPTY_STATE, init);
      var prev := FailureTimes(init, ip);
      if IsFailedLogin(last.event) && last.event.value.ipAddress == ip {
        FailureTimesSorted(init, ip);
        FailureTimesBounded(init, ip, last.now);
        WindowGrows(t, before, last.event.value, last.now, prev);
      } else {
        assert FailureTimes(calls, ip) == prev;
        WindowStays(t, before, last.event, last.now, ip, prev);
      }
    }
  }

  /**
   * The last call of a sequence under a clock that never runs backwards
   * fires exactly when its address has at least `attempts` failed logins
   * in the time window ending now, and is out of cooldown.
   */
  lemma AlertMeansBurst(t: Thresholds, calls: seq<Call>)
    requires calls != [] && NonDecreasing(calls)
    requires IsFailedLogin(calls[|calls| - 1].event)
    ensures var last := calls[|calls| - 1];
      |LastAlerts(t, EMPTY_STATE, calls)| == 1 <==>
        |Recent(FailureTimes(calls, last.event.value.ipAddress), last.now - t.timeWindow)| >= t.attempts
        && CooldownOver(Replay(t, EMPTY_STATE, calls[..|calls| - 1]).alertedIps, last.event.value.ipAddress, last.now, t.cooldown)
  {
    var last := calls[|calls| - 1];
    var ip := last.event.value.ipAddress;
    WindowIsRecentFailures(t, calls, ip);
    assert FailureTimes(calls, ip) == FailureTimes(calls[..|calls| - 1], ip) + [last.now];
  }

  // ---------------------------------------------------------------------
  // Ordering and validity over any sequence of calls
  // ---------------------------------------------------------------------

  /** The window is sorted and holds no time after `clock`. */
  predicate WindowOrdered(w: seq<int>, clock: int) {
    Sorted(w) && forall k :: 0 <= k < |w| ==> w[k] <= clock
  }

  /** Every window is sorted and holds no time after `clock`. */
  predicate Ordered(s: RuleState, clock: int) {
    forall ip :: ip in s.failedLogins ==> WindowOrdered(s.failedLogins[ip], clock)
  }

  lemma SnocOrdered(w: seq<int>, clock: int, now: int)
    requires WindowOrdered(w, clock) && clock <= now
    ensures WindowOrdered(w + [now], now)
  {
    var grown := w + [now];
    forall i, j | 0 <= i < j < |grown|
      ensures grown[i] <= grown[j]
    {
      assert grown[i] == w[i];
      if j < |w| {
        assert grown[j] == w[j];
      }
    }
  }

  lemma SuffixOrdered(w: seq<int>, n: nat, clock: int)
    requires WindowOrdered(w, clock) && n <= |w|
    ensures WindowOrdered(w[n..], clock)
  {
    assert forall k :: 0 <= k < |w| - n ==> w[n..][k] == w[n + k];
  }

  /** The window a failed login leaves is sorted and in the past, if the windows were. */
  lemma NewWindowOrdered(t: Thresholds, s: RuleState, ip: string, clock: int, now: int)
    requires Ordered(s, clock) && clock <= now
    ensures WindowOrdered(NewWindow(t, s, ip, now), now)
  {
    var w := WindowOf(s.failedLogins, ip);
    assert WindowOrdered(w, clock);
    SnocOrdered(w, clock, now);
    var grown := w + [now];
    PruneIsSuffix(grown, now - t.timeWindow);
    SuffixOrdered(grown, |grown| - |NewWindow(t, s, ip, now)|, now);
  }

  /** A call at a time no earlier than the state's clock keeps every window sorted. */
  lemma ApplyKeepsOrdered(t: Thresholds, s: RuleState, event: Option<ParsedLog>, clock: int, now: int)
    requires Ordered(s, clock) && clock <= now
    ensures Ordered(Apply(t, s, event, now).0, now)
  {
    var r := Apply(t, s, event, now).0;
    if IsFailedLogin(event) {
      var ip := event.value.ipAddress;
      NewWindowOrdered(t, s, ip, clock, now);
      forall other | other in r.failedLogins
        ensures WindowOrdered(r.failedLogins[other], now)
      {
        if other != ip {
          assert WindowOrdered(s.failedLogins[other], clock);
        }
      }
    } else {
      forall other | other in r.failedLogins
        ensures WindowOrdered(r.failedLogins[other], now)
      {
        assert WindowOrdered(s.failedLogins[other], clock);
      }
    }
  }

  /** Under a clock that never runs backwards, every window stays sorted and in the past. */
  lemma {:induction false} ReplayOrdered(t: Thresholds, calls: seq<Call>)
    requires calls != [] && NonDecreasing(calls)
    ensures Ordered(Replay(t, EMPTY_STATE, calls), calls[|calls| - 1].now)
    decreases |calls|
  {
    var init := calls[..|calls| - 1];
    var last := calls[|calls| - 1];
    if init == [] {
      ApplyKeepsOrdered(t, EMPTY_STATE, last.event, last.now, last.now);
    } else {
      assert NonDecreasing(init);
      ReplayOrdered(t, init);
      ApplyKeepsOrdered(t, Replay(t, EMPTY_STATE, init), last.event, init[|init| - 1].now, last.now);
    }
  }

  /** Any sequence of calls keeps the state valid: no empty window, no cooldown without a window. */
  lemma {:induction false} ReplayKeepsValid(t: Thresholds, s: RuleState, calls: seq<Call>)
    requires Valid(s)
    ensures Valid(Replay(t, s, calls))
    decreases |calls|
  {
    if calls != [] {
      ReplayKeepsValid(t, s, calls[..|calls| - 1]);
      ApplyKeepsValid(t, Replay(t, s, calls[..|calls| - 1]), calls[|calls| - 1].event, calls[|calls| - 1].now);
    }
  }

  // ---------------------------------------------------------------------
  // Cooldown
  // ---------------------------------------------------------------------

  /**
   * Once an address is recorded as alerted at a non-zero time `t0`, no call
   * up to `t0 + cooldown` raises an alert for it, and its record stays `t0`.
   */
  lemma {:induction false} NoRefireWithinCooldown(t: Thresholds, s: RuleState, calls: seq<Call>, ip: string, t0: int)
    requires ip in s.alertedIps && s.alertedIps[ip] == t0 && t0 != 0
    requires forall i :: 0 <= i < |calls| ==> calls[i].now <= t0 + t.cooldown
    ensures forall a :: a in AllAlerts(t, s, calls) ==> a.ipAddress != ip
    ensures ip in Replay(t, s, calls).alertedIps && Replay(t, s, calls).alertedIps[ip] == t0
    decreases |calls|
  {
    if calls != [] {
      var init := calls[..|calls| - 1];
      NoRefireWithinCooldown(t, s, init, ip, t0);
      var last := calls[|calls| - 1];
      var before := Replay(t, s, init);
      if IsFailedLogin(last.event) && last.event.value.ipAddress == ip {
        assert !CooldownOver(before.alertedIps, ip, last.now, t.cooldown);
      }
    }
  }

  // ---------------------------------------------------------------------
  // A burst at a constant clock
  // ---------------------------------------------------------------------

  /** `n` identical calls with the same event, all at the same time. */
  function Burst(log: ParsedLog, now: int, n: nat): seq<Call> {
    seq(n, _ => Call(Some(log), now))
  }

  function Repeat(x: int, n: nat): seq<int> {
    seq(n, _ => x)
  }

  /**
   * After `n` failed logins from one address at a constant clock, from a
   * fresh state: the window holds `n` copies of the time, and the address
   * has the time recorded as its last alert exactly when the burst reached
   * the threshold (at time 0 that record does not count as a cooldown).
   */
  lemma {:induction false} BurstState(t: Thresholds, log: ParsedLog, now: int, n: nat)
    requires log.eventType == FailedLogin
    ensures Replay(t, EMPTY_STATE, Burst(log, now, n)) == RuleState(
      if n == 0 then map[] else map[log.ipAddress := Repeat(now, n)],
      if n >= 1 && n >= t.attempts then map[log.ipAddress := now] else map[])
  {
    BurstWindows(t, log, now, n);
    BurstCooldown(t, log, now, n);
  }

  /** The windows after such a burst: `n` copies of the time, for its address only. */
  lemma {:induction false} BurstWindows(t: Thresholds, log: ParsedLog, now: int, n: nat)
    requires log.eventType == FailedLogin
    ensures Replay(t, EMPTY_STATE, Burst(log, now, n)).failedLogins
      == if n == 0 then map[] else map[log.ipAddress := Repeat(now, n)]
    decreases n
  {
    if n > 0 {
      assert Burst(log, now, n)[..n - 1] == Burst(log, now, n - 1);
      BurstWindows(t, log, now, n - 1);
      var before := Replay(t, EMPTY_STATE, Burst(log, now, n - 1));
      assert WindowOf(before.failedLogins, log.ipAddress) + [now] == Repeat(now, n);
      assert NewWindow(t, before, log.ipAddress, now) == Repeat(now, n);
    }
  }

  /** The cooldown registry after such a burst: the time, once the burst reached the threshold. */
  lemma {:induction false} BurstCooldown(t: Thresholds, log: ParsedLog, now: int, n: nat)
    requires log.eventType == FailedLogin
    ensures Replay(t, EMPTY_STATE, Burst(log, now, n)).alertedIps
      == if n >= 1 && n >= t.attempts then map[log.ipAddress := now] else map[]
    decreases n
  {
    if n > 0 {
      BurstCooldown(t, log, now, n - 1);
      BurstReplayStep(t, log, now, n);
      BurstLastCall(t, log, now, n);
      BurstCooldownStep(t, Replay(t, EMPTY_STATE, Burst(log, now, n - 1)), log, now, n);
    }
  }

  /** The n-th failed login of a burst meets the cooldown the first n - 1 left. */
  lemma BurstCooldownStep(t: Thresholds, before: RuleState, log: ParsedLog, now: int, n: nat)
    requires log.eventType == FailedLogin && n > 0
    requires before.alertedIps == if n - 1 >= 1 && n - 1 >= t.attempts then map[log.ipAddress := now] else map[]
    requires |NewWindow(t, before, log.ipAddress, now)| == n
    ensures Apply(t, before, Some(log), now).0.alertedIps
      == if n >= 1 && n >= t.attempts then map[log.ipAddress := now] else map[]
  {
  }

  /** The n-th call of a burst meets a window of n - 1 entries, and leaves one of n. */
  lemma BurstLastCall(t: Thresholds, log: ParsedLog, now: int, n: nat)
    requires log.eventType == FailedLogin && n > 0
    ensures |NewWindow(t, Replay(t, EMPTY_STATE, Burst(log, now, n - 1)), log.ipAddress, now)| == n
  {
    BurstWindows(t, log, now, n - 1);
    var before := Replay(t, EMPTY_STATE, Burst(log, now, n - 1));
    assert WindowOf(before.failedLogins, log.ipAddress) == Repeat(now, n - 1);
    NewWindowOfRepeat(t, before, log.ipAddress, now, n - 1);
  }

  /** A window of k copies of the time grows to k + 1 copies at that time. */
  lemma NewWindowOfRepeat(t: Thresholds, s: RuleState, ip: string, now: int, k: nat)
    requires WindowOf(s.failedLogins, ip) == Repeat(now, k)
    ensures NewWindow(t, s, ip, now) == Repeat(now, k + 1)
  {
    assert Repeat(now, k) + [now] == Repeat(now, k + 1);
  }

  /** Replaying a burst of n calls is replaying n - 1 of them, then one more. */
  lemma BurstReplayStep(t: Thresholds, log: ParsedLog, now: int, n: nat)
    requires n > 0
    ensures Replay(t, EMPTY_STATE, Burst(log, now, n)) == Apply(t, Replay(t, EMPTY_STATE, Burst(log, now, n - 1)), Some(log), now).0
  {
    assert Burst(log, now, n)[..n - 1] == Burst(log, now, n - 1);
    assert Burst(log, now, n)[n - 1] == Call(Some(log), now);
  }

  /**
   * The n-th failed login of such a burst alerts exactly when n reaches the
   * threshold for the first time, or on every later one when the clock
   * reads 0 (a recorded time of 0 is no cooldown); the alert states n.
   */
  lemma BurstAlerts(t: Thresholds, log: ParsedLog, now: int, n: nat)
    requires log.eventType == FailedLogin && n >= 1
    ensures |LastAlerts(t, EMPTY_STATE, Burst(log, now, n))| == 1 <==>
      n >= t.attempts && (n == 1 || n == t.attempts || now == 0)
    ensures |LastAlerts(t, EMPTY_STATE, Burst(log, now, n))| == 1 ==>
      LastAlerts(t, EMPTY_STATE, Burst(log, now, n))
        == [Alert(BRUTE_FORCE_DETECTED, Description(n, log.ipAddress, t.timeWindow), log.ipAddress, log.timestamp)]
  {
    var calls := Burst(log, now, n);
    assert calls[..n - 1] == Burst(log, now, n - 1);
    BurstState(t, log, now, n - 1);
    BurstState(t, log, now, n);
  }

  /**
   * With the default thresholds and a non-zero clock that stands still:
   * the first four failed logins from an address raise nothing, the fifth
   * raises one brute-force alert stating five attempts in sixty seconds,
   * and a sixth at the same time is in cooldown.
   */
  lemma FifthFailureAlerts(log: ParsedLog, now: int)
    requires log.eventType == FailedLogin && now != 0
    ensures forall n :: 1 <= n < 5 ==> LastAlerts(DEFAULT_THRESHOLDS, EMPTY_STATE, Burst(log, now, n)) == []
    ensures LastAlerts(DEFAULT_THRESHOLDS, EMPTY_STATE, Burst(log, now, 5))
      == [Alert("Brute-Force Detected", Description(5, log.ipAddress, 60), log.ipAddress, log.timestamp)]
    ensures LastAlerts(DEFAULT_THRESHOLDS, EMPTY_STATE, Burst(log, now, 6)) == []
  {
    forall n | 1 <= n < 5
      ensures LastAlerts(DEFAULT_THRESHOLDS, EMPTY_STATE, Burst(log, now, n)) == []
    {
      BurstAlerts(DEFAULT_THRESHOLDS, log, now, n);
    }
    BurstAlerts(DEFAULT_THRESHOLDS, log, now, 5);
    BurstAlerts(DEFAULT_THRESHOLDS, log, now, 6);
  }

  // ---------------------------------------------------------------------
  // A late failure after the cooldown
  // ---------------------------------------------------------------------

  lemma {:induction false} PruneExpired(w: seq<int>, now: int, cutoff: int)
    requires forall k :: 0 <= k < |w| ==> w[k] < cutoff
    requires now >= cutoff
    ensures Prune(w + [now], cutoff) == [now]
    decreases |w|
  {
    if w == [] {
      assert w + [now] == [now];
    } else {
      assert (w + [now])[1..] == w[1..] + [now];
      PruneExpired(w[1..], now, cutoff);
    }
  }

  /**
   * A failed login arriving when every earlier failure from its address is
   * older than the time window leaves a window of one entry, so it raises
   * no alert whenever the threshold is above one, cooldown or not.
   */
  lemma LoneLateFailureIsQuiet(t: Thresholds, s: RuleState, log: ParsedLog, now: int)
    requires log.eventType == FailedLogin && t.attempts >= 2
    requires forall k :: 0 <= k < |WindowOf(s.failedLogins, log.ipAddress)| ==>
      WindowOf(s.failedLogins, log.ipAddress)[k] < now - t.timeWindow
    ensures Apply(t, s, Some(log), now).0.failedLogins[log.ipAddress] == [now]
    ensures Apply(t, s, Some(log), now).1 == []
  {
    PruneExpired(WindowOf(s.failedLogins, log.ipAddress), now, now - t.timeWindow);
  }

  /**
   * With the default thresholds, five failed logins at one time followed by
   * a sixth once the cooldown has passed: the sixth raises no alert, since
   * the five earlier ones have left the window.
   */
  lemma SixthFailureAfterCooldownIsQuiet(log: ParsedLog, now: int)
    requires log.eventType == FailedLogin && now != 0
    ensures LastAlerts(DEFAULT_THRESHOLDS, EMPTY_STATE, Burst(log, now, 5) + [Call(Some(log), now + 301)]) == []
  {
    var calls := Burst(log, now, 5) + [Call(Some(log), now + 301)];
    assert calls[..5] == Burst(log, now, 5);
    BurstState(DEFAULT_THRESHOLDS, log, now, 5);
    LoneLateFailureIsQuiet(DEFAULT_THRESHOLDS, Replay(DEFAULT_THRESHOLDS, EMPTY_STATE, Burst(log, now, 5)), log, now + 301);
  }

  // ---------------------------------------------------------------------
  // The description
  // ---------------------------------------------------------------------

  /** The description begins with the window's count, written in decimal. */
  lemma DescriptionStatesCount(count: nat, ip: string, timeWindow: nat)
    ensures ToNat(LeadingDigits(Description(count, ip, timeWindow))) == count
  {
    var d := FromNat(count);
    var rest := " failed logins from IP " + (ip + (" within " + (FromNat(timeWindow) + " seconds.")));
    assert Description(count, ip, timeWindow) == d + rest;
    assert rest[0] == ' ';
    LeadingDigitsOf(d, rest);
    ToNatFromNat(count);
  }
}
