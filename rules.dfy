/**
 * The brute-force rule of the detection engine: per address, a sliding
 * window of the times of recent failed logins, and a cooldown registry of
 * the time of the last alert. `Apply` is the meaning of one call of
 * `apply_rules`; `RulesEngine` holds the two maps and updates them in place.
 * The clock is the `now` argument of each call.
 */
module Rules {
  import opened Wrappers
  import opened Decimal
  import opened Parser

  /** `BRUTE_FORCE_ATTEMPTS`: failed logins in the window that raise an alert. */
  const BRUTE_FORCE_ATTEMPTS: nat := 5
  /** `BRUTE_FORCE_TIME_WINDOW`, in seconds. */
  const BRUTE_FORCE_TIME_WINDOW: nat := 60
  /** `ALERT_COOLDOWN`, in seconds. */
  const ALERT_COOLDOWN: nat := 300

  const BRUTE_FORCE_DETECTED := "Brute-Force Detected"

  /** The three constants of the rule. */
  datatype Thresholds = Thresholds(attempts: nat, timeWindow: nat, cooldown: nat)

  const DEFAULT_THRESHOLDS := Thresholds(BRUTE_FORCE_ATTEMPTS, BRUTE_FORCE_TIME_WINDOW, ALERT_COOLDOWN)

  /** An alert record: `alert_type`, `description`, `ip_address`, `timestamp`. */
  datatype Alert = Alert(alertType: string, description: string, ipAddress: string, timestamp: string)

  /** `failed_logins` (address to window of failure times) and `alerted_ips` (address to time of last alert). */
  datatype RuleState = RuleState(failedLogins: map<string, seq<int>>, alertedIps: map<string, int>)

  const EMPTY_STATE := RuleState(map[], map[])

  /** `failed_logins[ip]` of a `defaultdict(deque)`: a missing address has an empty window. */
  function WindowOf(m: map<string, seq<int>>, ip: string): seq<int> {
    if ip in m then m[ip] else []
  }

  /**
   * `while w and w[0] < cutoff: w.popleft()`: the window without its
   * expired front.
   */
  function Prune(w: seq<int>, cutoff: int): (r: seq<int>)
    ensures |r| <= |w|
    ensures forall k :: 0 <= k < |w| - |r| ==> w[k] < cutoff
    ensures r == [] || r[0] >= cutoff
    decreases |w|
  {
    if w != [] && w[0] < cutoff then Prune(w[1..], cutoff) else w
  }

  /** Pruning only removes from the front: what is left is a suffix of the window. */
  lemma {:induction false} PruneIsSuffix(w: seq<int>, cutoff: int)
    ensures Prune(w, cutoff) == w[|w| - |Prune(w, cutoff)|..]
    decreases |w|
  {
    if w != [] && w[0] < cutoff {
      PruneIsSuffix(w[1..], cutoff);
    }
  }

  /** An entry at or after the cutoff at the back of the window survives pruning, and stays at the back. */
  lemma PruneKeepsNewest(w: seq<int>, cutoff: int)
    requires w != [] && w[|w| - 1] >= cutoff
    ensures Prune(w, cutoff) != [] && Prune(w, cutoff)[|Prune(w, cutoff)| - 1] == w[|w| - 1]
  {
  }

  /**
   * `not last_alert_time or current_time - last_alert_time > ALERT_COOLDOWN`:
   * no alert recorded for the address (a recorded 0 is as good as none), or
   * the cooldown has strictly passed.
   */
  predicate CooldownOver(alerted: map<string, int>, ip: string, now: int, cooldown: nat) {
    ip !in alerted || alerted[ip] == 0 || now - alerted[ip] > cooldown
  }

  /** `f"{len(failed_logins[ip])} failed logins from IP {ip} within {BRUTE_FORCE_TIME_WINDOW} seconds."` */
  function Description(count: nat, ip: string, timeWindow: nat): string {
    FromNat(count) + " failed logins from IP " + ip + " within " + FromNat(timeWindow) + " seconds."
  }

  function BruteForceAlert(t: Thresholds, ip: string, count: nat, timestamp: string): Alert {
    Alert(BRUTE_FORCE_DETECTED, Description(count, ip, t.timeWindow), ip, timestamp)
  }

  /** The event is a failed login (`parsed_log["event_type"] == "Failed Login"`). */
  predicate IsFailedLogin(event: Option<ParsedLog>) {
    event.Some? && event.value.eventType == FailedLogin
  }

  /**
   * The window of `ip` after a failed login at `now`: the current time
   * appended, then the entries older than the time window dropped from the
   * front. It always ends with `now` and starts inside the time window.
   */
  function NewWindow(t: Thresholds, s: RuleState, ip: string, now: int): (w: seq<int>)
    ensures w != [] && w[|w| - 1] == now
    ensures w[0] >= now - t.timeWindow
  {
    PruneKeepsNewest(WindowOf(s.failedLogins, ip) + [now], now - t.timeWindow);
    Prune(WindowOf(s.failedLogins, ip) + [now], now - t.timeWindow)
  }

  /**
   * One call of `apply_rules(event)` at time `now` on state `s`: the new
   * state and the alerts returned. `None` stands for a falsy argument.
   */
  function Apply(t: Thresholds, s: RuleState, event: Option<ParsedLog>, now: int): (r: (RuleState, seq<Alert>))
    // at most one alert per call
    ensures |r.1| <= 1
    // anything but a failed login changes nothing and raises nothing
    ensures !IsFailedLogin(event) ==> r == (s, [])
    // a failed login replaces the window of its address, and no other
    ensures IsFailedLogin(event) ==>
      r.0.failedLogins == s.failedLogins[event.value.ipAddress := NewWindow(t, s, event.value.ipAddress, now)]
    // an alert exactly when the new window is full and the address is out of cooldown
    ensures IsFailedLogin(event) ==>
      (|r.1| == 1 <==> (|NewWindow(t, s, event.value.ipAddress, now)| >= t.attempts
        && CooldownOver(s.alertedIps, event.value.ipAddress, now, t.cooldown)))
    // the alert names the rule, the address, the event's timestamp and the window's size
    ensures |r.1| == 1 ==>
      r.1[0] == Alert(BRUTE_FORCE_DETECTED, Description(|NewWindow(t, s, event.value.ipAddress, now)|, event.value.ipAddress, t.timeWindow),
        event.value.ipAddress, event.value.timestamp)
    // the cooldown registry records the alert's time, and changes only then
    ensures |r.1| == 1 ==> r.0.alertedIps == s.alertedIps[event.value.ipAddress := now]
    ensures |r.1| == 0 ==> r.0.alertedIps == s.alertedIps
  {
    if !IsFailedLogin(event) then (s, [])
    else
      var ip := event.value.ipAddress;
      var w := NewWindow(t, s, ip, now);
      var failed := s.failedLogins[ip := w];
      if |w| >= t.attempts && CooldownOver(s.alertedIps, ip, now, t.cooldown) then
        (RuleState(failed, s.alertedIps[ip := now]), [BruteForceAlert(t, ip, |w|, event.value.timestamp)])
      else
        (RuleState(failed, s.alertedIps), [])
  }

  /**
   * The state a sequence of calls keeps: every window it holds is non-empty,
   * and an address is only in cooldown after it has failed a login.
   */
  predicate Valid(s: RuleState) {
    && (forall ip :: ip in s.failedLogins ==> s.failedLogins[ip] != [])
    && s.alertedIps.Keys <= s.failedLogins.Keys
  }

  /** Every call keeps the state valid. */
  lemma ApplyKeepsValid(t: Thresholds, s: RuleState, event: Option<ParsedLog>, now: int)
    requires Valid(s)
    ensures Valid(Apply(t, s, event, now).0)
  {
  }

  /** The rule's state and its two operations, `apply_rules` and `clear_rules_state`. */
  class RulesEngine {
    const thresholds: Thresholds
    var failedLogins: map<string, seq<int>>
    var alertedIps: map<string, int>

    function State(): RuleState
      reads this
    {
      RuleState(failedLogins, alertedIps)
    }

    /** A fresh engine: no failures and no alerts recorded. */
    constructor (t: Thresholds)
      ensures thresholds == t && State() == EMPTY_STATE && Valid(State())
    {
      thresholds := t;
      failedLogins := map[];
      alertedIps := map[];
    }

    /** `apply_rules(parsed_log)` at time `now`. */
    method ApplyRules(parsedLog: Option<ParsedLog>, now: int) returns (alerts: seq<Alert>)
      modifies this
      ensures (State(), alerts) == Apply(thresholds, old(State()), parsedLog, now)
      ensures Valid(old(State())) ==> Valid(State())
    {
      alerts := [];
      if parsedLog.None? {
        return;
      }
      var log := parsedLog.value;
      if log.eventType == FailedLogin {
        var ip := log.ipAddress;
        var cutoff := now - thresholds.timeWindow;
        var appended := WindowOf(failedLogins, ip) + [now];
        failedLogins := failedLogins[ip := appended];
        while failedLogins[ip] != [] && failedLogins[ip][0] < cutoff
          invariant ip in failedLogins
          invariant failedLogins == old(failedLogins)[ip := failedLogins[ip]]
          invariant alertedIps == old(alertedIps)
          invariant Prune(failedLogins[ip], cutoff) == Prune(appended, cutoff)
          decreases |failedLogins[ip]|
        {
          failedLogins := failedLogins[ip := failedLogins[ip][1..]];
        }
        var w := failedLogins[ip];
        assert w == NewWindow(thresholds, old(State()), ip, now);
        assert failedLogins == old(failedLogins)[ip := w];
        if |w| >= thresholds.attempts {
          var lastAlertTime := if ip in alertedIps then Some(alertedIps[ip]) else None;
          if lastAlertTime.None? || lastAlertTime.value == 0 || now - lastAlertTime.value > thresholds.cooldown {
            alerts := [BruteForceAlert(thresholds, ip, |w|, log.timestamp)];
            alertedIps := alertedIps[ip := now];
          }
        }
      }
      if Valid(old(State())) {
        ApplyKeepsValid(thresholds, old(State()), parsedLog, now);
      }
    }

    /** `clear_rules_state()` */
    method ClearRulesState()
      modifies this
      ensures State() == EMPTY_STATE && Valid(State())
    {
      failedLogins := map[];
      alertedIps := map[];
    }
  }
}
