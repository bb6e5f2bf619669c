# log-analysis: the line classifier and the brute-force rule

This project models the detection core of a small log-monitoring tool. It proves properties of that model in Dafny.

- **The classifier** (`parser.py`) turns one sshd log line into a record: timestamp, event type, user, source address and the stripped raw line. It can also report that the line is of no interest.
- **The brute-force rule** (`rules.py`) keeps two maps:
  - for each source address, a sliding window of the times of its recent failed logins;
  - for each address, the time of its last alert.

  It raises a "Brute-Force Detected" alert when an address reaches the threshold of failures within the time window, unless the address is still in its cooldown.

Modules:

- `Wrappers`: `Option`.
- `Decimal`: Python's `f"{n}"` for natural numbers. Its partner `ToNat` reads the digits back.
- `Text`: these ASCII character classes and helpers, each with Python's meaning:
  - `\w`, `\s` (`str.isspace`), `\d`, `[\d\.]` and `.` (which does not match a line feed);
  - the maximal run that a greedy `X+` consumes;
  - `str.strip()`.
- `Patterns`: the three sshd patterns of `LOG_PATTERNS`, as hand-written recognisers with the meaning of `pattern.search(line)`:
  - the leftmost match position wins;
  - the greedy `.*` settles on the rightmost `sshd[` after which the rest of the pattern matches, and it never crosses a line feed;
  - `(?: invalid user)?` is tried before it is skipped.

  Each `+` run of these patterns (`\w+`, `\s+`, `\d+`, `[\d\.]+`) is followed by a character of a disjoint class. So backtracking can only change where `.*` stops and whether the optional group is taken, and the recognisers make exactly those choices. The module proves three things:
  - soundness: a reported timestamp, user and address sit in the line in the pattern's layout (`SearchSound`);
  - completeness for lines that start with their timestamp and are written in the pattern's format, with either alternative of `(?: invalid user)?` (`LeadReached`), that hold no later `sshd[` for `.*` to reach (`CanonicalLineFound`), in particular those whose pieces after `sshd[` hold no `[` at all (`SshdLineFound`);
  - rejection for lines without a `[` (`BracketFreeNoMatch`) and for lines whose user group is broken (`FieldsAtBrokenUser`, `SingleTailNoMatch`).
- `Parser`:
  - the ordered registry `LOG_PATTERNS` and `parse_log_line`;
  - the registry walk `ParseFrom`, which is proved for any search function (`Searcher`) and then instantiated with `Patterns.Search`.
- `ParserExamples`: the classifier on the parser tests' log lines.
- `Rules`:
  - the meaning of one call of `apply_rules`, as a function `Apply` from the state and the event to the new state and the alerts;
  - the class `RulesEngine`, which holds the two maps as fields. Its `ApplyRules` appends the time, prunes the window's front in a `while` loop, and updates the cooldown map in place. It is proved to compute exactly `Apply`.
- `RulesProperties`: what the rule promises over sequences of calls:
  - under a clock that never goes back, the window of an address is exactly its failure times within the time window, counted back from the latest one (with a clock that goes back, front-only pruning can keep an old entry behind a newer one);
  - windows stay sorted under a clock that never goes back;
  - an alert fires exactly when the window is full and the address is out of cooldown;
  - there is no second alert within the cooldown;
  - the test suite's burst at a constant clock behaves as the test expects;
  - the description states the count.

Modelling choices:

- The clock (`time.time()`) is an integer argument `now` of each call.
- The three constants 5, 60 and 300 are `Thresholds` given to the constructor; `DEFAULT_THRESHOLDS` holds the source's values.
- A falsy `parsed_log` is `None`.
- Event types are the datatype `EventType`; `EventName` gives each one's `event_type` string.

Behaviour of the code worth knowing, each stated and proved:

- **Cooldown comparison.** An address fires again only when `current_time - last_alert_time > ALERT_COOLDOWN`, strictly (rules.py:48; `Rules.CooldownOver`): exactly 300 seconds after an alert is still in cooldown.
- **A stored time of 0.** `not last_alert_time` treats a stored time of 0 as no alert at all, so an address alerted when the clock read 0 is never in cooldown (`RulesProperties.BurstAlerts`, the `now == 0` case).
- **No second alert for a single failure after the cooldown.** Pruning runs before the threshold test (rules.py:41-45). By the time the cooldown is over, the earlier failures have left the 60-second window, so a single failure then raises no alert (`RulesProperties.LoneLateFailureIsQuiet`, `RulesProperties.SixthFailureAfterCooldownIsQuiet`); a new burst of five is needed.
- **A user name with a dot.** The test at test_project.py:19-24 expects "Accepted password for jane.doe" to be classified. The pattern's `(\w+)` stops at the dot, so the code returns `None` (`ParserExamples.DottedUserLineIgnored`).

## Model

| member | source | states |
|---|---|---|
| Decimal.FromNat | rules.py:51 | `f"{n}"`: at least one digit, all digits, no leading zero |
| Decimal.ToNatFromNat | rules.py:51 | reading back the digits that `f"{n}"` renders gives `n` |
| Decimal.FromNatInjective | rules.py:51 | two counts render the same only if they are equal |
| Patterns.FAILED_PASSWORD | parser.py:8 | (constant) the failed-password pattern after `sshd\[\d+\]: `: alternatives "Failed password for invalid user " then "Failed password for ", separator " from ", trail " ssh2" |
| Patterns.ACCEPTED_PASSWORD | parser.py:12 | (constant) the accepted-password pattern: alternative "Accepted password for ", separator " from ", trail " ssh2" |
| Patterns.CONNECTION_CLOSED | parser.py:16 | (constant) the connection-closed pattern: alternative "Connection closed by authenticating user ", separator " ", trail " [preauth]" |
| Parser.LOG_PATTERNS | parser.py:5-18 | (constant) the registry: "Failed Login" with the failed-password pattern, "Successful Login" with the accepted-password pattern, "Connection Closed" with the connection-closed pattern, in that order |
| Parser.EventName | parser.py:7-15 | (function, no contract) the `event_type` strings "Failed Login", "Successful Login" and "Connection Closed" |
| Parser.Record | parser.py:36-49 | (function, no contract) the record dict: timestamp from group 1, the event type, user from group 2, `ip_address` from group 3, and `raw_log` |
| Text.IsSpace | parser.py:41 | (predicate, no contract) `str.isspace()` and `\s` on ASCII: tab to carriage return, 0x1C-0x1F and space |
| Text.IsWord | parser.py:8 | (predicate, no contract) `\w` on ASCII: letters, digits and underscore |
| Text.IsDigit | parser.py:8 | (predicate, no contract) `\d` on ASCII |
| Text.RunEnd | parser.py:8 | where a greedy run of one class that starts at `i` ends: within the line, and followed by a character outside the class or the end |
| Text.RunEndUnique | parser.py:8 | a greedy run of one class ends at the one position that follows only class characters and is not itself in the class |
| Text.Strip | parser.py:41 | `line.strip()`: no longer than the line, and neither starts nor ends with whitespace |
| Text.StripSplits | parser.py:41 | the line is whitespace, then `line.strip()`, then whitespace |
| Text.StripUnique | parser.py:41 | whatever unpadded text sits between two stretches of whitespace is what `strip()` returns |
| Text.StripIdempotent | parser.py:41 | stripping the stripped line changes nothing |
| Patterns.StampAt | parser.py:8 | group 1 tried at `i`: a match ends after `i` and within the line |
| Patterns.ClockAt | parser.py:8 | (predicate, no contract) `\d{2}:\d{2}:\d{2}` at `d`: two digits, a colon, two digits, a colon, two digits |
| Patterns.AddressAt | parser.py:8 | `([\d\.]+) port \d+ TRAIL`: a reported address is a non-empty run of digits and dots |
| Patterns.PortAt | parser.py:8 | (predicate, no contract) ` port \d+ TRAIL` at `a1`: " port ", a non-empty run of digits, then the pattern's trail |
| Patterns.FieldsAt | parser.py:8 | `(\w+) SEP ([\d\.]+) port \d+ TRAIL`: a reported user is a non-empty word run and the address a non-empty run of digits and dots |
| Patterns.LeadsAt | parser.py:8 | the alternatives of `(?: invalid user)?`, tried in order: what they report has the shapes of groups 2 and 3 |
| Patterns.TailAt | parser.py:8 | `sshd\[\d+\]: ` and the rest: a result needs `sshd[` at `j`, and has the shapes of groups 2 and 3 |
| Patterns.LastTail | parser.py:8 | the greedy `.*`: no result means no position from `e` to `j` starts a matching tail |
| Patterns.MatchAt | parser.py:8 | a match at `p` begins with a full timestamp match at `p`; group 1 is that text, group 2 is a word run and group 3 a run of digits and dots; where they sit is `Patterns.MatchAtSound` |
| Patterns.FieldsAtSound | parser.py:8 | the user and address the fields report are written at `u0`, followed by the separator, ` port `, a port of digits and the trail |
| Patterns.TailAtSound | parser.py:8 | what the tail reports at `j` is laid out there: `sshd[`, a pid of digits, `]: `, one of the alternatives, then the user, separator, address, ` port `, a port and the trail |
| Patterns.LastTailAt | parser.py:8 | the tail `.*` settles on is at some position `k` between `e` and `j`, with no matching tail after `k` |
| Patterns.MatchAtSound | parser.py:8 | a match at `p` has a whole timestamp written at `p`, then text without a line feed, then the tail laid out with the reported user and address |
| Patterns.SearchFromAt | parser.py:32 | what the search reports is the match at some position from `i` on |
| Patterns.SearchSound | parser.py:8-16 | soundness: the timestamp, user and address a search reports are laid out in the line as the pattern describes |
| Patterns.LastTailPicks | parser.py:8 | the greedy `.*` settles on the rightmost position after which `sshd[...]` and the rest of the pattern match |
| Patterns.SearchFrom | parser.py:32 | no result means no position from `i` on begins a match |
| Patterns.SearchFromPicks | parser.py:32 | the search reports the match at the leftmost position that has one |
| Patterns.Search | parser.py:32 | a reported group 1 is a whole `\w+\s+\d+\s+\d{2}:\d{2}:\d{2}` timestamp; group 2 is a non-empty `\w` run and group 3 a non-empty `[\d\.]` run; where they sit in the line is `Patterns.SearchSound` |
| Patterns.LeadsNone | parser.py:8 | when no alternative of `(?: invalid user)?` is followed by matching fields, the tail does not match |
| Patterns.CanonicalLineFound | parser.py:8-16 | a line that starts with its timestamp and is in the pattern's format, written with an alternative the engine reaches (the first of any pattern, or the failed-password pattern's second, without `invalid user `), with no later `sshd[` to draw `.*` further, is found with its own timestamp, user and address |
| Patterns.SshdLineFound | parser.py:8-16 | a line built as (from its start) timestamp, gap, `sshd[pid]: `, a reached alternative, user, separator, address, ` port N`, trail and rest is found with that timestamp, user and address, when its alternative, separator, trail and rest hold no `[` |
| Patterns.LeadsWrittenFound | parser.py:8 | a reached alternative written at `q`, followed by the fields, makes the alternatives report that user and address |
| Patterns.SkippedLeadFound | parser.py:8 | `for(?: invalid user)? (\w+) from`: with "Failed password for " and the fields written and no `invalid user `, the optional group is skipped and the written user and address are reported |
| Patterns.InvalidUserAbsent | parser.py:8 | where a user group and ` from ` follow the shorter alternative, the longer one (with `invalid user `) is not written there |
| Patterns.BracketFreeNoMatch | parser.py:8-16 | a line without `[` matches none of the three patterns |
| Patterns.FieldsAtBrokenUser | parser.py:12 | a user name interrupted by a character that is neither a word character nor the separator's first character cannot be followed by the separator, so the fields do not match |
| Patterns.SingleTailNoMatch | parser.py:8-16 | a line whose only `sshd[pid]: ` is followed by none of the pattern's alternatives with its fields is not matched |
| Parser.ParseFrom | parser.py:31-51 | every record the walk returns carries the stripped line as `raw_log` |
| Parser.ParseFromSkipAll | parser.py:31-33 | entries whose patterns do not match are passed over |
| Parser.ParseFromNone | parser.py:31-51 | nothing is returned exactly when no remaining entry's pattern matches (both directions) |
| Parser.ParseFromFirst | parser.py:31-50 | the result is the record built from the first matching entry: its event type, groups 1 to 3 and the stripped line |
| Parser.RegistryOrder | parser.py:5-18 | `LOG_PATTERNS` is tried in order "Failed Login", "Successful Login", "Connection Closed", and the first match decides |
| Parser.ParseLogLine | parser.py:41 | a record's `raw_log` is `line.strip()` and has no surrounding whitespace |
| Parser.ParseLogLineNone | parser.py:31-51 | `parse_log_line` returns `None` exactly when none of the three patterns matches |
| Parser.ParseLogLineFirst | parser.py:35-50 | the record has the first matching pattern's event type, timestamp, user and address, and `raw_log == line.strip()` |
| Parser.ParseLogLineSound | parser.py:31-50 | a record's timestamp, user and address sit in the line in the layout of the pattern of its event type |
| Parser.ParseLogLineGroups | parser.py:35-50 | a record's timestamp, user and address have the shapes of capture groups 1, 2 and 3 |
| ParserExamples.StampLiteral | test_project.py:13 | "Jul 02 10:20:01" is a timestamp in the patterns' format |
| ParserExamples.FailedLoginLineClassified | test_project.py:12-17 | the failed-password test line is a "Failed Login" of user `root` from 203.0.113.45 at "Jul 02 10:20:01" |
| ParserExamples.PlainFailedLoginLineClassified | parser.py:8 | the same failure written without `invalid user ` is a "Failed Login" of user `root` from 203.0.113.45 |
| ParserExamples.SystemdLineIgnored | test_project.py:32-35 | the systemd shutdown line is not classified |
| ParserExamples.DottedUserNotAccepted | parser.py:12 | a line laid out exactly like the jane.doe test line (its only `sshd[` at 16, pid 1234, the lead at 28, "jane.doe" at 50) is not matched by the accepted-password pattern |
| ParserExamples.DottedAcceptedUnmatched | parser.py:12 | any line whose only `sshd[` is followed by a pid, `]: `, "Accepted password for " and a user name with a dot after its first word characters is not matched by the accepted-password pattern |
| ParserExamples.DottedUserLineIgnored | test_project.py:19-24 | the "Accepted password for jane.doe" line is not classified, contrary to the test's expectation |
| Rules.WindowOf | rules.py:38 | (function, no contract) `failed_logins[ip]` of a `defaultdict(deque)`: a missing address has an empty window |
| Rules.CooldownOver | rules.py:47-48 | (predicate, no contract) the address may fire: no alert recorded, a recorded 0, or more than the cooldown since the recorded time |
| Rules.Description | rules.py:51 | (function, no contract) the count in decimal, " failed logins from IP ", the address, " within ", the window in decimal, " seconds."; `RulesProperties.DescriptionStatesCount` reads the count back |
| Rules.BruteForceAlert | rules.py:49-54 | (function, no contract) the alert dict: type "Brute-Force Detected", the description, the address and the event's timestamp |
| Rules.IsFailedLogin | rules.py:33 | (predicate, no contract) the event is present and its event type is "Failed Login" |
| Rules.Prune | rules.py:40-42 | the `popleft` loop removes exactly front entries older than the cutoff; what remains is empty or starts at or after it |
| Rules.PruneIsSuffix | rules.py:40-42 | pruning only removes from the front: the result is a suffix of the window |
| Rules.PruneKeepsNewest | rules.py:38-42 | the entry just appended, being inside the window, survives pruning at the back |
| Rules.NewWindow | rules.py:37-42 | after a failed login the address's window is non-empty, ends with `now` and starts no earlier than `now - BRUTE_FORCE_TIME_WINDOW` |
| Rules.Apply | rules.py:18-61 | a falsy input or a non-"Failed Login" event changes nothing and returns `[]`; a failed login replaces only its address's window; at most one alert; an alert exactly when the window holds at least the threshold and the cooldown is over (strict `>`, a stored 0 counts as none); its fields; and the cooldown map records `now` exactly when an alert fires |
| Rules.ApplyKeepsValid | rules.py:37-56 | every call keeps each stored window non-empty, and keeps alerted addresses among those with a window |
| Rules.RulesEngine.constructor | rules.py:9-16 | a new engine has no failures and no alerts recorded, and its state is valid |
| Rules.RulesEngine.ApplyRules | rules.py:18-61 | the in-place append, pruning loop and cooldown update leave the state and return the alerts that `Apply` gives, and a valid state stays valid |
| Rules.RulesEngine.ClearRulesState | rules.py:63-66 | both maps are empty afterwards, which is a valid state |
| RulesProperties.PruneSortedIsRecent | rules.py:40-42 | on a sorted window, front pruning keeps exactly the entries at or after the cutoff |
| RulesProperties.FailureTimesSorted | rules.py:35-38 | under a clock that never goes back, an address's failure times are sorted |
| RulesProperties.WindowGrows | rules.py:37-42 | a failed login from an address extends its failure times by `now`, and its window is again their recent part |
| RulesProperties.WindowStays | rules.py:33-38 | a call that is not a failed login from the address leaves its window's meaning intact |
| RulesProperties.WindowIsRecentFailures | rules.py:37-42 | after any calls under a non-decreasing clock, an address has a window exactly when it has failed, and the window holds its failure times within the time window of the latest |
| RulesProperties.AlertMeansBurst | rules.py:44-48 | under a non-decreasing clock, a failed login raises an alert exactly when at least the threshold of that address's failures fall within the window and the address is out of cooldown |
| RulesProperties.ApplyKeepsOrdered | rules.py:37-42 | a call at a time no earlier than the last keeps every window sorted and no later than the clock |
| RulesProperties.ReplayOrdered | rules.py:37-42 | under a non-decreasing clock every window stays sorted |
| RulesProperties.ReplayKeepsValid | rules.py:37-56 | any sequence of calls keeps the state valid |
| RulesProperties.NoRefireWithinCooldown | rules.py:46-56 | once an address is alerted at a non-zero time, no call within the cooldown alerts it again, and its recorded alert time stays put |
| RulesProperties.BurstState | rules.py:37-56 | after n failed logins at one time, the window holds n copies of the time, and the address has `now` recorded as its alert time exactly when n is at least 1 and reached the threshold |
| RulesProperties.BurstAlerts | rules.py:44-56 | the n-th failed login of such a burst alerts exactly when n reaches the threshold and it is the first to do so (or the clock reads 0); the alert states n |
| RulesProperties.FifthFailureAlerts | test_project.py:39-47 | with the default thresholds at a non-zero clock, failures 1 to 4 raise nothing, the fifth raises one "Brute-Force Detected" alert stating 5 in 60 seconds, and a sixth is in cooldown |
| RulesProperties.LoneLateFailureIsQuiet | rules.py:40-48 | a failed login after all earlier ones have left the window leaves a window of one entry and raises no alert when the threshold exceeds one |
| RulesProperties.SixthFailureAfterCooldownIsQuiet | rules.py:40-48 | with the default thresholds, a sixth failure 301 seconds after a burst of five raises no alert |
| RulesProperties.DescriptionStatesCount | rules.py:51 | the alert description begins with the window's count in decimal |

## Left out

- main.py is not part of this model. It tails files on threads, stores alerts in SQLite and serves them over HTTP. That is I/O and concurrency.
- config.py is not part of this model. It reads `config.ini` when imported, and rules.py does not use it. Thresholds are constructor parameters instead.
- Floating-point time: `time.time()` becomes an integer `now` given to each call.
- The regular-expression engine: the three patterns are hand-written recognisers that make the choices the engine's backtracking can make on these patterns, and no general engine is modelled.
- Unicode character classes: Python's `\w`, `\d`, `\s` and `str.strip()` also accept non-ASCII letters, digits and spaces; the model's classes are ASCII only.
- The rules and keys the tests expect but the code does not implement (new-IP login, 404 web scan, `log_type`, nginx lines) and the test helper `clear_state_for_testing`, which the code does not define (it defines `clear_rules_state`).
- The `KeyError` a hand-made dict without `event_type`, `ip_address` or `timestamp` would raise: events are `ParsedLog` records, which always carry those fields. Falsiness is modelled only as `None`; an empty dict is the only other falsy case.
- Concurrency: the two maps are module state with no lock, which several monitors running at once would share; `RulesEngine` is used by one caller at a time.
