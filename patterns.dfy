/**
 * The three sshd patterns of the log classifier, as hand-written recognisers
 * with the meaning of Python's `pattern.search(line)`.
 *
 * Every pattern has the form
 *   (\w+\s+\d+\s+\d{2}:\d{2}:\d{2}) .* sshd\[\d+\]: LEAD (\w+) SEP ([\d\.]+) port \d+ TRAIL
 * In it each `+` run (`\w+`, `\s+`, `\d+`, `[\d\.]+`) is followed by a
 * character of another class, so such a run can only stop at the end of the
 * longest run; the only choices
 * the regex engine makes are where the search starts (leftmost first), how
 * much the greedy `.*` takes (as much as possible, without crossing a line
 * feed), and, for the failed-password pattern, whether `(?: invalid user)?`
 * is taken (tried first) or skipped.
 */
module Patterns {
  import opened Wrappers
  import opened Text

  /** Capture groups 1, 2 and 3 of a match: timestamp, user name, address. */
  datatype Groups = Groups(timestamp: string, user: string, ip: string)

  /**
   * What a pattern requires after `sshd\[\d+\]: `:
   * `leads`, the literal text before the user group (one entry per
   * alternative, in the order the engine tries them); `sep`, the literal text
   * between the user and the address groups; `trail`, the literal text after
   * ` port \d+`.
   */
  datatype Shape = Shape(leads: seq<string>, sep: string, trail: string)

  /** `...sshd\[\d+\]: Failed password for(?: invalid user)? (\w+) from ([\d\.]+) port \d+ ssh2` */
  const FAILED_PASSWORD := Shape(["Failed password for invalid user ", "Failed password for "], " from ", " ssh2")

  /** `...sshd\[\d+\]: Accepted password for (\w+) from ([\d\.]+) port \d+ ssh2` */
  const ACCEPTED_PASSWORD := Shape(["Accepted password for "], " from ", " ssh2")

  /** `...sshd\[\d+\]: Connection closed by authenticating user (\w+) ([\d\.]+) port \d+ \[preauth\]` */
  const CONNECTION_CLOSED := Shape(["Connection closed by authenticating user "], " ", " [preauth]")

  // ----- group 1: the syslog timestamp -----

  /** `\d{2}:\d{2}:\d{2}` at position d. */
  predicate ClockAt(s: string, d: nat) {
    && d + 8 <= |s|
    && IsDigit(s[d]) && IsDigit(s[d + 1]) && s[d + 2] == ':'
    && IsDigit(s[d + 3]) && IsDigit(s[d + 4]) && s[d + 5] == ':'
    && IsDigit(s[d + 6]) && IsDigit(s[d + 7])
  }

  /** `\w+\s+\d+\s+\d{2}:\d{2}:\d{2}` tried at position i: where its match ends. */
  function StampAt(s: string, i: nat): (r: Option<nat>)
    requires i <= |s|
    ensures r.Some? ==> i < r.value <= |s|
  {
    var a := RunEnd(s, i, Word);
    var b := RunEnd(s, a, Space);
    var c := RunEnd(s, b, Digit);
    var d := RunEnd(s, c, Space);
    if i < a < b < c < d && ClockAt(s, d) then Some(d + 8) else None
  }

  /** `t` is, in full, a match of the timestamp group. */
  predicate IsStamp(t: string) {
    StampAt(t, 0) == Some(|t|)
  }

  /** Cutting a line down to a run that stops inside the cut leaves the run where it was. */
  lemma RunEndSlice(s: string, lo: nat, hi: nat, k: nat, cls: CharClass)
    requires lo <= k <= hi <= |s|
    requires RunEnd(s, k, cls) < hi
    ensures RunEnd(s[lo..hi], k - lo, cls) == RunEnd(s, k, cls) - lo
  {
    var t := s[lo..hi];
    var e := RunEnd(s, k, cls);
    RunEndRun(s, k, cls);
    assert forall m :: k - lo <= m <= e - lo ==> t[m] == s[m + lo];
    RunEndUnique(t, k - lo, cls, e - lo);
  }

  /** Runs that end at a, b, c, d in the timestamp make, with a clock at d, a timestamp. */
  lemma StampAtOf(t: string, a: nat, b: nat, c: nat, d: nat)
    requires 0 < a < b < c < d && d + 8 == |t|
    requires RunStops(t, 0, Word, a) && RunStops(t, a, Space, b)
    requires RunStops(t, b, Digit, c) && RunStops(t, c, Space, d)
    requires ClockAt(t, d)
    ensures IsStamp(t)
  {
  }

  /** A run that stops inside a cut stops at the same place in the cut. */
  lemma RunStopsSlice(s: string, lo: nat, hi: nat, k: nat, e: nat, cls: CharClass)
    requires lo <= k <= e < hi <= |s|
    requires RunStops(s, k, cls, e)
    ensures RunStops(s[lo..hi], k - lo, cls, e - lo)
  {
    RunEndSlice(s, lo, hi, k, cls);
  }

  lemma StampRunsSlice(s: string, i: nat, a: nat, b: nat, c: nat, d: nat)
    requires i < a < b < c < d && d + 8 <= |s|
    requires RunStops(s, i, Word, a) && RunStops(s, a, Space, b)
    requires RunStops(s, b, Digit, c) && RunStops(s, c, Space, d)
    ensures RunStops(s[i..d + 8], 0, Word, a - i) && RunStops(s[i..d + 8], a - i, Space, b - i)
    ensures RunStops(s[i..d + 8], b - i, Digit, c - i) && RunStops(s[i..d + 8], c - i, Space, d - i)
  {
    StampRunsSliceFront(s, i, a, b, d);
    StampRunsSliceBack(s, i, b, c, d);
  }

  lemma StampRunsSliceFront(s: string, i: nat, a: nat, b: nat, d: nat)
    requires i < a < b < d && d + 8 <= |s|
    requires RunStops(s, i, Word, a) && RunStops(s, a, Space, b)
    ensures RunStops(s[i..d + 8], 0, Word, a - i) && RunStops(s[i..d + 8], a - i, Space, b - i)
  {
    RunStopsSlice(s, i, d + 8, i, a, Word);
    RunStopsSlice(s, i, d + 8, a, b, Space);
  }

  lemma StampRunsSliceBack(s: string, i: nat, b: nat, c: nat, d: nat)
    requires i < b < c < d && d + 8 <= |s|
    requires RunStops(s, b, Digit, c) && RunStops(s, c, Space, d)
    ensures RunStops(s[i..d + 8], b - i, Digit, c - i) && RunStops(s[i..d + 8], c - i, Space, d - i)
  {
    RunStopsSlice(s, i, d + 8, b, c, Digit);
    RunStopsSlice(s, i, d + 8, c, d, Space);
  }

  lemma ClockSlice(s: string, i: nat, d: nat)
    requires i <= d && ClockAt(s, d)
    ensures ClockAt(s[i..d + 8], d - i)
  {
    var t := s[i..d + 8];
    assert forall m :: d - i <= m < |t| ==> t[m] == s[m + i];
  }

  /** The text a timestamp match covers is itself a timestamp. */
  lemma StampAtSlice(s: string, i: nat)
    requires i <= |s| && StampAt(s, i).Some?
    ensures IsStamp(s[i..StampAt(s, i).value])
  {
    var a := RunEnd(s, i, Word);
    var b := RunEnd(s, a, Space);
    var c := RunEnd(s, b, Digit);
    var d := RunEnd(s, c, Space);
    StampSliceOf(s, i, a, b, c, d);
  }

  lemma StampSliceOf(s: string, i: nat, a: nat, b: nat, c: nat, d: nat)
    requires i < a < b < c < d && ClockAt(s, d)
    requires RunStops(s, i, Word, a) && RunStops(s, a, Space, b)
    requires RunStops(s, b, Digit, c) && RunStops(s, c, Space, d)
    ensures IsStamp(s[i..d + 8])
  {
    StampRunsSlice(s, i, a, b, c, d);
    ClockSlice(s, i, d);
    StampAtOf(s[i..d + 8], a - i, b - i, c - i, d - i);
  }

  /** A timestamp followed by anything still matches, and ends, where it did. */
  lemma StampAtAppend(t: string, rest: string)
    requires IsStamp(t)
    ensures StampAt(t + rest, 0) == Some(|t|)
  {
    var a := RunEnd(t, 0, Word);
    var b := RunEnd(t, a, Space);
    var c := RunEnd(t, b, Digit);
    var d := RunEnd(t, c, Space);
    RunEndAppend(t, rest, 0, Word);
    RunEndAppend(t, rest, a, Space);
    RunEndAppend(t, rest, b, Digit);
    RunEndAppend(t, rest, c, Space);
    var s := t + rest;
    assert forall m :: d <= m < |t| ==> s[m] == t[m];
  }

  // ----- groups 2 and 3 -----

  /** ` port \d+ TRAIL` at position a1. */
  predicate PortAt(s: string, a1: nat, shape: Shape)
    requires a1 <= |s|
  {
    && LiteralAt(s, a1, " port ")
    && var p1 := RunEnd(s, a1 + 6, Digit);
       p1 > a1 + 6 && LiteralAt(s, p1, shape.trail)
  }

  /** `([\d\.]+) port \d+ TRAIL` at position a0: the address group. */
  function AddressAt(s: string, a0: nat, shape: Shape): (r: Option<string>)
    requires a0 <= |s|
    ensures r.Some? ==> NonEmptyRun(r.value, DigitOrDot)
  {
    var a1 := RunEnd(s, a0, DigitOrDot);
    if a1 > a0 && PortAt(s, a1, shape) then RunEndText(s, a0, DigitOrDot); Some(s[a0..a1]) else None
  }

  /** `(\w+) SEP ([\d\.]+) port \d+ TRAIL` at position u0: the user and address groups. */
  function FieldsAt(s: string, u0: nat, shape: Shape): (r: Option<(string, string)>)
    requires u0 <= |s|
    ensures r.Some? ==> NonEmptyRun(r.value.0, Word) && NonEmptyRun(r.value.1, DigitOrDot)
  {
    var u1 := RunEnd(s, u0, Word);
    if u1 == u0 || !LiteralAt(s, u1, shape.sep) then None
    else
      var ip := AddressAt(s, u1 + |shape.sep|, shape);
      if ip.None? then None else RunEndText(s, u0, Word); Some((s[u0..u1], ip.value))
  }

  /** The lead alternatives from the k-th on, each followed by the fields, at position q. */
  function LeadsAt(s: string, q: nat, shape: Shape, k: nat): (r: Option<(string, string)>)
    requires q <= |s| && k <= |shape.leads|
    ensures r.Some? ==> NonEmptyRun(r.value.0, Word) && NonEmptyRun(r.value.1, DigitOrDot)
    decreases |shape.leads| - k
  {
    if k == |shape.leads| then None
    else
      var lead := shape.leads[k];
      var fields := if LiteralAt(s, q, lead) then FieldsAt(s, q + |lead|, shape) else None;
      if fields.Some? then fields else LeadsAt(s, q, shape, k + 1)
  }

  /** `sshd\[\d+\]: ` and the rest of the pattern at position j. */
  function TailAt(s: string, j: nat, shape: Shape): (r: Option<(string, string)>)
    requires j <= |s|
    ensures r.Some? ==> LiteralAt(s, j, "sshd[")
    ensures r.Some? ==> NonEmptyRun(r.value.0, Word) && NonEmptyRun(r.value.1, DigitOrDot)
  {
    if !LiteralAt(s, j, "sshd[") then None
    else
      var p := RunEnd(s, j + 5, Digit);
      if p == j + 5 || !LiteralAt(s, p, "]: ") then None
      else LeadsAt(s, p + 3, shape, 0)
  }

  /**
   * The greedy `.*` between the timestamp (ending at e) and `sshd[`: the tail
   * is tried at j, j - 1, ..., e, and the first (rightmost) success wins.
   */
  function LastTail(s: string, e: nat, j: nat, shape: Shape): (r: Option<(string, string)>)
    requires e <= j <= |s|
    ensures r.Some? ==> NonEmptyRun(r.value.0, Word) && NonEmptyRun(r.value.1, DigitOrDot)
    ensures r.None? ==> forall k :: e <= k <= j ==> TailAt(s, k, shape).None?
    decreases j - e
  {
    var tail := TailAt(s, j, shape);
    if tail.Some? || j == e then tail else LastTail(s, e, j - 1, shape)
  }

  /** The greedy `.*` settles on the rightmost position where the tail matches. */
  lemma {:induction false} LastTailPicks(s: string, e: nat, k: nat, j: nat, shape: Shape)
    requires e <= k <= j <= |s|
    requires TailAt(s, k, shape).Some?
    requires forall k' :: k < k' <= j ==> TailAt(s, k', shape).None?
    ensures LastTail(s, e, j, shape) == TailAt(s, k, shape)
    decreases j - k
  {
    if k < j {
      LastTailPicks(s, e, k, j - 1, shape);
    }
  }

  /** The match that begins at position p, if there is one (`pattern.match(s, p)`). */
  function MatchAt(s: string, p: nat, shape: Shape): (r: Option<Groups>)
    requires p <= |s|
    ensures r.Some? ==> StampAt(s, p).Some? && r.value.timestamp == s[p..StampAt(s, p).value]
    ensures r.Some? ==> NonEmptyRun(r.value.user, Word) && NonEmptyRun(r.value.ip, DigitOrDot)
  {
    match StampAt(s, p)
    case None => None
    case Some(e) =>
      // `.` does not match a line feed, so `.*` stops at the first one
      var tail := LastTail(s, e, RunEnd(s, e, NotNewline), shape);
      if tail.None? then None
      else Some(Groups(s[p..e], tail.value.0, tail.value.1))
  }

  /** `pattern.search(s, i)`: the match at the leftmost position from i on. */
  function SearchFrom(s: string, i: nat, shape: Shape): (r: Option<Groups>)
    requires i <= |s|
    ensures r.Some? ==> NonEmptyRun(r.value.user, Word) && NonEmptyRun(r.value.ip, DigitOrDot)
    ensures r.None? ==> forall p :: i <= p <= |s| ==> MatchAt(s, p, shape).None?
    decreases |s| - i
  {
    var m := MatchAt(s, i, shape);
    if m.Some? || i == |s| then m else SearchFrom(s, i + 1, shape)
  }

  /** A search reports the match at the leftmost position that has one. */
  lemma {:induction false} SearchFromPicks(s: string, i: nat, p: nat, shape: Shape)
    requires i <= p <= |s|
    requires MatchAt(s, p, shape).Some?
    requires forall p' :: i <= p' < p ==> MatchAt(s, p', shape).None?
    ensures SearchFrom(s, i, shape) == MatchAt(s, p, shape)
    decreases p - i
  {
    if i < p {
      assert MatchAt(s, i, shape).None?;
      assert SearchFrom(s, i, shape) == SearchFrom(s, i + 1, shape);
      SearchFromPicks(s, i + 1, p, shape);
    }
  }

  /** Whatever a search reports as group 1 is, in full, a timestamp. */
  lemma {:induction false} SearchFromStamp(s: string, i: nat, shape: Shape)
    requires i <= |s|
    requires SearchFrom(s, i, shape).Some?
    ensures IsStamp(SearchFrom(s, i, shape).value.timestamp)
    decreases |s| - i
  {
    if MatchAt(s, i, shape).Some? {
      assert SearchFrom(s, i, shape) == MatchAt(s, i, shape);
      StampAtSlice(s, i);
    } else {
      assert i < |s| && SearchFrom(s, i, shape) == SearchFrom(s, i + 1, shape);
      SearchFromStamp(s, i + 1, shape);
    }
  }

  /** `pattern.search(s)` */
  function Search(s: string, shape: Shape): (r: Option<Groups>)
    ensures r.Some? ==> IsStamp(r.value.timestamp)
    ensures r.Some? ==> NonEmptyRun(r.value.user, Word) && NonEmptyRun(r.value.ip, DigitOrDot)
  {
    var r := SearchFrom(s, 0, shape);
    if r.Some? then SearchFromStamp(s, 0, shape); r else r
  }

  // ----- canonical sshd lines -----

  /** Text written at i holds its two parts, one after the other. */
  lemma LiteralSplit(s: string, i: nat, a: string, b: string)
    requires LiteralAt(s, i, a + b)
    ensures LiteralAt(s, i, a) && LiteralAt(s, i + |a|, b)
  {
    assert (a + b)[..|a|] == a && (a + b)[|a|..] == b;
    assert s[i..i + |a|] == s[i..i + |a + b|][..|a|];
    assert s[i + |a|..i + |a| + |b|] == s[i..i + |a + b|][|a|..];
  }

  /** The run of `cls` characters from i ends at e. */
  predicate RunStops(s: string, i: nat, cls: CharClass, e: nat)
    requires i <= |s|
  {
    RunEnd(s, i, cls) == e
  }

  /**
   * A run of `cls` characters written at i, followed by text that starts
   * outside `cls`, ends where the written run ends.
   */
  lemma RunAt(s: string, i: nat, run: string, cls: CharClass, stop: string)
    requires LiteralAt(s, i, run) && AllIn(run, cls)
    requires LiteralAt(s, i + |run|, stop) && stop != [] && !InClass(stop[0], cls)
    ensures RunStops(s, i, cls, i + |run|)
  {
    forall k | i <= k < i + |run| ensures InClass(s[k], cls) {
      assert s[k] == s[i..i + |run|][k - i];
    }
    assert s[i + |run|] == s[i + |run|..i + |run| + |stop|][0];
    RunEndUnique(s, i, cls, i + |run|);
  }

  /**
   * Groups 2 and 3 and the port as the pattern captures them: a user name of
   * word characters, an address of digits and dots, a port number, with a
   * separator and a trail that stop the runs before them.
   */
  predicate GroupsFit(shape: Shape, user: string, ip: string, port: string) {
    && NonEmptyRun(user, Word) && NonEmptyRun(ip, DigitOrDot) && NonEmptyRun(port, Digit)
    && shape.sep != [] && !InClass(shape.sep[0], Word)
    && shape.trail != [] && !InClass(shape.trail[0], Digit)
  }

  /** ` port `, the port and the trail, written from a1. */
  predicate PortWritten(s: string, a1: nat, shape: Shape, port: string) {
    LiteralAt(s, a1, " port ") && LiteralAt(s, a1 + 6, port) && LiteralAt(s, a1 + 6 + |port|, shape.trail)
  }

  /** The address, then ` port `, the port and the trail, written from a0. */
  predicate AddressWritten(s: string, a0: nat, shape: Shape, ip: string, port: string) {
    LiteralAt(s, a0, ip) && PortWritten(s, a0 + |ip|, shape, port)
  }

  /** The pieces of `(\w+) SEP ([\d\.]+) port \d+ TRAIL`, written one after the other from u0. */
  predicate FieldsWritten(s: string, u0: nat, shape: Shape, user: string, ip: string, port: string) {
    && LiteralAt(s, u0, user) && LiteralAt(s, u0 + |user|, shape.sep)
    && AddressWritten(s, u0 + |user| + |shape.sep|, shape, ip, port)
  }

  /** ` port \d+ TRAIL` is found where it is written. */
  lemma PortAtFound(s: string, a1: nat, shape: Shape, port: string)
    requires NonEmptyRun(port, Digit) && shape.trail != [] && !InClass(shape.trail[0], Digit)
    requires PortWritten(s, a1, shape, port)
    ensures PortAt(s, a1, shape)
  {
    RunAt(s, a1 + 6, port, Digit, shape.trail);
  }

  /** A run of digits and dots, stopped by ` port \d+ TRAIL`, is the address group. */
  lemma AddressAtOf(s: string, a0: nat, shape: Shape, ip: string)
    requires |ip| > 0 && LiteralAt(s, a0, ip)
    requires RunStops(s, a0, DigitOrDot, a0 + |ip|) && PortAt(s, a0 + |ip|, shape)
    ensures AddressAt(s, a0, shape) == Some(ip)
  {
  }

  /** `([\d\.]+) port \d+ TRAIL` finds the address where it is written. */
  lemma AddressAtFound(s: string, a0: nat, shape: Shape, ip: string, port: string)
    requires NonEmptyRun(ip, DigitOrDot) && NonEmptyRun(port, Digit)
    requires shape.trail != [] && !InClass(shape.trail[0], Digit)
    requires AddressWritten(s, a0, shape, ip, port)
    ensures AddressAt(s, a0, shape) == Some(ip)
  {
    RunAt(s, a0, ip, DigitOrDot, " port ");
    PortAtFound(s, a0 + |ip|, shape, port);
    AddressAtOf(s, a0, shape, ip);
  }

  /** A run of word characters, the separator and an address group make the fields. */
  lemma FieldsAtOf(s: string, u0: nat, shape: Shape, user: string, ip: string)
    requires |user| > 0 && LiteralAt(s, u0, user) && RunStops(s, u0, Word, u0 + |user|)
    requires LiteralAt(s, u0 + |user|, shape.sep) && AddressAt(s, u0 + |user| + |shape.sep|, shape) == Some(ip)
    ensures FieldsAt(s, u0, shape) == Some((user, ip))
  {
  }

  /** `(\w+) SEP ([\d\.]+) port \d+ TRAIL` finds the user and the address where they are written. */
  lemma FieldsAtFound(s: string, u0: nat, shape: Shape, user: string, ip: string, port: string)
    requires GroupsFit(shape, user, ip, port)
    requires FieldsWritten(s, u0, shape, user, ip, port)
    ensures FieldsAt(s, u0, shape) == Some((user, ip))
  {
    RunAt(s, u0, user, Word, shape.sep);
    AddressAtFound(s, u0 + |user| + |shape.sep|, shape, ip, port);
    FieldsAtOf(s, u0, shape, user, ip);
  }

  /** When the k-th lead is at q and the fields follow it, that is the match; no later lead is tried. */
  lemma LeadsAtFound(s: string, q: nat, shape: Shape, k: nat, fields: (string, string))
    requires k < |shape.leads| && q <= |s|
    requires LiteralAt(s, q, shape.leads[k]) && FieldsAt(s, q + |shape.leads[k]|, shape) == Some(fields)
    ensures LeadsAt(s, q, shape, k) == Some(fields)
  {
  }

  /** `sshd[`, the pid, `]: ` and a lead, written from j. */
  predicate HeadWritten(s: string, j: nat, pid: string, lead: string) {
    && LiteralAt(s, j, "sshd[") && LiteralAt(s, j + 5, pid)
    && LiteralAt(s, j + 5 + |pid|, "]: ") && LiteralAt(s, j + 5 + |pid| + 3, lead)
  }

  /** The lead alternatives at q match, with these user and address groups. */
  predicate LeadsMatch(s: string, q: nat, shape: Shape, fields: (string, string))
    requires q <= |s|
  {
    LeadsAt(s, q, shape, 0) == Some(fields)
  }

  /** The first lead at q, followed by a match of the fields, is a match of the leads. */
  lemma FirstLeadFound(s: string, q: nat, shape: Shape, fields: (string, string))
    requires |shape.leads| > 0 && LiteralAt(s, q, shape.leads[0])
    requires FieldsAt(s, q + |shape.leads[0]|, shape) == Some(fields)
    ensures LeadsMatch(s, q, shape, fields)
  {
    LeadsAtFound(s, q, shape, 0, fields);
  }

  /** `sshd\[\d+\]: ` at j, with the pid's digits ending at p. */
  predicate HeadAt(s: string, j: nat, p: nat) {
    LiteralAt(s, j, "sshd[") && j + 5 < p && RunStops(s, j + 5, Digit, p) && LiteralAt(s, p, "]: ")
  }

  /** `sshd[`, the pid and `]: ` written at j are matched by `sshd\[\d+\]: `. */
  lemma HeadFound(s: string, j: nat, pid: string, lead: string)
    requires NonEmptyRun(pid, Digit) && HeadWritten(s, j, pid, lead)
    ensures HeadAt(s, j, j + 5 + |pid|)
  {
    RunAt(s, j + 5, pid, Digit, "]: ");
  }

  /** `sshd\[\d+\]: ` at j, followed by a match of the leads, is a match of the tail. */
  lemma TailAtOf(s: string, j: nat, p: nat, shape: Shape, fields: (string, string))
    requires HeadAt(s, j, p) && LeadsMatch(s, p + 3, shape, fields)
    ensures TailAt(s, j, shape) == Some(fields)
  {
  }

  /** `sshd[PID]: `, the k-th lead, then user, separator, address, ` port `, port and trail, written from j. */
  predicate TailWritten(s: string, j: nat, pid: string, shape: Shape, k: nat, user: string, ip: string, port: string)
    requires k < |shape.leads|
  {
    HeadWritten(s, j, pid, shape.leads[k]) && FieldsWritten(s, j + 5 + |pid| + 3 + |shape.leads[k]|, shape, user, ip, port)
  }

  /** The tail written at j in the pattern's format matches, with the user and address written there. */
  lemma TailWrittenFound(s: string, j: nat, pid: string, shape: Shape, k: nat, user: string, ip: string, port: string)
    requires NonEmptyRun(pid, Digit) && LeadReached(shape, k) && GroupsFit(shape, user, ip, port)
    requires TailWritten(s, j, pid, shape, k, user, ip, port)
    ensures TailAt(s, j, shape) == Some((user, ip))
  {
    LeadsWrittenFound(s, j + 5 + |pid| + 3, shape, k, user, ip, port);
    HeadWrittenFound(s, j, pid, shape, k, (user, ip));
  }

  /** `sshd[`, the pid and `]: ` written at j, followed by a match of the leads, are a match of the tail. */
  lemma HeadWrittenFound(s: string, j: nat, pid: string, shape: Shape, k: nat, fields: (string, string))
    requires NonEmptyRun(pid, Digit) && k < |shape.leads| && HeadWritten(s, j, pid, shape.leads[k])
    requires LeadsMatch(s, j + 5 + |pid| + 3, shape, fields)
    ensures TailAt(s, j, shape) == Some(fields)
  {
    HeadFound(s, j, pid, shape.leads[k]);
    TailAtOf(s, j, j + 5 + |pid|, shape, fields);
  }

  /** A reached lead written at q, followed by the fields, is a match of the leads. */
  lemma LeadsWrittenFound(s: string, q: nat, shape: Shape, k: nat, user: string, ip: string, port: string)
    requires LeadReached(shape, k) && GroupsFit(shape, user, ip, port)
    requires LiteralAt(s, q, shape.leads[k]) && FieldsWritten(s, q + |shape.leads[k]|, shape, user, ip, port)
    ensures LeadsMatch(s, q, shape, (user, ip))
  {
    if k == 0 {
      FirstLeadWrittenFound(s, q, shape, user, ip, port);
    } else {
      SkippedLeadFound(s, q, shape, user, ip, port);
    }
  }

  /** The first lead written at q, followed by the fields, is a match of the leads. */
  lemma FirstLeadWrittenFound(s: string, q: nat, shape: Shape, user: string, ip: string, port: string)
    requires |shape.leads| > 0 && GroupsFit(shape, user, ip, port)
    requires LiteralAt(s, q, shape.leads[0]) && FieldsWritten(s, q + |shape.leads[0]|, shape, user, ip, port)
    ensures LeadsMatch(s, q, shape, (user, ip))
  {
    FieldsAtFound(s, q + |shape.leads[0]|, shape, user, ip, port);
    FirstLeadFound(s, q, shape, (user, ip));
  }

  /**
   * The alternatives a written line can use and still be reported with its
   * own groups: the first, which is tried first, and the second when it is
   * the first without `invalid user ` before a ` from ` separator, as in
   * `for(?: invalid user)? (\w+) from`: `invalid user ` cannot be where a
   * user group and ` from ` are written.
   */
  predicate LeadReached(shape: Shape, k: nat) {
    k < |shape.leads| && (k == 0 || (k == 1 && InvalidUserOptional(shape)))
  }

  /** The first alternative is the second followed by `invalid user `, and the separator is ` from `. */
  predicate InvalidUserOptional(shape: Shape) {
    |shape.leads| > 1 && shape.leads[0] == shape.leads[1] + "invalid user " && shape.sep == " from "
  }

  /**
   * The second alternative followed by the fields, without `invalid user `:
   * the optional group is tried, fails, and is skipped.
   */
  lemma SkippedLeadFound(s: string, q: nat, shape: Shape, user: string, ip: string, port: string)
    requires InvalidUserOptional(shape) && GroupsFit(shape, user, ip, port)
    requires LiteralAt(s, q, shape.leads[1]) && FieldsWritten(s, q + |shape.leads[1]|, shape, user, ip, port)
    ensures LeadsMatch(s, q, shape, (user, ip))
  {
    FieldsAtFound(s, q + |shape.leads[1]|, shape, user, ip, port);
    InvalidUserAbsent(s, q, shape, user);
    SecondLeadFound(s, q, shape, (user, ip));
  }

  /** Without the first lead at q, the second lead followed by a match of the fields is a match of the leads. */
  lemma SecondLeadFound(s: string, q: nat, shape: Shape, fields: (string, string))
    requires 1 < |shape.leads| && q <= |s| && !LiteralAt(s, q, shape.leads[0])
    requires LiteralAt(s, q, shape.leads[1]) && FieldsAt(s, q + |shape.leads[1]|, shape) == Some(fields)
    ensures LeadsMatch(s, q, shape, fields)
  {
    LeadsAtSkip(s, q, shape, 0);
    LeadsAtFound(s, q, shape, 1, fields);
  }

  /** Where a user group and ` from ` are written after the second alternative, the first is not written. */
  lemma InvalidUserAbsent(s: string, q: nat, shape: Shape, user: string)
    requires InvalidUserOptional(shape)
    requires NonEmptyRun(user, Word) && LiteralAt(s, q + |shape.leads[1]|, user)
    requires LiteralAt(s, q + |shape.leads[1]| + |user|, " from ")
    ensures !LiteralAt(s, q, shape.leads[0])
  {
    var lead := shape.leads[0];
    var r := |shape.leads[1]|;
    var n := |user|;
    assert |lead| == r + 13 && lead[r..] == "invalid user ";
    assert s[q + r + n] == ' ' by {
      assert s[q + r + n] == s[q + r + n..q + r + n + 6][0];
    }
    if q + |lead| <= |s| {
      var w := s[q..q + |lead|];
      if n < 7 {
        assert w[r + n] == ' ' && lead[r + n] == lead[r..][n] != ' ';
      } else if n > 7 {
        assert s[q + r + 7] == user[7] by {
          assert s[q + r + 7] == s[q + r..q + r + n][7];
        }
        assert InClass(user[7], Word);
        assert w[r + 7] != ' ' && lead[r + 7] == lead[r..][7] == ' ';
      } else {
        assert s[q + r + 8] == 'f' by {
          assert s[q + r + 8] == s[q + r + 7..q + r + 7 + 6][1];
        }
        assert w[r + 8] == 'f' && lead[r + 8] == lead[r..][8] == 'u';
      }
    }
  }

  /** `sshd[pid]: ` and the k-th lead of the pattern. */
  function HeadText(pid: string, shape: Shape, k: nat): string
    requires k < |shape.leads|
  {
    "sshd[" + pid + "]: " + shape.leads[k]
  }

  /** The user, the separator, the address, ` port `, the port and the trail. */
  function FieldsText(shape: Shape, user: string, ip: string, port: string): string {
    user + shape.sep + ip + " port " + port + shape.trail
  }

  /**
   * A line in the format a pattern describes (with its k-th lead): a
   * timestamp, text without a line feed, `sshd[pid]: `, the lead, the user,
   * the separator, the address, ` port `, the port, the trail, then anything.
   */
  function SshdLine(stamp: string, gap: string, pid: string, shape: Shape, k: nat, user: string, ip: string, port: string, rest: string): string
    requires k < |shape.leads|
  {
    stamp + gap + HeadText(pid, shape, k) + FieldsText(shape, user, ip, port) + rest
  }

  lemma HeadTextWritten(s: string, j: nat, pid: string, shape: Shape, k: nat)
    requires k < |shape.leads| && LiteralAt(s, j, HeadText(pid, shape, k))
    ensures HeadWritten(s, j, pid, shape.leads[k])
  {
    LiteralSplit(s, j, "sshd[" + pid + "]: ", shape.leads[k]);
    LiteralSplit(s, j, "sshd[" + pid, "]: ");
    LiteralSplit(s, j, "sshd[", pid);
  }

  lemma FieldsTextWritten(s: string, u0: nat, shape: Shape, user: string, ip: string, port: string)
    requires LiteralAt(s, u0, FieldsText(shape, user, ip, port))
    ensures FieldsWritten(s, u0, shape, user, ip, port)
  {
    LiteralSplit(s, u0, user + shape.sep + ip + " port " + port, shape.trail);
    LiteralSplit(s, u0, user + shape.sep + ip + " port ", port);
    LiteralSplit(s, u0, user + shape.sep + ip, " port ");
    LiteralSplit(s, u0, user + shape.sep, ip);
    LiteralSplit(s, u0, user, shape.sep);
  }

  /** The pieces of a line in the pattern's format, each where the format puts it. */
  predicate LineWritten(s: string, stamp: string, gap: string, pid: string, shape: Shape, k: nat, user: string, ip: string, port: string)
    requires k < |shape.leads|
  {
    && LiteralAt(s, 0, stamp) && LiteralAt(s, |stamp|, gap)
    && TailWritten(s, |stamp| + |gap|, pid, shape, k, user, ip, port)
  }

  /** Four parts written one after the other from the start of a line. */
  lemma LeadingParts(s: string, a: string, b: string, c: string, d: string)
    requires LiteralAt(s, 0, a + b + c + d)
    ensures LiteralAt(s, 0, a) && LiteralAt(s, |a|, b) && LiteralAt(s, |a| + |b|, c) && LiteralAt(s, |a| + |b| + |c|, d)
  {
    LiteralSplit(s, 0, a + b + c, d);
    LiteralSplit(s, 0, a + b, c);
    LiteralSplit(s, 0, a, b);
  }

  /** `SshdLine` writes the timestamp, the gap, the head and the fields one after the other. */
  lemma SshdLineParts(stamp: string, gap: string, pid: string, shape: Shape, k: nat, user: string, ip: string, port: string, rest: string)
    requires k < |shape.leads|
    ensures LeadingPartsWritten(SshdLine(stamp, gap, pid, shape, k, user, ip, port, rest), stamp, gap, pid, shape, k, user, ip, port)
  {
    var s := SshdLine(stamp, gap, pid, shape, k, user, ip, port, rest);
    var head := HeadText(pid, shape, k);
    var fields := FieldsText(shape, user, ip, port);
    assert LiteralAt(s, 0, s) by { assert s[0..|s|] == s; }
    LiteralSplit(s, 0, stamp + gap + head + fields, rest);
    LeadingParts(s, stamp, gap, head, fields);
  }

  /** The timestamp, the gap, the head text and the fields text, one after the other from the start of s. */
  predicate LeadingPartsWritten(s: string, stamp: string, gap: string, pid: string, shape: Shape, k: nat, user: string, ip: string, port: string)
    requires k < |shape.leads|
  {
    && LiteralAt(s, 0, stamp) && LiteralAt(s, |stamp|, gap)
    && LiteralAt(s, |stamp| + |gap|, HeadText(pid, shape, k))
    && LiteralAt(s, |stamp| + |gap| + |HeadText(pid, shape, k)|, FieldsText(shape, user, ip, port))
  }

  /** Head and fields text written in a line put each of their pieces where `LineWritten` expects them. */
  lemma PartsWritten(s: string, stamp: string, gap: string, pid: string, shape: Shape, k: nat, user: string, ip: string, port: string)
    requires k < |shape.leads| && LeadingPartsWritten(s, stamp, gap, pid, shape, k, user, ip, port)
    ensures LineWritten(s, stamp, gap, pid, shape, k, user, ip, port)
  {
    assert |HeadText(pid, shape, k)| == 5 + |pid| + 3 + |shape.leads[k]|;
    HeadTextWritten(s, |stamp| + |gap|, pid, shape, k);
    FieldsTextWritten(s, |stamp| + |gap| + 5 + |pid| + 3 + |shape.leads[k]|, shape, user, ip, port);
  }

  /** `SshdLine` writes the pieces where `LineWritten` expects them. */
  lemma SshdLineWritten(stamp: string, gap: string, pid: string, shape: Shape, k: nat, user: string, ip: string, port: string, rest: string)
    requires k < |shape.leads|
    ensures LineWritten(SshdLine(stamp, gap, pid, shape, k, user, ip, port, rest), stamp, gap, pid, shape, k, user, ip, port)
  {
    SshdLineParts(stamp, gap, pid, shape, k, user, ip, port, rest);
    PartsWritten(SshdLine(stamp, gap, pid, shape, k, user, ip, port, rest), stamp, gap, pid, shape, k, user, ip, port);
  }

  /** A timestamp written at the start of a line is where the timestamp group ends. */
  lemma StampWritten(s: string, stamp: string)
    requires IsStamp(stamp) && LiteralAt(s, 0, stamp)
    ensures StampAt(s, 0) == Some(|stamp|)
  {
    assert s == stamp + s[|stamp|..];
    StampAtAppend(stamp, s[|stamp|..]);
  }

  /** `.*` runs at least over text without a line feed. */
  lemma GapWritten(s: string, e: nat, gap: string)
    requires AllIn(gap, NotNewline) && LiteralAt(s, e, gap)
    ensures e + |gap| <= RunEnd(s, e, NotNewline)
  {
    forall k | e <= k < e + |gap| ensures InClass(s[k], NotNewline) {
      assert s[k] == s[e..e + |gap|][k - e];
    }
  }

  /** The tail of a pattern can only match where `sshd[` is written. */
  lemma NoTailWithoutSshd(s: string, j: nat, m: nat, shape: Shape)
    requires m <= |s|
    requires forall k :: j < k <= |s| ==> !LiteralAt(s, k, "sshd[")
    ensures forall k :: j < k <= m ==> TailAt(s, k, shape).None?
  {
    forall k | j < k <= m ensures TailAt(s, k, shape).None? {
      assert !LiteralAt(s, k, "sshd[");
    }
  }

  /**
   * Completeness for well-formed lines: the search finds a line in the
   * format the pattern describes, written with an alternative the engine
   * reaches, and reports its timestamp, user and address, provided no later
   * `sshd[` could draw the greedy `.*` further.
   */
  lemma CanonicalLineFound(s: string, stamp: string, gap: string, pid: string, shape: Shape, k: nat, user: string, ip: string, port: string)
    requires IsStamp(stamp) && AllIn(gap, NotNewline) && NonEmptyRun(pid, Digit) && LeadReached(shape, k)
    requires GroupsFit(shape, user, ip, port)
    requires LineWritten(s, stamp, gap, pid, shape, k, user, ip, port)
    requires forall m :: |stamp| + |gap| < m <= |s| ==> !LiteralAt(s, m, "sshd[")
    ensures Search(s, shape) == Some(Groups(stamp, user, ip))
  {
    TailWrittenFound(s, |stamp| + |gap|, pid, shape, k, user, ip, port);
    CanonicalLineMatch(s, stamp, gap, shape, user, ip);
    SearchFromPicks(s, 0, 0, shape);
  }

  /** A timestamp and a gap followed by the last matching tail are a match at the line's start. */
  lemma CanonicalLineMatch(s: string, stamp: string, gap: string, shape: Shape, user: string, ip: string)
    requires IsStamp(stamp) && AllIn(gap, NotNewline)
    requires LiteralAt(s, 0, stamp) && LiteralAt(s, |stamp|, gap)
    requires |stamp| + |gap| <= |s| && TailAt(s, |stamp| + |gap|, shape) == Some((user, ip))
    requires forall m :: |stamp| + |gap| < m <= |s| ==> !LiteralAt(s, m, "sshd[")
    ensures MatchAt(s, 0, shape) == Some(Groups(stamp, user, ip))
  {
    StampWritten(s, stamp);
    LastTailAfterGap(s, |stamp|, gap, shape, (user, ip));
    MatchAtOf(s, stamp, shape, user, ip);
  }

  /** After a gap free of line feeds, the greedy `.*` stops where the last tail begins. */
  lemma LastTailAfterGap(s: string, e: nat, gap: string, shape: Shape, tail: (string, string))
    requires AllIn(gap, NotNewline) && LiteralAt(s, e, gap)
    requires TailAt(s, e + |gap|, shape) == Some(tail)
    requires forall k :: e + |gap| < k <= |s| ==> !LiteralAt(s, k, "sshd[")
    ensures LastTail(s, e, RunEnd(s, e, NotNewline), shape) == Some(tail)
  {
    GapWritten(s, e, gap);
    LastTailFound(s, e, e + |gap|, RunEnd(s, e, NotNewline), shape);
  }

  lemma LastTailFound(s: string, e: nat, j: nat, m: nat, shape: Shape)
    requires e <= j <= m <= |s| && TailAt(s, j, shape).Some?
    requires forall k :: j < k <= |s| ==> !LiteralAt(s, k, "sshd[")
    ensures LastTail(s, e, m, shape) == TailAt(s, j, shape)
  {
    NoTailWithoutSshd(s, j, m, shape);
    LastTailPicks(s, e, j, m, shape);
  }

  lemma MatchAtOf(s: string, stamp: string, shape: Shape, user: string, ip: string)
    requires |stamp| <= |s| && StampAt(s, 0) == Some(|stamp|) && s[..|stamp|] == stamp
    requires LastTail(s, |stamp|, RunEnd(s, |stamp|, NotNewline), shape) == Some((user, ip))
    ensures MatchAt(s, 0, shape) == Some(Groups(stamp, user, ip))
  {
  }

  // ----- what a reported match says about the line -----

  /** From u0 the line holds `user`, the separator, `ip`, ` port `, a port of digits and the trail. */
  ghost predicate FieldsLaidOut(s: string, u0: nat, shape: Shape, user: string, ip: string) {
    exists port: string :: NonEmptyRun(port, Digit) && FieldsWritten(s, u0, shape, user, ip, port)
  }

  /**
   * At j the line holds the pattern's tail: `sshd[`, a pid of digits, `]: `
   * and one of the leads, then the fields with `user` and `ip`.
   */
  ghost predicate TailLaidOut(s: string, j: nat, shape: Shape, user: string, ip: string) {
    exists pid: string, k: nat ::
      && k < |shape.leads| && NonEmptyRun(pid, Digit) && HeadWritten(s, j, pid, shape.leads[k])
      && FieldsLaidOut(s, j + 5 + |pid| + 3 + |shape.leads[k]|, shape, user, ip)
  }

  /**
   * At p the line holds a whole timestamp `g.timestamp`, then, after text
   * without a line feed, the tail with user `g.user` and address `g.ip`.
   */
  ghost predicate LaidOut(s: string, p: nat, shape: Shape, g: Groups) {
    && IsStamp(g.timestamp) && LiteralAt(s, p, g.timestamp)
    && (exists j: nat :: p + |g.timestamp| <= j <= |s| && AllIn(s[p + |g.timestamp|..j], NotNewline)
         && TailLaidOut(s, j, shape, g.user, g.ip))
  }

  /** The address the address group reports is written at a0, followed by ` port `, a port and the trail. */
  lemma AddressAtSound(s: string, a0: nat, shape: Shape) returns (port: string)
    requires a0 <= |s| && AddressAt(s, a0, shape).Some?
    ensures NonEmptyRun(port, Digit) && AddressWritten(s, a0, shape, AddressAt(s, a0, shape).value, port)
  {
    var a1 := RunEnd(s, a0, DigitOrDot);
    var p1 := RunEnd(s, a1 + 6, Digit);
    RunEndText(s, a1 + 6, Digit);
    port := s[a1 + 6..p1];
  }

  /** Soundness of the fields: the user and address they report are laid out from u0. */
  lemma FieldsAtSound(s: string, u0: nat, shape: Shape)
    requires u0 <= |s| && FieldsAt(s, u0, shape).Some?
    ensures FieldsLaidOut(s, u0, shape, FieldsAt(s, u0, shape).value.0, FieldsAt(s, u0, shape).value.1)
  {
    var u1 := RunEnd(s, u0, Word);
    var port := AddressAtSound(s, u1 + |shape.sep|, shape);
  }

  /** The leads report what the first alternative m from k on that is followed by the fields reports. */
  lemma {:induction false} LeadsAtPicks(s: string, q: nat, shape: Shape, k: nat) returns (m: nat)
    requires q <= |s| && k <= |shape.leads| && LeadsAt(s, q, shape, k).Some?
    ensures k <= m < |shape.leads| && LeadsTakes(s, q, shape, m)
    ensures LeadsAt(s, q, shape, m) == LeadsAt(s, q, shape, k)
    decreases |shape.leads| - k
  {
    if LeadsTakes(s, q, shape, k) {
      m := k;
    } else {
      LeadsAtSkip(s, q, shape, k);
      m := LeadsAtPicks(s, q, shape, k + 1);
    }
  }

  /** The alternative k is written at q and the fields follow it. */
  predicate LeadsTakes(s: string, q: nat, shape: Shape, k: nat)
    requires q <= |s| && k < |shape.leads|
  {
    LiteralAt(s, q, shape.leads[k]) && FieldsAt(s, q + |shape.leads[k]|, shape).Some?
  }

  lemma LeadsAtHit(s: string, q: nat, shape: Shape, k: nat)
    requires q <= |s| && k < |shape.leads| && LeadsTakes(s, q, shape, k)
    ensures LeadsAt(s, q, shape, k) == FieldsAt(s, q + |shape.leads[k]|, shape)
  {
  }

  lemma LeadsAtSkip(s: string, q: nat, shape: Shape, k: nat)
    requires q <= |s| && k < |shape.leads| && !LeadsTakes(s, q, shape, k)
    ensures LeadsAt(s, q, shape, k) == LeadsAt(s, q, shape, k + 1)
  {
  }

  /** The tail reported at j starts with `sshd[`, a pid of digits and `]: `, and the leads follow. */
  lemma TailAtHead(s: string, j: nat, shape: Shape) returns (pid: string)
    requires j <= |s| && TailAt(s, j, shape).Some?
    ensures NonEmptyRun(pid, Digit) && LiteralAt(s, j, "sshd[") && LiteralAt(s, j + 5, pid)
    ensures LiteralAt(s, j + 5 + |pid|, "]: ") && LeadsAt(s, j + 5 + |pid| + 3, shape, 0) == TailAt(s, j, shape)
  {
    var p := RunEnd(s, j + 5, Digit);
    RunEndText(s, j + 5, Digit);
    pid := s[j + 5..p];
  }

  /** Soundness of the tail: what it reports at j is laid out there as the pattern describes. */
  lemma TailAtSound(s: string, j: nat, shape: Shape)
    requires j <= |s| && TailAt(s, j, shape).Some?
    ensures TailLaidOut(s, j, shape, TailAt(s, j, shape).value.0, TailAt(s, j, shape).value.1)
  {
    var pid := TailAtHead(s, j, shape);
    var q := j + 5 + |pid| + 3;
    var m := LeadsAtPicks(s, q, shape, 0);
    LeadsAtHit(s, q, shape, m);
    FieldsAtSound(s, q + |shape.leads[m]|, shape);
    TailLaidOutOf(s, j, shape, pid, m, TailAt(s, j, shape).value);
  }

  lemma TailLaidOutOf(s: string, j: nat, shape: Shape, pid: string, m: nat, fields: (string, string))
    requires m < |shape.leads| && NonEmptyRun(pid, Digit)
    requires LiteralAt(s, j, "sshd[") && LiteralAt(s, j + 5, pid) && LiteralAt(s, j + 5 + |pid|, "]: ")
    requires LiteralAt(s, j + 5 + |pid| + 3, shape.leads[m])
    requires FieldsLaidOut(s, j + 5 + |pid| + 3 + |shape.leads[m]|, shape, fields.0, fields.1)
    ensures TailLaidOut(s, j, shape, fields.0, fields.1)
  {
    assert HeadWritten(s, j, pid, shape.leads[m]);
  }

  /** The greedy `.*` reports the tail at a position k, with no tail after k. */
  lemma {:induction false} LastTailAt(s: string, e: nat, j: nat, shape: Shape) returns (k: nat)
    requires e <= j <= |s| && LastTail(s, e, j, shape).Some?
    ensures e <= k <= j && TailAt(s, k, shape) == LastTail(s, e, j, shape)
    ensures forall k' :: k < k' <= j ==> TailAt(s, k', shape).None?
    decreases j - e
  {
    if TailAt(s, j, shape).Some? {
      k := j;
    } else {
      k := LastTailAt(s, e, j - 1, shape);
    }
  }

  /** A run of characters that are not line feeds holds no line feed up to any point inside it. */
  lemma NoNewlineBefore(s: string, e: nat, k: nat)
    requires e <= |s| && e <= k <= RunEnd(s, e, NotNewline)
    ensures AllIn(s[e..k], NotNewline)
  {
    RunEndRun(s, e, NotNewline);
    forall m | 0 <= m < k - e ensures InClass(s[e..k][m], NotNewline) {
      assert s[e..k][m] == s[e + m];
    }
  }

  /** A match at p: a whole timestamp at p, and after text without a line feed the tail at k. */
  lemma MatchAtParts(s: string, p: nat, shape: Shape) returns (k: nat)
    requires p <= |s| && MatchAt(s, p, shape).Some?
    ensures var g := MatchAt(s, p, shape).value;
      && IsStamp(g.timestamp) && LiteralAt(s, p, g.timestamp)
      && p + |g.timestamp| <= k <= |s| && AllIn(s[p + |g.timestamp|..k], NotNewline)
      && TailAt(s, k, shape) == Some((g.user, g.ip))
  {
    var e := StampAt(s, p).value;
    k := LastTailAt(s, e, RunEnd(s, e, NotNewline), shape);
    NoNewlineBefore(s, e, k);
    StampAtSlice(s, p);
  }

  /** Soundness of a match at p: its groups are laid out in the line from p. */
  lemma MatchAtSound(s: string, p: nat, shape: Shape)
    requires p <= |s| && MatchAt(s, p, shape).Some?
    ensures LaidOut(s, p, shape, MatchAt(s, p, shape).value)
  {
    var k := MatchAtParts(s, p, shape);
    GroupsLaidOut(s, p, shape, MatchAt(s, p, shape).value, k);
  }

  /** A whole timestamp at p, text without a line feed, and a tail at j reporting the user and address: the groups are laid out from p. */
  lemma GroupsLaidOut(s: string, p: nat, shape: Shape, g: Groups, j: nat)
    requires IsStamp(g.timestamp) && LiteralAt(s, p, g.timestamp)
    requires p + |g.timestamp| <= j <= |s| && AllIn(s[p + |g.timestamp|..j], NotNewline)
    requires TailAt(s, j, shape) == Some((g.user, g.ip))
    ensures LaidOut(s, p, shape, g)
  {
    TailAtSound(s, j, shape);
  }

  /** What the search reports is the match at some position p from i on. */
  lemma {:induction false} SearchFromAt(s: string, i: nat, shape: Shape) returns (p: nat)
    requires i <= |s| && SearchFrom(s, i, shape).Some?
    ensures i <= p <= |s| && MatchAt(s, p, shape) == SearchFrom(s, i, shape)
    decreases |s| - i
  {
    if MatchAt(s, i, shape).Some? {
      p := i;
    } else {
      SearchFromSkip(s, i, shape);
      p := SearchFromAt(s, i + 1, shape);
    }
  }

  lemma SearchFromSkip(s: string, i: nat, shape: Shape)
    requires i <= |s| && MatchAt(s, i, shape).None? && SearchFrom(s, i, shape).Some?
    ensures i < |s| && SearchFrom(s, i, shape) == SearchFrom(s, i + 1, shape)
  {
  }

  /**
   * Soundness of `pattern.search(s)`: the timestamp, user and address it
   * reports are laid out in the line as the pattern describes.
   */
  lemma SearchSound(s: string, shape: Shape)
    requires Search(s, shape).Some?
    ensures exists p: nat :: p <= |s| && LaidOut(s, p, shape, Search(s, shape).value)
  {
    var p := SearchFromAt(s, 0, shape);
    MatchAtSound(s, p, shape);
  }

  // ----- lines the patterns do not match -----

  /** No `[` anywhere in s. */
  predicate BracketFree(s: string) {
    BracketFreeFrom(s, 0)
  }

  /** No `[` from position i on. */
  predicate BracketFreeFrom(s: string, i: nat) {
    forall t :: i <= t < |s| ==> s[t] != '['
  }

  lemma BracketFreeAppend(a: string, b: string, i: nat)
    requires i <= |a| && BracketFreeFrom(a, i) && BracketFree(b)
    ensures BracketFreeFrom(a + b, i)
  {
    forall t | i <= t < |a + b| ensures (a + b)[t] != '[' {
      if t >= |a| {
        assert (a + b)[t] == b[t - |a|];
      }
    }
  }

  /** Word characters and digits are never `[`. */
  lemma RunBracketFree(run: string, cls: CharClass)
    requires cls == Word || cls == Digit || cls == DigitOrDot
    requires AllIn(run, cls)
    ensures BracketFree(run)
  {
    forall t | 0 <= t < |run| ensures run[t] != '[' {
      assert InClass(run[t], cls);
    }
  }

  /** Without a `[` after position j + 4, no `sshd[` starts after position j. */
  lemma BracketFreeNoSshd(s: string, j: nat)
    requires BracketFreeFrom(s, j + 5)
    ensures forall k :: j < k <= |s| ==> !LiteralAt(s, k, "sshd[")
  {
    forall k | j < k <= |s| ensures !LiteralAt(s, k, "sshd[") {
      assert k + 5 <= |s| ==> s[k..k + 5][4] == s[k + 4];
    }
  }

  /** If the tail of the pattern matches nowhere in s, the `.*` before it finds nothing to reach. */
  lemma {:induction false} LastTailNone(s: string, e: nat, j: nat, shape: Shape)
    requires e <= j <= |s|
    requires forall k :: e <= k <= j ==> TailAt(s, k, shape).None?
    ensures LastTail(s, e, j, shape).None?
    decreases j - e
  {
    if j > e {
      LastTailNone(s, e, j - 1, shape);
    }
  }

  /** If no position from i on starts a match, the search from i reports none. */
  lemma {:induction false} SearchFromNone(s: string, i: nat, shape: Shape)
    requires i <= |s|
    requires forall p :: i <= p <= |s| ==> MatchAt(s, p, shape).None?
    ensures SearchFrom(s, i, shape).None?
    decreases |s| - i
  {
    if i < |s| {
      assert MatchAt(s, i, shape).None?;
      assert SearchFrom(s, i, shape) == SearchFrom(s, i + 1, shape);
      SearchFromNone(s, i + 1, shape);
    }
  }

  /** A pattern whose tail matches at no position of s does not match s at all. */
  lemma NoTailNoMatch(s: string, shape: Shape)
    requires forall k :: 0 <= k <= |s| ==> TailAt(s, k, shape).None?
    ensures Search(s, shape).None?
  {
    forall p | 0 <= p <= |s| ensures MatchAt(s, p, shape).None? {
      if StampAt(s, p).Some? {
        var e := StampAt(s, p).value;
        LastTailNone(s, e, RunEnd(s, e, NotNewline), shape);
      }
    }
    SearchFromNone(s, 0, shape);
  }

  /** A line without any `[` matches none of the patterns. */
  lemma BracketFreeNoMatch(s: string, shape: Shape)
    requires BracketFree(s)
    ensures Search(s, shape).None?
  {
    forall k | 0 <= k <= |s| ensures !LiteralAt(s, k, "sshd[") {
      assert k + 5 <= |s| ==> s[k..k + 5][4] == s[k + 4];
    }
    NoTailNoMatch(s, shape);
  }

  /** Text in front moves a bracket-free end along. */
  lemma BracketFreeShift(a: string, b: string, i: nat)
    requires BracketFreeFrom(b, i)
    ensures BracketFreeFrom(a + b, |a| + i)
  {
    forall t | |a| + i <= t < |a + b| ensures (a + b)[t] != '[' {
      assert (a + b)[t] == b[t - |a|];
    }
  }

  lemma HeadTextBracketFree(pid: string, shape: Shape, k: nat)
    requires k < |shape.leads| && BracketFree(pid) && BracketFree(shape.leads[k])
    ensures BracketFreeFrom(HeadText(pid, shape, k), 5)
  {
    BracketFreeAppend("sshd[", pid, 5);
    BracketFreeAppend("sshd[" + pid, "]: ", 5);
    BracketFreeAppend("sshd[" + pid + "]: ", shape.leads[k], 5);
  }

  lemma FieldsTextBracketFree(shape: Shape, user: string, ip: string, port: string)
    requires BracketFree(user) && BracketFree(ip) && BracketFree(port)
    requires BracketFree(shape.sep) && BracketFree(shape.trail)
    ensures BracketFree(FieldsText(shape, user, ip, port))
  {
    BracketFreeAppend(user, shape.sep, 0);
    BracketFreeAppend(user + shape.sep, ip, 0);
    BracketFreeAppend(user + shape.sep + ip, " port ", 0);
    BracketFreeAppend(user + shape.sep + ip + " port ", port, 0);
    BracketFreeAppend(user + shape.sep + ip + " port " + port, shape.trail, 0);
  }

  /** A line in the pattern's format built from bracket-free pieces has no `[` after its `sshd[`. */
  lemma SshdLineBracketFree(stamp: string, gap: string, pid: string, shape: Shape, k: nat, user: string, ip: string, port: string, rest: string)
    requires k < |shape.leads|
    requires BracketFree(pid) && BracketFree(user) && BracketFree(ip) && BracketFree(port)
    requires BracketFree(shape.leads[k]) && BracketFree(shape.sep) && BracketFree(shape.trail) && BracketFree(rest)
    ensures BracketFreeFrom(SshdLine(stamp, gap, pid, shape, k, user, ip, port, rest), |stamp| + |gap| + 5)
  {
    var i := |stamp| + |gap| + 5;
    var head := HeadText(pid, shape, k);
    var fields := FieldsText(shape, user, ip, port);
    HeadTextBracketFree(pid, shape, k);
    BracketFreeShift(stamp + gap, head, 5);
    FieldsTextBracketFree(shape, user, ip, port);
    BracketFreeAppend(stamp + gap + head, fields, i);
    BracketFreeAppend(stamp + gap + head + fields, rest, i);
  }

  /**
   * A line in the format a pattern describes, whose lead, separator, trail
   * and rest hold no `[`, is matched with its own timestamp, user and address.
   */
  lemma SshdLineFound(stamp: string, gap: string, pid: string, shape: Shape, k: nat, user: string, ip: string, port: string, rest: string)
    requires IsStamp(stamp) && AllIn(gap, NotNewline) && NonEmptyRun(pid, Digit) && LeadReached(shape, k)
    requires GroupsFit(shape, user, ip, port)
    requires BracketFree(shape.leads[k]) && BracketFree(shape.sep) && BracketFree(shape.trail) && BracketFree(rest)
    ensures Search(SshdLine(stamp, gap, pid, shape, k, user, ip, port, rest), shape) == Some(Groups(stamp, user, ip))
  {
    var s := SshdLine(stamp, gap, pid, shape, k, user, ip, port, rest);
    SshdLineWritten(stamp, gap, pid, shape, k, user, ip, port, rest);
    RunBracketFree(pid, Digit);
    RunBracketFree(user, Word);
    RunBracketFree(ip, DigitOrDot);
    RunBracketFree(port, Digit);
    SshdLineBracketFree(stamp, gap, pid, shape, k, user, ip, port, rest);
    BracketFreeNoSshd(s, |stamp| + |gap|);
    CanonicalLineFound(s, stamp, gap, pid, shape, k, user, ip, port);
  }

  /**
   * A line that starts with a bracket-free timestamp and gap followed by
   * `sshd[`, and has no `[` after that, has its only `sshd[` there.
   */
  lemma OnlySshdAt(s: string, stamp: string, gap: string)
    requires LiteralAt(s, 0, stamp) && LiteralAt(s, |stamp|, gap) && BracketFree(stamp) && BracketFree(gap)
    requires LiteralAt(s, |stamp| + |gap|, "sshd[") && BracketFreeFrom(s, |stamp| + |gap| + 5)
    ensures forall k :: 0 <= k <= |s| && k != |stamp| + |gap| ==> !LiteralAt(s, k, "sshd[")
  {
    var j := |stamp| + |gap|;
    BracketFreeNoSshd(s, j);
    forall k | 0 <= k < j ensures !LiteralAt(s, k, "sshd[") {
      assert s[k..k + 5][4] == s[k + 4];
      if k + 4 < |stamp| {
        assert s[k + 4] == s[0..|stamp|][k + 4];
      } else if k + 4 < j {
        assert s[k + 4] == s[|stamp|..j][k + 4 - |stamp|];
      } else {
        assert s[k + 4] == s[j..j + 5][k + 4 - j];
      }
    }
  }

  /** A literal that starts with another character than the text at q is not at q. */
  lemma LiteralMismatch(s: string, q: nat, written: string, lit: string)
    requires LiteralAt(s, q, written) && written != [] && lit != [] && written[0] != lit[0]
    ensures !LiteralAt(s, q, lit)
  {
    assert s[q..q + |written|][0] == s[q];
    assert q + |lit| <= |s| ==> s[q..q + |lit|][0] == s[q];
  }

  /**
   * Where the text at u0 is a run of word characters ended by a character
   * that begins neither a longer run nor the separator, the user group
   * cannot be followed by the separator, so the fields do not match.
   */
  lemma FieldsAtBrokenUser(s: string, u0: nat, shape: Shape, user: string, n: nat)
    requires u0 <= |s| && LiteralAt(s, u0, user) && n < |user|
    requires forall k :: 0 <= k < n ==> IsWord(user[k])
    requires !IsWord(user[n]) && shape.sep != [] && user[n] != shape.sep[0]
    ensures FieldsAt(s, u0, shape).None?
  {
    forall k | u0 <= k < u0 + n ensures InClass(s[k], Word) {
      assert s[k] == s[u0..u0 + |user|][k - u0];
    }
    assert s[u0 + n] == s[u0..u0 + |user|][n];
    RunEndUnique(s, u0, Word, u0 + n);
    LiteralMismatch(s, u0 + n, user[n..], shape.sep);
  }

  /** No alternative from the k-th on is followed by matching fields. */
  lemma {:induction false} LeadsNone(s: string, q: nat, shape: Shape, k: nat)
    requires q <= |s| && k <= |shape.leads|
    requires forall m :: k <= m < |shape.leads| ==>
      !LiteralAt(s, q, shape.leads[m]) || FieldsAt(s, q + |shape.leads[m]|, shape).None?
    ensures LeadsAt(s, q, shape, k).None?
    decreases |shape.leads| - k
  {
    if k < |shape.leads| {
      LeadsNone(s, q, shape, k + 1);
    }
  }

  /**
   * A line whose only `sshd[` is followed by a pid and `]: ` is matched only
   * if one of the pattern's alternatives, with its fields, follows them.
   */
  lemma SingleTailNoMatch(s: string, j: nat, pid: string, shape: Shape)
    requires forall k :: 0 <= k <= |s| && k != j ==> !LiteralAt(s, k, "sshd[")
    requires NonEmptyRun(pid, Digit)
    requires LiteralAt(s, j, "sshd[") && LiteralAt(s, j + 5, pid) && LiteralAt(s, j + 5 + |pid|, "]: ")
    requires LeadsAt(s, j + 5 + |pid| + 3, shape, 0).None?
    ensures Search(s, shape).None?
  {
    RunAt(s, j + 5, pid, Digit, "]: ");
    assert TailAt(s, j, shape).None?;
    NoTailNoMatch(s, shape);
  }

  /** A line in the format a pattern describes, with no `[` in its pieces, has its only `sshd[` after the gap. */
  lemma SshdLineOneSshd(stamp: string, gap: string, pid: string, shape: Shape, k: nat, user: string, ip: string, port: string, rest: string)
    requires k < |shape.leads|
    requires BracketFree(stamp) && BracketFree(gap)
    requires BracketFree(pid) && BracketFree(user) && BracketFree(ip) && BracketFree(port)
    requires BracketFree(shape.leads[k]) && BracketFree(shape.sep) && BracketFree(shape.trail) && BracketFree(rest)
    ensures var s := SshdLine(stamp, gap, pid, shape, k, user, ip, port, rest);
      forall k :: 0 <= k <= |s| && k != |stamp| + |gap| ==> !LiteralAt(s, k, "sshd[")
  {
    var s := SshdLine(stamp, gap, pid, shape, k, user, ip, port, rest);
    SshdLineWritten(stamp, gap, pid, shape, k, user, ip, port, rest);
    SshdLineBracketFree(stamp, gap, pid, shape, k, user, ip, port, rest);
    OnlySshdAt(s, stamp, gap);
  }
}
