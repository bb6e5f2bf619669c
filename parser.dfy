/**
 * The log line classifier: an ordered registry of (event type, pattern)
 * entries, and `parse_log_line`, which reports the record built from the
 * first entry whose pattern finds a match in the line, or nothing.
 * Parsing is a function: it reads the registry and the line and changes
 * nothing.
 */
module Parser {
  import opened Wrappers
  import opened Text
  import opened Patterns

  /** The event types the registry can report. */
  datatype EventType = FailedLogin | SuccessfulLogin | ConnectionClosed

  /** The `event_type` string of the record. */
  function EventName(t: EventType): string {
    match t
    case FailedLogin => "Failed Login"
    case SuccessfulLogin => "Successful Login"
    case ConnectionClosed => "Connection Closed"
  }

  /**
   * The record `parse_log_line` returns; every event type yields the same
   * five keys: `timestamp`, `event_type`, `user`, `ip_address`, `raw_log`.
   */
  datatype ParsedLog = ParsedLog(timestamp: string, eventType: EventType, user: string, ipAddress: string, rawLog: string)

  /** One `(event_type, pattern)` entry of the registry. */
  datatype Entry = Entry(eventType: EventType, pattern: Shape)

  /** `LOG_PATTERNS`, in the order the classifier tries them. */
  const LOG_PATTERNS: seq<Entry> := [
    Entry(FailedLogin, FAILED_PASSWORD),
    Entry(SuccessfulLogin, ACCEPTED_PASSWORD),
    Entry(ConnectionClosed, CONNECTION_CLOSED)
  ]

  /**
   * `pattern.search(line)`: what a compiled pattern reports on a line. The
   * registry walk below holds for any such search; `ParseLogLine` runs it
   * with the search of the sshd patterns, `Patterns.Search`.
   */
  type Searcher = (string, Shape) -> Option<Groups>

  /** The pattern of entry k finds a match in the line. */
  predicate Matches(reg: seq<Entry>, k: nat, line: string, search: Searcher)
    requires k < |reg|
  {
    search(line, reg[k].pattern).Some?
  }

  /** The record built from a match: groups 1, 2 and 3, and the stripped line `rawLog`. */
  function Record(t: EventType, g: Groups, rawLog: string): ParsedLog {
    ParsedLog(g.timestamp, t, g.user, g.ip, rawLog)
  }

  /**
   * The result of trying the entries of `reg` from the k-th on, in order,
   * on `line`; a record carries `rawLog`, the line stripped of surrounding
   * whitespace.
   */
  function ParseFrom(reg: seq<Entry>, line: string, rawLog: string, k: nat, search: Searcher): (r: Option<ParsedLog>)
    requires k <= |reg|
    ensures r.Some? ==> r.value.rawLog == rawLog
    decreases |reg| - k
  {
    if k == |reg| then None
    else
      var g := search(line, reg[k].pattern);
      if g.Some? then Some(Record(reg[k].eventType, g.value, rawLog))
      else ParseFrom(reg, line, rawLog, k + 1, search)
  }

  /** An entry whose pattern matches decides the result. */
  lemma ParseFromHit(reg: seq<Entry>, line: string, rawLog: string, k: nat, search: Searcher)
    requires k < |reg| && Matches(reg, k, line, search)
    ensures ParseFrom(reg, line, rawLog, k, search) == Some(Record(reg[k].eventType, search(line, reg[k].pattern).value, rawLog))
  {
  }

  /** An entry whose pattern does not match passes the line on to the later entries. */
  lemma ParseFromSkip(reg: seq<Entry>, line: string, rawLog: string, k: nat, search: Searcher)
    requires k < |reg| && !Matches(reg, k, line, search)
    ensures ParseFrom(reg, line, rawLog, k, search) == ParseFrom(reg, line, rawLog, k + 1, search)
  {
  }

  /** Entries whose patterns do not match are passed over. */
  lemma {:induction false} ParseFromSkipAll(reg: seq<Entry>, line: string, rawLog: string, k: nat, m: nat, search: Searcher)
    requires k <= m <= |reg|
    requires forall m' :: k <= m' < m ==> !Matches(reg, m', line, search)
    ensures ParseFrom(reg, line, rawLog, k, search) == ParseFrom(reg, line, rawLog, m, search)
    decreases m - k
  {
    if k < m {
      ParseFromSkip(reg, line, rawLog, k, search);
      ParseFromSkipAll(reg, line, rawLog, k + 1, m, search);
    }
  }

  /** Nothing is reported exactly when no entry from the k-th on matches. */
  lemma {:induction false} ParseFromNone(reg: seq<Entry>, line: string, rawLog: string, k: nat, search: Searcher)
    requires k <= |reg|
    ensures ParseFrom(reg, line, rawLog, k, search).None? <==> forall m :: k <= m < |reg| ==> !Matches(reg, m, line, search)
    decreases |reg| - k
  {
    if k < |reg| {
      if Matches(reg, k, line, search) {
        ParseFromHit(reg, line, rawLog, k, search);
      } else {
        ParseFromSkip(reg, line, rawLog, k, search);
        ParseFromNone(reg, line, rawLog, k + 1, search);
      }
    }
  }

  /** The result is the record of the first entry whose pattern matches: earlier entries win. */
  lemma ParseFromFirst(reg: seq<Entry>, line: string, rawLog: string, k: nat, m: nat, search: Searcher)
    requires k <= m < |reg| && Matches(reg, m, line, search)
    requires forall m' :: k <= m' < m ==> !Matches(reg, m', line, search)
    ensures ParseFrom(reg, line, rawLog, k, search) == Some(Record(reg[m].eventType, search(line, reg[m].pattern).value, rawLog))
  {
    ParseFromSkipAll(reg, line, rawLog, k, m, search);
    ParseFromHit(reg, line, rawLog, m, search);
  }

  /** The three entries of `LOG_PATTERNS`, tried in order. */
  lemma RegistryOrder(line: string, rawLog: string, search: Searcher)
    ensures Matches(LOG_PATTERNS, 0, line, search) ==>
      ParseFrom(LOG_PATTERNS, line, rawLog, 0, search) == Some(Record(FailedLogin, search(line, FAILED_PASSWORD).value, rawLog))
    ensures !Matches(LOG_PATTERNS, 0, line, search) && Matches(LOG_PATTERNS, 1, line, search) ==>
      ParseFrom(LOG_PATTERNS, line, rawLog, 0, search) == Some(Record(SuccessfulLogin, search(line, ACCEPTED_PASSWORD).value, rawLog))
    ensures !Matches(LOG_PATTERNS, 0, line, search) && !Matches(LOG_PATTERNS, 1, line, search) && Matches(LOG_PATTERNS, 2, line, search) ==>
      ParseFrom(LOG_PATTERNS, line, rawLog, 0, search) == Some(Record(ConnectionClosed, search(line, CONNECTION_CLOSED).value, rawLog))
    ensures !Matches(LOG_PATTERNS, 0, line, search) && !Matches(LOG_PATTERNS, 1, line, search) && !Matches(LOG_PATTERNS, 2, line, search) ==>
      ParseFrom(LOG_PATTERNS, line, rawLog, 0, search).None?
  {
    if Matches(LOG_PATTERNS, 0, line, search) {
      ParseFromHit(LOG_PATTERNS, line, rawLog, 0, search);
    } else {
      ParseFromSkip(LOG_PATTERNS, line, rawLog, 0, search);
      RegistryTail(line, rawLog, search);
    }
  }

  lemma RegistryTail(line: string, rawLog: string, search: Searcher)
    ensures Matches(LOG_PATTERNS, 1, line, search) ==>
      ParseFrom(LOG_PATTERNS, line, rawLog, 1, search) == Some(Record(SuccessfulLogin, search(line, ACCEPTED_PASSWORD).value, rawLog))
    ensures !Matches(LOG_PATTERNS, 1, line, search) && Matches(LOG_PATTERNS, 2, line, search) ==>
      ParseFrom(LOG_PATTERNS, line, rawLog, 1, search) == Some(Record(ConnectionClosed, search(line, CONNECTION_CLOSED).value, rawLog))
    ensures !Matches(LOG_PATTERNS, 1, line, search) && !Matches(LOG_PATTERNS, 2, line, search) ==>
      ParseFrom(LOG_PATTERNS, line, rawLog, 1, search).None?
  {
    if Matches(LOG_PATTERNS, 1, line, search) {
      ParseFromHit(LOG_PATTERNS, line, rawLog, 1, search);
    } else if Matches(LOG_PATTERNS, 2, line, search) {
      ParseFromSkip(LOG_PATTERNS, line, rawLog, 1, search);
      ParseFromHit(LOG_PATTERNS, line, rawLog, 2, search);
    } else {
      ParseFromSkip(LOG_PATTERNS, line, rawLog, 1, search);
      ParseFromSkip(LOG_PATTERNS, line, rawLog, 2, search);
    }
  }

  /** `parse_log_line(line)` */
  function ParseLogLine(line: string): (r: Option<ParsedLog>)
    ensures r.Some? ==> r.value.rawLog == Strip(line) && Unpadded(r.value.rawLog)
  {
    ParseFrom(LOG_PATTERNS, line, Strip(line), 0, Search)
  }

  /** A line is classified exactly when one of the three patterns finds a match in it. */
  lemma ParseLogLineNone(line: string)
    ensures ParseLogLine(line).None? <==>
      Search(line, FAILED_PASSWORD).None? && Search(line, ACCEPTED_PASSWORD).None? && Search(line, CONNECTION_CLOSED).None?
  {
    RegistryOrder(line, Strip(line), Search);
  }

  /**
   * The record comes from the first pattern, in registry order, that finds a
   * match: "Failed Login" before "Successful Login" before "Connection Closed".
   */
  lemma ParseLogLineFirst(line: string)
    ensures Search(line, FAILED_PASSWORD).Some? ==>
      ParseLogLine(line) == Some(Record(FailedLogin, Search(line, FAILED_PASSWORD).value, Strip(line)))
    ensures Search(line, FAILED_PASSWORD).None? && Search(line, ACCEPTED_PASSWORD).Some? ==>
      ParseLogLine(line) == Some(Record(SuccessfulLogin, Search(line, ACCEPTED_PASSWORD).value, Strip(line)))
    ensures Search(line, FAILED_PASSWORD).None? && Search(line, ACCEPTED_PASSWORD).None? && Search(line, CONNECTION_CLOSED).Some? ==>
      ParseLogLine(line) == Some(Record(ConnectionClosed, Search(line, CONNECTION_CLOSED).value, Strip(line)))
  {
    RegistryOrder(line, Strip(line), Search);
  }

  /** A record's timestamp, user and address have the shapes of the patterns' groups. */
  lemma ParseLogLineGroups(line: string)
    ensures ParseLogLine(line).Some? ==>
      var r := ParseLogLine(line).value;
      IsStamp(r.timestamp) && NonEmptyRun(r.user, Word) && NonEmptyRun(r.ipAddress, DigitOrDot)
  {
    ParseLogLineNone(line);
    ParseLogLineFirst(line);
  }

  /**
   * The record's event type is that of an entry whose pattern lays out the
   * record's timestamp, user and address in the line.
   */
  ghost predicate RecordLaidOut(line: string, r: ParsedLog) {
    exists k: nat, p: nat ::
      && k < |LOG_PATTERNS| && p <= |line| && LOG_PATTERNS[k].eventType == r.eventType
      && LaidOut(line, p, LOG_PATTERNS[k].pattern, Groups(r.timestamp, r.user, r.ipAddress))
  }

  /** A record built from a match of entry k is laid out in the line. */
  lemma EntryLaidOut(line: string, k: nat, r: ParsedLog)
    requires k < |LOG_PATTERNS| && Search(line, LOG_PATTERNS[k].pattern).Some?
    requires r.eventType == LOG_PATTERNS[k].eventType
    requires Groups(r.timestamp, r.user, r.ipAddress) == Search(line, LOG_PATTERNS[k].pattern).value
    ensures RecordLaidOut(line, r)
  {
    SearchSound(line, LOG_PATTERNS[k].pattern);
  }

  /**
   * Soundness of the classifier: the timestamp, user and address of a record
   * sit in the line as the pattern of its event type describes.
   */
  lemma ParseLogLineSound(line: string)
    ensures ParseLogLine(line).Some? ==> RecordLaidOut(line, ParseLogLine(line).value)
  {
    if ParseLogLine(line).Some? {
      var k := ParsedEntry(line);
      EntryLaidOut(line, k, ParseLogLine(line).value);
    }
  }

  /** A record comes from the match of one entry's pattern. */
  lemma ParsedEntry(line: string) returns (k: nat)
    requires ParseLogLine(line).Some?
    ensures k < |LOG_PATTERNS| && Search(line, LOG_PATTERNS[k].pattern).Some?
    ensures ParseLogLine(line) == Some(Record(LOG_PATTERNS[k].eventType, Search(line, LOG_PATTERNS[k].pattern).value, Strip(line)))
  {
    ParseLogLineNone(line);
    ParseLogLineFirst(line);
    if Search(line, FAILED_PASSWORD).Some? {
      k := 0;
    } else if Search(line, ACCEPTED_PASSWORD).Some? {
      k := 1;
    } else {
      k := 2;
    }
  }
}
