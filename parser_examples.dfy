/**
 * The classifier on the log lines of the project's parser tests.
 */
module ParserExamples {
  import opened Wrappers
  import opened Text
  import opened Patterns
  import opened Parser

  /**
   * "Jul 02 10:20:01 sshd[1235]: Failed password for invalid user root from
   * 203.0.113.45 port 22 ssh2", written as the pieces of the pattern's format.
   */
  const FAILED_LOGIN_LINE: string := SshdLine("Jul 02 10:20:01", " ", "1235", FAILED_PASSWORD, 0, "root", "203.0.113.45", "22", "")

  /** "Jul 02 10:20:01" is a timestamp: `\w+`, `\s+`, `\d+`, `\s+`, a clock. */
  lemma StampLiteral()
    ensures IsStamp("Jul 02 10:20:01")
  {
    StampLiteralMonth();
    StampLiteralDay();
    StampAtOf("Jul 02 10:20:01", 3, 4, 6, 7);
  }

  lemma StampLiteralMonth()
    ensures RunStops("Jul 02 10:20:01", 0, Word, 3) && RunStops("Jul 02 10:20:01", 3, Space, 4)
  {
    RunEndUnique("Jul 02 10:20:01", 0, Word, 3);
    RunEndUnique("Jul 02 10:20:01", 3, Space, 4);
  }

  lemma StampLiteralDay()
    ensures RunStops("Jul 02 10:20:01", 4, Digit, 6) && RunStops("Jul 02 10:20:01", 6, Space, 7)
    ensures ClockAt("Jul 02 10:20:01", 7)
  {
    RunEndUnique("Jul 02 10:20:01", 4, Digit, 6);
    RunEndUnique("Jul 02 10:20:01", 6, Space, 7);
  }

  /** The failed-password line is a "Failed Login" of user root from 203.0.113.45. */
  lemma FailedLoginLineClassified()
    ensures ParseLogLine(FAILED_LOGIN_LINE).Some?
    ensures var r := ParseLogLine(FAILED_LOGIN_LINE).value;
      r.eventType == FailedLogin && EventName(r.eventType) == "Failed Login"
      && r.timestamp == "Jul 02 10:20:01" && r.user == "root" && r.ipAddress == "203.0.113.45"
  {
    FailedLoginLineFound();
    ParseLogLineFirst(FAILED_LOGIN_LINE);
  }

  /** The failed-password pattern finds the line's timestamp, user and address. */
  lemma FailedLoginLineFound()
    ensures Search(FAILED_LOGIN_LINE, FAILED_PASSWORD) == Some(Groups("Jul 02 10:20:01", "root", "203.0.113.45"))
  {
    FailedLoginPieces();
    SshdLineFound("Jul 02 10:20:01", " ", "1235", FAILED_PASSWORD, 0, "root", "203.0.113.45", "22", "");
  }

  /** The pieces of the failed-password line have the shapes the pattern's groups take. */
  lemma FailedLoginPieces()
    ensures IsStamp("Jul 02 10:20:01") && AllIn(" ", NotNewline) && NonEmptyRun("1235", Digit)
    ensures GroupsFit(FAILED_PASSWORD, "root", "203.0.113.45", "22")
    ensures BracketFree(FAILED_PASSWORD.leads[0]) && BracketFree(FAILED_PASSWORD.sep)
    ensures BracketFree(FAILED_PASSWORD.trail) && BracketFree("")
  {
    StampLiteral();
    FailedLoginGroupsFit();
    FailedPasswordBracketFree();
    ShortPieces();
  }

  lemma ShortPieces()
    ensures AllIn(" ", NotNewline) && NonEmptyRun("1235", Digit) && BracketFree("")
  {
  }

  lemma FailedLoginGroupsFit()
    ensures GroupsFit(FAILED_PASSWORD, "root", "203.0.113.45", "22")
  {
  }

  lemma FailedPasswordBracketFree()
    ensures BracketFree(FAILED_PASSWORD.leads[0]) && BracketFree(FAILED_PASSWORD.sep) && BracketFree(FAILED_PASSWORD.trail)
  {
  }

  /**
   * "Jul 02 10:20:01 sshd[1235]: Failed password for root from 203.0.113.45
   * port 22 ssh2": the same failure without `invalid user `, the pattern's
   * second alternative.
   */
  const PLAIN_FAILED_LOGIN_LINE: string := SshdLine("Jul 02 10:20:01", " ", "1235", FAILED_PASSWORD, 1, "root", "203.0.113.45", "22", "")

  /** Without `invalid user ` the line is still a "Failed Login" of user root from 203.0.113.45. */
  lemma PlainFailedLoginLineClassified()
    ensures ParseLogLine(PLAIN_FAILED_LOGIN_LINE).Some?
    ensures var r := ParseLogLine(PLAIN_FAILED_LOGIN_LINE).value;
      r.eventType == FailedLogin && r.timestamp == "Jul 02 10:20:01" && r.user == "root" && r.ipAddress == "203.0.113.45"
  {
    PlainFailedLoginLineFound();
    ParseLogLineFirst(PLAIN_FAILED_LOGIN_LINE);
  }

  /** The optional `invalid user ` is skipped and the groups are found after "Failed password for ". */
  lemma PlainFailedLoginLineFound()
    ensures Search(PLAIN_FAILED_LOGIN_LINE, FAILED_PASSWORD) == Some(Groups("Jul 02 10:20:01", "root", "203.0.113.45"))
  {
    FailedLoginPieces();
    FailedPasswordSkippable();
    SshdLineFound("Jul 02 10:20:01", " ", "1235", FAILED_PASSWORD, 1, "root", "203.0.113.45", "22", "");
  }

  lemma FailedPasswordSkippable()
    ensures InvalidUserOptional(FAILED_PASSWORD) && BracketFree(FAILED_PASSWORD.leads[1])
  {
  }

  /** "Jul 02 12:00:00 systemd: System shutdown initiated.", in two halves. */
  const SYSTEMD_LINE: string := "Jul 02 12:00:00 systemd: " + "System shutdown initiated."

  /** A line that no sshd pattern describes is not classified. */
  lemma SystemdLineIgnored()
    ensures ParseLogLine(SYSTEMD_LINE).None?
  {
    SystemdLineUnmatched();
    ParseLogLineNone(SYSTEMD_LINE);
  }

  lemma SystemdLineUnmatched()
    ensures Search(SYSTEMD_LINE, FAILED_PASSWORD).None? && Search(SYSTEMD_LINE, ACCEPTED_PASSWORD).None?
    ensures Search(SYSTEMD_LINE, CONNECTION_CLOSED).None?
  {
    assert BracketFreeFrom("Jul 02 12:00:00 systemd: ", 0);
    assert BracketFree("System shutdown initiated.");
    BracketFreeAppend("Jul 02 12:00:00 systemd: ", "System shutdown initiated.", 0);
    BracketFreeNoMatch(SYSTEMD_LINE, FAILED_PASSWORD);
    BracketFreeNoMatch(SYSTEMD_LINE, ACCEPTED_PASSWORD);
    BracketFreeNoMatch(SYSTEMD_LINE, CONNECTION_CLOSED);
  }

  /**
   * "Jul 02 10:15:01 sshd[1234]: Accepted password for jane.doe from
   * 198.51.100.10 port 22 ssh2", written as the pieces of the pattern's format.
   */
  const DOTTED_USER_LINE: string := SshdLine("Jul 02 10:15:01", " ", "1234", ACCEPTED_PASSWORD, 0, "jane.doe", "198.51.100.10", "22", "")

  /**
   * Where the pieces of that line sit: its only `sshd[` at 16, the pid at
   * 21, `]: ` at 25, the lead at 28 and the user name at 50.
   */
  predicate DottedUserLayout(s: string) {
    && (forall k :: 0 <= k <= |s| && k != 16 ==> !LiteralAt(s, k, "sshd["))
    && LiteralAt(s, 16, "sshd[") && LiteralAt(s, 21, "1234") && LiteralAt(s, 25, "]: ")
    && LiteralAt(s, 28, ACCEPTED_PASSWORD.leads[0]) && LiteralAt(s, 50, "jane.doe")
  }

  lemma DottedUserLineLayout()
    ensures DottedUserLayout(DOTTED_USER_LINE)
  {
    DottedUserLinePieces();
    DottedUserLineOneSshd();
  }

  lemma DottedUserLinePieces()
    ensures LiteralAt(DOTTED_USER_LINE, 16, "sshd[") && LiteralAt(DOTTED_USER_LINE, 21, "1234")
    ensures LiteralAt(DOTTED_USER_LINE, 25, "]: ") && LiteralAt(DOTTED_USER_LINE, 28, ACCEPTED_PASSWORD.leads[0])
    ensures LiteralAt(DOTTED_USER_LINE, 50, "jane.doe")
  {
    SshdLineWritten("Jul 02 10:15:01", " ", "1234", ACCEPTED_PASSWORD, 0, "jane.doe", "198.51.100.10", "22", "");
  }

  lemma DottedUserLineOneSshd()
    ensures forall k :: 0 <= k <= |DOTTED_USER_LINE| && k != 16 ==> !LiteralAt(DOTTED_USER_LINE, k, "sshd[")
  {
    DottedUserPiecesBracketFree();
    SshdLineOneSshd("Jul 02 10:15:01", " ", "1234", ACCEPTED_PASSWORD, 0, "jane.doe", "198.51.100.10", "22", "");
  }

  lemma DottedUserPiecesBracketFree()
    ensures BracketFree("1234") && BracketFree("jane.doe") && BracketFree("198.51.100.10") && BracketFree("22")
    ensures BracketFree(ACCEPTED_PASSWORD.leads[0]) && BracketFree(ACCEPTED_PASSWORD.sep) && BracketFree(ACCEPTED_PASSWORD.trail)
    ensures BracketFree("Jul 02 10:15:01") && BracketFree(" ") && BracketFree("")
  {
  }

  /**
   * Any line whose only `sshd[` is followed by a pid, `]: `, "Accepted
   * password for " and a user name with a dot after its first word
   * characters is not matched by the accepted-password pattern: `(\w+)`
   * stops at the dot, where ` from ` should follow.
   */
  lemma DottedAcceptedUnmatched(s: string, j: nat, pid: string, user: string, n: nat)
    requires forall k :: 0 <= k <= |s| && k != j ==> !LiteralAt(s, k, "sshd[")
    requires NonEmptyRun(pid, Digit)
    requires LiteralAt(s, j, "sshd[") && LiteralAt(s, j + 5, pid) && LiteralAt(s, j + 5 + |pid|, "]: ")
    requires LiteralAt(s, j + 5 + |pid| + 3, ACCEPTED_PASSWORD.leads[0])
    requires LiteralAt(s, j + 5 + |pid| + 3 + 22, user)
    requires n < |user| && (forall k :: 0 <= k < n ==> IsWord(user[k])) && user[n] == '.'
    ensures Search(s, ACCEPTED_PASSWORD).None?
  {
    var q := j + 5 + |pid| + 3;
    assert q + 22 <= |s| by {
      assert LiteralAt(s, q, ACCEPTED_PASSWORD.leads[0]);
    }
    DottedLeadsNone(s, q, user, n);
    SingleTailNoMatch(s, j, pid, ACCEPTED_PASSWORD);
  }

  /** After "Accepted password for ", a user name with a dot leaves the alternatives without a match. */
  lemma DottedLeadsNone(s: string, q: nat, user: string, n: nat)
    requires q <= |s| && LiteralAt(s, q + 22, user)
    requires n < |user| && (forall k :: 0 <= k < n ==> IsWord(user[k])) && user[n] == '.'
    ensures LeadsAt(s, q, ACCEPTED_PASSWORD, 0).None?
  {
    assert |ACCEPTED_PASSWORD.leads| == 1 && |ACCEPTED_PASSWORD.leads[0]| == 22;
    FieldsAtBrokenUser(s, q + 22, ACCEPTED_PASSWORD, user, n);
    LeadsNone(s, q, ACCEPTED_PASSWORD, 0);
  }

  /** In a line laid out so, the accepted-password pattern's user group stops at the dot. */
  lemma DottedUserNotAccepted(s: string)
    requires DottedUserLayout(s)
    ensures Search(s, ACCEPTED_PASSWORD).None?
  {
    assert NonEmptyRun("1234", Digit);
    DottedAcceptedUnmatched(s, 16, "1234", "jane.doe", 4);
  }

  /** In a line laid out so, the other two patterns' leads differ from the text after `]: `. */
  lemma DottedUserNotOther(s: string)
    requires DottedUserLayout(s)
    ensures Search(s, FAILED_PASSWORD).None? && Search(s, CONNECTION_CLOSED).None?
  {
    assert NonEmptyRun("1234", Digit);
    var lead := ACCEPTED_PASSWORD.leads[0];
    LiteralMismatch(s, 28, lead, FAILED_PASSWORD.leads[0]);
    LiteralMismatch(s, 28, lead, FAILED_PASSWORD.leads[1]);
    LeadsNone(s, 28, FAILED_PASSWORD, 0);
    SingleTailNoMatch(s, 16, "1234", FAILED_PASSWORD);
    LiteralMismatch(s, 28, lead, CONNECTION_CLOSED.leads[0]);
    LeadsNone(s, 28, CONNECTION_CLOSED, 0);
    SingleTailNoMatch(s, 16, "1234", CONNECTION_CLOSED);
  }

  /**
   * An accepted-password line whose user name holds a dot is not classified:
   * the user group `(\w+)` stops at the dot, where ` from ` should follow.
   */
  lemma DottedUserLineIgnored()
    ensures ParseLogLine(DOTTED_USER_LINE).None?
  {
    DottedUserLineUnmatched();
    ParseLogLineNone(DOTTED_USER_LINE);
  }

  lemma DottedUserLineUnmatched()
    ensures Search(DOTTED_USER_LINE, FAILED_PASSWORD).None? && Search(DOTTED_USER_LINE, ACCEPTED_PASSWORD).None?
    ensures Search(DOTTED_USER_LINE, CONNECTION_CLOSED).None?
  {
    DottedUserLineLayout();
    DottedUserNotAccepted(DOTTED_USER_LINE);
    DottedUserNotOther(DOTTED_USER_LINE);
  }
}
