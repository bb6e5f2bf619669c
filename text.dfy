/**
 * Character classes and string helpers with Python's meaning: `str.isspace`,
 * the regular-expression classes `\s`, `\w`, `\d`, `[\d\.]` and `.`, the
 * maximal run that a greedy `X+` consumes, and `str.strip()`.
 * Characters outside ASCII are never treated as spaces, word characters or
 * digits here.
 */
module Text {

  /** Python's `str.isspace()` (and regex `\s`) on ASCII: `\t \n \v \f \r`, the separators 0x1C-0x1F, and space. */
  predicate IsSpace(c: char) {
    '\t' <= c <= '\r' || '\U{1C}' <= c <= '\U{1F}' || c == ' '
  }

  /** Regex `\d` on ASCII. */
  predicate IsDigit(c: char) {
    '0' <= c <= '9'
  }

  /** Regex `\w` on ASCII: letters, digits and underscore. */
  predicate IsWord(c: char) {
    'a' <= c <= 'z' || 'A' <= c <= 'Z' || IsDigit(c) || c == '_'
  }

  datatype CharClass =
    | Word        // \w
    | Space       // \s
    | Digit       // \d
    | DigitOrDot  // [\d\.]
    | NotNewline  // .  (which does not match a line feed)

  predicate InClass(c: char, cls: CharClass) {
    match cls
    case Word => IsWord(c)
    case Space => IsSpace(c)
    case Digit => IsDigit(c)
    case DigitOrDot => IsDigit(c) || c == '.'
    case NotNewline => c != '\n'
  }

  predicate AllIn(s: string, cls: CharClass) {
    forall k :: 0 <= k < |s| ==> InClass(s[k], cls)
  }

  /** A non-empty run of one class: what a capture group `(X+)` can hold. */
  predicate NonEmptyRun(s: string, cls: CharClass) {
    |s| > 0 && AllIn(s, cls)
  }

  /**
   * Where the longest run of `cls` characters that starts at position `i`
   * ends: the stopping point of a greedy `X*` at `i`.
   */
  function RunEnd(s: string, i: nat, cls: CharClass): (e: nat)
    requires i <= |s|
    ensures i <= e <= |s|
    ensures e < |s| ==> !InClass(s[e], cls)
    decreases |s| - i
  {
    if i < |s| && InClass(s[i], cls) then RunEnd(s, i + 1, cls) else i
  }

  /** Every character the run covers is in the class. */
  lemma {:induction false} RunEndRun(s: string, i: nat, cls: CharClass)
    requires i <= |s|
    ensures forall k :: i <= k < RunEnd(s, i, cls) ==> InClass(s[k], cls)
    decreases |s| - i
  {
    if i < |s| && InClass(s[i], cls) {
      RunEndRun(s, i + 1, cls);
    }
  }

  /** The run's end is the only position with RunEnd's two properties. */
  lemma {:induction false} RunEndUnique(s: string, i: nat, cls: CharClass, e: nat)
    requires i <= e <= |s|
    requires forall k :: i <= k < e ==> InClass(s[k], cls)
    requires e < |s| ==> !InClass(s[e], cls)
    ensures RunEnd(s, i, cls) == e
    decreases e - i
  {
    if i < e {
      RunEndUnique(s, i + 1, cls, e);
    }
  }

  /** The text a run covers is made of characters of its class. */
  lemma RunEndText(s: string, i: nat, cls: CharClass)
    requires i <= |s|
    ensures AllIn(s[i..RunEnd(s, i, cls)], cls)
  {
    RunEndRun(s, i, cls);
    var e := RunEnd(s, i, cls);
    forall k | 0 <= k < e - i ensures InClass(s[i..e][k], cls) {
      assert s[i..e][k] == s[i + k];
    }
  }

  /** A run that stops inside `a` stops at the same place once text is appended to `a`. */
  lemma RunEndAppend(a: string, b: string, i: nat, cls: CharClass)
    requires i <= |a|
    requires RunEnd(a, i, cls) < |a|
    ensures RunEnd(a + b, i, cls) == RunEnd(a, i, cls)
  {
    var e := RunEnd(a, i, cls);
    var s := a + b;
    RunEndRun(a, i, cls);
    assert forall k :: i <= k <= e ==> s[k] == a[k];
    RunEndUnique(s, i, cls, e);
  }

  /** Whether the literal text `lit` occurs in `s` at position `i`. */
  predicate LiteralAt(s: string, i: nat, lit: string) {
    i + |lit| <= |s| && s[i..i + |lit|] == lit
  }

  // ----- str.strip() -----

  /** `s.lstrip()` */
  function StripLeading(s: string): (r: string)
    ensures |r| <= |s| && r == s[|s| - |r|..]
    ensures forall k :: 0 <= k < |s| - |r| ==> IsSpace(s[k])
    ensures r == [] || !IsSpace(r[0])
    decreases |s|
  {
    if s != [] && IsSpace(s[0]) then StripLeading(s[1..]) else s
  }

  /** `s.rstrip()` */
  function StripTrailing(s: string): (r: string)
    ensures |r| <= |s| && r == s[..|r|]
    ensures forall k :: |r| <= k < |s| ==> IsSpace(s[k])
    ensures r == [] || !IsSpace(r[|r| - 1])
    decreases |s|
  {
    if s != [] && IsSpace(s[|s| - 1]) then StripTrailing(s[..|s| - 1]) else s
  }

  /** Neither starts nor ends with whitespace. */
  predicate Unpadded(s: string) {
    s == [] || (!IsSpace(s[0]) && !IsSpace(s[|s| - 1]))
  }

  /** `s.strip()` */
  function Strip(s: string): (r: string)
    ensures Unpadded(r)
    ensures |r| <= |s|
  {
    StripTrailing(StripLeading(s))
  }

  /** `s` is the whitespace `a`, then `r`, then the whitespace `b`. */
  predicate Padded(s: string, a: string, r: string, b: string) {
    AllIn(a, Space) && AllIn(b, Space) && s == a + r + b
  }

  lemma SpacePrefix(s: string, n: nat)
    requires n <= |s| && forall k :: 0 <= k < n ==> IsSpace(s[k])
    ensures AllIn(s[..n], Space)
  {
    forall k | 0 <= k < n ensures InClass(s[..n][k], Space) {
      assert s[..n][k] == s[k];
    }
  }

  lemma SpaceSuffix(s: string, n: nat)
    requires n <= |s| && forall k :: n <= k < |s| ==> IsSpace(s[k])
    ensures AllIn(s[n..], Space)
  {
    forall k | 0 <= k < |s| - n ensures InClass(s[n..][k], Space) {
      assert s[n..][k] == s[n + k];
    }
  }

  /**
   * A suffix t of s after whitespace, and a prefix r of t before
   * whitespace: s is that whitespace, r, and the rest of t.
   */
  lemma PaddedPieces(s: string, t: string, r: string)
    requires |t| <= |s| && t == s[|s| - |t|..] && forall k :: 0 <= k < |s| - |t| ==> IsSpace(s[k])
    requires |r| <= |t| && r == t[..|r|] && forall k :: |r| <= k < |t| ==> IsSpace(t[k])
    ensures Padded(s, s[..|s| - |t|], r, t[|r|..])
  {
    SpacePrefix(s, |s| - |t|);
    SpaceSuffix(t, |r|);
    assert s == s[..|s| - |t|] + t;
    assert t == r + t[|r|..];
  }

  /** `s` is whitespace, then `s.strip()`, then whitespace. */
  lemma StripSplits(s: string)
    ensures exists a, b :: Padded(s, a, Strip(s), b)
  {
    StripPieces(s);
  }

  /** The whitespace strip() removes: the head lstrip() drops and the tail rstrip() drops. */
  lemma StripPieces(s: string)
    ensures Padded(s, s[..|s| - |StripLeading(s)|], Strip(s), StripLeading(s)[|Strip(s)|..])
  {
    PaddedPieces(s, StripLeading(s), StripTrailing(StripLeading(s)));
  }

  lemma {:induction false} StripLeadingOver(a: string, x: string)
    requires AllIn(a, Space)
    requires x == [] || !IsSpace(x[0])
    ensures StripLeading(a + x) == x
    decreases |a|
  {
    if a != [] {
      assert (a + x)[1..] == a[1..] + x;
      StripLeadingOver(a[1..], x);
    }
  }

  lemma {:induction false} StripTrailingOver(x: string, b: string)
    requires AllIn(b, Space)
    requires x == [] || !IsSpace(x[|x| - 1])
    ensures StripTrailing(x + b) == x
    decreases |b|
  {
    if b != [] {
      assert (x + b)[..|x + b| - 1] == x + b[..|b| - 1];
      StripTrailingOver(x, b[..|b| - 1]);
    }
  }

  /**
   * Strip is determined by its contract: whatever unpadded text sits between
   * two stretches of whitespace is what strip() returns.
   */
  lemma StripUnique(a: string, r: string, b: string)
    requires AllIn(a, Space) && AllIn(b, Space)
    requires Unpadded(r)
    ensures Strip(a + r + b) == r
  {
    if r == [] {
      assert a + r + b == (a + b) + [];
      assert AllIn(a + b, Space);
      StripLeadingOver(a + b, []);
    } else {
      assert a + r + b == a + (r + b);
      StripLeadingOver(a, r + b);
      StripTrailingOver(r, b);
    }
  }

  /** Stripping twice changes nothing more than stripping once. */
  lemma StripIdempotent(s: string)
    ensures Strip(Strip(s)) == Strip(s)
  {
    var r := Strip(s);
    assert [] + r + [] == r;
    StripUnique([], r, []);
  }
}
