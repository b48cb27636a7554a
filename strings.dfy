/**
 * The few JavaScript string operations the application relies on, over
 * `string` (a sequence of Unicode scalar values).
 */
module Strings {
  import opened Wrappers

  /**
   * The characters `String.prototype.trim` removes: the WhiteSpace and
   * LineTerminator code points of ECMAScript (section 12.2 and 12.3 of ECMA-262).
   */
  predicate IsWhitespace(c: char) {
    || c == '\t' || c == '\n' || c == '\U{000B}' || c == '\U{000C}' || c == '\r' || c == ' '
    || c == '\U{00A0}' || c == '\U{1680}' || ('\U{2000}' <= c <= '\U{200A}')
    || c == '\U{2028}' || c == '\U{2029}' || c == '\U{202F}' || c == '\U{205F}'
    || c == '\U{3000}' || c == '\U{FEFF}'
  }

  /** Every character of `s` is whitespace (the empty string included). */
  predicate IsBlank(s: string) {
    forall i | 0 <= i < |s| :: IsWhitespace(s[i])
  }

  /** Drops the leading whitespace of `s`. */
  function TrimStart(s: string): (r: string)
    ensures |r| <= |s|
  {
    if s != [] && IsWhitespace(s[0]) then TrimStart(s[1..]) else s
  }

  /** `TrimStart` cuts a blank prefix and stops at the first other character. */
  lemma {:induction false} TrimStartShape(s: string)
    ensures var r := TrimStart(s);
      && r == s[|s| - |r|..]
      && IsBlank(s[..|s| - |r|])
      && (r != [] ==> !IsWhitespace(r[0]))
  {
    if s != [] && IsWhitespace(s[0]) {
      TrimStartShape(s[1..]);
      var r := TrimStart(s);
      assert s[..|s| - |r|] == [s[0]] + s[1..][..|s| - 1 - |r|];
    }
  }

  /** Drops the trailing whitespace of `s`. */
  function TrimEnd(s: string): (r: string)
    ensures |r| <= |s|
  {
    if s != [] && IsWhitespace(s[|s| - 1]) then TrimEnd(s[..|s| - 1]) else s
  }

  /** `TrimEnd` cuts a blank suffix and stops at the last other character. */
  lemma {:induction false} TrimEndShape(s: string)
    ensures var r := TrimEnd(s);
      && r == s[..|r|]
      && IsBlank(s[|r|..])
      && (r != [] ==> !IsWhitespace(r[|r| - 1]))
  {
    if s != [] && IsWhitespace(s[|s| - 1]) {
      var front := s[..|s| - 1];
      TrimEndShape(front);
      var r := TrimEnd(s);
      assert r == front[..|r|];
      assert s[|r|..] == front[|r|..] + [s[|s| - 1]];
    }
  }

  /** `s.trim()`. */
  function Trim(s: string): string {
    TrimEnd(TrimStart(s))
  }

  /** Text without whitespace at either end, and not empty. */
  predicate Trimmed(s: string) {
    s != [] && !IsWhitespace(s[0]) && !IsWhitespace(s[|s| - 1])
  }

  /**
   * What `trim` keeps: a contiguous piece of `s` with only whitespace cut
   * off on either side.
   */
  lemma TrimShape(s: string)
    ensures exists i, j ::
      && 0 <= i <= j <= |s| && Trim(s) == s[i..j]
      && IsBlank(s[..i]) && IsBlank(s[j..])
  {
    var t := TrimStart(s);
    TrimStartShape(s);
    TrimEndShape(t);
    var i := |s| - |t|;
    var j := i + |TrimEnd(t)|;
    assert t == s[i..];
    assert TrimEnd(t) == t[..j - i];
    assert s[i..][..j - i] == s[i..j];
    assert Trim(s) == s[i..j];
    assert IsBlank(s[..i]);
    assert s[j..] == t[|TrimEnd(t)|..];
    assert IsBlank(s[j..]);
  }

  /** What `trim` returns has no whitespace left at either end. */
  lemma TrimEnds(s: string)
    ensures Trim(s) != [] ==> Trimmed(Trim(s))
  {
    var t := TrimStart(s);
    var r := TrimEnd(t);
    TrimStartShape(s);
    TrimEndShape(t);
    if r != [] {
      assert r[0] == t[0];
    }
  }

  /** `!s.trim()` holds exactly for the strings made of whitespace only. */
  lemma TrimEmptyIffBlank(s: string)
    ensures Trim(s) == [] <==> IsBlank(s)
  {
    var t := TrimStart(s);
    TrimStartShape(s);
    TrimEndShape(t);
    var i := |s| - |t|;
    assert s == s[..i] + t;
    if Trim(s) != [] {
      var r := Trim(s);
      assert r[0] == t[0];
      assert t[0] == s[i];
      assert !IsWhitespace(s[i]);
    }
  }

  /** `!s.trim()`: the string is empty once trimmed, which happens exactly when it is blank. */
  function TrimsToEmpty(s: string): (b: bool)
    ensures b <==> IsBlank(s)
  {
    TrimEmptyIffBlank(s);
    Trim(s) == ""
  }

  /** `s.startsWith(prefix)`. */
  predicate StartsWith(s: string, prefix: string) {
    |prefix| <= |s| && s[..|prefix|] == prefix
  }

  /** `s.endsWith(suffix)`. */
  predicate EndsWith(s: string, suffix: string) {
    |suffix| <= |s| && s[|s| - |suffix|..] == suffix
  }

  /** `term` occurs somewhere in `s` as a contiguous piece. */
  predicate Contains(s: string, term: string) {
    exists k | 0 <= k <= |s| - |term| :: OccursAt(s, term, k)
  }

  /** `term` occurs in `s` starting at index `k`. */
  predicate OccursAt(s: string, term: string, k: nat) {
    k + |term| <= |s| && s[k..k + |term|] == term
  }

  /**
   * `s.split(sep)` for a one-character separator: the pieces between the
   * separators, always at least one.
   */
  function Split(s: string, sep: char): (parts: seq<string>)
    ensures |parts| >= 1
    ensures forall i | 0 <= i < |parts| :: sep !in parts[i]
    ensures Join(parts, sep) == s
  {
    if s == [] then [[]]
    else
      var rest := Split(s[1..], sep);
      if s[0] == sep then [[]] + rest
      else [[s[0]] + rest[0]] + rest[1..]
  }

  /** `parts.join(sep)`: the inverse of `Split`. */
  function Join(parts: seq<string>, sep: char): string
    requires |parts| >= 1
  {
    if |parts| == 1 then parts[0] else parts[0] + [sep] + Join(parts[1..], sep)
  }

  /** A string without the separator is one piece. */
  lemma {:induction false} SplitWithoutSeparator(s: string, sep: char)
    requires sep !in s
    ensures Split(s, sep) == [s]
  {
    if s != [] {
      SplitWithoutSeparator(s[1..], sep);
      assert s == [s[0]] + s[1..];
    }
  }

  /** Joining splits off at the last separator as well as at the first. */
  lemma {:induction false} JoinLast(parts: seq<string>, sep: char)
    requires |parts| >= 2
    ensures Join(parts, sep) == Join(parts[..|parts| - 1], sep) + [sep] + parts[|parts| - 1]
  {
    if |parts| > 2 {
      JoinLast(parts[1..], sep);
      assert parts[1..][..|parts| - 2] == parts[..|parts| - 1][1..];
    }
  }

  /**
   * `parseInt(x) || 0`: the integer `parseInt` read, unless it read nothing
   * (`NaN`, here `None`) or zero, both of which are falsy and give 0.
   */
  function ParsedOrZero(parsed: Option<int>): (n: int)
    ensures n == 0 <==> parsed == None || parsed == Some(0)
    ensures n != 0 ==> parsed == Some(n)
  {
    match parsed
    case Some(v) => v
    case None => 0
  }

  /** The decimal digit for `d`. */
  function Digit(d: nat): char
    requires d < 10
  {
    "0123456789"[d]
  }

  /** A natural number in decimal, as a template literal `${n}` writes it. */
  function Decimal(n: nat): (s: string)
    ensures |s| >= 1
    ensures forall i | 0 <= i < |s| :: '0' <= s[i] <= '9'
  {
    if n < 10 then [Digit(n)] else Decimal(n / 10) + [Digit(n % 10)]
  }
}
