/** String operations with JavaScript semantics. A string is a sequence of
    Unicode scalar values, while JavaScript counts UTF-16 code units: lengths
    and indices agree with JavaScript's for text within the Basic
    Multilingual Plane, where one character is one code unit. */
module Text {

  /** The characters matched by the regular-expression class `\s` and removed
      by `String.prototype.trim` (WhiteSpace and LineTerminator in ECMAScript). */
  predicate IsWhitespace(c: char) {
    var n := c as int;
    || n == 0x09 || n == 0x0A || n == 0x0B || n == 0x0C || n == 0x0D || n == 0x20
    || n == 0xA0 || n == 0x1680 || (0x2000 <= n <= 0x200A) || n == 0x2028 || n == 0x2029
    || n == 0x202F || n == 0x205F || n == 0x3000 || n == 0xFEFF
  }

  /** The characters a regular-expression `.` does not match. */
  predicate IsLineTerminator(c: char) {
    c == '\n' || c == '\r' || c as int == 0x2028 || c as int == 0x2029
  }

  /** The regular-expression class `\d`: an ASCII digit. */
  predicate IsDigit(c: char) {
    '0' <= c <= '9'
  }

  predicate StartsWith(s: string, prefix: string) {
    |prefix| <= |s| && s[..|prefix|] == prefix
  }

  /** `t` occurs in `s` starting at index `i`. */
  predicate OccursAt(s: string, t: string, i: nat) {
    i + |t| <= |s| && s[i..i + |t|] == t
  }

  /** `String.prototype.includes`. */
  predicate Contains(s: string, t: string) {
    exists i: nat | i <= |s| :: OccursAt(s, t, i)
  }

  /** `s.replace(/pat/g, rep)` for a pattern without special characters:
      replaces the leftmost non-overlapping occurrences of `pat`. */
  function ReplaceAll(s: string, pat: string, rep: string): string
    requires |pat| > 0
    decreases |s|
  {
    if |s| < |pat| then s
    else if s[..|pat|] == pat then rep + ReplaceAll(s[|pat|..], pat, rep)
    else [s[0]] + ReplaceAll(s[1..], pat, rep)
  }

  /** A replacement no longer than the pattern never lengthens the text. */
  lemma {:induction false} ReplaceAllNotLonger(s: string, pat: string, rep: string)
    requires |pat| > 0 && |rep| <= |pat|
    ensures |ReplaceAll(s, pat, rep)| <= |s|
    decreases |s|
  {
    if |s| >= |pat| {
      if s[..|pat|] == pat {
        ReplaceAllNotLonger(s[|pat|..], pat, rep);
      } else {
        ReplaceAllNotLonger(s[1..], pat, rep);
      }
    }
  }

  /** Text that does not contain the pattern's first character is left alone. */
  lemma {:induction false} ReplaceAllIdentity(s: string, pat: string, rep: string)
    requires |pat| > 0 && pat[0] !in s
    ensures ReplaceAll(s, pat, rep) == s
    decreases |s|
  {
    if |s| >= |pat| {
      assert s[..|pat|][0] == s[0] != pat[0];
      assert s[1..] == s[1..] && forall c | c in s[1..] :: c in s;
      ReplaceAllIdentity(s[1..], pat, rep);
      assert s == [s[0]] + s[1..];
    }
  }

  /** Length of the leading run of characters that are not whitespace. */
  function NonSpaceRun(s: string): (n: nat)
    ensures n <= |s|
    ensures forall i | 0 <= i < n :: !IsWhitespace(s[i])
    ensures n < |s| ==> IsWhitespace(s[n])
  {
    if |s| == 0 || IsWhitespace(s[0]) then 0
    else
      var k := NonSpaceRun(s[1..]);
      assert forall i | 1 <= i < |s| :: s[i] == s[1..][i - 1];
      1 + k
  }

  /** Length of the leading run of whitespace characters. */
  function SpaceRun(s: string): (n: nat)
    ensures n <= |s|
    ensures forall i | 0 <= i < n :: IsWhitespace(s[i])
    ensures n < |s| ==> !IsWhitespace(s[n])
  {
    if |s| == 0 || !IsWhitespace(s[0]) then 0
    else
      var k := SpaceRun(s[1..]);
      assert forall i | 1 <= i < |s| :: s[i] == s[1..][i - 1];
      1 + k
  }

  /** The leading word is determined by where the first whitespace sits. */
  lemma {:induction false} NonSpaceRunIs(s: string, k: nat)
    requires k <= |s|
    requires forall i | 0 <= i < k :: !IsWhitespace(s[i])
    requires k < |s| ==> IsWhitespace(s[k])
    ensures NonSpaceRun(s) == k
    decreases k
  {
    if k > 0 {
      assert forall i | 1 <= i < |s| :: s[i] == s[1..][i - 1];
      NonSpaceRunIs(s[1..], k - 1);
    }
  }

  /** The leading whitespace is determined by where the first other character sits. */
  lemma {:induction false} SpaceRunIs(s: string, k: nat)
    requires k <= |s|
    requires forall i | 0 <= i < k :: IsWhitespace(s[i])
    requires k < |s| ==> !IsWhitespace(s[k])
    ensures SpaceRun(s) == k
    decreases k
  {
    if k > 0 {
      assert forall i | 1 <= i < |s| :: s[i] == s[1..][i - 1];
      SpaceRunIs(s[1..], k - 1);
    }
  }

  /** `String.prototype.trim`: removes leading and trailing whitespace. */
  function Trim(s: string): (t: string)
    ensures |t| == 0 ==> forall i | 0 <= i < |s| :: IsWhitespace(s[i])
    ensures |t| > 0 ==> !IsWhitespace(t[0]) && !IsWhitespace(t[|t| - 1])
    ensures exists i: nat | i <= |s| :: OccursAt(s, t, i)
  {
    var lead := SpaceRun(s);
    var rest := s[lead..];
    var trail := TrailingSpace(rest);
    var t := rest[..|rest| - trail];
    assert OccursAt(s, t, lead);
    t
  }

  /** Length of the trailing run of whitespace characters. */
  function TrailingSpace(s: string): (n: nat)
    ensures n <= |s|
    ensures forall i | |s| - n <= i < |s| :: IsWhitespace(s[i])
    ensures n < |s| ==> !IsWhitespace(s[|s| - n - 1])
  {
    if |s| == 0 || !IsWhitespace(s[|s| - 1]) then 0
    else
      var k := TrailingSpace(s[..|s| - 1]);
      1 + k
  }

  /** `s.split(/\s+/)`: the pieces between maximal runs of whitespace,
      including an empty first (last) piece when `s` starts (ends) with whitespace. */
  function SplitOnWhitespace(s: string): (words: seq<string>)
    ensures |words| >= 1
    decreases |s|
  {
    var i := NonSpaceRun(s);
    if i == |s| then [s]
    else
      var j := i + SpaceRun(s[i..]);
      [s[..i]] + SplitOnWhitespace(s[j..])
  }

  /** `Array.prototype.join`: the elements separated by `sep`. */
  function Join(xs: seq<string>, sep: string): string {
    if |xs| == 0 then ""
    else if |xs| == 1 then xs[0]
    else xs[0] + sep + Join(xs[1..], sep)
  }

  /** Joining one more element appends the separator and that element. */
  lemma {:induction false} JoinAppend(xs: seq<string>, x: string, sep: string)
    requires |xs| > 0
    ensures Join(xs + [x], sep) == Join(xs, sep) + sep + x
  {
    if |xs| > 1 {
      assert (xs + [x])[1..] == xs[1..] + [x];
      JoinAppend(xs[1..], x, sep);
    }
  }

  /** A Latin-1 letter that `toUpperCase` maps to one other character:
      a to z, \u00B5, \u00E0 to \u00FE except \u00F7, and \u00FF. */
  predicate HasUpper(c: char) {
    || 'a' <= c <= 'z' || c == '\U{00B5}'
    || ('\U{00E0}' <= c <= '\U{00FE}' && c != '\U{00F7}') || c == '\U{00FF}'
  }

  /** `toUpperCase` on one character of Latin-1: the letters of the upper
      half move down by 32 like ASCII, \u00B5 becomes Greek capital mu and
      \u00FF becomes \u0178. Every other character is left alone. */
  function UpperChar(c: char): (u: char)
    ensures 'a' <= c <= 'z' ==> 'A' <= u <= 'Z' && u as int == c as int - 32
    ensures '\U{00E0}' <= c <= '\U{00FE}' && c != '\U{00F7}' ==> '\U{00C0}' <= u <= '\U{00DE}' && u as int == c as int - 32
    ensures HasUpper(c) <==> u != c
  {
    if 'a' <= c <= 'z' || ('\U{00E0}' <= c <= '\U{00FE}' && c != '\U{00F7}') then (c as int - 32) as char
    else if c == '\U{00B5}' then '\U{039C}'
    else if c == '\U{00FF}' then '\U{0178}'
    else c
  }

  function ToUpper(s: string): (u: string)
    ensures |u| == |s|
    ensures forall i | 0 <= i < |s| :: u[i] == UpperChar(s[i])
  {
    if |s| == 0 then "" else [UpperChar(s[0])] + ToUpper(s[1..])
  }

  function DigitChar(d: nat): char
    requires d < 10
  {
    ('0' as int + d) as char
  }

  /** The decimal rendering JavaScript gives a non-negative integer. */
  function NatToString(n: nat): (s: string)
    ensures |s| > 0
    ensures forall i | 0 <= i < |s| :: IsDigit(s[i])
  {
    if n < 10 then [DigitChar(n)] else NatToString(n / 10) + [DigitChar(n % 10)]
  }

  /** Reads a string of decimal digits back as a number. */
  function ParseNat(s: string): nat
    requires forall i | 0 <= i < |s| :: IsDigit(s[i])
  {
    if |s| == 0 then 0
    else
      assert IsDigit(s[|s| - 1]);
      10 * ParseNat(s[..|s| - 1]) + (s[|s| - 1] as int - '0' as int)
  }

  /** The decimal rendering loses nothing: reading it back gives the number. */
  lemma {:induction false} NatToStringRoundTrip(n: nat)
    ensures ParseNat(NatToString(n)) == n
  {
    if n >= 10 {
      NatToStringRoundTrip(n / 10);
      var s := NatToString(n);
      assert s[..|s| - 1] == NatToString(n / 10);
    }
  }
}
