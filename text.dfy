/**
 * The string primitives of JavaScript that the transcript compiler relies
 * on, on `seq<char>`: the whitespace class shared by the regular-expression
 * escape `\s` and `String.prototype.trim`, `trim`, `split` on one character,
 * the ASCII digit class `\d`, `parseInt` of a digit string, the decimal
 * rendering of a number in a template literal, and `toLowerCase`.
 */
module Text {

  /**
   * ECMAScript WhiteSpace and LineTerminator code points. `\s` in a regular
   * expression and `String.prototype.trim` both use exactly this set.
   */
  predicate IsSpace(c: char)
  {
    || c == '\t' || c == '\n' || c == '\U{000B}' || c == '\U{000C}' || c == '\r' || c == ' '
    || c == '\U{00A0}' || c == '\U{1680}' || ('\U{2000}' <= c <= '\U{200A}')
    || c == '\U{2028}' || c == '\U{2029}' || c == '\U{202F}' || c == '\U{205F}'
    || c == '\U{3000}' || c == '\U{FEFF}'
  }

  predicate AllSpace(s: string)
  {
    forall i | 0 <= i < |s| :: IsSpace(s[i])
  }

  predicate NoSpace(s: string)
  {
    forall i | 0 <= i < |s| :: !IsSpace(s[i])
  }

  lemma SliceOfSlice<T>(s: seq<T>, a: nat, c: nat, j: nat, k: nat)
    requires a <= c <= |s| && j <= k <= c - a
    ensures s[a..c][j..k] == s[a + j..a + k]
  {
    var x, y := s[a..c][j..k], s[a + j..a + k];
    forall m | 0 <= m < |x| ensures x[m] == y[m] {
      assert x[m] == s[a..c][j + m];
    }
  }

  /** Number of leading whitespace characters. */
  function LeadingSpaces(s: string): (n: nat)
    ensures n <= |s|
    ensures AllSpace(s[..n])
    ensures n < |s| ==> !IsSpace(s[n])
  {
    if s != [] && IsSpace(s[0]) then
      var n := 1 + LeadingSpaces(s[1..]);
      assert s[..n] == [s[0]] + s[1..][..n - 1];
      n
    else 0
  }

  /** Length of `s` once its trailing whitespace is removed. */
  function TrailingStart(s: string): (e: nat)
    ensures e <= |s|
    ensures AllSpace(s[e..])
    ensures e > 0 ==> !IsSpace(s[e - 1])
  {
    if s != [] && IsSpace(s[|s| - 1]) then
      var e := TrailingStart(s[..|s| - 1]);
      assert s[e..] == s[..|s| - 1][e..] + [s[|s| - 1]];
      e
    else |s|
  }

  /** `String.prototype.trim`. */
  function Trim(s: string): (r: string)
    ensures |r| <= |s|
  {
    var a := LeadingSpaces(s);
    var e := TrailingStart(s);
    if e <= a then [] else s[a..e]
  }

  /**
   * `trim` removes exactly the whitespace at both ends: what it returns is a
   * substring of `s` surrounded by whitespace only, and that starts and ends
   * with a non-whitespace character; it is empty exactly for all-whitespace input.
   */
  lemma TrimFacts(s: string)
    ensures LeadingSpaces(s) + |Trim(s)| <= |s|
    ensures Trim(s) == s[LeadingSpaces(s)..LeadingSpaces(s) + |Trim(s)|]
    ensures AllSpace(s[..LeadingSpaces(s)]) && AllSpace(s[LeadingSpaces(s) + |Trim(s)|..])
    ensures Trim(s) != [] ==> !IsSpace(Trim(s)[0]) && !IsSpace(Trim(s)[|Trim(s)| - 1])
    ensures Trim(s) == [] <==> AllSpace(s)
  {
    TrimSlice(s);
    TrimSurround(s);
    TrimEnds(s);
    TrimEmpty(s);
  }

  lemma TrimSlice(s: string)
    ensures LeadingSpaces(s) + |Trim(s)| <= |s|
    ensures Trim(s) == s[LeadingSpaces(s)..LeadingSpaces(s) + |Trim(s)|]
  {
    var a := LeadingSpaces(s);
    if TrailingStart(s) <= a {
      assert s[a..a] == [];
    }
  }

  lemma TrimSurround(s: string)
    ensures LeadingSpaces(s) + |Trim(s)| <= |s|
    ensures AllSpace(s[..LeadingSpaces(s)]) && AllSpace(s[LeadingSpaces(s) + |Trim(s)|..])
  {
    var a := LeadingSpaces(s);
    var e := TrailingStart(s);
    if e <= a {
      AllSpaceSuffix(s, e, a);
    }
  }

  lemma TrimEnds(s: string)
    ensures Trim(s) != [] ==> !IsSpace(Trim(s)[0]) && !IsSpace(Trim(s)[|Trim(s)| - 1])
  {
    var a := LeadingSpaces(s);
    var e := TrailingStart(s);
    if a < e {
      CoreFacts(s, a, e);
    }
  }

  lemma TrimEmpty(s: string)
    ensures Trim(s) == [] <==> AllSpace(s)
  {
    var a := LeadingSpaces(s);
    var e := TrailingStart(s);
    if e <= a {
      AllSpaceWhenNoCore(s, a, e);
    } else {
      CoreFacts(s, a, e);
    }
  }

  lemma AllSpaceWhenNoCore(s: string, a: nat, e: nat)
    requires a <= |s| && e <= a
    requires AllSpace(s[..a]) && AllSpace(s[e..])
    ensures AllSpace(s)
  {
    forall i | 0 <= i < |s| ensures IsSpace(s[i]) {
      if i < a { assert s[i] == s[..a][i]; } else { assert s[i] == s[e..][i - e]; }
    }
  }

  lemma AllSpaceSuffix(s: string, e: nat, a: nat)
    requires e <= a <= |s| && AllSpace(s[e..])
    ensures AllSpace(s[a..])
  {
    forall i | 0 <= i < |s| - a ensures IsSpace(s[a..][i]) {
      assert s[a..][i] == s[e..][i + a - e];
    }
  }

  lemma CoreFacts(s: string, a: nat, e: nat)
    requires a < e <= |s| && !IsSpace(s[a]) && !IsSpace(s[e - 1])
    ensures !IsSpace(s[a..e][0]) && !IsSpace(s[a..e][e - a - 1])
    ensures !AllSpace(s)
  {
    assert s[a..e][0] == s[a];
    assert s[a..e][e - a - 1] == s[e - 1];
    NotAllSpaceAt(s, a);
  }

  lemma NotAllSpaceAt(s: string, i: nat)
    requires i < |s| && !IsSpace(s[i])
    ensures !AllSpace(s)
  {
  }

  lemma {:induction false} TrimIdempotent(s: string)
    ensures Trim(Trim(s)) == Trim(s)
  {
    var r := Trim(s);
    TrimFacts(s);
    if r != [] {
      assert LeadingSpaces(r) == 0;
      assert TrailingStart(r) == |r|;
    }
  }

  /** A string trimmed of surrounding whitespace is its own trim. */
  lemma {:induction false} TrimOfTrimmed(s: string)
    requires s == [] || (!IsSpace(s[0]) && !IsSpace(s[|s| - 1]))
    ensures Trim(s) == s
  {
    if s != [] {
      assert LeadingSpaces(s) == 0;
      assert TrailingStart(s) == |s|;
    }
  }

  /** A trailing newline is trimmed away from text that starts and ends with non-whitespace. */
  lemma TrimTrailingNewline(s: string)
    requires s != [] && !IsSpace(s[0]) && !IsSpace(s[|s| - 1])
    ensures Trim(s + "\n") == s
  {
    var t := s + "\n";
    assert LeadingSpaces(t) == 0;
    assert t[..|t| - 1] == s;
    assert TrailingStart(s) == |s|;
    assert TrailingStart(t) == |s|;
  }

  /** Index of the first `c` in `s`; |s| when `c` does not occur. */
  function IndexOf(s: string, c: char): (i: nat)
    ensures i <= |s|
    ensures i < |s| ==> s[i] == c
    ensures c !in s[..i]
    ensures i == |s| <==> c !in s
  {
    if s == [] then 0
    else if s[0] == c then 0
    else
      var i := 1 + IndexOf(s[1..], c);
      assert s[..i] == [s[0]] + s[1..][..i - 1];
      i
  }

  /** `s.split(sep)` for a one-character separator: the text between consecutive separators. */
  function Split(s: string, sep: char): (r: seq<string>)
    ensures |r| >= 1
    ensures forall k | 0 <= k < |r| :: sep !in r[k]
    decreases |s|
  {
    var i := IndexOf(s, sep);
    if i == |s| then [s]
    else [s[..i]] + Split(s[i + 1..], sep)
  }

  /** Text without the separator is one piece. */
  lemma SplitNoSeparator(x: string, sep: char)
    requires sep !in x
    ensures Split(x, sep) == [x]
  {
  }

  /** The first piece ends at the first separator. */
  lemma SplitCons(x: string, sep: char, y: string)
    requires sep !in x
    ensures Split(x + [sep] + y, sep) == [x] + Split(y, sep)
  {
    var s := x + [sep] + y;
    assert s[..|x|] == x && s[|x|] == sep && s[|x| + 1..] == y;
    IndexOfFirst(s, sep, |x|);
  }

  /** The first occurrence of `c` is at `k` when `s[k]` is `c` and no earlier character is. */
  lemma IndexOfFirst(s: string, c: char, k: nat)
    requires k < |s| && s[k] == c && c !in s[..k]
    ensures IndexOf(s, c) == k
  {
    assert forall j | 0 <= j < k :: s[..k][j] == s[j];
  }

  /** `parts.join(sep)` for a one-character separator. */
  function Join(parts: seq<string>, sep: char): string
  {
    if |parts| <= 1 then (if parts == [] then [] else parts[0])
    else parts[0] + [sep] + Join(parts[1..], sep)
  }

  /** Splitting and joining again gives back the original text. */
  lemma {:induction false} JoinSplit(s: string, sep: char)
    ensures Join(Split(s, sep), sep) == s
    decreases |s|
  {
    var i := IndexOf(s, sep);
    if i < |s| {
      JoinSplit(s[i + 1..], sep);
      assert s == s[..i] + [sep] + s[i + 1..];
    }
  }

  /** The number of pieces is one more than the number of separators. */
  function Count(s: string, c: char): nat
  {
    if s == [] then 0 else (if s[0] == c then 1 else 0) + Count(s[1..], c)
  }

  lemma {:induction false} CountSplit(s: string, sep: char)
    ensures |Split(s, sep)| == Count(s, sep) + 1
    decreases |s|
  {
    var i := IndexOf(s, sep);
    CountPrefixFree(s, sep, i);
    if i < |s| {
      CountSplit(s[i + 1..], sep);
    }
  }

  lemma {:induction false} CountPrefixFree(s: string, c: char, i: nat)
    requires i <= |s| && c !in s[..i]
    ensures Count(s, c) == (if i < |s| && s[i] == c then 1 + Count(s[i + 1..], c) else Count(s[i..], c))
    decreases i
  {
    if i > 0 {
      assert s[0] != c by { assert s[0] == s[..i][0]; }
      assert s[1..][..i - 1] == s[..i][1..];
      CountPrefixFree(s[1..], c, i - 1);
      assert s[1..][i - 1..] == s[i..];
      if i < |s| { assert s[1..][i..] == s[i + 1..]; }
    }
  }

  predicate IsDigit(c: char)
  {
    '0' <= c <= '9'
  }

  /** The regular expression `^(\d+)$`: one or more ASCII digits and nothing else. */
  predicate AllDigits(s: string)
  {
    s != [] && forall i | 0 <= i < |s| :: IsDigit(s[i])
  }

  function DigitValue(c: char): nat
    requires IsDigit(c)
  {
    (c as int - '0' as int) as nat
  }

  function DigitChar(d: nat): (c: char)
    requires d < 10
    ensures IsDigit(c) && DigitValue(c) == d
  {
    ('0' as int + d) as char
  }

  /** `parseInt` of a digit string: its decimal value (leading zeros allowed). */
  function DecimalValue(s: string): nat
    requires forall i | 0 <= i < |s| :: IsDigit(s[i])
  {
    if s == [] then 0 else 10 * DecimalValue(s[..|s| - 1]) + DigitValue(s[|s| - 1])
  }

  /** The decimal rendering of a natural number, as a template literal gives it. */
  function DecimalString(n: nat): (s: string)
    ensures AllDigits(s)
  {
    if n < 10 then [DigitChar(n)] else DecimalString(n / 10) + [DigitChar(n % 10)]
  }

  /** Reading back a rendered number gives the number. */
  lemma {:induction false} DecimalRoundTrip(n: nat)
    ensures DecimalValue(DecimalString(n)) == n
  {
    if n >= 10 {
      var s := DecimalString(n);
      assert s[..|s| - 1] == DecimalString(n / 10);
      DecimalRoundTrip(n / 10);
    }
  }

  /** Leading zeros do not change the value `parseInt` reads. */
  lemma {:induction false} DecimalLeadingZero(s: string)
    requires forall i | 0 <= i < |s| :: IsDigit(s[i])
    ensures DecimalValue("0" + s) == DecimalValue(s)
  {
    if s != [] {
      var t := "0" + s;
      assert t[..|t| - 1] == "0" + s[..|s| - 1];
      DecimalLeadingZero(s[..|s| - 1]);
    }
  }

  /** `toLowerCase` on one character (ASCII letters only). */
  function LowerChar(c: char): char
  {
    if 'A' <= c <= 'Z' then (c as int + 32) as char else c
  }

  /** `String.prototype.toLowerCase` (ASCII letters only). */
  function ToLower(s: string): (r: string)
    ensures |r| == |s|
    ensures forall i | 0 <= i < |s| :: r[i] == LowerChar(s[i])
  {
    seq(|s|, i requires 0 <= i < |s| => LowerChar(s[i]))
  }

  /** `s.replace(/x/g, y)` for single characters. */
  function ReplaceChar(s: string, x: char, y: char): (r: string)
    ensures |r| == |s|
    ensures forall i | 0 <= i < |s| :: r[i] == if s[i] == x then y else s[i]
  {
    seq(|s|, i requires 0 <= i < |s| => if s[i] == x then y else s[i])
  }
}
