/**
 * String primitives shared by the chat components and the reply server:
 * ASCII case folding (the part of `toLowerCase` and of the regex `/i` flag
 * that this model keeps), substring search (`RegExp.test` on a literal
 * alternative, Python's `in` and `str.find`), whitespace trimming with the
 * whitespace sets of JavaScript's `trim()` and Python's `str.strip()`, and
 * the decimal rendering of a non-negative integer (template literals,
 * `Number.prototype.toString`).
 */
module Text {

  // ---------------------------------------------------------------------
  // Case folding
  // ---------------------------------------------------------------------

  function LowerChar(c: char): char {
    if 'A' <= c <= 'Z' then (c as int + 32) as char else c
  }

  predicate IsLowerCase(s: string) {
    forall i :: 0 <= i < |s| ==> !('A' <= s[i] <= 'Z')
  }

  /** ASCII lower-casing; every other character is left as it is. */
  function Lower(s: string): (r: string)
    ensures |r| == |s| && IsLowerCase(r)
    ensures forall i :: 0 <= i < |s| ==> r[i] == LowerChar(s[i])
  {
    seq(|s|, i requires 0 <= i < |s| => LowerChar(s[i]))
  }

  /** Lower-casing a lower-case string changes nothing. */
  lemma LowerOfLowerCase(s: string)
    requires IsLowerCase(s)
    ensures Lower(s) == s
  {
    assert forall i :: 0 <= i < |s| ==> Lower(s)[i] == s[i];
  }

  // ---------------------------------------------------------------------
  // Substring search
  // ---------------------------------------------------------------------

  /** `p` occurs in `s` starting at index `i`. */
  ghost predicate OccursAt(s: string, p: string, i: int) {
    0 <= i && i + |p| <= |s| && s[i..i + |p|] == p
  }

  lemma OccursAtShift(s: string, p: string, i: int)
    requires s != [] && 0 <= i
    ensures OccursAt(s, p, i + 1) <==> OccursAt(s[1..], p, i)
  {
    if i + 1 + |p| <= |s| {
      var a, b := s[1..][i..i + |p|], s[i + 1..i + 1 + |p|];
      assert forall j :: 0 <= j < |p| ==> a[j] == b[j];
      assert a == b;
    }
  }

  /** The index of the first occurrence of `p` in `s`, or -1 when there is none (Python's `str.find`). */
  function IndexOf(s: string, p: string): (r: int)
    ensures r == -1 || OccursAt(s, p, r)
    ensures forall i :: 0 <= i && (r == -1 || i < r) ==> !OccursAt(s, p, i)
    decreases |s|
  {
    if p <= s then 0
    else if s == [] then -1
    else
      var k := IndexOf(s[1..], p);
      assert !OccursAt(s, p, 0) by {
        if |p| <= |s| {
          assert s[0..|p|] == s[..|p|];
        }
      }
      forall i | 1 <= i ensures OccursAt(s, p, i) <==> OccursAt(s[1..], p, i - 1) {
        OccursAtShift(s, p, i - 1);
      }
      if k == -1 then -1 else k + 1
  }

  /** `p` is a substring of `s` (Python's `p in s`). */
  predicate Contains(s: string, p: string)
    ensures Contains(s, p) <==> exists i :: OccursAt(s, p, i)
  {
    IndexOf(s, p) != -1
  }

  /** A string contains whatever is spliced into it. */
  lemma ContainsInfix(a: string, p: string, b: string)
    ensures OccursAt(a + p + b, p, |a|) && Contains(a + p + b, p)
  {
    var s := a + p + b;
    assert s[|a|..|a| + |p|] == p;
    assert OccursAt(s, p, |a|);
  }

  /** An occurrence inside a slice is an occurrence in the whole string. */
  lemma OccursInSlice(s: string, lo: int, hi: int, p: string, k: int)
    requires 0 <= lo <= hi <= |s|
    requires OccursAt(s[lo..hi], p, k)
    ensures OccursAt(s, p, lo + k)
  {
    var a, b := s[lo..hi][k..k + |p|], s[lo + k..lo + k + |p|];
    assert forall j :: 0 <= j < |p| ==> a[j] == b[j];
    assert a == b;
  }

  /** A slice of a string that does not contain `p` does not contain it either. */
  lemma SliceKeepsAbsence(s: string, lo: int, hi: int, p: string)
    requires 0 <= lo <= hi <= |s|
    requires !Contains(s, p)
    ensures !Contains(s[lo..hi], p)
  {
    if Contains(s[lo..hi], p) {
      var k :| OccursAt(s[lo..hi], p, k);
      OccursInSlice(s, lo, hi, p, k);
    }
  }

  /** A string lacking one of the characters of `p` does not contain `p`. */
  lemma MissingCharExcludes(s: string, p: string, j: nat)
    requires j < |p| && p[j] !in s
    ensures !Contains(s, p)
  {
  }

  // ---------------------------------------------------------------------
  // Whitespace trimming
  // ---------------------------------------------------------------------

  /** The characters removed by JavaScript's `String.prototype.trim`: WhiteSpace and LineTerminator. */
  predicate IsJsWhitespace(c: char) {
    || c in {'\t', '\n', '\U{0B}', '\U{0C}', '\r', ' ', '\U{A0}', '\U{1680}'}
    || '\U{2000}' <= c <= '\U{200A}'
    || c in {'\U{2028}', '\U{2029}', '\U{202F}', '\U{205F}', '\U{3000}', '\U{FEFF}'}
  }

  /** The characters removed by Python's `str.strip()` with no argument (`str.isspace`). */
  predicate IsPyWhitespace(c: char) {
    || '\t' <= c <= '\r'
    || '\U{1C}' <= c <= ' '
    || c in {'\U{85}', '\U{A0}', '\U{1680}'}
    || '\U{2000}' <= c <= '\U{200A}'
    || c in {'\U{2028}', '\U{2029}', '\U{202F}', '\U{205F}', '\U{3000}'}
  }

  /** Which of the two whitespace sets a trim removes. */
  datatype Spaces = JsSpaces | PySpaces

  predicate IsSpace(ws: Spaces, c: char) {
    match ws
    case JsSpaces => IsJsWhitespace(c)
    case PySpaces => IsPyWhitespace(c)
  }

  predicate AllSatisfy(s: string, ws: Spaces) {
    forall i :: 0 <= i < |s| ==> IsSpace(ws, s[i])
  }

  /** `s` without its leading characters from `ws`. */
  function TrimStart(s: string, ws: Spaces): string
    decreases |s|
  {
    if s != [] && IsSpace(ws, s[0]) then TrimStart(s[1..], ws) else s
  }

  /** `s` without its trailing characters from `ws`. */
  function TrimEnd(s: string, ws: Spaces): string
    decreases |s|
  {
    if s != [] && IsSpace(ws, s[|s| - 1]) then TrimEnd(s[..|s| - 1], ws) else s
  }

  /** Trimming the start drops a prefix of whitespace and stops at the first other character. */
  lemma {:induction false} TrimStartSuffix(s: string, ws: Spaces)
    ensures var r := TrimStart(s, ws);
      && |r| <= |s| && r == s[|s| - |r|..]
      && AllSatisfy(s[..|s| - |r|], ws)
      && (r == [] || !IsSpace(ws, r[0]))
    decreases |s|
  {
    if s != [] && IsSpace(ws, s[0]) {
      TrimStartSuffix(s[1..], ws);
      var r := TrimStart(s[1..], ws);
      assert s[..|s| - |r|] == [s[0]] + s[1..][..|s| - 1 - |r|];
    }
  }

  /** Trimming the end drops a suffix of whitespace and stops at the last other character. */
  lemma {:induction false} TrimEndPrefix(s: string, ws: Spaces)
    ensures var r := TrimEnd(s, ws);
      && |r| <= |s| && r == s[..|r|]
      && AllSatisfy(s[|r|..], ws)
      && (r == [] || !IsSpace(ws, r[|r| - 1]))
    decreases |s|
  {
    if s != [] && IsSpace(ws, s[|s| - 1]) {
      TrimEndPrefix(s[..|s| - 1], ws);
      var r := TrimEnd(s[..|s| - 1], ws);
      assert s[|r|..] == s[..|s| - 1][|r|..] + [s[|s| - 1]];
    }
  }

  /** `s` without its leading and trailing characters from `ws`. */
  function TrimBy(s: string, ws: Spaces): string {
    TrimEnd(TrimStart(s, ws), ws)
  }

  /** JavaScript's `s.trim()`. */
  function JsTrim(s: string): string {
    TrimBy(s, JsSpaces)
  }

  /** Python's `s.strip()`. */
  function PyStrip(s: string): string {
    TrimBy(s, PySpaces)
  }

  /**
   * Trimming keeps one contiguous slice of `s`, starting at the first
   * character outside `ws`: everything cut off is whitespace, and the slice
   * neither starts nor ends with whitespace.
   */
  lemma TrimBySlice(s: string, ws: Spaces) returns (lo: nat)
    ensures lo + |TrimBy(s, ws)| <= |s|
    ensures s[lo..lo + |TrimBy(s, ws)|] == TrimBy(s, ws)
    ensures AllSatisfy(s[..lo], ws) && AllSatisfy(s[lo + |TrimBy(s, ws)|..], ws)
    ensures TrimBy(s, ws) == [] || (!IsSpace(ws, TrimBy(s, ws)[0]) && !IsSpace(ws, TrimBy(s, ws)[|TrimBy(s, ws)| - 1]))
  {
    var t := TrimStart(s, ws);
    var r := TrimEnd(t, ws);
    TrimStartSuffix(s, ws);
    TrimEndPrefix(t, ws);
    lo := |s| - |t|;
    assert s[lo..lo + |r|] == t[..|r|];
    assert s[lo + |r|..] == t[|r|..];
    if r != [] {
      assert r[0] == t[0];
    }
  }

  /** Trimming yields the empty string exactly when every character is whitespace. */
  lemma TrimByEmpty(s: string, ws: Spaces)
    ensures TrimBy(s, ws) == [] <==> AllSatisfy(s, ws)
  {
    var lo := TrimBySlice(s, ws);
    var r := TrimBy(s, ws);
    if r == [] {
      forall i | 0 <= i < |s|
        ensures IsSpace(ws, s[i])
      {
        if i < lo {
          assert s[..lo][i] == s[i];
        } else {
          assert s[lo..][i - lo] == s[i];
        }
      }
    } else {
      assert s[lo] == r[0];
    }
  }

  /** `s` neither starts nor ends with a character from `ws`. */
  predicate Trimmed(s: string, ws: Spaces) {
    s == [] || (!IsSpace(ws, s[0]) && !IsSpace(ws, s[|s| - 1]))
  }

  /** A text is left as it is by trimming exactly when it neither starts nor ends with whitespace. */
  lemma TrimmedIff(s: string, ws: Spaces)
    ensures TrimBy(s, ws) == s <==> Trimmed(s, ws)
  {
    var lo := TrimBySlice(s, ws);
    if Trimmed(s, ws) && s != [] {
      assert TrimStart(s, ws) == s;
      assert TrimEnd(s, ws) == s;
    }
  }

  /** Trimming twice is trimming once. */
  lemma TrimByIdempotent(s: string, ws: Spaces)
    ensures TrimBy(TrimBy(s, ws), ws) == TrimBy(s, ws)
  {
    var r := TrimBy(s, ws);
    var lo := TrimBySlice(s, ws);
    if r != [] {
      assert TrimStart(r, ws) == r;
      assert TrimEnd(r, ws) == r;
    }
  }

  // ---------------------------------------------------------------------
  // Decimal numerals
  // ---------------------------------------------------------------------

  predicate IsDigit(c: char) {
    '0' <= c <= '9'
  }

  predicate IsDigits(s: string) {
    forall i :: 0 <= i < |s| ==> IsDigit(s[i])
  }

  function DigitChar(d: nat): char
    requires d < 10
  {
    ('0' as int + d) as char
  }

  /** The value of a string of decimal digits. */
  function ParseDecimal(s: string): nat
    requires IsDigits(s)
    decreases |s|
  {
    if s == [] then 0 else 10 * ParseDecimal(s[..|s| - 1]) + (s[|s| - 1] as int - '0' as int)
  }

  /**
   * The decimal numeral of `n`, as JavaScript prints a non-negative integer:
   * digits only, no leading zero, and reading it back gives `n`.
   */
  function DecimalString(n: nat): (r: string)
    ensures r != [] && IsDigits(r)
    ensures r[0] != '0' || r == "0"
    ensures ParseDecimal(r) == n
    decreases n
  {
    if n < 10 then [DigitChar(n)]
    else
      var front := DecimalString(n / 10);
      var r := front + [DigitChar(n % 10)];
      assert r[..|r| - 1] == front;
      r
  }

  function Pow10(k: nat): (p: nat)
    ensures p >= 1
  {
    if k == 0 then 1 else 10 * Pow10(k - 1)
  }

  /** A number below 10^k has at most k digits. */
  lemma {:induction false} DecimalStringLength(n: nat, k: nat)
    requires 1 <= k && n < Pow10(k)
    ensures |DecimalString(n)| <= k
    decreases k
  {
    if n >= 10 {
      assert k != 1;
      assert n / 10 < Pow10(k - 1);
      DecimalStringLength(n / 10, k - 1);
    }
  }

  /**
   * `User${Math.floor(Math.random() * 10000)}`, the anonymous handle given to
   * a chat user and to the author of a new post, with `roll` the random
   * integer: "User" followed by at most four digits that read back as `roll`.
   */
  function RandomUsername(roll: nat): (name: string)
    requires roll < 10000
    ensures 5 <= |name| <= 8 && name[..4] == "User"
    ensures IsDigits(name[4..]) && name[4..] != [] && ParseDecimal(name[4..]) == roll
  {
    assert Pow10(4) == 10000;
    DecimalStringLength(roll, 4);
    var name := "User" + DecimalString(roll);
    assert name[4..] == DecimalString(roll);
    name
  }
}
