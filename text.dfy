/**
 * The string operations of the host language that the catalog relies on:
 * `toLowerCase` (ASCII letters only), `includes`, `trim` and the regular
 * expression class `\s` (the ECMAScript white-space and line-terminator code
 * points), `split(sep)[0]`, `Number.prototype.toString` on naturals and a
 * code-point order standing in for `localeCompare`.
 */
module Text {

  /** ECMAScript WhiteSpace and LineTerminator code points: what `trim` strips and `\s` matches. */
  predicate IsSpace(c: char) {
    var n := c as int;
    (9 <= n <= 13) || n == 0x20 || n == 0xA0 || n == 0x1680 || (0x2000 <= n <= 0x200A)
    || n == 0x2028 || n == 0x2029 || n == 0x202F || n == 0x205F || n == 0x3000 || n == 0xFEFF
  }

  function LowerChar(c: char): (r: char)
    ensures 'A' <= c <= 'Z' ==> r as int == c as int + 32
    ensures !('A' <= c <= 'Z') ==> r == c
  {
    if 'A' <= c <= 'Z' then (c as int + 32) as char else c
  }

  /** `toLowerCase`, restricted to the ASCII letters. */
  function ToLower(s: string): (r: string)
    ensures |r| == |s|
    ensures forall i :: 0 <= i < |s| ==> r[i] == LowerChar(s[i])
  {
    seq(|s|, i requires 0 <= i < |s| => LowerChar(s[i]))
  }

  lemma ToLowerIdempotent(s: string)
    ensures ToLower(ToLower(s)) == ToLower(s)
  {
    assert forall i :: 0 <= i < |s| ==> ToLower(ToLower(s))[i] == ToLower(s)[i];
  }

  predicate IsCapital(c: char) {
    'A' <= c <= 'Z'
  }

  /** The lower-cased text holds no capital letter, and differs from the input only where the input has one. */
  lemma ToLowerNoCapitals(s: string)
    ensures forall i :: 0 <= i < |ToLower(s)| ==> !IsCapital(ToLower(s)[i])
    ensures forall i :: 0 <= i < |s| && !IsCapital(s[i]) ==> ToLower(s)[i] == s[i]
  {
  }

  /** Lower-casing leaves a text alone exactly when it has no capital letter. */
  lemma ToLowerFixed(s: string)
    ensures ToLower(s) == s <==> forall i :: 0 <= i < |s| ==> !IsCapital(s[i])
  {
    if ToLower(s) == s {
      forall i | 0 <= i < |s|
        ensures !IsCapital(s[i])
      {
        assert ToLower(s)[i] == s[i];
      }
    } else {
      var i :| 0 <= i < |s| && ToLower(s)[i] != s[i];
      assert IsCapital(s[i]);
    }
  }

  /** `needle` occurs in `hay` starting at position `i`. */
  ghost predicate OccursAt(hay: string, needle: string, i: int) {
    0 <= i && i + |needle| <= |hay| && hay[i..i + |needle|] == needle
  }

  /** `hay.includes(needle)`: true exactly when `needle` occurs somewhere in `hay`. */
  function Includes(hay: string, needle: string): (r: bool)
    ensures r <==> exists i :: OccursAt(hay, needle, i)
    decreases |hay|
  {
    if |needle| > |hay| then
      assert forall i :: !OccursAt(hay, needle, i);
      false
    else if hay[..|needle|] == needle then
      assert OccursAt(hay, needle, 0);
      true
    else
      var rest := Includes(hay[1..], needle);
      IncludesStep(hay, needle);
      rest
  }

  /** An occurrence not at the start of `hay` is an occurrence in `hay[1..]`, and back. */
  lemma IncludesStep(hay: string, needle: string)
    requires |needle| <= |hay| && hay[..|needle|] != needle
    ensures (exists i :: OccursAt(hay, needle, i)) <==> (exists i :: OccursAt(hay[1..], needle, i))
  {
    forall i | OccursAt(hay, needle, i)
      ensures OccursAt(hay[1..], needle, i - 1)
    {
      assert i != 0;
      assert hay[1..][i - 1..i - 1 + |needle|] == hay[i..i + |needle|];
    }
    forall i | OccursAt(hay[1..], needle, i)
      ensures OccursAt(hay, needle, i + 1)
    {
      assert hay[1..][i..i + |needle|] == hay[i + 1..i + 1 + |needle|];
    }
  }

  lemma IncludesEmpty(hay: string)
    ensures Includes(hay, "")
  {
    assert OccursAt(hay, "", 0);
  }

  function TrimStart(s: string): (r: string)
    ensures |r| <= |s| && r == s[|s| - |r|..]
    ensures r == [] || !IsSpace(r[0])
  {
    if s != [] && IsSpace(s[0]) then TrimStart(s[1..]) else s
  }

  /** Nothing but white space. */
  predicate AllSpace(s: string) {
    forall i :: 0 <= i < |s| ==> IsSpace(s[i])
  }

  /** Everything `TrimStart` removes is white space. */
  lemma {:induction false} TrimStartCut(s: string)
    ensures AllSpace(s[..|s| - |TrimStart(s)|])
  {
    if s != [] && IsSpace(s[0]) {
      var u := s[1..];
      TrimStartCut(u);
      var n := |u| - |TrimStart(u)|;
      assert s[..n + 1] == [s[0]] + u[..n];
    }
  }

  function TrimEnd(s: string): (r: string)
    ensures |r| <= |s| && r == s[..|r|]
    ensures r == [] || !IsSpace(r[|r| - 1])
  {
    if s != [] && IsSpace(s[|s| - 1]) then TrimEnd(s[..|s| - 1]) else s
  }

  /** Everything `TrimEnd` removes is white space. */
  lemma {:induction false} TrimEndCut(s: string)
    ensures AllSpace(s[|TrimEnd(s)|..])
  {
    if s != [] && IsSpace(s[|s| - 1]) {
      var u := s[..|s| - 1];
      TrimEndCut(u);
      var n := |TrimEnd(u)|;
      assert s[n..] == u[n..] + [s[|s| - 1]];
    }
  }

  /** `r` is `s[k..k + |r|]` and everything of `s` outside that slice is white space. */
  ghost predicate TrimmedAt(s: string, r: string, k: int) {
    0 <= k && k + |r| <= |s| && r == s[k..k + |r|]
    && AllSpace(s[..k]) && AllSpace(s[k + |r|..])
  }

  /** `trim`: white space removed at both ends, so the result neither starts nor ends with white space. */
  function Trim(s: string): (r: string)
    ensures |r| <= |s|
    ensures r == [] || (!IsSpace(r[0]) && !IsSpace(r[|r| - 1]))
  {
    var t := TrimStart(s);
    var r := TrimEnd(t);
    assert r != [] ==> r[0] == t[0];
    r
  }

  /** The result of `trim` is a slice of `s`, and everything cut off is white space. */
  lemma TrimIsSlice(s: string)
    ensures exists k :: TrimmedAt(s, Trim(s), k)
  {
    var t := TrimStart(s);
    var r := TrimEnd(t);
    var k := |s| - |t|;
    TrimStartCut(s);
    TrimEndCut(t);
    assert t == s[k..];
    assert r == t[..|r|];
    assert r == s[k..k + |r|];
    assert s[k + |r|..] == t[|r|..];
    assert Trim(s) == r;
    assert TrimmedAt(s, Trim(s), k);
  }

  /** A string without any white space trims to itself. */
  lemma TrimNoSpace(s: string)
    requires forall i :: 0 <= i < |s| ==> !IsSpace(s[i])
    ensures Trim(s) == s
  {
  }

  /** `s.split(sep)[0]`: the text before the first `sep`, or all of `s` when there is none. */
  function BeforeFirst(s: string, sep: char): (r: string)
    ensures |r| <= |s| && r == s[..|r|]
    ensures sep !in r
    ensures |r| < |s| ==> s[|r|] == sep
  {
    if s == [] || s[0] == sep then [] else [s[0]] + BeforeFirst(s[1..], sep)
  }

  /** The position of the first `c` in `s`, or `|s|` when `c` does not occur. */
  function IndexOf(s: string, c: char): (k: nat)
    ensures k <= |s|
    ensures c !in s[..k]
    ensures k < |s| ==> s[k] == c
  {
    if s == [] || s[0] == c then 0 else 1 + IndexOf(s[1..], c)
  }

  function DigitChar(d: nat): char
    requires d < 10
  {
    "0123456789"[d]
  }

  predicate IsDigit(c: char) { '0' <= c <= '9' }

  function DigitValue(c: char): nat
    requires IsDigit(c)
  {
    c as int - '0' as int
  }

  /** The value of a string of decimal digits. */
  function DecimalValue(s: string): nat
    requires forall i :: 0 <= i < |s| ==> IsDigit(s[i])
  {
    if s == [] then 0 else DecimalValue(s[..|s| - 1]) * 10 + DigitValue(s[|s| - 1])
  }

  /**
   * `n.toString()` for a natural number: a non-empty string of decimal digits
   * without a leading zero (except "0" itself) whose value is `n`.
   */
  function DecimalString(n: nat): (r: string)
    ensures |r| >= 1
    ensures forall i :: 0 <= i < |r| ==> IsDigit(r[i])
    ensures |r| > 1 ==> r[0] != '0'
    ensures DecimalValue(r) == n
  {
    if n < 10 then
      [DigitChar(n)]
    else
      var front := DecimalString(n / 10);
      var r := front + [DigitChar(n % 10)];
      assert r[..|r| - 1] == front;
      r
  }

  /** A natural below 1000 has at most three digits. */
  lemma DecimalStringShort(n: nat)
    requires n < 1000
    ensures |DecimalString(n)| <= 3
  {
    if n >= 10 { DecimalStringShort(n / 10); }
  }

  /**
   * Code-point lexicographic comparison, standing in for `localeCompare`:
   * negative, zero or positive as `a` sorts before, equal to or after `b`.
   */
  function CompareStrings(a: string, b: string): (r: int)
    ensures -1 <= r <= 1
    ensures r == 0 <==> a == b
  {
    if a == [] then (if b == [] then 0 else -1)
    else if b == [] then 1
    else if a[0] < b[0] then -1
    else if a[0] > b[0] then 1
    else
      var r := CompareStrings(a[1..], b[1..]);
      assert a == [a[0]] + a[1..] && b == [b[0]] + b[1..];
      r
  }

  lemma {:induction false} CompareStringsFlip(a: string, b: string)
    ensures CompareStrings(a, b) == -CompareStrings(b, a)
  {
    if a != [] && b != [] && a[0] == b[0] {
      CompareStringsFlip(a[1..], b[1..]);
    }
  }

  lemma {:induction false} CompareStringsTransitive(a: string, b: string, c: string)
    requires CompareStrings(a, b) <= 0 && CompareStrings(b, c) <= 0
    ensures CompareStrings(a, c) <= 0
  {
    if a != [] && b != [] && c != [] && a[0] == b[0] && b[0] == c[0] {
      CompareStringsTransitive(a[1..], b[1..], c[1..]);
    }
  }
}
