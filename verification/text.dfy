/**
 * The java.lang.String operations the import path relies on: trim, blank
 * tests, case mapping of ASCII letters, suffix tests, and the decimal
 * rendering of row numbers.
 */
module Text {

  /** String.trim removes every character whose code is at most U+0020 from both ends. */
  predicate IsTrimmed(c: char) {
    c <= ' '
  }

  predicate AllTrimmed(s: string) {
    forall i :: 0 <= i < |s| ==> IsTrimmed(s[i])
  }

  /** The string neither starts nor ends with a character trim would remove. */
  predicate IsTrimmedForm(s: string) {
    |s| == 0 || (!IsTrimmed(s[0]) && !IsTrimmed(s[|s| - 1]))
  }

  /** The first index at or after i holding a character trim keeps, or |s|. */
  function TrimStartIndex(s: string, i: nat := 0): (r: nat)
    requires i <= |s|
    ensures i <= r <= |s|
    ensures forall k :: i <= k < r ==> IsTrimmed(s[k])
    ensures r < |s| ==> !IsTrimmed(s[r])
    decreases |s| - i
  {
    if i < |s| && IsTrimmed(s[i]) then TrimStartIndex(s, i + 1) else i
  }

  /** The end, not below lo, of s[..j] with its trailing removable characters dropped. */
  function TrimEndIndex(s: string, lo: nat, j: nat): (r: nat)
    requires lo <= j <= |s|
    ensures lo <= r <= j
    ensures forall k :: r <= k < j ==> IsTrimmed(s[k])
    ensures r > lo ==> !IsTrimmed(s[r - 1])
    decreases j - lo
  {
    if j > lo && IsTrimmed(s[j - 1]) then TrimEndIndex(s, lo, j - 1) else j
  }

  /** String.trim: skip removable characters from the front, then from the back. */
  function Trim(s: string): (r: string)
    ensures IsTrimmedForm(r)
  {
    var i := TrimStartIndex(s);
    var j := TrimEndIndex(s, i, |s|);
    s[i..j]
  }

  /** Padding a string in trimmed form with removable characters and trimming it gives it back. */
  lemma TrimOfPadded(pre: string, core: string, post: string)
    requires AllTrimmed(pre) && AllTrimmed(post) && IsTrimmedForm(core)
    ensures Trim(pre + core + post) == core
  {
    var s := pre + core + post;
    var a, b := |pre|, |pre| + |core|;
    assert forall k :: 0 <= k < a ==> s[k] == pre[k];
    assert forall k :: a <= k < b ==> s[k] == core[k - a];
    assert forall k :: b <= k < |s| ==> s[k] == post[k - b];
    var i := TrimStartIndex(s);
    var j := TrimEndIndex(s, i, |s|);
    if |core| == 0 {
      assert i == |s|;
    } else {
      assert s[a] == core[0] && s[b - 1] == core[|core| - 1];
      assert i == a;
      assert j == b;
    }
    assert s[a..b] == core;
  }

  /** Trimming twice is trimming once. */
  lemma TrimIdempotent(s: string)
    ensures Trim(Trim(s)) == Trim(s)
  {
    var r := Trim(s);
    assert "" + r + "" == r;
    TrimOfPadded("", r, "");
  }

  /** s.trim().isEmpty(), the blank test of the validator and of @NotBlank. */
  predicate IsBlank(s: string) {
    |Trim(s)| == 0
  }

  /** A string is blank exactly when every character of it is one trim removes. */
  lemma BlankIffAllTrimmed(s: string)
    ensures IsBlank(s) <==> AllTrimmed(s)
  {
    var i := TrimStartIndex(s);
    var j := TrimEndIndex(s, i, |s|);
    assert i < |s| ==> !IsTrimmed(s[i]);
    assert i < |s| ==> j > i;
  }

  /** Character.toUpperCase on the ASCII letters; every other character is kept. */
  function UpperChar(c: char): char {
    if 'a' <= c <= 'z' then (c as int - 32) as char else c
  }

  function LowerChar(c: char): char {
    if 'A' <= c <= 'Z' then (c as int + 32) as char else c
  }

  function ToUpper(s: string): (r: string)
    ensures |r| == |s| && forall i :: 0 <= i < |s| ==> r[i] == UpperChar(s[i])
  {
    seq(|s|, i requires 0 <= i < |s| => UpperChar(s[i]))
  }

  function ToLower(s: string): (r: string)
    ensures |r| == |s| && forall i :: 0 <= i < |s| ==> r[i] == LowerChar(s[i])
  {
    seq(|s|, i requires 0 <= i < |s| => LowerChar(s[i]))
  }

  /** String.endsWith */
  predicate EndsWith(s: string, suffix: string) {
    |suffix| <= |s| && s[|s| - |suffix|..] == suffix
  }

  predicate IsDigit(c: char) {
    '0' <= c <= '9'
  }

  predicate AllDigits(s: string) {
    forall i :: 0 <= i < |s| ==> IsDigit(s[i])
  }

  function DigitValue(c: char): nat
    requires IsDigit(c)
  {
    c as int - '0' as int
  }

  function DigitChar(d: nat): (c: char)
    requires d < 10
    ensures IsDigit(c) && DigitValue(c) == d
  {
    ('0' as int + d) as char
  }

  /** The number a string of decimal digits denotes, most significant digit first. */
  function DigitsValue(s: string): nat
    requires AllDigits(s)
  {
    if |s| == 0 then 0 else 10 * DigitsValue(s[..|s| - 1]) + DigitValue(s[|s| - 1])
  }

  /** The decimal rendering of a natural number, as %d and string concatenation write it. */
  function NatToString(n: nat): (r: string)
    ensures |r| >= 1 && AllDigits(r)
    ensures DigitsValue(r) == n
    ensures r[0] == '0' ==> r == "0"
  {
    if n < 10 then [DigitChar(n)]
    else
      var r := NatToString(n / 10) + [DigitChar(n % 10)];
      assert r[..|r| - 1] == NatToString(n / 10);
      r
  }
}
