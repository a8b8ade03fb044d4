/** The few string primitives of ECMAScript that the dashboard relies on:
    `trim`, `join`, `split`, `String(number)`, `Number(string)` on integer
    literals, and the ASCII case mappings behind its `toLowerCase` and
    `toUpperCase` comparisons. */
module Strings {
  import opened Wrappers

  /** WhiteSpace and LineTerminator code points of ECMAScript, the set that
      `String.prototype.trim` removes and that `Number` ignores around a literal. */
  predicate IsJsWhitespace(c: char) {
    || c == '\t' || c == '\n' || c == '\U{000B}' || c == '\U{000C}' || c == '\r' || c == ' '
    || c == '\U{00A0}' || c == '\U{1680}' || ('\U{2000}' <= c <= '\U{200A}')
    || c == '\U{2028}' || c == '\U{2029}' || c == '\U{202F}' || c == '\U{205F}'
    || c == '\U{3000}' || c == '\U{FEFF}'
  }

  function TrimStart(s: string): (r: string)
    ensures |r| <= |s| && r == s[|s| - |r|..]
    ensures r == [] || !IsJsWhitespace(r[0])
    ensures forall k :: 0 <= k < |s| - |r| ==> IsJsWhitespace(s[k])
  {
    if |s| > 0 && IsJsWhitespace(s[0]) then
      var r := TrimStart(s[1..]);
      assert forall k :: 1 <= k < |s| - |r| ==> s[k] == s[1..][k - 1];
      r
    else s
  }

  function TrimEnd(s: string): (r: string)
    ensures |r| <= |s| && r == s[..|r|]
    ensures r == [] || !IsJsWhitespace(r[|r| - 1])
    ensures forall k :: |r| <= k < |s| ==> IsJsWhitespace(s[k])
  {
    if |s| > 0 && IsJsWhitespace(s[|s| - 1]) then TrimEnd(s[..|s| - 1]) else s
  }

  /** Every character of `s` before `i` is white space. */
  predicate LeadingSpace(s: string, i: nat)
    requires i <= |s|
  {
    forall k :: 0 <= k < i ==> IsJsWhitespace(s[k])
  }

  /** Every character of `s` from `j` on is white space. */
  predicate TrailingSpace(s: string, j: nat)
    requires j <= |s|
  {
    forall k :: j <= k < |s| ==> IsJsWhitespace(s[k])
  }

  /** `s[i..j]` is `s` with only white space removed before `i` and from `j` on. */
  predicate StripsTo(s: string, i: nat, j: nat) {
    i <= j <= |s| && LeadingSpace(s, i) && TrailingSpace(s, j)
  }

  /** White space after the end of a suffix's prefix is white space in the whole string. */
  lemma TrailingOfSuffix(s: string, t: string, r: string)
    requires |t| <= |s| && t == s[|s| - |t|..]
    requires |r| <= |t| && TrailingSpace(t, |r|)
    ensures TrailingSpace(s, |s| - |t| + |r|)
  {
    var i := |s| - |t|;
    forall k | i + |r| <= k < |s| ensures IsJsWhitespace(s[k]) {
      assert s[k] == t[k - i];
    }
  }

  /** Trimming the start and then the end leaves a slice of `s` with only
      white space around it. */
  lemma TrimBothEnds(s: string, t: string, r: string)
    requires t == TrimStart(s) && r == TrimEnd(t)
    ensures StripsTo(s, |s| - |t|, |s| - |t| + |r|) && r == s[|s| - |t|..|s| - |t| + |r|]
  {
    var i := |s| - |t|;
    assert LeadingSpace(s, i);
    assert TrailingSpace(t, |r|);
    TrailingOfSuffix(s, t, r);
    PrefixOfSuffix(s, t, r);
  }

  /** A prefix of a suffix of `s` is a slice of `s`. */
  lemma PrefixOfSuffix<T>(s: seq<T>, t: seq<T>, r: seq<T>)
    requires |t| <= |s| && t == s[|s| - |t|..]
    requires |r| <= |t| && r == t[..|r|]
    ensures r == s[|s| - |t|..|s| - |t| + |r|]
  {
    var i := |s| - |t|;
    forall k | 0 <= k < |r| ensures r[k] == s[i + k] {
      assert r[k] == t[k];
    }
  }

  /** `String.prototype.trim`: `s` without its leading and trailing white space. */
  function Trim(s: string): (r: string)
    ensures |r| <= |s|
    ensures r == [] || (!IsJsWhitespace(r[0]) && !IsJsWhitespace(r[|r| - 1]))
    ensures exists i: nat, j: nat :: StripsTo(s, i, j) && r == s[i..j]
  {
    var t := TrimStart(s);
    var r := TrimEnd(t);
    assert r != [] ==> r[0] == t[0];
    TrimBothEnds(s, t, r);
    r
  }

  /** `Array.prototype.join(sep)`. */
  function Join(xs: seq<string>, sep: string): string {
    if |xs| == 0 then ""
    else if |xs| == 1 then xs[0]
    else xs[0] + sep + Join(xs[1..], sep)
  }

  /** `String.prototype.split(c)` for a one-character separator: the pieces
      between the occurrences of `c`, always at least one. */
  function Split(s: string, c: char): (r: seq<string>)
    ensures |r| > 0
  {
    if s == [] then [""]
    else
      var rest := Split(s[1..], c);
      if s[0] == c then [""] + rest else [[s[0]] + rest[0]] + rest[1..]
  }

  lemma {:induction false} SplitNoSeparator(a: string, c: char)
    requires c !in a
    ensures Split(a, c) == [a]
  {
    if a != [] {
      SplitNoSeparator(a[1..], c);
      assert [a[0]] + a[1..] == a;
    }
  }

  lemma {:induction false} SplitAtSeparator(a: string, c: char, b: string)
    requires c !in a
    ensures Split(a + [c] + b, c) == [a] + Split(b, c)
  {
    if a == [] {
      assert a + [c] + b == [c] + b;
      assert ([c] + b)[1..] == b;
    } else {
      SplitAtSeparator(a[1..], c, b);
      assert (a + [c] + b)[1..] == a[1..] + [c] + b;
      assert [a[0]] + a[1..] == a;
    }
  }

  /** Splitting a comma-free list joined by commas gives the list back. */
  lemma {:induction false} SplitJoin(xs: seq<string>, c: char)
    requires |xs| > 0
    requires forall i :: 0 <= i < |xs| ==> c !in xs[i]
    ensures Split(Join(xs, [c]), c) == xs
  {
    if |xs| == 1 {
      SplitNoSeparator(xs[0], c);
    } else {
      SplitJoin(xs[1..], c);
      SplitAtSeparator(xs[0], c, Join(xs[1..], [c]));
      assert [xs[0]] + xs[1..] == xs;
    }
  }

  predicate IsDigit(c: char) { '0' <= c <= '9' }

  /** One or more ASCII digits: the `\d+` of a regular expression. */
  predicate IsDigits(s: string) {
    |s| > 0 && forall i :: 0 <= i < |s| ==> IsDigit(s[i])
  }

  /** The value of a string of decimal digits. */
  function DigitsValue(s: string): nat
    requires forall i :: 0 <= i < |s| ==> IsDigit(s[i])
  {
    if s == [] then 0
    else
      assert IsDigit(s[|s| - 1]);
      DigitsValue(s[..|s| - 1]) * 10 + (s[|s| - 1] as int - '0' as int)
  }

  function DigitChar(d: nat): (c: char)
    requires d < 10
    ensures IsDigit(c) && c as int - '0' as int == d
  {
    "0123456789"[d]
  }

  /** `String(n)` for a non-negative integer: its decimal digits, no leading zero. */
  function NatToString(n: nat): (r: string)
    ensures IsDigits(r) && DigitsValue(r) == n
    ensures r[0] == '0' ==> n == 0 && r == "0"
  {
    if n < 10 then
      assert [DigitChar(n)][..0] == [];
      [DigitChar(n)]
    else
      var p := NatToString(n / 10);
      var r := p + [DigitChar(n % 10)];
      assert r[..|r| - 1] == p;
      r
  }

  /** `String(n)` for an integer. */
  function IntToString(n: int): string {
    if n < 0 then "-" + NatToString(-n) else NatToString(n)
  }

  function IndexOf(s: string, c: char): (k: nat)
    requires c in s
    ensures k < |s| && s[k] == c && c !in s[..k]
  {
    if s[0] == c then 0 else 1 + IndexOf(s[1..], c)
  }

  /** The regular expression `^-?\d+(\.\d+)?$` of the source, on an already trimmed string. */
  predicate IsDecimalLiteral(t: string) {
    var u := if |t| > 0 && t[0] == '-' then t[1..] else t;
    if '.' in u then
      var k := IndexOf(u, '.');
      IsDigits(u[..k]) && IsDigits(u[k + 1..])
    else IsDigits(u)
  }

  /** `Number(s)` when it is an integer: JavaScript trims `s`, reads the empty
      string as 0 and an optionally signed run of digits as its value. Every
      other string (NaN, a fraction, hexadecimal, an exponent, `Infinity`) is
      `None`. */
  function ParseInteger(s: string): (r: Option<int>)
    ensures Trim(s) == "" ==> r == Some(0)
    ensures r.Some? && Trim(s) != "" ==> IsDigit(Trim(s)[|Trim(s)| - 1])
  {
    var t := Trim(s);
    if t == "" then Some(0)
    else if (t[0] == '-' || t[0] == '+') && IsDigits(t[1..]) then
      var v: int := DigitsValue(t[1..]);
      Some(if t[0] == '-' then -v else v)
    else if IsDigits(t) then Some(DigitsValue(t))
    else None
  }

  lemma TrimDigits(t: string)
    requires IsDigits(t) || (|t| > 0 && t[0] == '-' && IsDigits(t[1..]))
    ensures Trim(t) == t
  {
    assert !IsJsWhitespace(t[0]) && !IsJsWhitespace(t[|t| - 1]);
  }

  /** `Number(String(n)) === n`: printing an integer and reading it back is the identity. */
  lemma ParseIntToString(n: int)
    ensures ParseInteger(IntToString(n)) == Some(n)
  {
    var t := IntToString(n);
    if n < 0 {
      var d := NatToString(-n);
      assert t == "-" + d && t[1..] == d;
      TrimDigits(t);
      assert t[0] == '-' && IsDigits(t[1..]);
    } else {
      TrimDigits(t);
      assert IsDigit(t[0]);
      assert !(t[0] == '-' || t[0] == '+');
    }
  }

  function LowerAscii(c: char): char {
    if 'A' <= c <= 'Z' then (c as int + 32) as char else c
  }

  function UpperAscii(c: char): char {
    if 'a' <= c <= 'z' then (c as int - 32) as char else c
  }

  /** `a.toLowerCase() === b` for the lower-case ASCII words the source
      compares with (`"null"`): no code point outside ASCII lower-cases to
      `n`, `u` or `l`, so ASCII folding decides the comparison exactly. */
  predicate LowerEquals(a: string, b: string) {
    |a| == |b| && forall i :: 0 <= i < |a| ==> LowerAscii(a[i]) == b[i]
  }

  /** `a.toUpperCase() === b` for the upper-case ASCII words the source
      compares with (`"YEAR_"`): no code point outside ASCII upper-cases to
      `Y`, `E`, `A`, `R` or `_`. */
  predicate UpperEquals(a: string, b: string) {
    |a| == |b| && forall i :: 0 <= i < |a| ==> UpperAscii(a[i]) == b[i]
  }
}
