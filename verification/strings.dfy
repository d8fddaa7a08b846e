/** The Python string primitives the application relies on: `str.isspace`,
    `str.strip()`, `q in s`, `str.count(q)`, ASCII `str.lower()` and the decimal
    rendering of a non-negative `int`. Strings are sequences of Unicode scalar values,
    as Python's `str` is a sequence of code points. */
module Strings {

  /** Characters for which Python's `str.isspace()` holds; a Unicode regular
      expression's `\s` matches exactly these. */
  predicate IsSpace(c: char) {
    || ('\U{0009}' <= c <= '\U{000D}')
    || ('\U{001C}' <= c <= '\U{0020}')
    || c == '\U{0085}' || c == '\U{00A0}' || c == '\U{1680}'
    || ('\U{2000}' <= c <= '\U{200A}')
    || c == '\U{2028}' || c == '\U{2029}' || c == '\U{202F}' || c == '\U{205F}'
    || c == '\U{3000}'
  }

  predicate AllSpace(s: string) {
    forall i :: 0 <= i < |s| ==> IsSpace(s[i])
  }

  /** Length of the longest whitespace prefix of `s`. */
  function LeadingSpace(s: string): (n: nat)
    ensures n <= |s|
    ensures forall i :: 0 <= i < n ==> IsSpace(s[i])
    ensures n < |s| ==> !IsSpace(s[n])
    decreases |s|
  {
    if s == [] || !IsSpace(s[0]) then 0 else 1 + LeadingSpace(s[1..])
  }

  /** Length of the longest whitespace suffix of `s`. */
  function TrailingSpace(s: string): (n: nat)
    ensures n <= |s|
    ensures forall i :: |s| - n <= i < |s| ==> IsSpace(s[i])
    ensures n < |s| ==> !IsSpace(s[|s| - 1 - n])
    decreases |s|
  {
    if s == [] || !IsSpace(s[|s| - 1]) then 0 else 1 + TrailingSpace(s[..|s| - 1])
  }

  /** Python's `s.strip()`: `s` without its leading and trailing whitespace. */
  function Strip(s: string): (r: string)
    ensures r == [] <==> AllSpace(s)
    ensures r != [] ==> !IsSpace(r[0]) && !IsSpace(r[|r| - 1])
    ensures |r| <= |s|
  {
    var a := LeadingSpace(s);
    if a == |s| then []
    else
      var b := TrailingSpace(s);
      assert !IsSpace(s[a]);
      s[a..|s| - b]
  }

  /** Strip removes exactly the surrounding whitespace: for any split of a string into
      whitespace, a core that neither starts nor ends with whitespace, and whitespace,
      the result is that core. */
  lemma StripOf(pre: string, core: string, post: string)
    requires AllSpace(pre) && AllSpace(post)
    requires core == [] || (!IsSpace(core[0]) && !IsSpace(core[|core| - 1]))
    ensures Strip(pre + core + post) == core
  {
    var s := pre + core + post;
    if core == [] {
      assert s == pre + post;
      assert AllSpace(s) by {
        forall i | 0 <= i < |s|
          ensures IsSpace(s[i])
        {
          if i < |pre| { assert s[i] == pre[i]; } else { assert s[i] == post[i - |pre|]; }
        }
      }
    } else {
      var a := LeadingSpace(s);
      assert s[|pre|] == core[0];
      assert a == |pre|;
      var b := TrailingSpace(s);
      assert s[|s| - 1 - |post|] == core[|core| - 1];
      assert b == |post|;
      assert s[a..|s| - b] == core;
    }
  }

  predicate IsPrefix(p: string, s: string) {
    |p| <= |s| && s[..|p|] == p
  }

  /** `q` occurs in `s` starting at index `i`. */
  predicate OccursAt(s: string, q: string, i: int) {
    0 <= i && i + |q| <= |s| && s[i..i + |q|] == q
  }

  /** Python's `q in s` for strings. */
  predicate Contains(s: string, q: string)
    decreases |s|
  {
    IsPrefix(q, s) || (s != [] && Contains(s[1..], q))
  }

  /** `Contains` agrees with the positional reading of a substring test. */
  lemma {:induction false} ContainsIff(s: string, q: string)
    ensures Contains(s, q) <==> exists i :: OccursAt(s, q, i)
    decreases |s|
  {
    if s != [] {
      ContainsIff(s[1..], q);
      if Contains(s[1..], q) {
        var i :| OccursAt(s[1..], q, i);
        assert s[1..][i..i + |q|] == s[i + 1..i + 1 + |q|];
        assert OccursAt(s, q, i + 1);
      }
      if i :| OccursAt(s, q, i) {
        if i > 0 {
          assert s[1..][i - 1..i - 1 + |q|] == s[i..i + |q|];
          assert OccursAt(s[1..], q, i - 1);
        } else {
          assert IsPrefix(q, s);
        }
      }
    } else {
      if i :| OccursAt(s, q, i) {
        assert IsPrefix(q, s);
      }
    }
    if IsPrefix(q, s) {
      assert OccursAt(s, q, 0);
    }
  }

  lemma {:induction false} NotContainsLonger(s: string, q: string)
    requires |s| < |q|
    ensures !Contains(s, q)
    decreases |s|
  {
    if s != [] {
      NotContainsLonger(s[1..], q);
    }
  }

  /** Python's `s.count(q)`: occurrences of `q` found scanning left to right, each
      search resuming after the previous match, so matches never overlap; an empty
      `q` is counted at every one of the |s| + 1 positions. */
  function CountOccurrences(s: string, q: string): (n: nat)
    ensures q == [] ==> n == |s| + 1
    ensures q != [] ==> (n > 0 <==> Contains(s, q))
    ensures q != [] ==> n * |q| <= |s|
    decreases |s|
  {
    if q == [] then |s| + 1
    else if |s| < |q| then NotContainsLonger(s, q); 0
    else if IsPrefix(q, s) then
      var m := CountOccurrences(s[|q|..], q);
      MulStep(m, |q|, |s| - |q|);
      1 + m
    else
      assert Contains(s, q) <==> Contains(s[1..], q);
      CountOccurrences(s[1..], q)
  }

  lemma MulStep(m: nat, k: nat, rest: nat)
    requires m * k <= rest
    ensures (1 + m) * k <= rest + k
  {
  }

  /** The count is found the way Python's search proceeds: it jumps to the leftmost
      occurrence, counts it, and continues after its end. */
  lemma {:induction false} CountFromLeftmost(s: string, q: string, i: nat)
    requires q != []
    requires OccursAt(s, q, i)
    requires forall j :: 0 <= j < i ==> !OccursAt(s, q, j)
    ensures CountOccurrences(s, q) == 1 + CountOccurrences(s[i + |q|..], q)
    decreases i
  {
    if i == 0 {
      assert IsPrefix(q, s);
    } else {
      assert !OccursAt(s, q, 0);
      assert !IsPrefix(q, s);
      assert s[1..][i - 1..i - 1 + |q|] == s[i..i + |q|];
      forall j | 0 <= j < i - 1
        ensures !OccursAt(s[1..], q, j)
      {
        assert s[1..][j..j + |q|] == s[j + 1..j + 1 + |q|];
        assert !OccursAt(s, q, j + 1);
      }
      CountFromLeftmost(s[1..], q, i - 1);
      assert s[1..][i - 1 + |q|..] == s[i + |q|..];
    }
  }

  predicate IsAsciiUpper(c: char) {
    'A' <= c <= 'Z'
  }

  function AsciiLowerChar(c: char): char {
    if IsAsciiUpper(c) then (c as int + 32) as char else c
  }

  /** `s.lower()` restricted to the ASCII letters. */
  function AsciiLower(s: string): (r: string)
    ensures |r| == |s|
    ensures forall i :: 0 <= i < |r| ==> !IsAsciiUpper(r[i])
    ensures forall i :: 0 <= i < |r| ==> (r[i] == s[i] <==> !IsAsciiUpper(s[i]))
    ensures forall i :: 0 <= i < |s| && IsAsciiUpper(s[i]) ==> r[i] as int == s[i] as int + 32
  {
    seq(|s|, i requires 0 <= i < |s| => AsciiLowerChar(s[i]))
  }

  function DigitChar(d: nat): char
    requires d < 10
  {
    "0123456789"[d]
  }

  predicate IsDigit(c: char) {
    '0' <= c <= '9'
  }

  function DigitValue(c: char): nat
    requires IsDigit(c)
  {
    c as int - '0' as int
  }

  /** Python's `str(n)` for a non-negative integer: its decimal digits, most
      significant first, without leading zeros. */
  function Decimal(n: nat): (r: string)
    ensures r != []
    ensures forall i :: 0 <= i < |r| ==> IsDigit(r[i])
    ensures r[0] == '0' <==> n == 0
    ensures n == 0 ==> r == "0"
    decreases n
  {
    if n < 10 then [DigitChar(n)] else Decimal(n / 10) + [DigitChar(n % 10)]
  }

  /** The number a string of decimal digits denotes. */
  function DecimalValue(r: string): nat
    requires forall i :: 0 <= i < |r| ==> IsDigit(r[i])
    decreases |r|
  {
    if r == [] then 0 else 10 * DecimalValue(r[..|r| - 1]) + DigitValue(r[|r| - 1])
  }

  /** Reading back the decimal rendering gives the number. */
  lemma {:induction false} DecimalRoundTrip(n: nat)
    ensures DecimalValue(Decimal(n)) == n
    decreases n
  {
    var r := Decimal(n);
    if n >= 10 {
      DecimalRoundTrip(n / 10);
      assert r[..|r| - 1] == Decimal(n / 10);
    }
  }
}
