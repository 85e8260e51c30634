/**
 * The string behaviour of the JavaScript runtime that the app relies on:
 * `String.prototype.trim`, the relational `<` on strings, the decimal text
 * of an integer (`Number.prototype.toString`) and `String.prototype.padStart`.
 * Strings are sequences of characters; a character stands for one code unit.
 */
module JsText {

  // ---------------------------------------------------------------------------
  // Trimming
  // ---------------------------------------------------------------------------

  /** The WhiteSpace and LineTerminator code points of ECMAScript: what `trim` strips. */
  predicate IsWhiteSpace(c: char) {
    || c == '\t' || c == '\n' || c == '\U{000B}' || c == '\U{000C}' || c == '\r' || c == ' '
    || c == '\U{00A0}' || c == '\U{1680}' || ('\U{2000}' <= c <= '\U{200A}')
    || c == '\U{2028}' || c == '\U{2029}' || c == '\U{202F}' || c == '\U{205F}'
    || c == '\U{3000}' || c == '\U{FEFF}'
  }

  predicate AllWhiteSpace(s: string) {
    forall k :: 0 <= k < |s| ==> IsWhiteSpace(s[k])
  }

  /** Drops the leading white space. */
  function TrimStart(s: string): string {
    if s != [] && IsWhiteSpace(s[0]) then TrimStart(s[1..]) else s
  }

  /** What `TrimStart` drops is white space, and what it keeps is a suffix of `s` that does not start with white space. */
  lemma {:induction false} TrimStartSpec(s: string)
    ensures |TrimStart(s)| <= |s| && TrimStart(s) == s[|s| - |TrimStart(s)|..]
    ensures AllWhiteSpace(s[..|s| - |TrimStart(s)|])
    ensures TrimStart(s) == [] || !IsWhiteSpace(TrimStart(s)[0])
  {
    if s != [] && IsWhiteSpace(s[0]) {
      TrimStartSpec(s[1..]);
      var r := TrimStart(s[1..]);
      assert s[1..][|s| - 1 - |r|..] == s[|s| - |r|..];
      assert s[..|s| - |r|] == [s[0]] + s[1..][..|s| - 1 - |r|];
    }
  }

  /** Drops the trailing white space. */
  function TrimEnd(s: string): string {
    if s != [] && IsWhiteSpace(s[|s| - 1]) then TrimEnd(s[..|s| - 1]) else s
  }

  /** What `TrimEnd` drops is white space, and what it keeps is a prefix of `s` that does not end with white space. */
  lemma {:induction false} TrimEndSpec(s: string)
    ensures |TrimEnd(s)| <= |s| && TrimEnd(s) == s[..|TrimEnd(s)|]
    ensures AllWhiteSpace(s[|TrimEnd(s)|..])
    ensures TrimEnd(s) == [] || !IsWhiteSpace(TrimEnd(s)[|TrimEnd(s)| - 1])
  {
    if s != [] && IsWhiteSpace(s[|s| - 1]) {
      var u := s[..|s| - 1];
      TrimEndSpec(u);
      var r := TrimEnd(u);
      assert u[..|r|] == s[..|r|];
      assert s[|r|..] == u[|r|..] + [s[|s| - 1]];
    }
  }

  /** `s.trim()`: what is left after removing white space at both ends. */
  function Trim(s: string): string {
    TrimEnd(TrimStart(s))
  }

  /**
   * `trim()` keeps the slice of `s` between its leading and its trailing
   * white space, and that slice neither starts nor ends with white space; it
   * is empty exactly when `s` is all white space (the `!x.trim()` test of
   * the forms).
   */
  lemma TrimSpec(s: string)
    ensures |Trim(s)| <= |TrimStart(s)| <= |s| && Trim(s) == s[|s| - |TrimStart(s)|..][..|Trim(s)|]
    ensures AllWhiteSpace(s[..|s| - |TrimStart(s)|]) && AllWhiteSpace(s[|s| - |TrimStart(s)|..][|Trim(s)|..])
    ensures Trim(s) != [] ==> !IsWhiteSpace(Trim(s)[0]) && !IsWhiteSpace(Trim(s)[|Trim(s)| - 1])
    ensures Trim(s) == [] <==> AllWhiteSpace(s)
  {
    TrimStartSpec(s);
    TrimEndSpec(TrimStart(s));
    TrimEmpty(s);
  }

  lemma TrimEmpty(s: string)
    ensures TrimEnd(TrimStart(s)) == [] <==> AllWhiteSpace(s)
  {
    TrimStartSpec(s);
    var t := TrimStart(s);
    TrimEndSpec(t);
    var i := |s| - |t|;
    assert s == s[..i] + t;
    if t != [] {
      assert t[0] == s[i];
    }
  }

  /** Trimming twice is trimming once. */
  lemma TrimIdempotent(s: string)
    ensures Trim(Trim(s)) == Trim(s)
  {
    TrimSpec(s);
    var r := Trim(s);
    assert TrimStart(r) == r;
    assert TrimEnd(r) == r;
  }

  // ---------------------------------------------------------------------------
  // The relational comparison `a < b` on strings
  // ---------------------------------------------------------------------------

  /**
   * `a < b` for strings (IsLessThan in section 7.2.13 of ECMA-262): `a` is a
   * proper prefix of `b`, or at the first position where they differ the
   * character of `a` is smaller.
   */
  predicate LexLess(a: string, b: string) {
    b != [] && (a == [] || a[0] < b[0] || (a[0] == b[0] && LexLess(a[1..], b[1..])))
  }

  /** `a <= b` for strings. */
  predicate LexLessEq(a: string, b: string) {
    !LexLess(b, a)
  }

  lemma {:induction false} LexLessIrreflexive(a: string)
    ensures !LexLess(a, a)
  {
    if a != [] { LexLessIrreflexive(a[1..]); }
  }

  lemma {:induction false} LexLessAsymmetric(a: string, b: string)
    ensures !(LexLess(a, b) && LexLess(b, a))
  {
    if a != [] && b != [] && a[0] == b[0] { LexLessAsymmetric(a[1..], b[1..]); }
  }

  lemma {:induction false} LexLessTransitive(a: string, b: string, c: string)
    requires LexLess(a, b) && LexLess(b, c)
    ensures LexLess(a, c)
  {
    if a != [] && a[0] == b[0] && b[0] == c[0] { LexLessTransitive(a[1..], b[1..], c[1..]); }
  }

  /** Any two strings are ordered one way or the other, or are equal. */
  lemma {:induction false} LexTrichotomy(a: string, b: string)
    ensures LexLess(a, b) || a == b || LexLess(b, a)
  {
    if a != [] && b != [] && a[0] == b[0] {
      LexTrichotomy(a[1..], b[1..]);
      assert a == [a[0]] + a[1..] && b == [b[0]] + b[1..];
    }
  }

  /** `<=` on strings is a total preorder: transitive and total. */
  lemma LexLessEqTransitive(a: string, b: string, c: string)
    requires LexLessEq(a, b) && LexLessEq(b, c)
    ensures LexLessEq(a, c)
  {
    if LexLess(c, a) {
      LexTrichotomy(a, b);
      if LexLess(a, b) { LexLessTransitive(c, a, b); }
    }
  }

  lemma LexLessEqTotal(a: string, b: string)
    ensures LexLessEq(a, b) || LexLessEq(b, a)
  {
    LexLessAsymmetric(a, b);
  }

  lemma LexLessEqAntisymmetric(a: string, b: string)
    requires LexLessEq(a, b) && LexLessEq(b, a)
    ensures a == b
  {
    LexTrichotomy(a, b);
  }

  /** Comparing two strings whose first parts have the same length compares those parts first. */
  lemma {:induction false} LexLessAppend(x1: string, y1: string, x2: string, y2: string)
    requires |x1| == |x2|
    ensures LexLess(x1 + y1, x2 + y2) <==> LexLess(x1, x2) || (x1 == x2 && LexLess(y1, y2))
  {
    if x1 != [] {
      assert (x1 + y1)[0] == x1[0] && (x2 + y2)[0] == x2[0];
      assert (x1 + y1)[1..] == x1[1..] + y1 && (x2 + y2)[1..] == x2[1..] + y2;
      LexLessAppend(x1[1..], y1, x2[1..], y2);
      if x1[0] == x2[0] {
        assert x1 == x2 <==> x1[1..] == x2[1..] by {
          assert x1 == [x1[0]] + x1[1..] && x2 == [x2[0]] + x2[1..];
        }
      }
    } else {
      assert x1 + y1 == y1 && x2 + y2 == y2;
    }
  }

  // ---------------------------------------------------------------------------
  // Decimal digits
  // ---------------------------------------------------------------------------

  predicate IsDigit(c: char) {
    '0' <= c <= '9'
  }

  predicate AllDigits(s: string) {
    forall k :: 0 <= k < |s| ==> IsDigit(s[k])
  }

  function DigitValue(c: char): (d: nat)
    requires IsDigit(c)
    ensures d < 10
  {
    c as int - '0' as int
  }

  function DigitChar(d: nat): (c: char)
    requires d < 10
    ensures IsDigit(c) && DigitValue(c) == d
  {
    ('0' as int + d) as char
  }

  function Pow10(k: nat): (p: nat)
    ensures p >= 1
  {
    if k == 0 then 1 else 10 * Pow10(k - 1)
  }

  /** The number a string of decimal digits denotes (leading zeros allowed). */
  function DecimalValue(s: string): (n: nat)
    requires AllDigits(s)
    ensures n < Pow10(|s|)
  {
    if s == [] then 0 else DecimalValue(s[..|s| - 1]) * 10 + DigitValue(s[|s| - 1])
  }

  /**
   * The decimal text of a non-negative integer, as `Number.prototype.toString`
   * writes it: digits only, never empty, no leading zero except for `0` itself.
   */
  function DecimalDigits(n: nat): (s: string)
    ensures |s| >= 1 && AllDigits(s)
    ensures s[0] == '0' ==> n == 0 && s == "0"
  {
    if n < 10 then [DigitChar(n)] else DecimalDigits(n / 10) + [DigitChar(n % 10)]
  }

  /** Reading the decimal text back gives the number: the text is a faithful serialisation. */
  lemma {:induction false} DecimalDigitsValue(n: nat)
    ensures DecimalValue(DecimalDigits(n)) == n
  {
    if n >= 10 {
      DecimalDigitsValue(n / 10);
      var s := DecimalDigits(n);
      assert s[..|s| - 1] == DecimalDigits(n / 10);
    }
  }

  /** The text has at most `k` digits exactly when the number is below 10^k. */
  lemma {:induction false} DecimalDigitsLength(n: nat, k: nat)
    requires k >= 1
    ensures |DecimalDigits(n)| <= k <==> n < Pow10(k)
  {
    if n >= 10 {
      if k == 1 {
        assert |DecimalDigits(n / 10)| >= 1;
      } else {
        DecimalDigitsLength(n / 10, k - 1);
      }
    }
  }

  /** `Math.round(x).toString()` for an integer: a minus sign, then the digits of the magnitude. */
  function IntText(i: int): string {
    if i < 0 then "-" + DecimalDigits(-i) else DecimalDigits(i)
  }

  /** The last `k` decimal digits of `n`, zero-padded: the fields of a `YYYY-MM-DD` date. */
  function FixedDigits(n: nat, k: nat): (s: string)
    ensures |s| == k && AllDigits(s)
  {
    if k == 0 then [] else FixedDigits(n / 10, k - 1) + [DigitChar(n % 10)]
  }

  lemma {:induction false} FixedDigitsValue(n: nat, k: nat)
    requires n < Pow10(k)
    ensures DecimalValue(FixedDigits(n, k)) == n
  {
    if k > 0 {
      FixedDigitsValue(n / 10, k - 1);
      var init, last := FixedDigits(n / 10, k - 1), DigitChar(n % 10);
      var s := init + [last];
      assert FixedDigits(n, k) == s;
      assert s[..|s| - 1] == init && s[|s| - 1] == last;
      assert DecimalValue(s) == DecimalValue(init) * 10 + n % 10;
    }
  }

  lemma {:induction false} FixedDigitsOfValue(s: string)
    requires AllDigits(s)
    ensures FixedDigits(DecimalValue(s), |s|) == s
  {
    if s != [] {
      var init, last := s[..|s| - 1], s[|s| - 1];
      FixedDigitsOfValue(init);
      var m, d := DecimalValue(init), DigitValue(last);
      var n := DecimalValue(s);
      assert n == m * 10 + d;
      DivModTen(m, d);
      assert DigitChar(d) == last;
      calc {
        FixedDigits(n, |s|);
        FixedDigits(n / 10, |s| - 1) + [DigitChar(n % 10)];
        FixedDigits(m, |init|) + [last];
        init + [last];
        s;
      }
    }
  }

  lemma DivModTen(m: nat, d: nat)
    requires d < 10
    ensures (m * 10 + d) / 10 == m && (m * 10 + d) % 10 == d
  {
  }

  /** Numbers compare as their leading digits do, and then as their last digits. */
  lemma LastDigitOrder(a: nat, b: nat)
    ensures a < b <==> a / 10 < b / 10 || (a / 10 == b / 10 && a % 10 < b % 10)
    ensures a == b <==> a / 10 == b / 10 && a % 10 == b % 10
  {
  }

  /** Two fixed-width digit strings compare as strings the way their numbers compare. */
  lemma {:induction false} FixedDigitsOrder(a: nat, b: nat, k: nat)
    requires a < Pow10(k) && b < Pow10(k)
    ensures LexLess(FixedDigits(a, k), FixedDigits(b, k)) <==> a < b
    ensures FixedDigits(a, k) == FixedDigits(b, k) <==> a == b
  {
    if k > 0 {
      FixedDigitsOrder(a / 10, b / 10, k - 1);
      var p, q := FixedDigits(a / 10, k - 1), FixedDigits(b / 10, k - 1);
      var c, d := DigitChar(a % 10), DigitChar(b % 10);
      assert FixedDigits(a, k) == p + [c] && FixedDigits(b, k) == q + [d];
      LexLessAppend(p, [c], q, [d]);
      assert LexLess([c], [d]) <==> c < d;
      assert p + [c] == q + [d] <==> p == q && c == d by {
        if p + [c] == q + [d] {
          assert (p + [c])[..|p|] == p && (q + [d])[..|q|] == q;
          assert (p + [c])[|p|] == c && (q + [d])[|q|] == d;
        }
      }
      LastDigitOrder(a, b);
    }
  }

  /** `s.padStart(targetLength, pad)` with a one-character filler. */
  function PadStart(s: string, targetLength: nat, pad: char): (r: string)
    ensures |r| == if |s| < targetLength then targetLength else |s|
    ensures r[|r| - |s|..] == s
    ensures forall k :: 0 <= k < |r| - |s| ==> r[k] == pad
  {
    if |s| < targetLength then seq(targetLength - |s|, _ => pad) + s else s
  }

  lemma {:induction false} DecimalValueZeros(z: string, s: string)
    requires AllDigits(s) && forall k :: 0 <= k < |z| ==> z[k] == '0'
    ensures AllDigits(z + s) && DecimalValue(z + s) == DecimalValue(s)
  {
    if s == [] {
      assert z + s == z;
      ZerosValue(z);
    } else {
      var t := z + s;
      assert t[..|t| - 1] == z + s[..|s| - 1];
      DecimalValueZeros(z, s[..|s| - 1]);
    }
  }

  lemma {:induction false} ZerosValue(z: string)
    requires forall k :: 0 <= k < |z| ==> z[k] == '0'
    ensures AllDigits(z) && DecimalValue(z) == 0
  {
    if z != [] { ZerosValue(z[..|z| - 1]); }
  }

  /** Zero-padding the decimal text of `n` to `k` places gives its `k` fixed digits. */
  lemma PadStartDigits(n: nat, k: nat)
    requires 1 <= k && n < Pow10(k)
    ensures PadStart(DecimalDigits(n), k, '0') == FixedDigits(n, k)
  {
    var s := DecimalDigits(n);
    DecimalDigitsLength(n, k);
    var zeros: string := seq(k - |s|, _ => '0');
    var r := zeros + s;
    assert PadStart(s, k, '0') == r by {
      if |s| == k { assert zeros == []; }
    }
    DecimalValueZeros(zeros, s);
    DecimalDigitsValue(n);
    FixedDigitsOfValue(r);
  }

  /** A four-digit year needs no padding: its text is its four fixed digits. */
  lemma FourDigitText(n: nat)
    requires 1000 <= n < 10000
    ensures IntText(n) == FixedDigits(n, 4)
  {
    DecimalDigitsLength(n, 4);
    DecimalDigitsLength(n, 3);
    DecimalDigitsValue(n);
    FixedDigitsOfValue(DecimalDigits(n));
  }
}
