/**
 * `formatAmount` (utils/formatters.ts): round to the nearest integer, write
 * it in decimal, then put a `,` at every position the regular expression
 * `/\B(?=(\d{3})+(?!\d))/g` matches.
 */
module Formatters {
  import opened JsText

  /** `Math.round`: the nearest integer, halves going toward +infinity. */
  function Round(x: real): (n: int)
    ensures n as real <= x + 0.5 < n as real + 1.0
  {
    (x + 0.5).Floor
  }

  /** The characters `\w` matches, which decide where `\b` and `\B` hold. */
  predicate IsWordChar(c: char) {
    ('a' <= c <= 'z') || ('A' <= c <= 'Z') || IsDigit(c) || c == '_'
  }

  /** The length of the run of digits that starts at position `p`. */
  function DigitRun(s: string, p: nat): (n: nat)
    requires p <= |s|
    ensures n <= |s| - p
    decreases |s| - p
  {
    if p < |s| && IsDigit(s[p]) then 1 + DigitRun(s, p + 1) else 0
  }

  /**
   * The empty match of `\B(?=(\d{3})+(?!\d))` at position `p`: not a word
   * boundary, and the digits that follow come in whole groups of three.
   */
  predicate SeparatorAt(s: string, p: nat)
    requires p <= |s|
  {
    var wordBefore := p > 0 && IsWordChar(s[p - 1]);
    var wordAfter := p < |s| && IsWordChar(s[p]);
    && wordBefore == wordAfter
    && DigitRun(s, p) > 0 && DigitRun(s, p) % 3 == 0
  }

  /** `s.replace(/\B(?=(\d{3})+(?!\d))/g, ',')`, from position `p` on. */
  function InsertSeparatorsFrom(s: string, p: nat): string
    requires p <= |s|
    decreases |s| - p
  {
    if p == |s| then []
    else (if SeparatorAt(s, p) then "," else "") + [s[p]] + InsertSeparatorsFrom(s, p + 1)
  }

  function InsertSeparators(s: string): string {
    InsertSeparatorsFrom(s, 0)
  }

  /** `formatAmount(amount)`. */
  function FormatAmount(amount: real): string {
    InsertSeparators(IntText(Round(amount)))
  }

  /** The inverse direction: drop every `,`. */
  function StripSeparators(t: string): (s: string)
    ensures |s| <= |t|
  {
    if t == [] then []
    else (if t[0] == ',' then [] else [t[0]]) + StripSeparators(t[1..])
  }

  /**
   * Digit groups as they are written: a first group of one to three digits,
   * then any number of groups of exactly three, each after a `,`.
   */
  predicate Grouped(t: string)
    decreases |t|
  {
    || (1 <= |t| <= 3 && AllDigits(t))
    || (|t| >= 5 && t[|t| - 4] == ',' && AllDigits(t[|t| - 3..]) && Grouped(t[..|t| - 4]))
  }

  // ---------------------------------------------------------------------------
  // Where the expression matches in a string of digits
  // ---------------------------------------------------------------------------

  lemma {:induction false} DigitRunOfDigits(d: string, p: nat)
    requires AllDigits(d) && p <= |d|
    ensures DigitRun(d, p) == |d| - p
    decreases |d| - p
  {
    if p < |d| { DigitRunOfDigits(d, p + 1); }
  }

  lemma SeparatorInDigits(d: string, p: nat)
    requires AllDigits(d) && p <= |d|
    ensures SeparatorAt(d, p) <==> 0 < p < |d| && (|d| - p) % 3 == 0
  {
    DigitRunOfDigits(d, p);
  }

  lemma StripCons(c: char, t: string)
    ensures StripSeparators([c] + t) == (if c == ',' then [] else [c]) + StripSeparators(t)
  {
    assert ([c] + t)[0] == c && ([c] + t)[1..] == t;
  }

  /** A string without `,` comes back from the inserted separators unchanged. */
  lemma {:induction false} StripInsert(s: string, p: nat)
    requires p <= |s| && forall k :: 0 <= k < |s| ==> s[k] != ','
    ensures StripSeparators(InsertSeparatorsFrom(s, p)) == s[p..]
    decreases |s| - p
  {
    if p < |s| {
      var rest := InsertSeparatorsFrom(s, p + 1);
      var tail := [s[p]] + rest;
      assert StripSeparators(tail) == s[p..] by {
        StripInsert(s, p + 1);
        StripCons(s[p], rest);
        assert s[p..] == [s[p]] + s[p + 1..];
      }
      assert StripSeparators(InsertSeparatorsFrom(s, p)) == StripSeparators(tail) by {
        if SeparatorAt(s, p) {
          assert InsertSeparatorsFrom(s, p) == [','] + tail;
          StripCons(',', tail);
        } else {
          assert InsertSeparatorsFrom(s, p) == tail;
        }
      }
    }
  }

  /** At most three digits get no separator. */
  lemma {:induction false} ShortDigitsUnchanged(d: string, p: nat)
    requires AllDigits(d) && |d| <= 3 && p <= |d|
    ensures InsertSeparatorsFrom(d, p) == d[p..]
    decreases |d| - p
  {
    if p < |d| {
      SeparatorInDigits(d, p);
      ShortDigitsUnchanged(d, p + 1);
      assert d[p..] == [d[p]] + d[p + 1..];
    }
  }

  lemma AllDigitsAppend(a: string, b: string)
    requires AllDigits(a) && AllDigits(b)
    ensures AllDigits(a + b)
  {
    var d := a + b;
    forall k | 0 <= k < |d| ensures IsDigit(d[k]) {
      if k < |a| { assert d[k] == a[k]; } else { assert d[k] == b[k - |a|]; }
    }
  }

  /** The last group of three digits, with the separator in front of it. */
  lemma LastGroup(d: string, b: string)
    requires AllDigits(d) && |d| >= 4 && b == d[|d| - 3..]
    ensures InsertSeparatorsFrom(d, |d| - 3) == "," + b
  {
    var p := |d| - 3;
    var last := InsertSeparatorsFrom(d, p + 2);
    assert last == [d[p + 2]] by {
      SeparatorInDigits(d, p + 2);
      assert InsertSeparatorsFrom(d, p + 3) == [];
    }
    var middle := InsertSeparatorsFrom(d, p + 1);
    assert middle == [d[p + 1]] + last by {
      SeparatorInDigits(d, p + 1);
    }
    assert InsertSeparatorsFrom(d, p) == "," + [d[p]] + middle by {
      SeparatorInDigits(d, p);
    }
    assert b == [d[p], d[p + 1], d[p + 2]];
  }

  /** The last three digits of a longer number form a group of their own. */
  lemma {:induction false} SplitLastGroup(a: string, b: string, p: nat)
    requires AllDigits(a) && AllDigits(b) && |a| >= 1 && |b| == 3 && p <= |a|
    ensures AllDigits(a + b)
    ensures InsertSeparatorsFrom(a + b, p) == InsertSeparatorsFrom(a, p) + "," + b
    decreases |a| - p
  {
    var d := a + b;
    AllDigitsAppend(a, b);
    if p == |a| {
      assert d[|d| - 3..] == b;
      LastGroup(d, b);
    } else {
      var sep := if SeparatorAt(a, p) then "," else "";
      assert InsertSeparatorsFrom(d, p) == sep + [a[p]] + InsertSeparatorsFrom(d, p + 1) by {
        SeparatorInDigits(d, p);
        SeparatorInDigits(a, p);
        assert d[p] == a[p];
      }
      assert InsertSeparatorsFrom(d, p + 1) == InsertSeparatorsFrom(a, p + 1) + "," + b by {
        SplitLastGroup(a, b, p + 1);
      }
      assert InsertSeparatorsFrom(a, p) == sep + [a[p]] + InsertSeparatorsFrom(a, p + 1);
    }
  }

  /** Separating a string of digits writes it as digit groups. */
  lemma {:induction false} InsertSeparatorsGrouped(d: string)
    requires AllDigits(d) && |d| >= 1
    ensures Grouped(InsertSeparators(d))
    decreases |d|
  {
    if |d| <= 3 {
      ShortDigitsUnchanged(d, 0);
    } else {
      var a, b := d[..|d| - 3], d[|d| - 3..];
      assert d == a + b;
      SplitLastGroup(a, b, 0);
      InsertSeparatorsGrouped(a);
      var t := InsertSeparators(d);
      var g := InsertSeparators(a);
      assert t == g + "," + b;
      assert t[..|t| - 4] == g && t[|t| - 4] == ',' && t[|t| - 3..] == b;
    }
  }

  /** A leading `-` is not a word character, so no separator follows it. */
  lemma {:induction false} InsertAfterSign(d: string, p: nat)
    requires AllDigits(d) && 1 <= p <= |d| + 1
    ensures InsertSeparatorsFrom("-" + d, p) == InsertSeparatorsFrom(d, p - 1)
    decreases |d| + 1 - p
  {
    var s := "-" + d;
    if p <= |d| {
      InsertAfterSign(d, p + 1);
      assert s[p] == d[p - 1];
      assert DigitRun(s, p) == DigitRun(d, p - 1) by {
        DigitRunOfDigits(d, p - 1);
        assert AllDigits(s[1..]) by { assert s[1..] == d; }
        DigitRunShift(s, p);
      }
      assert p > 1 ==> s[p - 1] == d[p - 2];
    }
  }

  lemma {:induction false} DigitRunShift(s: string, p: nat)
    requires 1 <= p <= |s| && AllDigits(s[1..])
    ensures DigitRun(s, p) == |s| - p
    decreases |s| - p
  {
    if p < |s| {
      assert s[p] == s[1..][p - 1];
      DigitRunShift(s, p + 1);
    }
  }

  // ---------------------------------------------------------------------------
  // What `formatAmount` promises
  // ---------------------------------------------------------------------------

  function Magnitude(n: int): nat {
    if n < 0 then -n else n
  }

  /**
   * The output is the sign of `Math.round(amount)`, if negative, followed by
   * the digits of its magnitude written as digit groups; removing the commas
   * gives back `Math.round(amount).toString()`.
   */
  lemma FormatAmountShape(amount: real)
    ensures var n := Round(amount); var t := FormatAmount(amount);
      var g := InsertSeparators(DecimalDigits(Magnitude(n)));
      && t == (if n < 0 then "-" else "") + g
      && Grouped(g)
      && StripSeparators(g) == DecimalDigits(Magnitude(n))
      && StripSeparators(t) == IntText(n)
  {
    var n := Round(amount);
    var d := DecimalDigits(Magnitude(n));
    InsertSeparatorsGrouped(d);
    StripInsert(d, 0);
    StripInsert(IntText(n), 0);
    if n < 0 {
      InsertAfterSign(d, 1);
      var s := "-" + d;
      assert InsertSeparatorsFrom(s, 0) == "-" + InsertSeparatorsFrom(s, 1) by {
        assert !SeparatorAt(s, 0);
      }
    }
  }

  /** A negative amount is written as `-` and the separated digits of its magnitude. */
  lemma FormatAmountNegative(amount: real)
    requires Round(amount) < 0
    ensures FormatAmount(amount) == "-" + InsertSeparators(DecimalDigits(-Round(amount)))
  {
    var d := DecimalDigits(-Round(amount));
    InsertAfterSign(d, 1);
    assert !SeparatorAt("-" + d, 0);
    assert InsertSeparatorsFrom("-" + d, 0) == "-" + InsertSeparatorsFrom("-" + d, 1);
  }

  /** `formatAmount` writes `Math.round(amount).toString()` and only adds commas to it. */
  lemma FormatAmountStrip(amount: real)
    ensures StripSeparators(FormatAmount(amount)) == IntText(Round(amount))
  {
    FormatAmountShape(amount);
  }

  /** Fewer than four digits: no separator at all. */
  lemma FormatAmountSmall(amount: real)
    requires -1000 < Round(amount) < 1000
    ensures FormatAmount(amount) == IntText(Round(amount))
  {
    var n := Round(amount);
    var d := DecimalDigits(Magnitude(n));
    DecimalDigitsLength(Magnitude(n), 3);
    ShortDigitsUnchanged(d, 0);
    FormatAmountShape(amount);
  }

  /** A negative amount keeps its `-`, and the `-` is never followed by a comma. */
  lemma FormatAmountSign(amount: real)
    ensures var t := FormatAmount(amount);
      Round(amount) < 0 <==> (|t| >= 2 && t[0] == '-' && IsDigit(t[1]))
  {
    var n := Round(amount);
    var t := FormatAmount(amount);
    var g := InsertSeparators(DecimalDigits(Magnitude(n)));
    FormatAmountShape(amount);
    GroupedStartsWithDigit(g);
  }

  lemma {:induction false} GroupedStartsWithDigit(t: string)
    requires Grouped(t)
    ensures |t| >= 1 && IsDigit(t[0])
    decreases |t|
  {
    if !(1 <= |t| <= 3 && AllDigits(t)) {
      GroupedStartsWithDigit(t[..|t| - 4]);
    }
  }

  lemma FormatAmountZero()
    ensures FormatAmount(0.0) == "0"
  {
    FormatAmountSmall(0.0);
  }

  /** Halves round toward +infinity, so -999.5 becomes -999 and keeps three digits. */
  lemma FormatAmountNegativeHalf()
    ensures FormatAmount(-999.5) == "-999"
  {
    assert Round(-999.5) == -999;
    assert DecimalDigits(999) == "999";
    FormatAmountSmall(-999.5);
  }

  lemma DigitsOf1234()
    ensures DecimalDigits(1234) == "1234"
  {
    assert DecimalDigits(12) == "12";
    assert DecimalDigits(123) == "123";
  }

  lemma DigitsOf1234568()
    ensures DecimalDigits(1234568) == "1234568"
  {
    DigitsOf1234();
    assert DecimalDigits(12345) == "12345";
    assert DecimalDigits(123456) == "123456";
  }

  /** Four digits: one, then a group of three. */
  lemma FourDigitGroups(d: string)
    requires AllDigits(d) && |d| == 4
    ensures InsertSeparators(d) == d[..1] + "," + d[1..]
  {
    assert d == d[..1] + d[1..];
    assert InsertSeparators(d) == InsertSeparators(d[..1]) + "," + d[1..] by {
      SplitLastGroup(d[..1], d[1..], 0);
    }
    ShortDigitsUnchanged(d[..1], 0);
  }

  /** Seven digits: one, then two groups of three. */
  lemma SevenDigitGroups(d: string)
    requires AllDigits(d) && |d| == 7
    ensures InsertSeparators(d) == d[..1] + "," + d[1..4] + "," + d[4..]
  {
    var a := d[..4];
    assert d == a + d[4..];
    assert InsertSeparators(d) == InsertSeparators(a) + "," + d[4..] by {
      SplitLastGroup(a, d[4..], 0);
    }
    FourDigitGroups(a);
    assert a[..1] == d[..1] && a[1..] == d[1..4];
  }

  lemma GroupsOf1234(d: string)
    requires d == "1234"
    ensures InsertSeparators(d) == "1,234"
  {
    FourDigitGroups(d);
    assert d[..1] == "1" && d[1..] == "234";
  }

  lemma GroupsOf1234568(d: string)
    requires d == "1234568"
    ensures InsertSeparators(d) == "1,234,568"
  {
    SevenDigitGroups(d);
    assert d[..1] == "1" && d[1..4] == "234" && d[4..] == "568";
  }

  lemma FormatAmountMillions(amount: real)
    requires amount == 1234567.8
    ensures FormatAmount(amount) == "1,234,568"
  {
    assert Round(amount) == 1234568;
    DigitsOf1234568();
    GroupsOf1234568(DecimalDigits(1234568));
  }

  lemma FormatAmountNegativeThousands(amount: real)
    requires amount == -1234.0
    ensures FormatAmount(amount) == "-1,234"
  {
    var d := DecimalDigits(1234);
    assert FormatAmount(amount) == "-" + InsertSeparators(d) by {
      assert Round(amount) == -1234;
      FormatAmountNegative(amount);
    }
    assert InsertSeparators(d) == "1,234" by {
      DigitsOf1234();
      GroupsOf1234(d);
    }
    assert "-" + "1,234" == "-1,234";
  }
}
