/** Decimal numerals, as `str(n)`, `int(text)` and zero-padded formatting produce and read them. */
module Decimal {

  predicate IsDigit(c: char) { '0' <= c <= '9' }

  predicate AllDigits(s: string) {
    forall i :: 0 <= i < |s| ==> IsDigit(s[i])
  }

  function DigitOf(n: nat): (c: char)
    requires n < 10
    ensures IsDigit(c)
  {
    '0' + n as char
  }

  function ValueOf(c: char): (n: nat)
    requires IsDigit(c)
    ensures n < 10
  {
    (c - '0') as nat
  }

  function Format(n: nat): (s: string)
    ensures |s| >= 1 && AllDigits(s)
    ensures n > 0 ==> s[0] != '0'
    ensures |s| > 1 ==> n > 0
    decreases n
  {
    if n < 10 then [DigitOf(n)] else Format(n / 10) + [DigitOf(n % 10)]
  }

  function Number(s: string): nat
    requires AllDigits(s)
  {
    if s == [] then 0 else Number(s[..|s| - 1]) * 10 + ValueOf(s[|s| - 1])
  }

  lemma {:induction false} NumberFormat(n: nat)
    ensures Number(Format(n)) == n
    decreases n
  {
    if n < 10 {
      assert Format(n)[..0] == [];
    } else {
      NumberFormat(n / 10);
      assert Format(n)[..|Format(n)| - 1] == Format(n / 10);
    }
  }

  /** Pads with leading zeros; the value stays the same. */
  function Pad(s: string, width: nat): (r: string)
    requires AllDigits(s)
    ensures AllDigits(r) && |r| >= |s|
    decreases width - |s|
  {
    if |s| >= width then s else Pad(['0'] + s, width)
  }

  lemma {:induction false} NumberLeadingZero(s: string)
    requires AllDigits(s)
    ensures Number(['0'] + s) == Number(s)
  {
    if s == [] {
      assert (['0'] + s)[..0] == [];
    } else {
      NumberLeadingZero(s[..|s| - 1]);
      assert (['0'] + s)[..|s|] == ['0'] + s[..|s| - 1];
    }
  }

  lemma {:induction false} NumberPad(s: string, width: nat)
    requires AllDigits(s)
    ensures Number(Pad(s, width)) == Number(s)
    decreases width - |s|
  {
    if |s| < width {
      NumberLeadingZero(s);
      NumberPad(['0'] + s, width);
    }
  }

  /** Padding reaches the width, and a text that has it already stays as it is. */
  lemma {:induction false} PadReaches(s: string, width: nat)
    requires AllDigits(s)
    ensures |Pad(s, width)| == if |s| < width then width else |s|
    decreases width - |s|
  {
    if |s| < width { PadReaches(['0'] + s, width); }
  }

  /** A decimal numeral without leading zeros. */
  predicate IsNumeral(s: string) {
    s != [] && AllDigits(s) && (|s| > 1 ==> s[0] != '0')
  }

  /** Formatting gives back exactly the numerals without leading zeros. */
  lemma {:induction false} FormatNumber(s: string)
    requires IsNumeral(s)
    ensures Format(Number(s)) == s
  {
    var last := |s| - 1;
    if last == 0 {
      assert s[..0] == [] && s == [s[0]];
    } else {
      FormatNumber(s[..last]);
      assert s == s[..last] + [s[last]];
      NumeralPositive(s[..last]);
    }
  }

  lemma {:induction false} NumeralPositive(s: string)
    requires IsNumeral(s) && s[0] != '0'
    ensures Number(s) > 0
  {
    var last := |s| - 1;
    if last == 0 { assert s[..0] == []; } else { NumeralPositive(s[..last]); }
  }

  // ---------------------------------------------------------------- numbers behind a dot

  lemma DotPosition(a: string, x: string)
    requires AllDigits(x)
    ensures (a + "." + x)[|a|] == '.'
    ensures forall i :: |a| < i < |a + "." + x| ==> (a + "." + x)[i] != '.'
  {
    var s := a + "." + x;
    forall i | |a| < i < |s| ensures s[i] != '.' {
      assert s[i] == x[i - |a| - 1];
    }
  }

  /** The last dot separates the digits from the rest. */
  lemma LastDot(a: string, x: string, b: string, y: string)
    requires AllDigits(x) && AllDigits(y)
    requires a + "." + x == b + "." + y
    ensures a == b && x == y
  {
    DotPosition(a, x);
    DotPosition(b, y);
    var s := a + "." + x;
    assert |a| == |b|;
    assert a == s[..|a|] && b == s[..|b|];
    assert x == s[|a| + 1..] && y == s[|b| + 1..];
  }
}
