/** Decimal digit strings: the `toString()` of a `bigint` and the decimal
    subset of the `BigInt(string)` grammar, over exact integers. */
module Decimal {
  import opened Wrappers

  predicate IsDigit(c: char) { '0' <= c <= '9' }

  predicate AllDigits(s: string) { forall i :: 0 <= i < |s| ==> IsDigit(s[i]) }

  predicate HasDigit(s: string) { exists i :: 0 <= i < |s| && IsDigit(s[i]) }

  function DigitValue(c: char): (d: nat)
    requires IsDigit(c)
    ensures d < 10
  {
    (c as int) - ('0' as int)
  }

  function DigitChar(d: nat): (c: char)
    requires d < 10
    ensures IsDigit(c) && DigitValue(c) == d
  {
    ('0' as int + d) as char
  }

  function Pow10(k: nat): (p: nat)
    ensures p >= 1
  {
    if k == 0 then 1 else 10 * Pow10(k - 1)
  }

  /** The number a string of decimal digits denotes (leading zeros allowed). */
  function Value(s: string): nat
    requires AllDigits(s)
  {
    if s == [] then 0 else Value(s[..|s| - 1]) * 10 + DigitValue(s[|s| - 1])
  }

  /** `n.toString()` for a non-negative integer. */
  function NatToString(n: nat): (s: string)
    ensures AllDigits(s) && |s| >= 1
    decreases n
  {
    if n < 10 then [DigitChar(n)] else NatToString(n / 10) + [DigitChar(n % 10)]
  }

  /** `v.toString()` for a `bigint`. */
  function IntToString(v: int): (s: string)
    ensures |s| >= 1
  {
    if v < 0 then "-" + NatToString(-v) else NatToString(v)
  }

  /** `BigInt(s)` restricted to decimal text: an optional sign and at least
      one digit; `BigInt("")` is 0. Anything else throws a SyntaxError. */
  function ParseBigInt(s: string): (r: Option<int>)
    ensures r.Some? && s != [] && AllDigits(s) ==> r.value >= 0
  {
    if s == [] then Some(0)
    else if s[0] == '-' || s[0] == '+' then
      if |s| >= 2 && AllDigits(s[1..]) then
        var magnitude: int := Value(s[1..]);
        Some(if s[0] == '-' then -magnitude else magnitude)
      else None
    else if AllDigits(s) then Some(Value(s))
    else None
  }

  lemma {:induction false} ValueUpperBound(s: string)
    requires AllDigits(s)
    ensures Value(s) < Pow10(|s|)
  {
    if s != [] {
      ValueUpperBound(s[..|s| - 1]);
    }
  }

  lemma {:induction false} ValueOfNatToString(n: nat)
    ensures Value(NatToString(n)) == n
    decreases n
  {
    if n >= 10 {
      var s := NatToString(n);
      ValueOfNatToString(n / 10);
      assert s[..|s| - 1] == NatToString(n / 10);
    }
  }

  lemma NatToStringInjective(m: nat, n: nat)
    ensures NatToString(m) == NatToString(n) ==> m == n
  {
    ValueOfNatToString(m);
    ValueOfNatToString(n);
  }

  lemma IntToStringInjective(a: int, b: int)
    ensures IntToString(a) == IntToString(b) <==> a == b
  {
    ParseBigIntOfIntToString(a);
    ParseBigIntOfIntToString(b);
  }

  /** `n.toString()` has at most k digits exactly when n < 10^k. */
  lemma {:induction false} NatToStringLength(n: nat, k: nat)
    requires k >= 1
    ensures |NatToString(n)| <= k <==> n < Pow10(k)
    decreases n
  {
    if n >= 10 {
      if k == 1 {
        assert |NatToString(n)| == |NatToString(n / 10)| + 1;
      } else {
        NatToStringLength(n / 10, k - 1);
      }
    }
  }

  /** The decimal text of every integer is read back by `BigInt`. */
  lemma ParseBigIntOfIntToString(v: int)
    ensures ParseBigInt(IntToString(v)) == Some(v)
  {
    var s := IntToString(v);
    if v < 0 {
      var ds := NatToString(-v);
      assert s[0] == '-' && s[1..] == ds;
      assert Value(ds) == -v by { ValueOfNatToString(-v); }
    } else {
      assert Value(s) == v by { ValueOfNatToString(v); }
      assert s[0] != '-' && s[0] != '+' by { assert IsDigit(s[0]); }
    }
  }

  lemma DivideByTen(n: nat)
    ensures n / 10 % 10 == n % 100 / 10
    ensures n / 10 / 10 == n / 100
  {
    var a, b := n / 100, n % 100;
    assert n == 100 * a + b;
    assert b == 10 * (b / 10) + b % 10;
    assert n == 10 * (10 * a + b / 10) + b % 10;
    assert n / 10 == 10 * a + b / 10;
  }

  /** The last two characters of a number's decimal text are its two low
      digits, and what precedes them denotes n / 100. */
  lemma {:induction false} NatToStringSplitCents(n: nat)
    requires n >= 10
    ensures var s := NatToString(n);
      && |s| >= 2
      && s[|s| - 2..] == [DigitChar(n % 100 / 10), DigitChar(n % 10)]
      && Value(s[..|s| - 2]) == n / 100
      && (n < 100 <==> s[..|s| - 2] == [])
      && (n >= 100 ==> s[..|s| - 2] == NatToString(n / 100))
  {
    var s := NatToString(n);
    var q := n / 10;
    DivideByTen(n);
    assert s == NatToString(q) + [DigitChar(n % 10)];
    if q < 10 {
      assert s == [DigitChar(q), DigitChar(n % 10)];
    } else {
      assert NatToString(q) == NatToString(q / 10) + [DigitChar(q % 10)];
      assert s == NatToString(n / 100) + [DigitChar(q % 10), DigitChar(n % 10)];
      assert s[..|s| - 2] == NatToString(n / 100);
      ValueOfNatToString(n / 100);
    }
  }
}
