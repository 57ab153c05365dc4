/** Exact money values as integer cents (`MonetaryAmount`, a branded
    `bigint`): the loose parser for typed input, the canonical parser and
    printer for the stored integer-cents string, and the `R$ 1.234,56`
    formatter. */
module Money {
  import opened Wrappers
  import opened Decimal

  /** What the modelled code throws: the interpolated message strings
      `Invalid monetary input: ${input}` and `Invalid Monetary Amount: ${value}`
      (each carries its interpolated part), and the TypeError raised by
      destructuring a failed `exec`. */
  datatype Exception = InvalidMonetaryInput(input: string) | InvalidMonetaryAmount(value: string) | TypeError

  type Outcome<T> = Result<T, Exception>

  // ---------------------------------------------------------------------
  // Regular-expression matching, written out over characters
  // ---------------------------------------------------------------------

  /** The longest prefix of `s` made of digits (what a greedy `\d*` takes). */
  function LeadingDigits(s: string): (d: string)
    ensures |d| <= |s| && d == s[..|d|]
    ensures AllDigits(d)
    ensures |d| == |s| || !IsDigit(s[|d|])
  {
    if s == [] || !IsDigit(s[0]) then [] else [s[0]] + LeadingDigits(s[1..])
  }

  /** The two capture groups of `/(\d+),?(\d{0,2})/`. */
  datatype InputMatch = InputMatch(integer: string, fraction: string)

  /** What `,?(\d{0,2})` takes from the text after the integer digits: a
      comma if there is one, then at most two digits. */
  function FractionAfter(rest: string): (f: string)
    ensures |f| <= 2 && AllDigits(f)
    ensures var afterComma := if rest != [] && rest[0] == ',' then rest[1..] else rest;
      && |f| <= |afterComma| && f == afterComma[..|f|]
      && (|f| == 2 || |f| == |afterComma| || !IsDigit(afterComma[|f|]))
  {
    var afterComma := if rest != [] && rest[0] == ',' then rest[1..] else rest;
    var run := LeadingDigits(afterComma);
    if |run| <= 2 then run else run[..2]
  }

  /** The match of `(\d+),?(\d{0,2})` at the start of `t`, which begins with
      a digit: `(\d+)` greedily takes the whole digit run. */
  function MatchAtDigit(t: string): (m: InputMatch)
    requires t != [] && IsDigit(t[0])
    ensures |m.integer| >= 1 && AllDigits(m.integer)
    ensures |m.fraction| <= 2 && AllDigits(m.fraction)
  {
    var integer := LeadingDigits(t);
    InputMatch(integer, FractionAfter(t[|integer|..]))
  }

  /** The first match of `/(\d+),?(\d{0,2})/` in `s`: the pattern starts
      with `\d`, so the leftmost match begins at the first digit. */
  function MatchInput(s: string): (m: Option<InputMatch>)
    ensures m.None? <==> !HasDigit(s)
    ensures m.Some? ==> && |m.value.integer| >= 1 && AllDigits(m.value.integer)
                        && |m.value.fraction| <= 2 && AllDigits(m.value.fraction)
  {
    if s == [] then None
    else if IsDigit(s[0]) then Some(MatchAtDigit(s))
    else
      var m := MatchInput(s[1..]);
      assert HasDigit(s) <==> HasDigit(s[1..]) by {
        if HasDigit(s) {
          var i :| 0 <= i < |s| && IsDigit(s[i]);
          assert s[1..][i - 1] == s[i];
        }
        if HasDigit(s[1..]) {
          var i :| 0 <= i < |s[1..]| && IsDigit(s[1..][i]);
          assert s[i + 1] == s[1..][i];
        }
      }
      m
  }

  /** The longest prefix `(\d*)` and the two final digits `(\d{2})` of the
      first match of `/(\d*)(\d{2})/`: the first position where a run of at
      least two digits starts. */
  function MatchCents(s: string): (m: Option<(string, string)>)
    ensures m.Some? <==> HasDigitPair(s)
    ensures m.Some? ==> AllDigits(m.value.0) && AllDigits(m.value.1) && |m.value.1| == 2
  {
    if |s| < 2 then None
    else if IsDigit(s[0]) && IsDigit(s[1]) then
      var run := LeadingDigits(s);
      Some((run[..|run| - 2], run[|run| - 2..]))
    else
      HasDigitPairTail(s);
      MatchCents(s[1..])
  }

  /** Two adjacent digits somewhere in the text: what `/(\d*)(\d{2})/` needs. */
  predicate HasDigitPair(s: string)
  {
    exists i :: 0 <= i < |s| - 1 && IsDigit(s[i]) && IsDigit(s[i + 1])
  }

  lemma HasDigitPairTail(s: string)
    requires |s| >= 2 && !(IsDigit(s[0]) && IsDigit(s[1]))
    ensures HasDigitPair(s) <==> HasDigitPair(s[1..])
  {
    if HasDigitPair(s) {
      var i :| 0 <= i < |s| - 1 && IsDigit(s[i]) && IsDigit(s[i + 1]);
      assert s[1..][i - 1] == s[i] && s[1..][i] == s[i + 1];
    }
    if HasDigitPair(s[1..]) {
      var i :| 0 <= i < |s[1..]| - 1 && IsDigit(s[1..][i]) && IsDigit(s[1..][i + 1]);
      assert s[i + 1] == s[1..][i] && s[i + 2] == s[1..][i + 1];
    }
  }

  // ---------------------------------------------------------------------
  // parseMonetaryAmountFromInput
  // ---------------------------------------------------------------------

  /** A fraction below 10 is read as tenths: its value is multiplied by 10.
      The test is on the value, not on the number of digits typed. */
  function ScaleFraction(d: nat): (r: nat)
    ensures d < 100 ==> r < 100
    ensures r == 0 || r >= 10
  {
    if d < 10 then d * 10 else d
  }

  /** `parseMonetaryAmountFromInput`: cents from loosely typed text such as
      "10", "10,5" or "10,50". */
  function ParseInput(input: string): (r: Outcome<int>)
    ensures r.Err? <==> !HasDigit(input)
    ensures r.Err? ==> r.error == InvalidMonetaryInput(input)
    ensures r.Ok? ==> r.value >= 0
  {
    match MatchInput(input)
    case None => Err(InvalidMonetaryInput(input))
    case Some(m) => Ok(Cents(m))
  }

  /** `integer * 100n + decimal` for the two captured groups, after the
      tenths rule has been applied to `decimal`. */
  function Cents(m: InputMatch): nat
    requires AllDigits(m.integer) && AllDigits(m.fraction)
  {
    Value(m.integer) * 100 + ScaleFraction(Value(m.fraction))
  }

  /** The whole units of a parsed amount are the first digit run, and its
      cents are the (at most two) digits after it, tenths scaled; so the
      cents are never 1..9. */
  lemma ParseInputUnitsAndCents(input: string)
    requires ParseInput(input).Ok?
    ensures var m := MatchInput(input).value; var r := ParseInput(input).value;
      && r / 100 == Value(m.integer)
      && r % 100 == ScaleFraction(Value(m.fraction))
      && !(1 <= r % 100 <= 9)
  {
    var m := MatchInput(input).value;
    ValueUpperBound(m.fraction);
    assert Pow10(|m.fraction|) <= 100;
    CentsDivMod(Value(m.integer), ScaleFraction(Value(m.fraction)));
  }

  lemma CentsDivMod(units: nat, cents: nat)
    requires cents < 100
    ensures (units * 100 + cents) / 100 == units
    ensures (units * 100 + cents) % 100 == cents
  {
  }

  // ---------------------------------------------------------------------
  // parseMonetaryAmountFromString and the string transformers
  // ---------------------------------------------------------------------

  /** `parseMonetaryAmountFromString`: the stored integer-cents text. Text
      shorter than two characters is refused before `BigInt` sees it. */
  function ParseString(value: string): (r: Outcome<int>)
    ensures |value| < 2 ==> r == Err(InvalidMonetaryAmount(value))
    ensures r.Ok? <==> |value| >= 2 && (AllDigits(value) || (value[0] in "+-" && AllDigits(value[1..])))
    ensures |value| >= 2 && AllDigits(value) ==> r.Ok? && r.value == Value(value)
    ensures |value| >= 2 && value[0] == '-' && AllDigits(value[1..]) ==> r.Ok? && r.value == -(Value(value[1..]) as int)
    ensures |value| >= 2 && value[0] == '+' && AllDigits(value[1..]) ==> r.Ok? && r.value == Value(value[1..])
    ensures r.Err? ==> r.error == InvalidMonetaryAmount(value)
  {
    if |value| < 2 then Err(InvalidMonetaryAmount(value))
    else match ParseBigInt(value)
      case Some(v) => Ok(v)
      case None => Err(InvalidMonetaryAmount(value))
  }

  /** `MonetaryAmountToStringTransformer`: `value.toString()`. */
  function ToCanonicalString(value: int): (s: string)
    ensures ParseBigInt(s) == Some(value)
    ensures |s| >= 2 <==> !(0 <= value <= 9)
  {
    ParseBigIntOfIntToString(value);
    NatToStringLength(if value < 0 then -value else value, 1);
    IntToString(value)
  }

  /** `MonetaryAmountFromStringTransformer`: the canonical parser. */
  function FromCanonicalString(value: string): (r: Outcome<int>)
    ensures r.Ok? ==> ParseBigInt(value) == Some(r.value)
    ensures r.Ok? <==> |value| >= 2 && ParseBigInt(value).Some?
  {
    ParseString(value)
  }

  /** Printing a value and parsing it back gives the value, except for
      0..9, whose one-character text the parser refuses. */
  lemma CanonicalRoundTrip(v: int)
    ensures FromCanonicalString(ToCanonicalString(v))
         == if 0 <= v <= 9 then Err(InvalidMonetaryAmount(ToCanonicalString(v)))
            else Ok(v)
  {
  }

  // ---------------------------------------------------------------------
  // formatMonetaryAmount
  // ---------------------------------------------------------------------

  /** Digits grouped in threes from the right with ".", as
      `toLocaleString("pt-br")` prints an integer. */
  function GroupThousands(ds: string): (g: string)
    ensures |ds| <= 3 ==> g == ds
    decreases |ds|
  {
    if |ds| <= 3 then ds else GroupThousands(ds[..|ds| - 3]) + "." + ds[|ds| - 3..]
  }

  /** `Number(n).toLocaleString("pt-br")` for a whole number n. */
  function LocaleString(n: nat): (s: string)
    ensures RemoveDots(s) == NatToString(n)
    ensures n < 1000 <==> s == NatToString(n)
  {
    GroupThousandsUngroups(NatToString(n));
    NatToStringLength(n, 3);
    assert Pow10(3) == 1000;
    var ds := NatToString(n);
    GroupedDiffersFromDigits(ds);
    GroupThousands(ds)
  }

  function RemoveDots(s: string): (r: string)
  {
    if s == [] then [] else (if s[0] == '.' then [] else [s[0]]) + RemoveDots(s[1..])
  }

  /** `s.padStart(n, c)`. */
  function PadStart(s: string, n: nat, c: char): (r: string)
    ensures |r| == if |s| >= n then |s| else n
    ensures r[|r| - |s|..] == s
    ensures forall i :: 0 <= i < |r| - |s| ==> r[i] == c
  {
    if |s| >= n then s else seq(n - |s|, _ => c) + s
  }

  function CurrencyPrefix(symbol: bool): string
  {
    if symbol then "R$ " else ""
  }

  /** Exactly two digits for a number of cents 0..99. */
  function TwoDigits(d: nat): (s: string)
    requires d < 100
    ensures |s| == 2 && AllDigits(s) && Value(s) == d
  {
    var s := [DigitChar(d / 10), DigitChar(d % 10)];
    assert s[..1] == [DigitChar(d / 10)];
    assert s[..1][..0] == [];
    assert Value(s[..1]) == d / 10;
    s
  }

  /** `formatMonetaryAmount(value, symbol)`. Values 0..9 take a branch of
      their own; every other value is split by `/(\d*)(\d{2})/`, whose match
      fails, and whose destructuring throws, for -9..-1. */
  function Format(value: int, symbol: bool): (r: Outcome<string>)
  {
    if 0 <= value < 10 then
      Ok(CurrencyPrefix(symbol) + "0," + PadStart(IntToString(value), 2, '0'))
    else
      match MatchCents(IntToString(value))
      case None => Err(TypeError)
      case Some((integerPart, decimalPart)) =>
        Ok(CurrencyPrefix(symbol) + (if value < 0 then "-" else "")
           + LocaleString(Value(integerPart)) + "," + PadStart(decimalPart, 2, '0'))
  }

  // ---------------------------------------------------------------------
  // Lemmas
  // ---------------------------------------------------------------------

  lemma {:induction false} LeadingDigitsOfRun(d: string, rest: string)
    requires AllDigits(d)
    requires rest == [] || !IsDigit(rest[0])
    ensures LeadingDigits(d + rest) == d
  {
    if d != [] {
      assert (d + rest)[1..] == d[1..] + rest;
      LeadingDigitsOfRun(d[1..], rest);
    } else {
      assert d + rest == rest;
    }
  }

  /** Text with no digits in front of the match does not change it. */
  lemma {:induction false} MatchInputSkipsNonDigits(pre: string, s: string)
    requires !HasDigit(pre)
    ensures MatchInput(pre + s) == MatchInput(s)
  {
    if pre != [] {
      assert !IsDigit(pre[0]);
      assert (pre + s)[1..] == pre[1..] + s;
      assert !HasDigit(pre[1..]) by {
        forall i | 0 <= i < |pre[1..]| ensures !IsDigit(pre[1..][i]) {
          assert pre[1..][i] == pre[i + 1];
        }
      }
      MatchInputSkipsNonDigits(pre[1..], s);
    } else {
      assert pre + s == s;
    }
  }

  /** A leading minus sign is ignored: only digits are matched. */
  lemma MinusSignIgnored(s: string)
    ensures MatchInput("-" + s) == MatchInput(s)
    ensures ParseInput("-" + s).Ok? == ParseInput(s).Ok?
    ensures ParseInput(s).Ok? ==> ParseInput("-" + s) == ParseInput(s)
  {
    assert !HasDigit("-");
    MatchInputSkipsNonDigits("-", s);
  }

  /** With no comma after the first digit run, every digit of the run is
      part of the integer and the fraction is empty. */
  lemma MatchInputNoComma(d: string, rest: string)
    requires |d| >= 1 && AllDigits(d)
    requires rest == [] || (!IsDigit(rest[0]) && rest[0] != ',')
    ensures MatchInput(d + rest) == Some(InputMatch(d, ""))
  {
    LeadingDigitsOfRun(d, rest);
    assert (d + rest)[|d|..] == rest;
    assert (d + rest)[0] == d[0];
  }

  /** A digit run, a comma and up to two digits; whatever follows is not
      part of the match unless it would extend a fraction of fewer than
      two digits. */
  lemma MatchInputWithFraction(d: string, f: string, rest: string)
    requires |d| >= 1 && AllDigits(d)
    requires |f| <= 2 && AllDigits(f)
    requires |f| == 2 || rest == [] || !IsDigit(rest[0])
    ensures MatchInput(d + "," + f + rest) == Some(InputMatch(d, f))
  {
    var after := "," + f + rest;
    CommaSplit(d, f, rest, after);
    FractionAfterComma(f, rest);
    MatchDigitsThen(d, after, f);
  }

  lemma CommaSplit(d: string, f: string, rest: string, after: string)
    requires after == "," + f + rest
    ensures d + "," + f + rest == d + after
  {
  }

  /** A digit run followed by text that starts with a comma. */
  lemma MatchDigitsThen(d: string, after: string, f: string)
    requires |d| >= 1 && AllDigits(d)
    requires after != [] && after[0] == ','
    requires FractionAfter(after) == f
    ensures MatchInput(d + after) == Some(InputMatch(d, f))
  {
    var s := d + after;
    assert LeadingDigits(s) == d by { LeadingDigitsOfRun(d, after); }
    assert s[|d|..] == after;
    assert IsDigit(s[0]) by { assert s[0] == d[0]; }
    MatchAtFirstDigit(s, d, f);
  }

  lemma MatchAtFirstDigit(s: string, d: string, f: string)
    requires s != [] && IsDigit(s[0])
    requires LeadingDigits(s) == d && FractionAfter(s[|d|..]) == f
    ensures MatchInput(s) == Some(InputMatch(d, f))
  {
  }

  lemma FractionAfterComma(f: string, rest: string)
    requires |f| <= 2 && AllDigits(f)
    requires |f| == 2 || rest == [] || !IsDigit(rest[0])
    ensures FractionAfter("," + f + rest) == f
  {
    var after := "," + f + rest;
    var a := after[1..];
    assert a == f + rest;
  }

  lemma {:induction false} RemoveDotsAppend(a: string, b: string)
    ensures RemoveDots(a + b) == RemoveDots(a) + RemoveDots(b)
  {
    if a != [] {
      assert (a + b)[1..] == a[1..] + b;
      RemoveDotsAppend(a[1..], b);
    } else {
      assert a + b == b;
    }
  }

  lemma {:induction false} RemoveDotsOfDigits(ds: string)
    requires AllDigits(ds)
    ensures RemoveDots(ds) == ds
  {
    if ds != [] {
      RemoveDotsOfDigits(ds[1..]);
    }
  }

  /** Grouping only inserts separators: removing them gives the digits back. */
  lemma {:induction false} GroupThousandsUngroups(ds: string)
    requires AllDigits(ds)
    ensures RemoveDots(GroupThousands(ds)) == ds
    decreases |ds|
  {
    if |ds| <= 3 {
      RemoveDotsOfDigits(ds);
    } else {
      var head, tail := ds[..|ds| - 3], ds[|ds| - 3..];
      calc {
        RemoveDots(GroupThousands(ds));
        RemoveDots(GroupThousands(head) + "." + tail);
        { RemoveDotsAppend(GroupThousands(head) + ".", tail); }
        RemoveDots(GroupThousands(head) + ".") + RemoveDots(tail);
        { RemoveDotsAppend(GroupThousands(head), "."); RemoveDotsOfDigits(tail); }
        RemoveDots(GroupThousands(head)) + RemoveDots(".") + tail;
        { GroupThousandsUngroups(head); assert RemoveDots(".") == []; }
        head + [] + tail;
        { assert head + tail == ds; }
        ds;
      }
    }
  }

  /** More than three digits always gain a separator. */
  lemma GroupedDiffersFromDigits(ds: string)
    requires AllDigits(ds)
    ensures |ds| > 3 ==> GroupThousands(ds) != ds
  {
    if |ds| > 3 {
      GroupThousandsLeadingGroup(ds);
      var k := (|ds| - 1) % 3 + 1;
      assert IsDigit(ds[k]) && GroupThousands(ds)[k] == '.';
    }
  }

  /** The grouped text of more than three digits starts with a group of one
      to three digits and a ".". */
  lemma {:induction false} GroupThousandsLeadingGroup(ds: string)
    requires AllDigits(ds) && |ds| > 3
    ensures var k := (|ds| - 1) % 3 + 1; var g := GroupThousands(ds);
      |g| > k && g[..k] == ds[..k] && g[k] == '.'
    decreases |ds|
  {
    var head := ds[..|ds| - 3];
    var k := (|ds| - 1) % 3 + 1;
    assert (|head| - 1) % 3 + 1 == k;
    if |head| > 3 {
      GroupThousandsLeadingGroup(head);
    }
    assert head[..k] == ds[..k];
  }

  lemma FormatSmall(v: int, symbol: bool)
    requires 0 <= v < 10
    ensures Format(v, symbol) == Ok(CurrencyPrefix(symbol) + LocaleString(0) + "," + TwoDigits(v))
  {
    var d := [DigitChar(v)];
    assert IntToString(v) == d;
    assert PadStart(d, 2, '0') == "0" + d;
    assert LocaleString(0) == "0" by {
      assert NatToString(0) == "0";
    }
    assert TwoDigits(v) == "0" + d;
    assert Format(v, symbol) == Ok(CurrencyPrefix(symbol) + "0," + PadStart(IntToString(v), 2, '0'));
    assert CurrencyPrefix(symbol) + "0," + ("0" + d) == CurrencyPrefix(symbol) + "0" + "," + ("0" + d);
  }

  lemma FormatThrows(v: int, symbol: bool)
    requires -9 <= v <= -1
    ensures Format(v, symbol) == Err(TypeError)
  {
    var s := IntToString(v);
    assert s == "-" + [DigitChar(-v)];
    assert MatchCents(s) == MatchCents(s[1..]);
  }

  lemma MatchCentsOfIntToString(v: int)
    requires v <= -10 || v >= 10
    ensures var n := if v < 0 then -v else v; var ds := NatToString(n);
      MatchCents(IntToString(v)) == Some((ds[..|ds| - 2], ds[|ds| - 2..]))
  {
    var n := if v < 0 then -v else v;
    var ds := NatToString(n);
    NatToStringSplitCents(n);
    LeadingDigitsOfRun(ds, "");
    assert ds + "" == ds;
    assert MatchCents(ds) == Some((ds[..|ds| - 2], ds[|ds| - 2..]));
    if v < 0 {
      var s := IntToString(v);
      assert s[1..] == ds;
      assert MatchCents(s) == MatchCents(ds);
    }
  }

  /** The last two digits of a number of at least two digits are its cents,
      and the digits before them are its whole units. */
  lemma CentsDigits(n: nat)
    requires n >= 10
    ensures var ds := NatToString(n);
      && ds[|ds| - 2..] == TwoDigits(n % 100)
      && Value(ds[..|ds| - 2]) == n / 100
  {
    NatToStringSplitCents(n);
    LowDigitsAreTwoDigits(n, n % 100);
  }

  lemma LowDigitsAreTwoDigits(n: nat, c: nat)
    requires c == n % 100
    ensures TwoDigits(c) == [DigitChar(c / 10), DigitChar(n % 10)]
  {
    var q, r := n / 100, c % 10;
    assert n == 100 * q + c;
    assert c == 10 * (c / 10) + r;
    LastDigit(n, 10 * q + c / 10, r);
  }

  lemma LastDigit(n: nat, a: int, r: int)
    requires n == 10 * a + r && 0 <= r < 10
    ensures n % 10 == r
  {
  }

  lemma FormatOfMatch(v: int, symbol: bool, whole: string, cents: string)
    requires !(0 <= v < 10)
    requires MatchCents(IntToString(v)) == Some((whole, cents))
    ensures Format(v, symbol) == Ok(CurrencyPrefix(symbol) + (if v < 0 then "-" else "")
                                    + LocaleString(Value(whole)) + "," + PadStart(cents, 2, '0'))
  {
  }

  lemma FormatLarge(v: int, symbol: bool)
    requires v <= -10 || v >= 10
    ensures var n := if v < 0 then -v else v;
      Format(v, symbol) == Ok(CurrencyPrefix(symbol) + (if v < 0 then "-" else "")
                              + LocaleString(n / 100) + "," + TwoDigits(n % 100))
  {
    var n := if v < 0 then -v else v;
    var ds := NatToString(n);
    var whole, cents := ds[..|ds| - 2], ds[|ds| - 2..];
    MatchCentsOfIntToString(v);
    FormatOfMatch(v, symbol, whole, cents);
    CentsDigits(n);
    assert PadStart(cents, 2, '0') == cents;
  }

  /** `formatMonetaryAmount` throws exactly on -9..-1, and otherwise prints
      the optional "R$ ", a "-" for negative values, the whole units grouped
      in threes with ".", a comma, and the cents as exactly two digits. */
  lemma FormatShape(v: int, symbol: bool)
    ensures Format(v, symbol).Err? <==> -9 <= v <= -1
    ensures !(-9 <= v <= -1) ==> var n := if v < 0 then -v else v;
      Format(v, symbol) == Ok(CurrencyPrefix(symbol) + (if v < 0 then "-" else "")
                              + LocaleString(n / 100) + "," + TwoDigits(n % 100))
  {
    if 0 <= v < 10 {
      assert v / 100 == 0 && v % 100 == v;
      FormatSmall(v, symbol);
      assert CurrencyPrefix(symbol) + "" == CurrencyPrefix(symbol);
    } else if -9 <= v <= -1 {
      FormatThrows(v, symbol);
    } else {
      FormatLarge(v, symbol);
    }
  }

  lemma MatchDigitsCommaCents(lead: string, ds: string, f: string)
    requires !HasDigit(lead)
    requires |ds| >= 1 && AllDigits(ds) && |f| == 2 && AllDigits(f)
    ensures MatchInput(lead + ds + "," + f) == Some(InputMatch(ds, f))
  {
    var rest := ds + "," + f;
    MatchInputSkipsNonDigits(lead, rest);
    MatchInputWithFraction(ds, f, "");
    assert ds + "," + f + "" == rest;
    assert lead + ds + "," + f == lead + rest;
  }

  lemma CentsOfMatch(ds: string, f: string)
    requires AllDigits(ds) && |f| <= 2 && AllDigits(f)
    ensures Cents(InputMatch(ds, f)) == Value(ds) * 100 + ScaleFraction(Value(f))
  {
  }

  lemma CentsOfValues(ds: string, f: string, units: nat, cents: nat)
    requires AllDigits(ds) && |f| <= 2 && AllDigits(f)
    requires Value(ds) == units && Value(f) == cents
    ensures Cents(InputMatch(ds, f)) == units * 100 + ScaleFraction(cents)
  {
    CentsOfMatch(ds, f);
  }

  lemma ParseDigitsCommaCents(lead: string, ds: string, f: string, units: nat, cents: nat)
    requires !HasDigit(lead)
    requires |ds| >= 1 && AllDigits(ds) && |f| == 2 && AllDigits(f)
    requires Value(ds) == units && Value(f) == cents
    ensures ParseInput(lead + ds + "," + f) == Ok(units * 100 + ScaleFraction(cents))
  {
    var s := lead + ds + "," + f;
    assert MatchInput(s) == Some(InputMatch(ds, f)) by { MatchDigitsCommaCents(lead, ds, f); }
    assert Cents(InputMatch(ds, f)) == units * 100 + ScaleFraction(cents) by { CentsOfMatch(ds, f); }
    ParseInputOfMatch(s, InputMatch(ds, f));
  }

  lemma MatchStopsAtDot(lead: string, head: string, tail: string)
    requires !HasDigit(lead)
    requires |head| >= 1 && AllDigits(head)
    requires tail != [] && tail[0] == '.'
    ensures MatchInput(lead + head + tail) == Some(InputMatch(head, ""))
  {
    assert lead + head + tail == lead + (head + tail);
    MatchInputSkipsNonDigits(lead, head + tail);
    MatchInputNoComma(head, tail);
  }

  lemma ParseInputOfMatch(s: string, m: InputMatch)
    requires MatchInput(s) == Some(m)
    ensures ParseInput(s) == Ok(Cents(m))
  {
  }

  lemma CentsOfWhole(head: string)
    requires AllDigits(head)
    ensures Cents(InputMatch(head, "")) == Value(head) * 100
  {
    assert Value("") == 0;
    assert ScaleFraction(0) == 0;
  }

  lemma SmallValue(head: string)
    requires 1 <= |head| <= 3 && AllDigits(head)
    ensures Value(head) * 100 < 100000
  {
    ValueUpperBound(head);
    assert Pow10(|head|) <= 1000;
  }

  lemma ParseStopsAtDot(lead: string, head: string, tail: string)
    requires !HasDigit(lead)
    requires 1 <= |head| <= 3 && AllDigits(head)
    requires tail != [] && tail[0] == '.'
    ensures ParseInput(lead + head + tail) == Ok(Value(head) * 100)
    ensures Value(head) * 100 < 100000
  {
    MatchStopsAtDot(lead, head, tail);
    ParseInputOfMatch(lead + head + tail, InputMatch(head, ""));
    CentsOfWhole(head);
    SmallValue(head);
  }

  /** The formatted text of a value whose whole units need no "." reads
      back as those units and the tenths-scaled cents. */
  lemma ParseFormattedUngrouped(lead: string, n: nat)
    requires !HasDigit(lead)
    requires n / 100 < 1000
    ensures ParseInput(lead + LocaleString(n / 100) + "," + TwoDigits(n % 100))
         == Ok(n / 100 * 100 + ScaleFraction(n % 100))
  {
    var ds := NatToString(n / 100);
    assert LocaleString(n / 100) == ds by { NatToStringLength(n / 100, 3); }
    assert Value(ds) == n / 100 by { ValueOfNatToString(n / 100); }
    ParseDigitsCommaCents(lead, ds, TwoDigits(n % 100), n / 100, n % 100);
  }

  /** Once the whole units are grouped, the parser stops at the first "."
      and reads at most 999 whole units. */
  lemma ParseFormattedGrouped(lead: string, n: nat)
    requires !HasDigit(lead)
    requires n / 100 >= 1000
    ensures ParseInput(lead + LocaleString(n / 100) + "," + TwoDigits(n % 100)).Ok?
    ensures ParseInput(lead + LocaleString(n / 100) + "," + TwoDigits(n % 100)).value < 100000
  {
    var ds := NatToString(n / 100);
    var g := LocaleString(n / 100);
    NatToStringLength(n / 100, 3);
    GroupThousandsLeadingGroup(ds);
    var k := (|ds| - 1) % 3 + 1;
    var head, tail := g[..k], g[k..] + "," + TwoDigits(n % 100);
    assert lead + g + "," + TwoDigits(n % 100) == lead + head + tail;
    ParseStopsAtDot(lead, head, tail);
  }

  /** The edit views put the formatted text back through the loose parser.
      The value survives exactly when it is not negative, has fewer than
      four digits of whole units (no "." separator), and its cents are 0 or
      at least 10 (so that the tenths rule does not rescale them). */
  lemma FormatThenParseInput(v: int, symbol: bool)
    ensures (Format(v, symbol).Ok? && ParseInput(Format(v, symbol).value) == Ok(v))
        <==> 0 <= v < 100000 && (v % 100 == 0 || v % 100 >= 10)
  {
    var n := if v < 0 then -v else v;
    if -9 <= v <= -1 {
      FormatThrows(v, symbol);
    } else if n / 100 < 1000 {
      FormatThenParseUngrouped(v, symbol);
    } else {
      FormatThenParseGrouped(v, symbol);
    }
  }

  lemma FormatThenParseUngrouped(v: int, symbol: bool)
    requires !(-9 <= v <= -1)
    requires (if v < 0 then -v else v) / 100 < 1000
    ensures Format(v, symbol).Ok?
    ensures ParseInput(Format(v, symbol).value) == Ok(v) <==> v >= 0 && (v % 100 == 0 || v % 100 >= 10)
  {
    var n := if v < 0 then -v else v;
    var lead := CurrencyPrefix(symbol) + (if v < 0 then "-" else "");
    var x := n / 100 * 100 + ScaleFraction(n % 100);
    ReadUngrouped(v, symbol, n, lead, lead + LocaleString(n / 100) + "," + TwoDigits(n % 100), x);
    ReadBackCents(v, x);
  }

  /** Without a "." in the text, the parser reads the magnitude of `v` back,
      with its cents tenths scaled. */
  lemma ReadUngrouped(v: int, symbol: bool, n: nat, lead: string, text: string, x: int)
    requires !(-9 <= v <= -1) && n / 100 < 1000
    requires n == (if v < 0 then -v else v)
    requires lead == CurrencyPrefix(symbol) + (if v < 0 then "-" else "")
    requires text == lead + LocaleString(n / 100) + "," + TwoDigits(n % 100)
    requires x == n / 100 * 100 + ScaleFraction(n % 100)
    ensures Format(v, symbol).Ok? && ParseInput(Format(v, symbol).value) == Ok(x)
  {
    FormatOfShape(v, symbol, n, lead, text);
    PrefixHasNoDigit(symbol, v < 0);
    ParseUngroupedText(lead, n, text, x);
    ParseOfFormat(v, symbol, text, x);
  }

  /** `FormatShape`, with the magnitude, the prefix and the text named by
      the caller. */
  lemma FormatOfShape(v: int, symbol: bool, n: nat, lead: string, text: string)
    requires !(-9 <= v <= -1)
    requires n == (if v < 0 then -v else v)
    requires lead == CurrencyPrefix(symbol) + (if v < 0 then "-" else "")
    requires text == lead + LocaleString(n / 100) + "," + TwoDigits(n % 100)
    ensures Format(v, symbol) == Ok(text)
  {
    FormatShape(v, symbol);
  }

  lemma ParseUngroupedText(lead: string, n: nat, text: string, x: int)
    requires !HasDigit(lead) && n / 100 < 1000
    requires text == lead + LocaleString(n / 100) + "," + TwoDigits(n % 100)
    requires x == n / 100 * 100 + ScaleFraction(n % 100)
    ensures ParseInput(text) == Ok(x)
  {
    ParseFormattedUngrouped(lead, n);
  }

  lemma ParseOfFormat(v: int, symbol: bool, text: string, x: int)
    requires Format(v, symbol) == Ok(text) && ParseInput(text) == Ok(x)
    ensures Format(v, symbol).Ok? && ParseInput(Format(v, symbol).value) == Ok(x)
  {
  }

  /** The number read back from the text of `v` (its magnitude, with the
      cents tenths scaled) is `v` itself exactly when `v` is not negative
      and its cents are 0 or at least 10. */
  lemma ReadBackCents(v: int, r: int)
    requires r == (if v < 0 then -v else v) / 100 * 100 + ScaleFraction((if v < 0 then -v else v) % 100)
    ensures r == v <==> v >= 0 && (v % 100 == 0 || v % 100 >= 10)
  {
    var n := if v < 0 then -v else v;
    WholeAndCents(n);
  }

  lemma FormatThenParseGrouped(v: int, symbol: bool)
    requires (if v < 0 then -v else v) / 100 >= 1000
    ensures Format(v, symbol).Ok?
    ensures ParseInput(Format(v, symbol).value).Ok?
    ensures ParseInput(Format(v, symbol).value).value < 100000
  {
    var n := if v < 0 then -v else v;
    var lead := CurrencyPrefix(symbol) + (if v < 0 then "-" else "");
    FormatShape(v, symbol);
    PrefixHasNoDigit(symbol, v < 0);
    ParseFormattedGrouped(lead, n);
  }

  lemma PrefixHasNoDigit(symbol: bool, negative: bool)
    ensures !HasDigit(CurrencyPrefix(symbol) + (if negative then "-" else ""))
  {
    var lead := CurrencyPrefix(symbol) + (if negative then "-" else "");
    forall i | 0 <= i < |lead| ensures !IsDigit(lead[i]) {
      assert lead[i] in "R$ -";
    }
  }

  /** Reading the cents back through the tenths rule gives the same number
      exactly when the cents are 0 or at least 10. */
  lemma WholeAndCents(n: nat)
    ensures n / 100 * 100 + ScaleFraction(n % 100) >= 0
    ensures n / 100 * 100 + ScaleFraction(n % 100) == n <==> (n % 100 == 0 || n % 100 >= 10)
  {
  }

  /** Where the pattern's groups fall when digits follow the comma. */
  lemma MatchInputFractionExamples()
    ensures MatchInput("10,5") == Some(InputMatch("10", "5"))
    ensures MatchInput("10,50") == Some(InputMatch("10", "50"))
    ensures MatchInput("10,05") == Some(InputMatch("10", "05"))
  {
    MatchInputWithFraction("10", "5", "");
    assert "10" + "," + "5" + "" == "10,5";
    MatchInputWithFraction("10", "50", "");
    assert "10" + "," + "50" + "" == "10,50";
    MatchInputWithFraction("10", "05", "");
    assert "10" + "," + "05" + "" == "10,05";
  }

  /** Where the pattern's groups fall when no digit follows a comma. */
  lemma MatchInputWholeExamples()
    ensures MatchInput("10,") == Some(InputMatch("10", ""))
    ensures MatchInput("10") == Some(InputMatch("10", ""))
    ensures MatchInput("1050") == Some(InputMatch("1050", ""))
  {
    MatchInputWithFraction("10", "", "");
    assert "10" + "," + "" + "" == "10,";
    MatchInputNoComma("10", "");
    assert "10" + "" == "10";
    MatchInputNoComma("1050", "");
    assert "1050" + "" == "1050";
  }

  lemma CentsExamples()
    ensures Cents(InputMatch("10", "5")) == 1050
    ensures Cents(InputMatch("10", "50")) == 1050
    ensures Cents(InputMatch("10", "05")) == 1050
    ensures Cents(InputMatch("10", "")) == 1000
    ensures Cents(InputMatch("1050", "")) == 105000
  {
    assert Value("10") == 10 by { assert "10"[..1] == "1"; }
    assert Value("50") == 50 by { assert "50"[..1] == "5"; }
    assert Value("05") == 5 by { assert "05"[..1] == "0"; }
    assert Value("1050") == 1050 by {
      assert "1050"[..3] == "105" && "105"[..2] == "10" && "10"[..1] == "1";
    }
  }

  /** Worked values of the loose parser: one digit after the comma is
      tenths, so "10,5", "10,50" and "10,05" are all 10,50; without digits
      after a comma the amount is whole units, and "1050" is 1050 units. */
  lemma ParseInputExamples()
    ensures ParseInput("10,5") == Ok(1050)
    ensures ParseInput("10,50") == Ok(1050)
    ensures ParseInput("10,05") == Ok(1050)
    ensures ParseInput("10") == Ok(1000)
    ensures ParseInput("10,") == Ok(1000)
    ensures ParseInput("1050") == Ok(105000)
  {
    MatchInputFractionExamples();
    MatchInputWholeExamples();
    CentsExamples();
    ParseInputOfMatch("10,5", InputMatch("10", "5"));
    ParseInputOfMatch("10,50", InputMatch("10", "50"));
    ParseInputOfMatch("10,05", InputMatch("10", "05"));
    ParseInputOfMatch("10", InputMatch("10", ""));
    ParseInputOfMatch("10,", InputMatch("10", ""));
    ParseInputOfMatch("1050", InputMatch("1050", ""));
  }

  /** The pattern is not anchored at the end: a third digit after the
      comma, or words after the amount, are ignored. */
  lemma TrailingTextIgnored()
    ensures ParseInput("10,505") == Ok(1050)
    ensures ParseInput("10,5 reais") == Ok(1050)
  {
    MatchInputWithFraction("10", "50", "5");
    assert "10" + "," + "50" + "5" == "10,505";
    MatchInputWithFraction("10", "5", " reais");
    assert "10" + "," + "5" + " reais" == "10,5 reais";
    CentsExamples();
    ParseInputOfMatch("10,505", InputMatch("10", "50"));
    ParseInputOfMatch("10,5 reais", InputMatch("10", "5"));
  }

}
