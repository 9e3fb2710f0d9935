/**
 * The two number parsers the add-product form relies on: `parseInt(s)` with
 * no radix argument and `parseFloat(s)`. Both skip leading white space and
 * read the longest prefix that forms a number, ignoring whatever follows.
 * Results are exact: rounding to a 64-bit float is not modelled.
 */
module JsNumber {
  import opened Wrappers
  import opened JsText

  /** A JavaScript number value, with `-0` folded into `Finite(0.0)`. */
  datatype Number = NaN | PosInfinity | NegInfinity | Finite(value: real)

  predicate IsDecDigit(c: char) {
    '0' <= c <= '9'
  }

  predicate IsRadixDigit(c: char, radix: nat) {
    if radix == 16 then IsDecDigit(c) || 'a' <= c <= 'f' || 'A' <= c <= 'F'
    else IsDecDigit(c)
  }

  function DigitValue(c: char): nat {
    if '0' <= c <= '9' then c as int - '0' as int
    else if 'a' <= c <= 'f' then c as int - 'a' as int + 10
    else if 'A' <= c <= 'F' then c as int - 'A' as int + 10
    else 0
  }

  /** Length of the longest prefix of `s` made of digits of `radix`. */
  function DigitRun(s: string, radix: nat): (k: nat)
    ensures k <= |s|
    ensures forall i :: 0 <= i < k ==> IsRadixDigit(s[i], radix)
    ensures k < |s| ==> !IsRadixDigit(s[k], radix)
  {
    if s == [] || !IsRadixDigit(s[0], radix) then 0
    else 1 + DigitRun(s[1..], radix)
  }

  /** The value of a digit string, most significant digit first. */
  function DigitsValue(ds: string, radix: nat): nat {
    if ds == [] then 0
    else DigitsValue(ds[..|ds| - 1], radix) * radix + DigitValue(ds[|ds| - 1])
  }

  function Pow10(n: nat): (r: nat)
    ensures r >= 1
  {
    if n == 0 then 1 else 10 * Pow10(n - 1)
  }

  /** `m` times ten to the power `e`. */
  function Scale(m: real, e: int): (r: real)
    ensures m >= 0.0 ==> r >= 0.0
  {
    if e >= 0 then m * Pow10(e) as real else m / Pow10(-e) as real
  }

  /** The sign character, if any, is cut off; `true` when it was a minus. */
  function SplitSign(t: string): (bool, string) {
    if t != [] && (t[0] == '-' || t[0] == '+') then (t[0] == '-', t[1..]) else (false, t)
  }

  /**
   * `parseInt(s)`: `None` stands for NaN. A `0x` or `0X` prefix after the
   * sign switches to base 16, as the language does when no radix is given.
   */
  function ParseInt(s: string): (r: Option<int>)
    ensures var u := SplitSign(TrimStart(s)).1; (u == [] || !IsDecDigit(u[0])) ==> r == None
    ensures r.Some? && r.value < 0 ==> SplitSign(TrimStart(s)).0
  {
    var (neg, u) := SplitSign(TrimStart(s));
    match UnsignedInt(u)
    case None => None
    case Some(n) =>
      var v: int := n;
      Some(if neg then -v else v)
  }

  /** The digits at the start of `u`, hexadecimal after a `0x` prefix; `None` when there are none. */
  function UnsignedInt(u: string): Option<nat> {
    if |u| >= 2 && u[0] == '0' && (u[1] == 'x' || u[1] == 'X') then LeadingDigits(u[2..], 16)
    else LeadingDigits(u, 10)
  }

  /** The value of the digits of `radix` at the start of `v`; `None` when there are none. */
  function LeadingDigits(v: string, radix: nat): Option<nat> {
    var k := DigitRun(v, radix);
    if k == 0 then None else Some(DigitsValue(v[..k], radix))
  }

  /** The exponent an `e`/`E` part at the start of `s` denotes, or 0 when there is none. */
  function ExponentOf(s: string): int {
    if s != [] && (s[0] == 'e' || s[0] == 'E') then
      var (neg, d) := SplitSign(s[1..]);
      var k := DigitRun(d, 10);
      if k == 0 then 0
      else
        var n: int := DigitsValue(d[..k], 10);
        if neg then -n else n
    else 0
  }

  predicate StartsWithInfinity(u: string) {
    |u| >= 8 && u[..8] == "Infinity"
  }

  /**
   * The unsigned decimal literal at the start of `u`: digits with an
   * optional fraction and exponent, at least one digit before or after the
   * point; `None` when there is none.
   */
  function UnsignedDecimal(u: string): Option<real> {
    var i := DigitRun(u, 10);
    var (frac, tail) := Fraction(u[i..]);
    if i == 0 && frac == [] then None
    else
      Some(Scale(DigitsValue(u[..i] + frac, 10) as real, ExponentOf(tail) - |frac|))
  }

  /** The digits after a point at the start of `rest`, and what follows them. */
  function Fraction(rest: string): (string, string) {
    if rest != [] && rest[0] == '.' then
      var f := DigitRun(rest[1..], 10);
      (rest[1..][..f], rest[1..][f..])
    else ([], rest)
  }

  /** `parseFloat(s)`: an optional sign, then `Infinity` or an unsigned decimal literal. */
  function ParseFloat(s: string): (r: Number)
    ensures var u := SplitSign(TrimStart(s)).1;
      (u == [] || (!IsDecDigit(u[0]) && u[0] != '.' && u[0] != 'I')) ==> r == NaN
    ensures r == NegInfinity || (r.Finite? && r.value < 0.0) ==> SplitSign(TrimStart(s)).0
  {
    var (neg, u) := SplitSign(TrimStart(s));
    if StartsWithInfinity(u) then
      (if neg then NegInfinity else PosInfinity)
    else
      match UnsignedDecimal(u)
      case None => NaN
      case Some(m) => Finite(if neg then -m else m)
  }

  /** Decimal notation of a natural number, as `String(n)` writes it. */
  function NatString(n: nat): (s: string)
    ensures s != [] && forall i :: 0 <= i < |s| ==> IsDecDigit(s[i])
    ensures |s| >= 2 ==> s[0] != '0'
  {
    var d := ['0' + (n % 10) as char];
    if n < 10 then d else NatString(n / 10) + d
  }

  /** Decimal notation of an integer, with a leading minus when negative. */
  function IntString(n: int): string {
    if n < 0 then "-" + NatString(-n) else NatString(n)
  }

  /** Only 0 is written with a leading `0`. */
  lemma {:induction false} NatStringLeadingZero(n: nat)
    ensures NatString(n)[0] == '0' <==> n == 0
  {
    if n >= 10 {
      assert |NatString(n)| >= 2;
    }
  }

  lemma {:induction false} NatStringValue(n: nat)
    ensures DigitsValue(NatString(n), 10) == n
  {
    var s := NatString(n);
    if n >= 10 {
      NatStringValue(n / 10);
      assert s[..|s| - 1] == NatString(n / 10);
    }
  }

  /** A run of digits followed by a non-digit is read up to that non-digit. */
  lemma {:induction false} DigitRunOfDigits(ds: string, rest: string, radix: nat)
    requires forall i :: 0 <= i < |ds| ==> IsRadixDigit(ds[i], radix)
    requires rest == [] || !IsRadixDigit(rest[0], radix)
    ensures DigitRun(ds + rest, radix) == |ds|
  {
    if ds != [] {
      assert (ds + rest)[1..] == ds[1..] + rest;
      DigitRunOfDigits(ds[1..], rest, radix);
    }
  }

  lemma {:induction false} TrimStartUnpadded(s: string)
    requires s != [] && !IsJsSpace(s[0])
    ensures TrimStart(s) == s
  {
  }

  /**
   * `parseInt` reads back the decimal notation of every integer, whatever
   * follows it, as long as the next character is not a digit and, for 0
   * alone, does not turn the `0` into a `0x` prefix.
   */
  lemma {:induction false} ParseIntReadsIntString(n: int, rest: string)
    requires rest == [] || (!IsDecDigit(rest[0]) && (n != 0 || (rest[0] != 'x' && rest[0] != 'X')))
    ensures ParseInt(IntString(n) + rest) == Some(n)
  {
    var m := if n < 0 then -n else n;
    var ns := NatString(m);
    var s := (if n < 0 then "-" else "") + ns + rest;
    NatStringValue(m);
    NatStringLeadingZero(m);
    assert IntString(n) + rest == s;
    ParseIntOfSignedDigits(s, n < 0, ns, rest);
  }

  /** An optional minus, decimal digits without a leading zero, then a non-digit: the signed value. */
  lemma {:induction false} ParseIntOfSignedDigits(s: string, neg: bool, ds: string, rest: string)
    requires ds != [] && forall i :: 0 <= i < |ds| ==> IsDecDigit(ds[i])
    requires |ds| >= 2 ==> ds[0] != '0'
    requires rest == [] || (!IsDecDigit(rest[0]) && (ds[0] != '0' || (rest[0] != 'x' && rest[0] != 'X')))
    requires s == (if neg then "-" else "") + ds + rest
    ensures ParseInt(s) == Some(if neg then -(DigitsValue(ds, 10) as int) else DigitsValue(ds, 10) as int)
  {
    var u := ds + rest;
    var v := DigitsValue(ds, 10);
    SignedDigitsSplit(s, neg, ds, rest);
    UnsignedIntOfDigits(ds, rest);
    ParseIntOfUnsigned(s, neg, u, v);
  }

  lemma {:induction false} SignedDigitsSplit(s: string, neg: bool, ds: string, rest: string)
    requires ds != [] && IsDecDigit(ds[0])
    requires s == (if neg then "-" else "") + ds + rest
    ensures SplitSign(TrimStart(s)) == (neg, ds + rest)
  {
    assert s[0] == if neg then '-' else ds[0];
    TrimStartUnpadded(s);
    if neg {
      assert s[1..] == ds + rest;
    } else {
      assert s == ds + rest;
    }
  }

  /** A literal after an optional sign reads as its signed unsigned value. */
  lemma {:induction false} ParseIntOfUnsigned(s: string, neg: bool, u: string, v: nat)
    requires SplitSign(TrimStart(s)) == (neg, u) && UnsignedInt(u) == Some(v)
    ensures ParseInt(s) == Some(if neg then -(v as int) else v as int)
  {
  }

  lemma {:induction false} UnsignedIntOfDigits(ds: string, rest: string)
    requires ds != [] && forall i :: 0 <= i < |ds| ==> IsDecDigit(ds[i])
    requires |ds| >= 2 ==> ds[0] != '0'
    requires rest == [] || (!IsDecDigit(rest[0]) && (ds[0] != '0' || (rest[0] != 'x' && rest[0] != 'X')))
    ensures UnsignedInt(ds + rest) == Some(DigitsValue(ds, 10))
  {
    var u := ds + rest;
    assert !(|u| >= 2 && u[0] == '0' && (u[1] == 'x' || u[1] == 'X')) by {
      if |u| >= 2 && u[0] == '0' {
        assert |ds| == 1 && u[1] == rest[0];
      }
    }
    DigitRunOfDigits(ds, rest, 10);
    assert u[..|ds|] == ds;
  }

  /** `parseFloat` reads back the decimal notation of every integer. */
  lemma {:induction false} ParseFloatReadsIntString(n: int)
    ensures ParseFloat(IntString(n)) == Finite(n as real)
  {
    var m := if n < 0 then -n else n;
    var ds := NatString(m);
    var s := IntString(n);
    TrimStartUnpadded(s);
    assert SplitSign(s).1 == ds by {
      if n < 0 { assert s == "-" + ds; }
    }
    assert !StartsWithInfinity(ds) by {
      if |ds| >= 8 { assert ds[..8][0] == ds[0]; }
    }
    UnsignedDecimalOfDigits(ds);
    NatStringValue(m);
  }

  lemma {:induction false} UnsignedDecimalOfDigits(ds: string)
    requires ds != [] && forall i :: 0 <= i < |ds| ==> IsDecDigit(ds[i])
    ensures UnsignedDecimal(ds) == Some(DigitsValue(ds, 10) as real)
  {
    var e: string := [];
    assert DigitRun(ds, 10) == |ds| by {
      assert ds + [] == ds;
      DigitRunOfDigits(ds, [], 10);
    }
    assert Fraction(ds[|ds|..]) == (e, e) by {
      assert ds[|ds|..] == e;
    }
    assert ds[..|ds|] + e == ds;
    ScaleByZero(DigitsValue(ds, 10) as real);
  }

  lemma ScaleByZero(v: real)
    ensures Scale(v, ExponentOf([]) - 0) == v
  {
    assert Pow10(0) as real == 1.0;
  }

  /**
   * `parseFloat` reads a decimal with a fraction: the digits of `m`, a
   * point and the digits `ds` denote `m + ds / 10^|ds|`.
   */
  lemma {:induction false} ParseFloatReadsDecimal(m: nat, ds: string)
    requires forall i :: 0 <= i < |ds| ==> IsDecDigit(ds[i])
    ensures ParseFloat(NatString(m) + "." + ds) ==
              Finite(m as real + DigitsValue(ds, 10) as real / Pow10(|ds|) as real)
  {
    NatStringValue(m);
    ParseFloatOfPointedValue(NatString(m), ds);
  }

  lemma {:induction false} ParseFloatOfPointedValue(ns: string, ds: string)
    requires ns != [] && forall i :: 0 <= i < |ns| ==> IsDecDigit(ns[i])
    requires forall i :: 0 <= i < |ds| ==> IsDecDigit(ds[i])
    ensures ParseFloat(ns + "." + ds) ==
              Finite(DigitsValue(ns, 10) as real + DigitsValue(ds, 10) as real / Pow10(|ds|) as real)
  {
    ParseFloatOfPointed(ns, ds);
    PointedValue(ns, ds);
  }

  /** All the digits scaled down by the fraction's length are the integer part plus the fraction. */
  lemma {:induction false} PointedValue(ns: string, ds: string)
    ensures Scale(DigitsValue(ns + ds, 10) as real, 0 - |ds|) ==
              DigitsValue(ns, 10) as real + DigitsValue(ds, 10) as real / Pow10(|ds|) as real
  {
    var x, m, d := DigitsValue(ns + ds, 10), DigitsValue(ns, 10), DigitsValue(ds, 10);
    DigitsValueAppend(ns, ds);
    assert |ds| == 0 ==> d == 0 by {
      if |ds| == 0 { assert ds == []; }
    }
    DecimalScale(x, m, d, |ds|);
  }

  /** Digits, a point and digits read as all the digits scaled down by the fraction's length. */
  lemma {:induction false} ParseFloatOfPointed(ns: string, ds: string)
    requires ns != [] && forall i :: 0 <= i < |ns| ==> IsDecDigit(ns[i])
    requires forall i :: 0 <= i < |ds| ==> IsDecDigit(ds[i])
    ensures ParseFloat(ns + "." + ds) == Finite(Scale(DigitsValue(ns + ds, 10) as real, 0 - |ds|))
  {
    var s := ns + "." + ds;
    DigitLed(ns, "." + ds);
    assert s == ns + ("." + ds);
    MantissaOfDecimal(ns, ds);
    ParseFloatOfUnsigned(s, Scale(DigitsValue(ns + ds, 10) as real, 0 - |ds|));
  }

  /**
   * `parseFloat` reads an exponent: the digits of `m`, an `e` and the digits
   * of `k` denote `m * 10^k`.
   */
  lemma {:induction false} ParseFloatReadsExponent(m: nat, k: nat)
    ensures ParseFloat(NatString(m) + "e" + NatString(k)) == Finite((m * Pow10(k)) as real)
  {
    var ns, ks := NatString(m), NatString(k);
    var s := ns + "e" + ks;
    assert s == ns + ("e" + ks);
    DigitLed(ns, "e" + ks);
    MantissaOfExponent(ns, ks);
    NatStringValue(m);
    NatStringValue(k);
    ScaleUp(m, k);
    ParseFloatOfUnsigned(s, (m * Pow10(k)) as real);
  }

  lemma {:induction false} MantissaOfExponent(ns: string, ks: string)
    requires ns != [] && forall i :: 0 <= i < |ns| ==> IsDecDigit(ns[i])
    requires ks != [] && forall i :: 0 <= i < |ks| ==> IsDecDigit(ks[i])
    ensures UnsignedDecimal(ns + "e" + ks) == Some(Scale(DigitsValue(ns, 10) as real, DigitsValue(ks, 10)))
  {
    var u := ns + "e" + ks;
    var t := "e" + ks;
    DigitsThenTail(u, ns, t);
    FractionWithoutPoint(t);
    ExponentOfDigits(ks);
    UnsignedDecimalOf(u, |ns|, [], t);
    assert u[..|ns|] + [] == ns;
  }

  /** Digits followed by a tail that does not start with a digit: the run ends where the tail starts. */
  lemma {:induction false} DigitsThenTail(u: string, ns: string, t: string)
    requires forall i :: 0 <= i < |ns| ==> IsDecDigit(ns[i])
    requires t != [] && !IsDecDigit(t[0])
    requires u == ns + t
    ensures DigitRun(u, 10) == |ns| && u[|ns|..] == t && u[..|ns|] == ns
  {
    DigitRunOfDigits(ns, t, 10);
  }

  lemma {:induction false} FractionWithoutPoint(t: string)
    requires t != [] && t[0] != '.'
    ensures Fraction(t) == ([], t)
  {
  }

  lemma {:induction false} ExponentOfDigits(ks: string)
    requires ks != [] && forall i :: 0 <= i < |ks| ==> IsDecDigit(ks[i])
    ensures ExponentOf("e" + ks) == DigitsValue(ks, 10)
  {
    assert ("e" + ks)[1..] == ks;
    assert SplitSign(ks) == (false, ks);
    DigitRunOfDigits(ks, [], 10);
    assert ks + [] == ks && ks[..|ks|] == ks;
  }

  lemma {:induction false} ScaleUp(m: nat, k: nat)
    ensures Scale(m as real, k) == (m * Pow10(k)) as real
  {
  }

  /** Text that starts with a digit has no sign, no leading space and no `Infinity`. */
  lemma {:induction false} DigitLed(ns: string, rest: string)
    requires ns != [] && IsDecDigit(ns[0])
    ensures SplitSign(TrimStart(ns + rest)) == (false, ns + rest)
    ensures !StartsWithInfinity(ns + rest)
  {
    var s := ns + rest;
    assert s[0] == ns[0];
    TrimStartUnpadded(s);
    if |s| >= 8 { assert s[..8][0] == s[0]; }
  }

  /** Text with no sign and no `Infinity` reads as its unsigned decimal literal. */
  lemma {:induction false} ParseFloatOfUnsigned(s: string, v: real)
    requires SplitSign(TrimStart(s)) == (false, s) && !StartsWithInfinity(s)
    requires UnsignedDecimal(s) == Some(v)
    ensures ParseFloat(s) == Finite(v)
  {
  }

  lemma {:induction false} MantissaOfDecimal(ns: string, ds: string)
    requires ns != [] && forall i :: 0 <= i < |ns| ==> IsDecDigit(ns[i])
    requires forall i :: 0 <= i < |ds| ==> IsDecDigit(ds[i])
    ensures UnsignedDecimal(ns + "." + ds) == Some(Scale(DigitsValue(ns + ds, 10) as real, 0 - |ds|))
  {
    var u := ns + "." + ds;
    PointedDigitRun(ns, ds);
    FractionOfDigits(ds);
    assert u[|ns|..] == "." + ds && u[..|ns|] == ns;
    UnsignedDecimalOf(u, |ns|, ds, []);
  }

  lemma {:induction false} PointedDigitRun(ns: string, ds: string)
    requires forall i :: 0 <= i < |ns| ==> IsDecDigit(ns[i])
    ensures DigitRun(ns + "." + ds, 10) == |ns|
  {
    assert ns + "." + ds == ns + ("." + ds);
    DigitRunOfDigits(ns, "." + ds, 10);
  }

  lemma {:induction false} FractionOfDigits(ds: string)
    requires forall i :: 0 <= i < |ds| ==> IsDecDigit(ds[i])
    ensures Fraction("." + ds) == (ds, [])
  {
    assert ("." + ds)[1..] == ds;
    DigitRunOfDigits(ds, [], 10);
    assert ds + [] == ds;
  }

  /** The unsigned literal once its integer digits, fraction and tail are known. */
  lemma {:induction false} UnsignedDecimalOf(u: string, i: nat, frac: string, tail: string)
    requires i <= |u| && DigitRun(u, 10) == i && Fraction(u[i..]) == (frac, tail) && i > 0
    ensures UnsignedDecimal(u) == Some(Scale(DigitsValue(u[..i] + frac, 10) as real, ExponentOf(tail) - |frac|))
  {
  }

  /** Appending digits shifts the value left by their count and adds theirs. */
  lemma {:induction false} DigitsValueAppend(a: string, b: string)
    ensures DigitsValue(a + b, 10) == DigitsValue(a, 10) * Pow10(|b|) + DigitsValue(b, 10)
  {
    if b == [] {
      assert a + b == a;
    } else {
      var ab := a + b;
      var b' := b[..|b| - 1];
      var last := DigitValue(b[|b| - 1]);
      assert ab[..|ab| - 1] == a + b';
      assert ab[|ab| - 1] == b[|b| - 1];
      assert DigitsValue(ab, 10) == DigitsValue(a + b', 10) * 10 + last;
      assert DigitsValue(b, 10) == DigitsValue(b', 10) * 10 + last;
      assert Pow10(|b|) == 10 * Pow10(|b'|);
      DigitsValueAppend(a, b');
      ShiftStep(DigitsValue(a, 10), Pow10(|b'|), DigitsValue(b', 10), last);
    }
  }

  lemma {:induction false} ShiftStep(x: nat, p: nat, y: nat, d: nat)
    ensures (x * p + y) * 10 + d == x * (10 * p) + (y * 10 + d)
  {
  }

  lemma {:induction false} DecimalScale(x: nat, m: nat, d: nat, n: nat)
    requires x == m * Pow10(n) + d
    requires n == 0 ==> d == 0
    ensures Scale(x as real, 0 - n) == m as real + d as real / Pow10(n) as real
  {
    if n == 0 {
      assert Pow10(0) == 1;
    } else {
      var p := Pow10(n) as real;
      assert Scale(x as real, 0 - n) == x as real / p;
      assert x as real == m as real * p + d as real;
      RealShift(m as real, p, d as real);
    }
  }

  lemma RealShift(a: real, p: real, b: real)
    requires p > 0.0
    ensures (a * p + b) / p == a + b / p
  {
  }

  /** Without a radix, a `0x` prefix makes the digits hexadecimal. */
  lemma ParseIntHexPrefix()
    ensures ParseInt("0x1A") == Some(26)
  {
    assert SplitSign(TrimStart("0x1A")).1 == "0x1A";
    assert "0x1A"[2..] == "1A";
    assert DigitRun("1A", 16) == 2;
    assert "1A"[..2] == "1A";
    assert DigitsValue("1A", 16) == 26 by { assert "1A"[..1] == "1"; }
  }

  /** Reading stops at the first character that is not a digit. */
  lemma ParseIntStopsAtNonDigit()
    ensures ParseInt("12abc") == Some(12)
  {
    assert TrimStart("12abc") == "12abc";
    assert DigitRun("12abc", 10) == 2;
    assert "12abc"[..2] == "12";
    assert DigitsValue("12", 10) == 12 by { assert "12"[..1] == "1"; }
  }

  /** A string with no digits at all is NaN. */
  lemma ParseIntOfText()
    ensures ParseInt("abc") == None
  {
    assert TrimStart("abc") == "abc";
  }

  /** A fraction is read up to the first character that continues no number. */
  lemma ParseFloatFraction()
    ensures ParseFloat("12.5kg") == Finite(12.5)
  {
    var u := "12.5kg";
    TrimStartUnpadded(u);
    assert !StartsWithInfinity(u);
    FractionOf12Point5();
  }

  lemma FractionOf12Point5()
    ensures UnsignedDecimal("12.5kg") == Some(12.5)
  {
    var u := "12.5kg";
    assert u == "12" + ".5kg";
    DigitRunOfDigits("12", ".5kg", 10);
    assert u[2..] == ".5kg";
    assert ".5kg"[1..] == "5" + "kg";
    DigitRunOfDigits("5", "kg", 10);
    assert ("5" + "kg")[1..] == "kg";
    assert Fraction(".5kg") == ("5", "kg");
    assert ExponentOf("kg") == 0;
    assert u[..2] + "5" == "125";
    assert DigitsValue("125", 10) == 125 by {
      assert "125"[..2] == "12";
      assert "12"[..1] == "1";
    }
  }

  /** A point with no digit on either side is not a number. */
  lemma ParseFloatLonePoint()
    ensures ParseFloat(".") == NaN
  {
    assert TrimStart(".") == ".";
    assert "."[1..] == [];
  }

  /** An exponent scales the mantissa. */
  lemma ParseFloatExponent()
    ensures ParseFloat("2e3") == Finite(2000.0)
  {
    var u := "2e3";
    TrimStartUnpadded(u);
    assert !StartsWithInfinity(u);
    MantissaOf2e3();
  }

  lemma MantissaOf2e3()
    ensures UnsignedDecimal("2e3") == Some(2000.0)
  {
    var u := "2e3";
    assert u == "2" + "e3";
    DigitRunOfDigits("2", "e3", 10);
    assert u[1..] == "e3";
    assert Fraction("e3") == ([], "e3");
    assert u[..1] + [] == "2";
    ExponentOfE3();
    assert Scale(2.0, 3) == 2000.0;
  }

  lemma ExponentOfE3()
    ensures ExponentOf("e3") == 3
  {
    assert "e3"[1..] == "3";
    assert SplitSign("3") == (false, "3");
    DigitRunOfDigits("3", [], 10);
    assert "3" + [] == "3";
    assert "3"[..1] == "3";
  }
}
