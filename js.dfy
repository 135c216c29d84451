/**
 * The JavaScript built-ins the engine relies on, on exact numbers: the `%` operator on
 * integers, `Math.round`, `String.prototype.trim`, `toLowerCase` and `Number.prototype.toFixed`.
 * JavaScript numbers are modelled as exact reals, so binary floating-point drift is absent.
 */
module Js {
  import opened Wrappers

  function Abs(x: int): (r: nat)
  {
    if x < 0 then -x else x
  }

  // ---------------------------------------------------------------- arithmetic

  /** `Math.abs(x)`. */
  function MathAbs(x: real): (r: real)
    ensures r >= 0.0 && (r == x || r == -x)
  {
    if x < 0.0 then -x else x
  }

  /** `a % b` in JavaScript: division truncates, so the remainder takes the sign of `a`. */
  function Rem(a: int, b: int): (r: int)
    requires b > 0
    ensures -b < r < b
    ensures a >= 0 ==> r >= 0
    ensures a <= 0 ==> r <= 0
  {
    if a >= 0 then a % b else -((-a) % b)
  }

  /** `Math.round(x)`: the nearest integer, halves rounded up. */
  function MathRound(x: real): (r: int)
    ensures x - 0.5 < r as real <= x + 0.5
  {
    (x + 0.5).Floor
  }

  /** An integer-valued argument rounds to itself. */
  lemma MathRoundOfInteger(k: int)
    ensures MathRound(k as real) == k
  {
  }

  /** `Math.round(x * 100) / 100`: rounding to two decimal places. */
  function RoundTo2(x: real): (r: real)
    ensures -0.005 < r - x <= 0.005
  {
    MathRound(x * 100.0) as real / 100.0
  }

  /** A value that already has at most two decimals is left unchanged by two-place rounding. */
  lemma RoundTo2OfHundredths(k: int)
    ensures RoundTo2(k as real / 100.0) == k as real / 100.0
  {
    assert (k as real / 100.0) * 100.0 == k as real;
    MathRoundOfInteger(k);
  }

  /** `Number.isInteger` on a finite number. */
  predicate IsInteger(x: real)
  {
    x == x.Floor as real
  }

  /** A number equal to an integer is an integer. */
  lemma IntegerValued(x: real, k: int)
    requires x == k as real
    ensures IsInteger(x) && x.Floor == k
  {
  }

  // ---------------------------------------------------------------- strings

  /** The code points `String.prototype.trim` removes: WhiteSpace and LineTerminator. */
  predicate IsWhiteSpace(c: char)
  {
    || c == '\t' || c == '\n' || c == '\U{000B}' || c == '\U{000C}' || c == '\r' || c == ' '
    || c == '\U{00A0}' || c == '\U{1680}' || ('\U{2000}' <= c <= '\U{200A}')
    || c == '\U{2028}' || c == '\U{2029}' || c == '\U{202F}' || c == '\U{205F}'
    || c == '\U{3000}' || c == '\U{FEFF}'
  }

  predicate AllWhiteSpace(s: string)
  {
    forall i :: 0 <= i < |s| ==> IsWhiteSpace(s[i])
  }

  /** `s.trimStart()`: drop white space from the front. */
  function TrimStart(s: string): (r: string)
  {
    if s != [] && IsWhiteSpace(s[0]) then TrimStart(s[1..]) else s
  }

  /** `s.trimEnd()`: drop white space from the back. */
  function TrimEnd(s: string): (r: string)
  {
    if s != [] && IsWhiteSpace(s[|s| - 1]) then TrimEnd(s[..|s| - 1]) else s
  }

  /** `s.trim()`. */
  function Trim(s: string): (r: string)
  {
    TrimEnd(TrimStart(s))
  }

  /** Trimming the front leaves a suffix of `s` that is empty or starts with a non-space. */
  lemma {:induction false} TrimStartShape(s: string)
    ensures var r := TrimStart(s);
      |r| <= |s| && r == s[|s| - |r|..] && (r == [] || !IsWhiteSpace(r[0]))
  {
    if s != [] && IsWhiteSpace(s[0]) {
      TrimStartShape(s[1..]);
    }
  }

  /** Trimming the back leaves a prefix of `s` that is empty or ends with a non-space. */
  lemma {:induction false} TrimEndShape(s: string)
    ensures var r := TrimEnd(s);
      |r| <= |s| && r == s[..|r|] && (r == [] || !IsWhiteSpace(r[|r| - 1]))
  {
    if s != [] && IsWhiteSpace(s[|s| - 1]) {
      TrimEndShape(s[..|s| - 1]);
    }
  }

  /** The trimmed string is no longer than `s` and neither starts nor ends with white space. */
  lemma TrimShape(s: string)
    ensures var r := Trim(s);
      && |r| <= |s|
      && (r == [] || (!IsWhiteSpace(r[0]) && !IsWhiteSpace(r[|r| - 1])))
  {
    var t := TrimStart(s);
    TrimStartShape(s);
    TrimEndShape(t);
    var r := TrimEnd(t);
    if r != [] {
      assert r[0] == t[0];
    }
  }

  lemma {:induction false} TrimStartEmpty(s: string)
    ensures TrimStart(s) == [] <==> AllWhiteSpace(s)
  {
    if s != [] && IsWhiteSpace(s[0]) {
      TrimStartEmpty(s[1..]);
      assert AllWhiteSpace(s) <==> AllWhiteSpace(s[1..]) by {
        if AllWhiteSpace(s[1..]) {
          forall i | 0 <= i < |s| ensures IsWhiteSpace(s[i]) {
            if i > 0 { assert s[i] == s[1..][i - 1]; }
          }
        }
      }
    }
  }

  lemma {:induction false} TrimEndEmpty(s: string)
    ensures TrimEnd(s) == [] <==> AllWhiteSpace(s)
  {
    if s != [] && IsWhiteSpace(s[|s| - 1]) {
      TrimEndEmpty(s[..|s| - 1]);
      assert AllWhiteSpace(s) <==> AllWhiteSpace(s[..|s| - 1]) by {
        if AllWhiteSpace(s[..|s| - 1]) {
          forall i | 0 <= i < |s| ensures IsWhiteSpace(s[i]) {
            if i < |s| - 1 { assert s[i] == s[..|s| - 1][i]; }
          }
        }
      }
    }
  }

  /** `s.trim() === ''` exactly when every character of `s` is white space. */
  lemma TrimEmpty(s: string)
    ensures Trim(s) == [] <==> AllWhiteSpace(s)
  {
    TrimStartEmpty(s);
    TrimEndEmpty(TrimStart(s));
    if !AllWhiteSpace(s) {
      TrimStartShape(s);
      TrimEndShape(TrimStart(s));
    }
  }

  /** Lower-casing of one character, for the letters of Basic Latin and Latin-1. */
  function LowerChar(c: char): (d: char)
  {
    if ('A' <= c <= 'Z') || ('\U{00C0}' <= c <= '\U{00DE}' && c != '\U{00D7}')
    then (c as int + 32) as char
    else c
  }

  /** `s.toLowerCase()`. */
  function ToLowerCase(s: string): (r: string)
    ensures |r| == |s|
  {
    if s == [] then [] else [LowerChar(s[0])] + ToLowerCase(s[1..])
  }

  /** Lower-casing keeps the length, maps each ASCII capital to its small letter and keeps other ASCII. */
  lemma ToLowerCaseAscii(s: string)
    ensures |ToLowerCase(s)| == |s|
    ensures forall i :: 0 <= i < |s| && 'A' <= s[i] <= 'Z' ==> ToLowerCase(s)[i] == (s[i] as int + 32) as char
    ensures forall i :: 0 <= i < |s| && s[i] < '\U{0080}' && !('A' <= s[i] <= 'Z') ==> ToLowerCase(s)[i] == s[i]
  {
  }

  // ---------------------------------------------------------------- numbers as text

  predicate IsDigit(c: char)
  {
    '0' <= c <= '9'
  }

  predicate IsDigits(s: string)
  {
    forall i :: 0 <= i < |s| ==> IsDigit(s[i])
  }

  function DigitChar(d: nat): (c: char)
    requires d < 10
    ensures IsDigit(c) && c as int - '0' as int == d
  {
    (d + '0' as int) as char
  }

  /** The value of a string of decimal digits, read left to right. */
  function DigitsValue(s: string): (r: nat)
    requires IsDigits(s)
  {
    if s == [] then 0 else 10 * DigitsValue(s[..|s| - 1]) + (s[|s| - 1] as int - '0' as int)
  }

  /** The decimal text of a natural number, without leading zeros. */
  function NatToString(n: nat): (s: string)
    ensures |s| >= 1 && IsDigits(s)
  {
    if n < 10 then [DigitChar(n)] else NatToString(n / 10) + [DigitChar(n % 10)]
  }

  /** Reading back the text of `n` gives `n`. */
  lemma {:induction false} NatToStringValue(n: nat)
    ensures DigitsValue(NatToString(n)) == n
  {
    if n >= 10 {
      var s := NatToString(n);
      NatToStringValue(n / 10);
      assert s[..|s| - 1] == NatToString(n / 10);
    }
  }

  /** Different numbers have different texts. */
  lemma NatToStringInjective(m: nat, n: nat)
    requires NatToString(m) == NatToString(n)
    ensures m == n
  {
    NatToStringValue(m);
    NatToStringValue(n);
  }

  function Pow10(f: nat): (p: nat)
    ensures p >= 1
  {
    if f == 0 then 1 else 10 * Pow10(f - 1)
  }

  /** A number below `10^f` has at most `f` digits. */
  lemma {:induction false} NatToStringLength(n: nat, f: nat)
    requires 1 <= f && n < Pow10(f)
    ensures |NatToString(n)| <= f
  {
    if n >= 10 {
      assert f >= 2;
      NatToStringLength(n / 10, f - 1);
    }
  }

  function Zeros(k: nat): (z: string)
    ensures |z| == k && IsDigits(z)
  {
    seq(k, i => '0')
  }

  /** Left-pads a digit string with zeros to at least `f` characters. */
  function PadZeros(s: string, f: nat): (r: string)
    requires IsDigits(s)
    ensures IsDigits(r) && |r| == if |s| >= f then |s| else f
  {
    if |s| >= f then s else Zeros(f - |s|) + s
  }

  /** Leading zeros do not change the value of a digit string. */
  lemma {:induction false} LeadingZerosValue(k: nat, s: string)
    requires IsDigits(s)
    ensures DigitsValue(Zeros(k) + s) == DigitsValue(s)
  {
    if s == [] {
      assert Zeros(k) + s == Zeros(k);
      ZerosValue(k);
    } else {
      var t := Zeros(k) + s;
      assert t[..|t| - 1] == Zeros(k) + s[..|s| - 1];
      LeadingZerosValue(k, s[..|s| - 1]);
    }
  }

  lemma {:induction false} ZerosValue(k: nat)
    ensures DigitsValue(Zeros(k)) == 0
  {
    if k > 0 {
      assert Zeros(k)[..k - 1] == Zeros(k - 1);
      ZerosValue(k - 1);
    }
  }

  /** `y * 10^f`, one factor of ten at a time. */
  function Scale(y: real, f: nat): (z: real)
    ensures y >= 0.0 ==> z >= 0.0
  {
    if f == 0 then y else 10.0 * Scale(y, f - 1)
  }

  /** `n` scaled to `f` decimals and rounded as `toFixed` does: the nearest integer, ties up. */
  function ScaledRound(y: real, f: nat): (n: nat)
    requires y >= 0.0
  {
    MathRound(Scale(y, f))
  }

  /** `y.toFixed(f)` for `y >= 0` and `f >= 1`: integer part, a point, exactly `f` digits. */
  function UnsignedFixed(y: real, f: nat): (r: string)
    requires y >= 0.0 && f >= 1
  {
    FixedText(ScaledRound(y, f), f)
  }

  /** The text of `n / 10^f` with exactly `f` decimals: the high part, a point, the low digits padded. */
  function FixedText(n: nat, f: nat): (r: string)
    requires f >= 1
  {
    NatToString(High(n, f)) + "." + PadZeros(NatToString(Low(n, f)), f)
  }

  /** `n` without its last `f` decimal digits: the quotient by `10^f`. */
  function High(n: nat, f: nat): (r: nat)
  {
    if f == 0 then n else High(n / 10, f - 1)
  }

  /** The last `f` decimal digits of `n`: the remainder by `10^f`. */
  function Low(n: nat, f: nat): (r: nat)
    ensures r < Pow10(f)
  {
    if f == 0 then 0 else 10 * Low(n / 10, f - 1) + n % 10
  }

  /** The sign `toFixed` writes: a minus for negative numbers, nothing otherwise. */
  function SignText(x: real): (r: string)
  {
    if x < 0.0 then "-" else ""
  }

  /** `x.toFixed(f)` for `f >= 1`: a minus sign for negative `x`, then the digits of `|x|`. */
  function ToFixed(x: real, f: nat): (r: string)
    requires f >= 1
  {
    SignText(x) + UnsignedFixed(MathAbs(x), f)
  }

  /** The number `ToFixed(x, f)` denotes: `|x|` rounded to `f` decimals, with the sign of `x`. */
  function RoundedTo(x: real, f: nat): (r: real)
  {
    if x < 0.0 then -RoundedMagnitude(MathAbs(x), f) else RoundedMagnitude(MathAbs(x), f)
  }

  function RoundedMagnitude(y: real, f: nat): (r: real)
    requires y >= 0.0
  {
    Unscale(ScaledRound(y, f) as real, f)
  }

  /** First index of `c` in `s`, or -1 (`indexOf`). */
  function IndexOf<T(==)>(s: seq<T>, c: T): (k: int)
    ensures -1 <= k < |s|
    ensures k >= 0 ==> s[k] == c && c !in s[..k]
    ensures k < 0 ==> c !in s
  {
    if s == [] then -1
    else if s[0] == c then 0
    else var k := IndexOf(s[1..], c); if k < 0 then -1 else k + 1
  }

  /** Reads a decimal text `[-]digits.digits` back as a number (a reference reader for `ToFixed`). */
  function ParseFixed(s: string): (r: Option<real>)
  {
    if |s| > 0 && s[0] == '-' then
      match ParseUnsignedFixed(s[1..])
      case Some(v) => Some(-v)
      case None => None
    else ParseUnsignedFixed(s)
  }

  /** The number written `whole.frac` with `places` digits after the point. */
  function Decimal(whole: nat, frac: nat, places: nat): (r: real)
  {
    whole as real + Unscale(frac as real, places)
  }

  function ParseUnsignedFixed(s: string): (r: Option<real>)
  {
    var k := IndexOf(s, '.');
    if k <= 0 then None
    else
      var a, b := s[..k], s[k + 1..];
      if b != [] && IsDigits(a) && IsDigits(b)
      then Some(Decimal(DigitsValue(a), DigitsValue(b), |b|))
      else None
  }

  lemma UnsignedFixedParses(y: real, f: nat)
    requires y >= 0.0 && f >= 1
    ensures ParseUnsignedFixed(UnsignedFixed(y, f)) == Some(RoundedMagnitude(y, f))
  {
    FixedTextParses(ScaledRound(y, f), f);
  }

  /** The text of `n / 10^f` reads back as `n / 10^f`. */
  lemma FixedTextParses(n: nat, f: nat)
    requires f >= 1
    ensures ParseUnsignedFixed(FixedText(n, f)) == Some(Unscale(n as real, f))
  {
    var a, b := NatToString(High(n, f)), PadZeros(NatToString(Low(n, f)), f);
    FixedTextValue(n, f);
    ParsePointed(a, b);
  }

  /** The two digit strings of the text of `n / 10^f` denote `n / 10^f`. */
  lemma FixedTextValue(n: nat, f: nat)
    requires f >= 1
    ensures var b := PadZeros(NatToString(Low(n, f)), f);
      |b| == f && Decimal(DigitsValue(NatToString(High(n, f))), DigitsValue(b), |b|) == Unscale(n as real, f)
  {
    NatToStringValue(High(n, f));
    PaddedValue(Low(n, f), f);
    HighLow(n, f);
  }

  /** A number below `10^f`, padded to `f` digits, reads back as itself. */
  lemma PaddedValue(r: nat, f: nat)
    requires f >= 1 && r < Pow10(f)
    ensures |PadZeros(NatToString(r), f)| == f
    ensures DigitsValue(PadZeros(NatToString(r), f)) == r
  {
    NatToStringLength(r, f);
    NatToStringValue(r);
    LeadingZerosValue(f - |NatToString(r)|, NatToString(r));
  }

  /** Digits, a point and digits read back as the integer part plus the fraction. */
  lemma ParsePointed(a: string, b: string)
    requires IsDigits(a) && IsDigits(b) && a != [] && b != []
    ensures ParseUnsignedFixed(a + "." + b) == Some(Decimal(DigitsValue(a), DigitsValue(b), |b|))
  {
    var s := a + "." + b;
    assert '.' !in a by {
      forall i | 0 <= i < |a| ensures a[i] != '.' { assert IsDigit(a[i]); }
    }
    assert s[..|a|] == a && s[|a|] == '.';
    var k := IndexOf(s, '.');
    assert k == |a|;
    assert s[..k] == a && s[k + 1..] == b;
    assert k > 0;
    assert IsDigits(s[..k]) && IsDigits(s[k + 1..]) && s[k + 1..] != [];
    assert DigitsValue(s[..k]) == DigitsValue(a);
    assert DigitsValue(s[k + 1..]) == DigitsValue(b);
    assert |s[k + 1..]| == |b|;
  }

  /** `z / 10^f`, one factor of ten at a time. */
  function Unscale(z: real, f: nat): (r: real)
  {
    if f == 0 then z else Unscale(z, f - 1) / 10.0
  }

  /** `n / 10^f` is its high part plus its low digits divided by `10^f`. */
  lemma {:induction false} HighLow(n: nat, f: nat)
    ensures High(n, f) as real + Unscale(Low(n, f) as real, f) == Unscale(n as real, f)
  {
    if f > 0 {
      var m, d := n / 10, n % 10;
      HighLow(m, f - 1);
      UnscalePeel(n as real, f);
      UnscalePeel(Low(n, f) as real, f);
      TenthOf(n, n);
      TenthOf(Low(n, f), n);
      UnscaleSum(m as real, d as real / 10.0, f - 1);
      UnscaleSum(Low(m, f - 1) as real, d as real / 10.0, f - 1);
    }
  }

  /** A tenth of `k` is its number of tens plus a tenth of its last digit, which is that of `n`. */
  lemma TenthOf(k: nat, n: nat)
    requires k % 10 == n % 10
    ensures k as real / 10.0 == (k / 10) as real + (n % 10) as real / 10.0
  {
    assert k == 10 * (k / 10) + n % 10;
    assert k as real == 10.0 * (k / 10) as real + (n % 10) as real;
  }

  /** Dividing by `10^f` is dividing by ten, then by `10^(f - 1)`. */
  lemma {:induction false} UnscalePeel(z: real, f: nat)
    requires f > 0
    ensures Unscale(z, f) == Unscale(z / 10.0, f - 1)
  {
    if f > 1 {
      UnscalePeel(z, f - 1);
    }
  }

  /** Unscaling distributes over a sum. */
  lemma {:induction false} UnscaleSum(a: real, b: real, f: nat)
    ensures Unscale(a + b, f) == Unscale(a, f) + Unscale(b, f)
  {
    if f > 0 {
      UnscaleSum(a, b, f - 1);
    }
  }

  /** Reading the output of `toFixed` back gives `x` rounded to `f` decimals: a round trip. */
  lemma ToFixedParses(x: real, f: nat)
    requires f >= 1
    ensures ParseFixed(ToFixed(x, f)) == Some(RoundedTo(x, f))
  {
    if x < 0.0 {
      NegativeFixedParses(x, f);
    } else {
      NonNegativeFixedParses(x, f);
    }
  }

  lemma NegativeFixedParses(x: real, f: nat)
    requires x < 0.0 && f >= 1
    ensures ParseFixed(ToFixed(x, f)) == Some(RoundedTo(x, f))
  {
    NegatedFixedParses(MathAbs(x), f);
  }

  /** A minus sign in front of the digits of `y` reads back as minus `y` rounded. */
  lemma NegatedFixedParses(y: real, f: nat)
    requires y >= 0.0 && f >= 1
    ensures ParseFixed("-" + UnsignedFixed(y, f)) == Some(-RoundedMagnitude(y, f))
  {
    UnsignedFixedParses(y, f);
    ParseNegated(UnsignedFixed(y, f), RoundedMagnitude(y, f));
  }

  /** A minus sign in front of a readable magnitude negates it. */
  lemma ParseNegated(u: string, v: real)
    requires ParseUnsignedFixed(u) == Some(v)
    ensures ParseFixed("-" + u) == Some(-v)
  {
    assert ("-" + u)[1..] == u;
  }

  lemma NonNegativeFixedParses(x: real, f: nat)
    requires x >= 0.0 && f >= 1
    ensures ParseFixed(ToFixed(x, f)) == Some(RoundedTo(x, f))
  {
    var y := MathAbs(x);
    UnsignedFixedParses(y, f);
    FixedTextShape(ScaledRound(y, f), f);
    assert SignText(x) + UnsignedFixed(y, f) == UnsignedFixed(y, f);
  }

  /** `s` ends in a point followed by exactly `f` digits, and has no other point. */
  predicate PointedText(s: string, f: nat)
  {
    |s| >= f + 2 && s[|s| - f - 1] == '.' && IsDigits(s[|s| - f..]) && '.' !in s[..|s| - f - 1]
  }

  /** The text of `ToFixed(x, f)` ends in a point followed by exactly `f` digits, and has no other point. */
  lemma ToFixedShape(x: real, f: nat)
    requires f >= 1
    ensures PointedText(ToFixed(x, f), f)
  {
    var y := MathAbs(x);
    FixedTextShape(ScaledRound(y, f), f);
    if x < 0.0 {
      SignedShape(UnsignedFixed(y, f), f);
    }
  }

  /** The text of `n / 10^f` is pointed, and starts with a digit. */
  lemma FixedTextShape(n: nat, f: nat)
    requires f >= 1
    ensures PointedText(FixedText(n, f), f) && IsDigit(FixedText(n, f)[0])
  {
    var a, b := NatToString(High(n, f)), PadZeros(NatToString(Low(n, f)), f);
    NatToStringLength(Low(n, f), f);
    var s := a + "." + b;
    assert s[..|s| - |b| - 1] == a;
    assert s[|s| - |b|..] == b;
    assert s[0] == a[0];
    assert '.' !in a by {
      forall i | 0 <= i < |a| ensures a[i] != '.' { assert IsDigit(a[i]); }
    }
  }

  /** A minus sign in front keeps a text pointed. */
  lemma SignedShape(u: string, f: nat)
    requires PointedText(u, f) && u[0] != '.'
    ensures PointedText("-" + u, f)
  {
    var s := "-" + u;
    assert s[|s| - f..] == u[|u| - f..];
    assert s[..|s| - f - 1] == "-" + u[..|u| - f - 1];
  }
}
