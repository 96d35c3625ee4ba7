/**
 * Helpers shared by the models of the C++ sources: Option and Result, the C++
 * conversions from double to int and from text to double, C++ integer
 * division, and the decimal formatting done by std::to_string.
 */
module Common {

  datatype Option<T> = None | Some(value: T)

  /** A value, or the exception the source would throw instead. */
  datatype Result<T, E> = Ok(value: T) | Err(error: E)

  /** The C++ conversion `(int)x` of a double: truncation toward zero. */
  function Trunc(x: real): (r: int)
    ensures 0.0 <= x ==> 0 <= r && r as real <= x < r as real + 1.0
    ensures x < 0.0 ==> r <= 0 && r as real - 1.0 < x <= r as real
  {
    if x >= 0.0 then x.Floor else -((-x).Floor)
  }

  /** (int)(-x) == -(int)x: the cast is symmetric, unlike Floor. */
  lemma TruncNeg(x: real)
    ensures Trunc(-x) == -Trunc(x)
  {
  }

  /** A real that is already an integer survives the cast unchanged. */
  lemma TruncOfInt(n: int)
    ensures Trunc(n as real) == n
  {
  }

  // ---------------------------------------------------------------------------
  // C++ integer division and remainder (both truncate toward zero).

  function Abs(a: int): nat { if a < 0 then -a else a }

  /** `a / b` on C++ ints: the quotient of the magnitudes, negative when the
      operands have opposite signs (rounding toward zero). */
  function CDiv(a: int, b: int): (q: int)
    requires b != 0
    ensures Abs(q) == Abs(a) / Abs(b)
    ensures q > 0 ==> (a > 0) == (b > 0)
    ensures q < 0 ==> (a > 0) != (b > 0)
  {
    var m := Abs(a) / Abs(b);
    assert a == 0 ==> m == 0;
    if (a >= 0) == (b > 0) then m else -m
  }

  /** C++ division differs from Dafny's Euclidean division on negative
      dividends: -7 / 2 is -3 in C++ and -4 in Dafny. */
  lemma CDivIsNotEuclidean()
    ensures CDiv(-7, 2) == -3 && (-7) / 2 == -4
  {
  }

  /** Truncating division commutes with negating the dividend. */
  lemma CDivNeg(a: int, b: int)
    requires b != 0
    ensures CDiv(-a, b) == -CDiv(a, b)
  {
  }

  /** A multiple of `y` divided by `y` gives back the factor. */
  lemma MulDivNat(x: nat, y: nat)
    requires y > 0
    ensures (x * y) / y == x
  {
    var q := (x * y) / y;
    var r := (x * y) % y;
    assert 0 <= r < y;
    assert q * y + r == x * y;
    assert q * y - x * y == -r;
    assert (q - x) * y == q * y - x * y;
    MulBounds(q - x, y);
  }

  /** A non-zero multiple of `y` is at least `y` away from zero. */
  lemma {:induction false} MulBounds(d: int, y: int)
    requires y > 0
    ensures d > 0 ==> d * y >= y
    ensures d < 0 ==> d * y <= -y
    decreases if d < 0 then -d else d
  {
    if d > 1 {
      MulBounds(d - 1, y);
      assert d * y == (d - 1) * y + y;
    } else if d < -1 {
      MulBounds(d + 1, y);
      assert d * y == (d + 1) * y - y;
    }
  }

  /** Dividing a multiple of `b` by `b` is exact. */
  lemma CDivExact(k: int, b: int)
    requires b != 0
    ensures CDiv(k * b, b) == k
  {
    assert Abs(k * b) == Abs(k) * Abs(b) by {
      if k < 0 && b < 0 { assert k * b == (-k) * (-b); }
      else if k < 0 { assert -(k * b) == (-k) * b; }
      else if b < 0 { assert -(k * b) == k * (-b); }
    }
    MulDivNat(Abs(k), Abs(b));
  }

  // ---------------------------------------------------------------------------
  // Text to number: std::stod / strtod.
  //
  // Both parsers of the system hand std::stod only texts that contain no
  // letter (a letter always starts a new word there).  On such texts strtod
  // accepts exactly: leading white space, an optional sign, and a non-empty
  // run of decimal digits that may contain one decimal point.  Exponents,
  // hexadecimal forms, "inf" and "nan" all need letters, so they never occur.

  predicate IsDigit(c: char) { '0' <= c <= '9' }

  predicate IsLetter(c: char) { ('A' <= c <= 'Z') || ('a' <= c <= 'z') }

  /** The characters C's isspace accepts in the "C" locale. */
  predicate IsCSpace(c: char)
  {
    c == ' ' || c == '\t' || c == '\n' || c == '\r' || c == '\U{000b}' || c == '\U{000c}'
  }

  function Pow10(n: nat): (r: nat)
    ensures r >= 1
  {
    if n == 0 then 1 else 10 * Pow10(n - 1)
  }

  /** Powers of ten multiply by adding exponents. */
  lemma {:induction false} Pow10Add(a: nat, b: nat)
    ensures Pow10(a + b) == Pow10(a) * Pow10(b)
    decreases a
  {
    if a > 0 {
      Pow10Add(a - 1, b);
      assert Pow10(a + b) == 10 * Pow10(a - 1 + b);
      assert 10 * (Pow10(a - 1) * Pow10(b)) == (10 * Pow10(a - 1)) * Pow10(b);
    }
  }

  /** The value of a run of decimal digits. */
  function DigitsValue(s: string): (v: nat)
    requires forall k :: 0 <= k < |s| ==> IsDigit(s[k])
    ensures v < Pow10(|s|)
  {
    if s == [] then 0
    else
      var prefix := DigitsValue(s[..|s| - 1]);
      assert IsDigit(s[|s| - 1]);
      var d := (s[|s| - 1] as int) - ('0' as int);
      assert prefix * 10 + d < Pow10(|s|) by {
        assert prefix <= Pow10(|s| - 1) - 1;
        assert Pow10(|s|) == 10 * Pow10(|s| - 1);
      }
      prefix * 10 + d
  }

  /** The end of the run of digits starting at `i`. */
  function SpanDigits(s: string, i: nat): (j: nat)
    requires i <= |s|
    ensures i <= j <= |s|
    ensures forall k :: i <= k < j ==> IsDigit(s[k])
    ensures j == |s| || !IsDigit(s[j])
    decreases |s| - i
  {
    if i < |s| && IsDigit(s[i]) then SpanDigits(s, i + 1) else i
  }

  /** A run of digits from `i` that ends at `j` is the run SpanDigits finds. */
  lemma {:induction false} SpanDigitsOf(s: string, i: nat, j: nat)
    requires i <= j <= |s|
    requires forall k :: i <= k < j ==> IsDigit(s[k])
    requires j == |s| || !IsDigit(s[j])
    ensures SpanDigits(s, i) == j
    decreases j - i
  {
    if i < j {
      SpanDigitsOf(s, i + 1, j);
    }
  }

  /** A slice of a run of digits is a run of digits. */
  lemma {:induction false} DigitsSlice(s: string, i: nat, j: nat)
    requires i <= j <= |s| && forall k :: i <= k < j ==> IsDigit(s[k])
    ensures forall k :: 0 <= k < |s[i..j]| ==> IsDigit(s[i..j][k])
  {
    forall k | 0 <= k < |s[i..j]|
      ensures IsDigit(s[i..j][k])
    {
      assert s[i..j][k] == s[i + k];
    }
  }

  /** The end of the run of white space starting at `i`. */
  function SpanSpace(s: string, i: nat): (j: nat)
    requires i <= |s|
    ensures i <= j <= |s|
    ensures forall k :: i <= k < j ==> IsCSpace(s[k])
    ensures j == |s| || !IsCSpace(s[j])
    decreases |s| - i
  {
    if i < |s| && IsCSpace(s[i]) then SpanSpace(s, i + 1) else i
  }

  /** The value of one decimal digit (0 for any other character). */
  function DigitOf(c: char): (d: nat)
    ensures d <= 9
    ensures IsDigit(c) ==> d == (c as int) - ('0' as int)
  {
    if IsDigit(c) then (c as int) - ('0' as int) else 0
  }

  /** The value of the digits s[i..j], read as a whole number. */
  function RunValue(s: string, i: nat, j: nat): nat
    requires i <= j <= |s|
    decreases j - i
  {
    if i == j then 0 else RunValue(s, i, j - 1) * 10 + DigitOf(s[j - 1])
  }

  /** `n` shifted `k` decimal places to the right. */
  function Scaled(n: nat, k: nat): real
  {
    if k == 0 then n as real else Scaled(n, k - 1) / 10.0
  }

  /** Scaled(n, k) is n / 10^k. */
  lemma {:induction false} ScaledValue(n: nat, k: nat)
    ensures Scaled(n, k) * Pow10(k) as real == n as real
    ensures Scaled(n, k) == n as real / Pow10(k) as real
  {
    if k > 0 {
      ScaledValue(n, k - 1);
      var x, p := Scaled(n, k - 1), Pow10(k - 1) as real;
      assert Pow10(k) as real == 10.0 * p;
      assert (x / 10.0) * (10.0 * p) == x * p;
    }
  }

  /** The value of the digits s[i..j] read after a decimal point. */
  function FracValue(s: string, i: nat, j: nat): real
    requires i <= j <= |s|
  {
    Scaled(RunValue(s, i, j), j - i)
  }

  /** RunValue is DigitsValue of the slice. */
  lemma {:induction false} RunValueDigits(s: string, i: nat, j: nat)
    requires i <= j <= |s| && forall k :: i <= k < j ==> IsDigit(s[k])
    ensures forall k :: 0 <= k < |s[i..j]| ==> IsDigit(s[i..j][k])
    ensures RunValue(s, i, j) == DigitsValue(s[i..j])
    decreases j - i
  {
    DigitsSlice(s, i, j);
    if i < j {
      RunValueDigits(s, i, j - 1);
      assert s[i..j][..j - i - 1] == s[i..j - 1];
    }
  }

  /** Equal characters have equal values. */
  lemma {:induction false} RunValueSame(s: string, i: nat, t: string, n: nat)
    requires i + n <= |s| && n <= |t|
    requires forall m :: i <= m < i + n ==> s[m] == t[m - i]
    ensures RunValue(s, i, i + n) == RunValue(t, 0, n)
  {
    if n > 0 {
      RunValueSame(s, i, t, n - 1);
      assert s[i + n - 1] == t[n - 1];
    }
  }

  /** The number strtod reads from `p` after the sign: a run of digits, then
      optionally a '.' and a second run, with at least one digit in all.  Its
      magnitude and where it ends, or None when no digit is there. */
  function ScanUnsigned(s: string, p: nat): (r: Option<(real, nat)>)
    requires p <= |s|
    ensures r.Some? ==> p < r.value.1 <= |s|
    ensures r.Some? ==> exists k :: p <= k < r.value.1 && IsDigit(s[k])
    ensures p < |s| && IsDigit(s[p]) ==> r.Some?
  {
    var e1 := SpanDigits(s, p);
    var hasDot := e1 < |s| && s[e1] == '.';
    var e2 := if hasDot then SpanDigits(s, e1 + 1) else e1;
    if e1 == p && e2 <= e1 + 1 then None
    else
      assert e1 > p ==> IsDigit(s[p]);
      assert e1 == p ==> IsDigit(s[e1 + 1]);
      Some((RunValue(s, p, e1) as real + (if hasDot then FracValue(s, e1 + 1, e2) else 0.0), e2))
  }

  /** strtod on a text: the value of its longest numeric prefix and the number
      of characters that prefix takes, or None when no number starts it
      (std::stod then throws std::invalid_argument). */
  function ScanDecimal(s: string): (r: Option<(real, nat)>)
    ensures r.Some? ==> 0 < r.value.1 <= |s|
    ensures r.Some? ==> exists k :: 0 <= k < r.value.1 && IsDigit(s[k])
    ensures (|s| > 0 && IsDigit(s[0])) ==> r.Some?
    ensures (forall k :: 0 <= k < |s| ==> !IsDigit(s[k])) ==> r.None?
  {
    var w := SpanSpace(s, 0);
    var p := if w < |s| && (s[w] == '-' || s[w] == '+') then w + 1 else w;
    match ScanUnsigned(s, p)
    case None => None
    case Some((m, e)) => Some((if w < |s| && s[w] == '-' then -m else m, e))
  }

  /** std::stod(s, &idx) followed by the check idx == s.size(): the whole
      text must be one number. */
  function StodWhole(s: string): (r: Option<real>)
    ensures r.Some? ==> exists k :: 0 <= k < |s| && IsDigit(s[k])
    ensures r.Some? <==> ScanDecimal(s).Some? && ScanDecimal(s).value.1 == |s|
    ensures r.Some? ==> r.value == ScanDecimal(s).value.0
  {
    match ScanDecimal(s)
    case Some((v, n)) => if n == |s| then Some(v) else None
    case None => None
  }

  /** std::stod(s) without a check of how much was read. */
  function StodPrefix(s: string): (r: Option<real>)
    ensures r.Some? <==> ScanDecimal(s).Some?
  {
    match ScanDecimal(s)
    case Some((v, _)) => Some(v)
    case None => None
  }

  /** The number read from `p` is the longest: no digit follows it, and a
      '.' follows it only when it already holds one. */
  lemma {:induction false} ScanUnsignedStops(s: string, p: nat)
    requires p <= |s| && ScanUnsigned(s, p).Some?
    ensures var e := ScanUnsigned(s, p).value.1;
      (e == |s| || !IsDigit(s[e])) && (e < |s| && s[e] == '.' ==> exists k :: p <= k < e && s[k] == '.')
  {
    var e1 := SpanDigits(s, p);
    if e1 < |s| && s[e1] == '.' {
      assert p <= e1 < ScanUnsigned(s, p).value.1 && s[e1] == '.';
    }
  }

  /** strtod reads the longest numeric prefix: no digit follows it, and a
      '.' follows it only when the prefix already holds one. */
  lemma {:induction false} ScanDecimalStops(s: string)
    requires ScanDecimal(s).Some?
    ensures var e := ScanDecimal(s).value.1;
      (e == |s| || !IsDigit(s[e])) && (e < |s| && s[e] == '.' ==> exists k :: 0 <= k < e && s[k] == '.')
  {
    var w := SpanSpace(s, 0);
    var p := if w < |s| && (s[w] == '-' || s[w] == '+') then w + 1 else w;
    ScanUnsignedStops(s, p);
  }

  /** A text starting with a digit has neither white space nor a sign. */
  lemma {:induction false} ScanFromDigit(s: string)
    requires |s| > 0 && IsDigit(s[0])
    ensures ScanDecimal(s) == ScanUnsigned(s, 0)
  {
    assert SpanSpace(s, 0) == 0;
  }

  /** A run of digits from `p` to `j`, not followed by a digit or a '.',
      is read as its value. */
  lemma {:induction false} ScanUnsignedWhole(s: string, p: nat, j: nat)
    requires p < j <= |s| && forall k :: p <= k < j ==> IsDigit(s[k])
    requires j == |s| || (!IsDigit(s[j]) && s[j] != '.')
    ensures ScanUnsigned(s, p) == Some((RunValue(s, p, j) as real, j))
  {
    SpanDigitsOf(s, p, j);
  }

  /** Digits from `p` to `e1`, a '.', and digits from `e1 + 1` to `e2` not
      followed by a digit are read as whole part plus fraction. */
  lemma {:induction false} ScanUnsignedFraction(s: string, p: nat, e1: nat, e2: nat)
    requires p <= e1 < e2 <= |s| && s[e1] == '.' && (p < e1 || e1 + 1 < e2)
    requires forall k :: p <= k < e1 ==> IsDigit(s[k])
    requires forall k :: e1 + 1 <= k < e2 ==> IsDigit(s[k])
    requires e2 == |s| || !IsDigit(s[e2])
    ensures ScanUnsigned(s, p) == Some((RunValue(s, p, e1) as real + FracValue(s, e1 + 1, e2), e2))
  {
    SpanDigitsOf(s, p, e1);
    SpanDigitsOf(s, e1 + 1, e2);
  }

  /** After a leading minus sign strtod reads the magnitude and negates it. */
  lemma {:induction false} ScanDecimalMinus(u: string)
    requires |u| > 0 && u[0] == '-'
    ensures ScanDecimal(u) ==
      match ScanUnsigned(u, 1)
      case Some((m, e)) => Some((-m, e))
      case None => None
  {
    assert SpanSpace(u, 0) == 0;
  }

  /** Where the digits `w` lie in pre + w + rest, and their value there. */
  lemma {:induction false} WholeLayout(pre: string, w: string, rest: string)
    requires forall k :: 0 <= k < |w| ==> IsDigit(w[k])
    ensures var s, i, j := pre + w + rest, |pre|, |pre + w|;
      (forall k :: i <= k < j ==> IsDigit(s[k])) && (j < |s| ==> s[j] == rest[0]) &&
      RunValue(s, i, j) == RunValue(w, 0, |w|)
  {
    RunValueSame(pre + w + rest, |pre|, w, |w|);
  }

  /** Where the parts of "w.d" lie in pre + w + "." + d + rest, and their values there. */
  lemma {:induction false} PointedLayout(pre: string, w: string, d: string, rest: string)
    requires forall k :: 0 <= k < |w| ==> IsDigit(w[k])
    requires forall k :: 0 <= k < |d| ==> IsDigit(d[k])
    ensures var s, e1, e2 := pre + w + "." + d + rest, |pre + w|, |pre + w + "." + d|;
      s[e1] == '.' && (forall k :: |pre| <= k < e1 ==> IsDigit(s[k])) &&
      (forall k :: e1 + 1 <= k < e2 ==> IsDigit(s[k])) && (e2 < |s| ==> s[e2] == rest[0]) &&
      RunValue(s, |pre|, e1) == RunValue(w, 0, |w|) && RunValue(s, e1 + 1, e2) == RunValue(d, 0, |d|)
  {
    var s, e1 := pre + w + "." + d + rest, |pre + w|;
    RunValueSame(s, |pre|, w, |w|);
    RunValueSame(s, e1 + 1, d, |d|);
  }

  /** The digits of a natural number have its value. */
  lemma {:induction false} NatValue(n: nat)
    ensures RunValue(NatToString(n), 0, |NatToString(n)|) == n
  {
    var w := NatToString(n);
    RunValueDigits(w, 0, |w|);
    assert w[0..|w|] == w;
    NatToStringValue(n);
  }

  /** The digits after a point have value Scaled(DigitsValue(d), |d|). */
  lemma {:induction false} FracDigits(d: string)
    requires forall k :: 0 <= k < |d| ==> IsDigit(d[k])
    ensures FracValue(d, 0, |d|) == Scaled(DigitsValue(d), |d|)
  {
    RunValueDigits(d, 0, |d|);
    assert d[0..|d|] == d;
  }

  /** strtod reads the digits of a natural number as that number, and stops
      where they end unless a digit or a decimal point follows. */
  lemma {:induction false} ScanNatural(n: nat, rest: string)
    requires rest == [] || (!IsDigit(rest[0]) && rest[0] != '.')
    ensures ScanDecimal(NatToString(n) + rest) == Some((n as real, |NatToString(n)|))
  {
    var w := NatToString(n);
    WholeLayout("", w, rest);
    assert "" + w == w;
    ScanFromDigit(w + rest);
    ScanUnsignedWhole(w + rest, 0, |w|);
    NatValue(n);
  }

  /** strtod reads a minus sign and the digits of a natural number as its negation. */
  lemma {:induction false} ScanNegativeNatural(m: nat, rest: string)
    requires rest == [] || (!IsDigit(rest[0]) && rest[0] != '.')
    ensures ScanDecimal("-" + NatToString(m) + rest) == Some((-(m as real), |"-" + NatToString(m)|))
  {
    var w := NatToString(m);
    WholeLayout("-", w, rest);
    ScanDecimalMinus("-" + w + rest);
    ScanUnsignedWhole("-" + w + rest, 1, |"-" + w|);
    NatValue(m);
  }

  /** strtod reads std::to_string of an int back as that int. */
  lemma {:induction false} ScanInt(n: int, rest: string)
    requires rest == [] || (!IsDigit(rest[0]) && rest[0] != '.')
    ensures ScanDecimal(IntToString(n) + rest) == Some((n as real, |IntToString(n)|))
  {
    var t := IntToString(n);
    if n < 0 {
      var m: nat := -n;
      assert t == "-" + NatToString(m);
      ScanNegativeNatural(m, rest);
      assert t + rest == "-" + NatToString(m) + rest;
      assert n as real == -(m as real);
    } else {
      assert t == NatToString(n);
      ScanNatural(n, rest);
    }
  }

  /** A text of the shape "w.d..." starting with a digit reads as w.d. */
  lemma {:induction false} ScanPointedAt(s: string, e1: nat, e2: nat, v: real)
    requires 0 < e1 < e2 <= |s| && s[e1] == '.'
    requires forall k :: 0 <= k < e1 ==> IsDigit(s[k])
    requires forall k :: e1 + 1 <= k < e2 ==> IsDigit(s[k])
    requires e2 == |s| || !IsDigit(s[e2])
    requires v == RunValue(s, 0, e1) as real + FracValue(s, e1 + 1, e2)
    ensures ScanDecimal(s) == Some((v, e2))
  {
    ScanFromDigit(s);
    ScanUnsignedFraction(s, 0, e1, e2);
  }

  /** A text of the shape "-w.d..." reads as the negation of w.d. */
  lemma {:induction false} ScanMinusPointedAt(s: string, e1: nat, e2: nat, v: real)
    requires 1 < e1 < e2 <= |s| && s[0] == '-' && s[e1] == '.'
    requires forall k :: 1 <= k < e1 ==> IsDigit(s[k])
    requires forall k :: e1 + 1 <= k < e2 ==> IsDigit(s[k])
    requires e2 == |s| || !IsDigit(s[e2])
    requires v == RunValue(s, 1, e1) as real + FracValue(s, e1 + 1, e2)
    ensures ScanDecimal(s) == Some((-v, e2))
  {
    ScanDecimalMinus(s);
    ScanUnsignedFraction(s, 1, e1, e2);
  }

  /** strtod reads "a.d" as a + d / 10^|d|, up to the end of the digits. */
  lemma {:induction false} ScanFraction(a: nat, d: string, rest: string)
    requires forall k :: 0 <= k < |d| ==> IsDigit(d[k])
    requires rest == [] || !IsDigit(rest[0])
    ensures ScanDecimal(NatToString(a) + "." + d + rest) ==
      Some((a as real + Scaled(DigitsValue(d), |d|), |NatToString(a) + "." + d|))
  {
    var w := NatToString(a);
    PointedLayout("", w, d, rest);
    assert "" + w == w;
    var s, e1, e2 := w + "." + d + rest, |w|, |w + "." + d|;
    NatValue(a);
    FracDigits(d);
    assert FracValue(s, e1 + 1, e2) == Scaled(DigitsValue(d), |d|);
    ScanPointedAt(s, e1, e2, a as real + Scaled(DigitsValue(d), |d|));
  }

  /** strtod reads "-a.d" as -(a + d / 10^|d|), up to the end of the digits. */
  lemma {:induction false} ScanNegativeFraction(a: nat, d: string, rest: string)
    requires forall k :: 0 <= k < |d| ==> IsDigit(d[k])
    requires rest == [] || !IsDigit(rest[0])
    ensures ScanDecimal("-" + NatToString(a) + "." + d + rest) ==
      Some((-(a as real + Scaled(DigitsValue(d), |d|)), |"-" + NatToString(a) + "." + d|))
  {
    var w := NatToString(a);
    PointedLayout("-", w, d, rest);
    var s, e1, e2 := "-" + w + "." + d + rest, |"-" + w|, |"-" + w + "." + d|;
    NatValue(a);
    FracDigits(d);
    assert FracValue(s, e1 + 1, e2) == Scaled(DigitsValue(d), |d|);
    ScanMinusPointedAt(s, e1, e2, a as real + Scaled(DigitsValue(d), |d|));
  }

  /** A text that is exactly std::to_string of an int converts in full. */
  lemma {:induction false} StodWholeInt(n: int)
    ensures StodWhole(IntToString(n)) == Some(n as real)
  {
    ScanInt(n, "");
    assert IntToString(n) + "" == IntToString(n);
  }

  /** A text that is exactly "a.d" converts in full to a + d / 10^|d|. */
  lemma {:induction false} StodWholeDecimal(a: nat, d: string)
    requires forall k :: 0 <= k < |d| ==> IsDigit(d[k])
    ensures StodWhole(NatToString(a) + "." + d) == Some(a as real + Scaled(DigitsValue(d), |d|))
  {
    ScanFraction(a, d, "");
    assert NatToString(a) + "." + d + "" == NatToString(a) + "." + d;
  }

  /** A text that is exactly "-a.d" converts in full to -(a + d / 10^|d|). */
  lemma {:induction false} StodWholeNegativeDecimal(a: nat, d: string)
    requires forall k :: 0 <= k < |d| ==> IsDigit(d[k])
    ensures StodWhole("-" + NatToString(a) + "." + d) == Some(-(a as real + Scaled(DigitsValue(d), |d|)))
  {
    ScanNegativeFraction(a, d, "");
    assert "-" + NatToString(a) + "." + d + "" == "-" + NatToString(a) + "." + d;
  }

  // ---------------------------------------------------------------------------
  // Number to text: std::to_string.

  function DigitChar(d: nat): (c: char)
    requires d < 10
    ensures IsDigit(c)
  {
    ('0' as int + d) as char
  }

  /** Decimal digits of a natural number, without leading zeros. */
  function NatToString(n: nat): (s: string)
    ensures |s| > 0
    ensures forall k :: 0 <= k < |s| ==> IsDigit(s[k])
    decreases n
  {
    if n < 10 then [DigitChar(n)] else NatToString(n / 10) + [DigitChar(n % 10)]
  }

  /** Reading back the digits of a natural number gives the number. */
  lemma {:induction false} NatToStringValue(n: nat)
    ensures DigitsValue(NatToString(n)) == n
    decreases n
  {
    if n >= 10 {
      NatToStringValue(n / 10);
      var s := NatToString(n);
      assert s[..|s| - 1] == NatToString(n / 10);
    }
  }

  /** std::to_string of an int. */
  function IntToString(n: int): (s: string)
    ensures |s| > 0
    ensures n >= 0 ==> (forall k :: 0 <= k < |s| ==> IsDigit(s[k])) && DigitsValue(s) == n
    ensures n < 0 ==> s[0] == '-' && (forall k :: 1 <= k < |s| ==> IsDigit(s[k])) && DigitsValue(s[1..]) == -n
  {
    NatToStringValue(if n < 0 then -n else n);
    assert n < 0 ==> ("-" + NatToString(-n))[1..] == NatToString(-n);
    if n < 0 then "-" + NatToString(-n) else NatToString(n)
  }

  /** `d` digits of `n`, left-padded with zeros. */
  function PadDigits(n: nat, d: nat): (s: string)
    ensures |s| >= d
    ensures forall k :: 0 <= k < |s| ==> IsDigit(s[k])
  {
    var t := NatToString(n);
    if |t| >= d then t else seq(d - |t|, _ => '0') + t
  }

  /** `x` rounded to a whole number, ties to even (the rounding printf applies). */
  function RoundHalfEven(x: real): (n: int)
    ensures x - 0.5 <= n as real <= x + 0.5
    ensures x - x.Floor as real != 0.5 ==> x - 0.5 < n as real < x + 0.5
    ensures x - x.Floor as real == 0.5 ==> n % 2 == 0
  {
    var f := x.Floor;
    var r := x - f as real;
    if r > 0.5 || (r == 0.5 && f % 2 == 1) then f + 1 else f
  }

  /** std::to_string of a double, i.e. printf's "%f": six decimals. */
  function FixedSix(x: real): (s: string)
    ensures |s| >= 8
  {
    var m := RoundHalfEven((if x < 0.0 then -x else x) * 1000000.0);
    var mag := if m < 0 then 0 else m;
    (if x < 0.0 then "-" else "") + NatToString(mag / 1000000) + "." + PadDigits(mag % 1000000, 6)
  }
}
