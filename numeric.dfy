/**
 * Numbers as the application reads and writes them, on exact values.
 *
 * Every numeric parse in the application runs on text that was first cleaned
 * down to ASCII digits, '.' and '-'. On such text JavaScript's `parseFloat`
 * reduces to a prefix grammar: an optional '-', then digits with an optional
 * '.' and more digits, at least one digit in all; no such prefix is NaN.
 */
module Numeric {
  import opened Wrappers
  import opened Text

  function Pow10(k: nat): (p: nat)
    ensures p >= 1
  {
    if k == 0 then 1 else 10 * Pow10(k - 1)
  }

  /** The number of decimal digits at the front of `s`. */
  function LeadingDigits(s: string): (n: nat)
    ensures n <= |s|
  {
    if s != [] && IsDigit(s[0]) then 1 + LeadingDigits(s[1..]) else 0
  }

  /** The leading digits are digits, and the character after them is not. */
  lemma {:induction false} LeadingDigitsShape(s: string)
    ensures AllDigits(s[..LeadingDigits(s)])
    ensures LeadingDigits(s) < |s| ==> !IsDigit(s[LeadingDigits(s)])
  {
    if s != [] && IsDigit(s[0]) {
      LeadingDigitsShape(s[1..]);
      var m := LeadingDigits(s[1..]);
      assert s[..1 + m] == [s[0]] + s[1..][..m];
    }
  }

  lemma {:induction false} LeadingDigitsOfConcat(a: string, b: string)
    requires AllDigits(a)
    requires b == [] || !IsDigit(b[0])
    ensures LeadingDigits(a + b) == |a|
  {
    if a != [] {
      assert (a + b)[1..] == a[1..] + b;
      LeadingDigitsOfConcat(a[1..], b);
    }
  }

  /** The characters left after cleaning: ASCII digits, '.' and '-'. */
  predicate IsCleanChar(c: char) {
    IsDigit(c) || c == '.' || c == '-'
  }

  predicate IsClean(s: string) {
    forall i :: 0 <= i < |s| ==> IsCleanChar(s[i])
  }

  /** Text that begins a decimal literal: a digit, or '.' and a digit. */
  predicate StartsNumber(body: string) {
    (|body| > 0 && IsDigit(body[0])) || (|body| > 1 && body[0] == '.' && IsDigit(body[1]))
  }

  /** The value of whole digits and fraction digits: all the digits read as one number, scaled down by ten per fraction digit. */
  function PrefixValue(whole: string, frac: string): (v: real)
    ensures v >= 0.0
  {
    DigitsValue(whole + frac) as real / Pow10(|frac|) as real
  }

  /**
   * The unsigned decimal literal at the front of `body` (digits, optionally
   * '.' and more digits, at least one digit in all): its length and value.
   * Without such a prefix the length is 0 and there is no value.
   */
  function DecimalPrefix(body: string): (p: (nat, Option<real>))
    ensures p.0 <= |body|
  {
    var n := LeadingDigits(body);
    var hasPoint := n < |body| && body[n] == '.';
    var rest := if hasPoint then body[n + 1..] else "";
    var m := if hasPoint then LeadingDigits(rest) else 0;
    if n + m == 0 then (0, None)
    else
      var frac := if hasPoint then rest[..m] else "";
      (if hasPoint then n + 1 + m else n, Some(PrefixValue(body[..n], frac)))
  }

  /**
   * `parseFloat` on cleaned text: an optional '-', then the decimal prefix.
   * The value exists exactly when, after the sign, the text begins a number.
   */
  function ParseFloatPrefix(s: string): Option<real>
    requires IsClean(s)
  {
    var neg := s != [] && s[0] == '-';
    var body := if neg then s[1..] else s;
    match DecimalPrefix(body).1
    case None => None
    case Some(v) => Some(if neg then -v else v)
  }

  /** A prefix is read exactly when the text begins a number; its length is 0 exactly when nothing is read; its value is never negative. */
  lemma DecimalPrefixShape(body: string)
    ensures DecimalPrefix(body).1.None? <==> DecimalPrefix(body).0 == 0
    ensures DecimalPrefix(body).1.Some? <==> StartsNumber(body)
    ensures DecimalPrefix(body).1.Some? ==> DecimalPrefix(body).1.value >= 0.0
  {
    var n := LeadingDigits(body);
    LeadingDigitsShape(body);
    if n < |body| && body[n] == '.' {
      LeadingDigitsShape(body[n + 1..]);
    }
  }

  /** `parseFloat` finds a number exactly when, after the sign, the text begins one. */
  lemma ParseFloatPrefixSome(s: string)
    requires IsClean(s)
    ensures ParseFloatPrefix(s).Some? <==> StartsNumber(if s != [] && s[0] == '-' then s[1..] else s)
  {
    DecimalPrefixShape(if s != [] && s[0] == '-' then s[1..] else s);
  }

  /** `parseFloat` finds a number only in text holding a digit, and a negative number only after a leading '-'. */
  lemma ParseFloatPrefixNeeds(s: string)
    requires IsClean(s)
    ensures ParseFloatPrefix(s).Some? ==> exists i :: 0 <= i < |s| && IsDigit(s[i])
    ensures ParseFloatPrefix(s).Some? && ParseFloatPrefix(s).value < 0.0 ==> s[0] == '-'
  {
    var neg := s != [] && s[0] == '-';
    var body := if neg then s[1..] else s;
    ParseFloatPrefixSome(s);
    DecimalPrefixShape(body);
    if ParseFloatPrefix(s).Some? {
      var j := if IsDigit(body[0]) then 0 else 1;
      var off := if neg then 1 else 0;
      assert s[j + off] == body[j];
    }
  }

  /** The digits of a natural number parse back to that number. */
  lemma ParseNatText(n: nat, rest: string)
    requires IsClean(rest)
    requires rest == [] || (!IsDigit(rest[0]) && rest[0] != '.')
    ensures IsClean(NatText(n) + rest)
    ensures ParseFloatPrefix(NatText(n) + rest) == Some(n as real)
  {
    var ds := NatText(n);
    var s := ds + rest;
    assert s[0] == ds[0];
    DecimalPrefixOfDigits(ds, rest);
    NatTextValue(n);
  }

  /** Without fraction digits the value is the whole digits' value. */
  lemma PrefixValueWhole(ds: string)
    ensures PrefixValue(ds, "") == DigitsValue(ds) as real
  {
    assert ds + "" == ds;
    assert Pow10(0) == 1;
    DivideByOne(DigitsValue(ds) as real, Pow10(|""|) as real);
  }

  /** Digits followed by neither a digit nor a point are read whole, and nothing after them. */
  lemma DecimalPrefixOfDigits(ds: string, rest: string)
    requires |ds| >= 1 && AllDigits(ds)
    requires rest == [] || (!IsDigit(rest[0]) && rest[0] != '.')
    ensures DecimalPrefix(ds + rest) == (|ds|, Some(DigitsValue(ds) as real))
  {
    var s := ds + rest;
    LeadingDigitsOfConcat(ds, rest);
    var n := LeadingDigits(s);
    assert n == |ds|;
    assert s[..n] == ds;
    var hasPoint := n < |s| && s[n] == '.';
    assert !hasPoint by {
      if n < |s| {
        assert s[n] == rest[0];
      }
    }
    PrefixValueWhole(ds);
  }

  /**
   * JavaScript's `Number(text)` for a string, on the decimal literals it
   * accepts: surrounding white space is ignored, blank text is 0, and a sign,
   * digits and an optional fraction must make up the whole text.
   */
  function StringToNumber(s: string): (r: Option<real>)
    ensures Trim(s) == [] ==> r == Some(0.0)
  {
    var t := Trim(s);
    if t == [] then Some(0.0)
    else
      var signed := t[0] == '-' || t[0] == '+';
      var body := if signed then t[1..] else t;
      var p := DecimalPrefix(body);
      if p.1.Some? && p.0 == |body| then Some(if t[0] == '-' then -p.1.value else p.1.value)
      else None
  }

  /** Every decimal literal, with white space around it, is read as a number. */
  lemma DecimalLiteralIsNumber(s: string)
    requires IsDecimalLiteral(Trim(s))
    ensures StringToNumber(s).Some?
  {
    var t := Trim(s);
    var body := if t != [] && t[0] == '-' then t[1..] else t;
    var n := LeadingDigits(body);
    if n < |body| {
      var rest := body[n + 1..];
      LeadingDigitsOfConcat(rest, "");
      assert rest + "" == rest;
    }
    assert DecimalPrefix(body).0 == |body|;
  }

  /**
   * The value of a decimal literal: an optional '-', whole digits `a` and
   * fraction digits `b` (the '.' written only when there are some) are read
   * as `a` and `b` taken as one integer, divided by ten per fraction digit.
   */
  lemma DecimalLiteralValue(s: string, neg: bool, a: string, b: string)
    requires |a| >= 1 && AllDigits(a) && AllDigits(b)
    requires Trim(s) == (if neg then "-" else "") + a + (if b == [] then "" else "." + b)
    ensures StringToNumber(s) == Some(if neg then -PrefixValue(a, b) else PrefixValue(a, b))
  {
    var body := LiteralBody(a, b);
    assert Trim(s) == (if neg then "-" else "") + body;
    SignedBodyNumber(s, neg, body, PrefixValue(a, b));
  }

  /** Whole digits, then '.' and fraction digits if there are any, are read whole as their value. */
  lemma LiteralBody(a: string, b: string) returns (body: string)
    requires |a| >= 1 && AllDigits(a) && AllDigits(b)
    ensures body == a + (if b == [] then "" else "." + b)
    ensures |body| >= 1 && IsDigit(body[0]) && DecimalPrefix(body) == (|body|, Some(PrefixValue(a, b)))
  {
    body := a + (if b == [] then "" else "." + b);
    assert body[0] == a[0];
    if b == [] {
      DecimalPrefixOfDigits(a, "");
      PrefixValueWhole(a);
      assert a + "" == a;
    } else {
      PointLayoutPrefix(body, a, b);
    }
  }

  /** Text that trims to an optional '-' and an unsigned literal read whole as `v` is read by `Number` as `v` or `-v`. */
  lemma SignedBodyNumber(s: string, neg: bool, body: string, v: real)
    requires |body| >= 1 && IsDigit(body[0]) && DecimalPrefix(body) == (|body|, Some(v))
    requires Trim(s) == (if neg then "-" else "") + body
    ensures StringToNumber(s) == Some(if neg then -v else v)
  {
    var t := Trim(s);
    if neg {
      assert t[0] == '-' && t[1..] == body;
    } else {
      assert t == body;
    }
  }

  /** The pattern `-?\d+(\.\d+)?` matched against the whole of `s`. */
  predicate IsDecimalLiteral(s: string) {
    var body := if s != [] && s[0] == '-' then s[1..] else s;
    var n := LeadingDigits(body);
    n >= 1 && (n == |body| || (body[n] == '.' && n + 1 < |body| && AllDigits(body[n + 1..])))
  }

  /** A decimal literal starts with a sign or a digit and ends with a digit. */
  lemma DecimalLiteralEnds(t: string)
    requires IsDecimalLiteral(t)
    ensures |t| >= 1 && (t[0] == '-' || IsDigit(t[0])) && IsDigit(t[|t| - 1])
  {
    var body := if t != [] && t[0] == '-' then t[1..] else t;
    var n := LeadingDigits(body);
    LeadingDigitsShape(body);
    assert body[..n][n - 1] == body[n - 1];
  }

  /** `Math.round`: the nearest integer, halves rounded up. */
  function Round(x: real): (n: int)
    ensures x - 0.5 < n as real <= x + 0.5
  {
    (x + 0.5).Floor
  }

  /** A whole number rounds to itself. */
  lemma RoundOfWhole(x: real)
    ensures x == x.Floor as real ==> Round(x) == x.Floor
  {
  }

  /** Zeros added on the left up to `width` characters. */
  function PadZeros(ds: string, width: nat): (r: string)
    ensures |r| >= width && |r| >= |ds|
    ensures AllDigits(ds) ==> AllDigits(r)
  {
    if |ds| >= width then ds else seq(width - |ds|, _ => '0') + ds
  }

  /** `m / 10^k` written with exactly `k` fraction digits: at least one digit, then '.', then `k` digits. */
  function PointText(m: nat, k: nat): (r: string)
    ensures k == 0 ==> r == NatText(m)
    ensures k > 0 ==> |r| >= k + 2 && AllDigits(r[..|r| - k - 1]) && r[|r| - k - 1] == '.'
                      && AllDigits(r[|r| - k..])
  {
    if k == 0 then NatText(m) else PointLayout(PadZeros(NatText(m), k + 1), k)
  }

  /** Digits with a '.' put before their last `k`. */
  function PointLayout(ds: string, k: nat): (r: string)
    requires |ds| >= k + 1 && AllDigits(ds)
    ensures |r| >= k + 2 && AllDigits(r[..|r| - k - 1]) && r[|r| - k - 1] == '.' && AllDigits(r[|r| - k..])
  {
    var r := ds[..|ds| - k] + "." + ds[|ds| - k..];
    assert r[..|r| - k - 1] == ds[..|ds| - k];
    assert r[|r| - k..] == ds[|ds| - k..];
    r
  }

  /** `x.toFixed(2)` on an exact value: the magnitude rounded to hundredths, halves up, with '-' for negatives. */
  function Fixed2(x: real): string {
    if x < 0.0 then "-" + PointText((-x * 100.0 + 0.5).Floor, 2)
    else PointText((x * 100.0 + 0.5).Floor, 2)
  }

  /** The largest number of fraction digits `NumberText` writes. */
  const MaxFractionDigits: nat := 20

  /** The fewest fraction digits, from `k` up to 20, that write `x` exactly; 20 when none does. */
  function FractionDigits(x: real, k: nat): (d: nat)
    requires k <= MaxFractionDigits
    ensures k <= d <= MaxFractionDigits
    decreases MaxFractionDigits - k
  {
    if WholeAt(x, k) || k == MaxFractionDigits then k else FractionDigits(x, k + 1)
  }

  /** The shortest decimal layout of `x >= 0` with at most 20 fraction digits (cut, not rounded, beyond them). */
  function ScaledText(x: real): (r: string)
    requires x >= 0.0
    ensures |r| >= 1 && IsDigit(r[0]) && IsDigit(r[|r| - 1])
    ensures IsDecimalLiteral(r)
  {
    ScaledAt(x, FractionDigits(x, 0))
  }

  /** `x >= 0` cut to `d` fraction digits and written with exactly `d` of them. */
  function ScaledAt(x: real, d: nat): (r: string)
    requires x >= 0.0
    ensures |r| >= 1 && IsDigit(r[0]) && IsDigit(r[|r| - 1])
    ensures IsDecimalLiteral(r)
  {
    var n := ScaledWhole(x, d);
    PointTextIsLiteral(n, d);
    PointText(n, d)
  }

  /** The whole part of `x * 10^d`. */
  function ScaledWhole(x: real, d: nat): (n: nat)
    requires x >= 0.0
  {
    FloorOfProduct(x, Pow10(d) as real);
    (x * Pow10(d) as real).Floor
  }

  lemma PointTextIsLiteral(m: nat, k: nat)
    ensures |PointText(m, k)| >= 1 && IsDigit(PointText(m, k)[0])
    ensures IsDigit(PointText(m, k)[|PointText(m, k)| - 1])
    ensures IsDecimalLiteral(PointText(m, k))
  {
    var r := PointText(m, k);
    if k == 0 {
      LeadingDigitsOfConcat(r, "");
      assert r + "" == r;
    } else {
      PointLayoutIsLiteral(r, k);
    }
  }

  /** Digits, a point and `k >= 1` more digits make a decimal literal. */
  lemma PointLayoutIsLiteral(r: string, k: nat)
    requires k >= 1 && |r| >= k + 2 && AllDigits(r[..|r| - k - 1]) && r[|r| - k - 1] == '.' && AllDigits(r[|r| - k..])
    ensures IsDigit(r[0]) && IsDigit(r[|r| - 1]) && IsDecimalLiteral(r)
  {
    var i := |r| - k - 1;
    assert r[|r| - 1] == r[|r| - k..][k - 1];
    assert r == r[..i] + r[i..];
    LeadingDigitsOfConcat(r[..i], r[i..]);
    assert r[i + 1..] == r[|r| - k..];
  }

  /**
   * `String(x)` for a number with a terminating decimal expansion: the
   * shortest plain decimal layout (no exponent), with '-' for negatives.
   */
  function NumberText(x: real): (r: string)
    ensures IsDecimalLiteral(r)
    ensures |r| >= 1 && (r[0] == '-' || IsDigit(r[0])) && IsDigit(r[|r| - 1])
  {
    if x < 0.0 then
      var t := ScaledText(-x);
      NegatedLiteral(t);
      "-" + t
    else ScaledText(x)
  }

  /** A minus sign before an unsigned decimal literal gives a decimal literal. */
  lemma NegatedLiteral(t: string)
    requires |t| >= 1 && IsDigit(t[0]) && IsDigit(t[|t| - 1]) && IsDecimalLiteral(t)
    ensures var r := "-" + t;
      IsDecimalLiteral(r) && |r| >= 1 && r[0] == '-' && IsDigit(r[|r| - 1])
  {
    var r := "-" + t;
    assert r[1..] == t;
  }

  // ---------------------------------------------------------------------------
  // Reading back what `NumberText` writes
  // ---------------------------------------------------------------------------

  /** Digits written after other digits shift them left: the value of `a + b` is `a * 10^|b| + b`. */
  lemma {:induction false} DigitsValueConcat(a: string, b: string)
    ensures DigitsValue(a + b) == DigitsValue(a) * Pow10(|b|) + DigitsValue(b)
    decreases |b|
  {
    if b == [] {
      assert a + b == a;
    } else {
      var b' := b[..|b| - 1];
      assert (a + b)[..|a + b| - 1] == a + b' && (a + b)[|a + b| - 1] == b[|b| - 1];
      DigitsValueConcat(a, b');
      assert Pow10(|b|) == Pow10(|b'|) * 10;
      ShiftDigit(DigitsValue(a), Pow10(|b'|), DigitsValue(b'), DigitValue(b[|b| - 1]));
    }
  }

  lemma ShiftDigit(a: nat, p: nat, v: nat, d: nat)
    ensures (a * p + v) * 10 + d == a * (p * 10) + (v * 10 + d)
  {
  }

  lemma ScaledBack(x: real, p: real, n: int)
    requires p > 0.0 && n as real == x * p
    ensures n as real / p == x
  {
  }

  /** Leading zeros add nothing to the value. */
  lemma {:induction false} DigitsValueZeros(z: string)
    requires forall i :: 0 <= i < |z| ==> z[i] == '0'
    ensures DigitsValue(z) == 0
    decreases |z|
  {
    if z != [] {
      DigitsValueZeros(z[..|z| - 1]);
    }
  }

  /** Digits, a point and more digits are read whole: the whole part plus the fraction. */
  lemma PointLayoutPrefix(r: string, a: string, b: string)
    requires |a| >= 1 && AllDigits(a) && |b| >= 1 && AllDigits(b) && r == a + "." + b
    ensures DecimalPrefix(r) == (|r|, Some(PrefixValue(a, b)))
  {
    var tail := "." + b;
    assert r == a + tail;
    LeadingDigitsOfConcat(a, tail);
    var n := LeadingDigits(r);
    assert n == |a|;
    assert r[n] == '.';
    var rest := r[n + 1..];
    assert rest == b;
    var bb := b + "";
    assert bb == b;
    LeadingDigitsOfConcat(b, "");
    var m := LeadingDigits(rest);
    assert m == |b|;
    assert r[..n] == a;
    assert rest[..m] == b;
    assert n < |r| && r[n] == '.';
    assert n + m != 0;
  }

  /** Zeros added on the left leave the value of the digits alone. */
  lemma PadZerosValue(ds: string, width: nat)
    ensures DigitsValue(PadZeros(ds, width)) == DigitsValue(ds)
  {
    if |ds| < width {
      var z := seq(width - |ds|, _ => '0');
      assert PadZeros(ds, width) == z + ds;
      DigitsValueConcat(z, ds);
      DigitsValueZeros(z);
    }
  }

  /** `PointText(m, k)` is read back whole, as `m / 10^k`. */
  lemma PointTextPrefix(m: nat, k: nat)
    ensures DecimalPrefix(PointText(m, k)) == (|PointText(m, k)|, Some(m as real / Pow10(k) as real))
  {
    if k == 0 {
      WholeTextPrefix(m);
    } else {
      FractionTextPrefix(m, k);
    }
  }

  /** With `k >= 1` fraction digits the layout is read back whole, as `m / 10^k`. */
  lemma FractionTextPrefix(m: nat, k: nat)
    requires k >= 1
    ensures DecimalPrefix(PointText(m, k)) == (|PointText(m, k)|, Some(m as real / Pow10(k) as real))
  {
    var a, b := PointTextParts(m, k);
    PointLayoutPrefix(PointText(m, k), a, b);
    PrefixValueOf(a, b, m);
  }

  /** The digits of `m` alone are read back whole, as `m`. */
  lemma WholeTextPrefix(m: nat)
    ensures DecimalPrefix(NatText(m)) == (|NatText(m)|, Some(m as real / Pow10(0) as real))
  {
    var nt := NatText(m);
    NatTextValue(m);
    assert nt + "" == nt;
    DecimalPrefixOfDigits(nt, "");
    DivideByOne(m as real, Pow10(0) as real);
  }

  lemma DivideByOne(x: real, p: real)
    requires p == 1.0
    ensures x / p == x
  {
  }

  lemma PrefixValueOf(a: string, b: string, m: nat)
    requires DigitsValue(a + b) == m
    ensures PrefixValue(a, b) == m as real / Pow10(|b|) as real
  {
  }

  /** With `k >= 1` the layout is the whole digits, a point and `k` fraction digits, together worth `m / 10^k`. */
  lemma PointTextParts(m: nat, k: nat) returns (a: string, b: string)
    requires k >= 1
    ensures PointText(m, k) == a + "." + b
    ensures |a| >= 1 && AllDigits(a) && |b| == k && AllDigits(b)
    ensures DigitsValue(a + b) == m
  {
    var ds := PaddedDigits(m, k + 1);
    assert PointText(m, k) == PointLayout(ds, k);
    a, b := SplitDigits(ds, k);
  }

  /** `m` written and padded to `w` characters is `w` or more digits worth `m`. */
  lemma PaddedDigits(m: nat, w: nat) returns (ds: string)
    ensures ds == PadZeros(NatText(m), w)
    ensures |ds| >= w && AllDigits(ds) && DigitsValue(ds) == m
  {
    ds := PadZeros(NatText(m), w);
    NatTextValue(m);
    PadZerosValue(NatText(m), w);
  }

  /** Digits cut before their last `k`: both parts are digits and together they are the whole. */
  lemma SplitDigits(ds: string, k: nat) returns (a: string, b: string)
    requires AllDigits(ds) && |ds| >= k + 1
    ensures PointLayout(ds, k) == a + "." + b && ds == a + b
    ensures |a| >= 1 && AllDigits(a) && |b| == k && AllDigits(b)
  {
    a, b := ds[..|ds| - k], ds[|ds| - k..];
    assert ds == a + b;
  }

  /** The magnitude of a number. */
  function Magnitude(x: real): (y: real)
    ensures y >= 0.0 && (y == x || y == -x)
  {
    if x < 0.0 then -x else x
  }

  /** `y * 10^k` is a whole number. */
  predicate WholeAt(y: real, k: nat) {
    (y * Pow10(k) as real).Floor as real == y * Pow10(k) as real
  }

  /** A number with at most 20 fraction digits: its magnitude times 10^20 is whole. */
  predicate HasShortExpansion(x: real) {
    WholeAt(Magnitude(x), MaxFractionDigits)
  }

  /** A number that is whole, `n`, once scaled by `10^k` is written with `k` fraction digits and read back as itself. */
  lemma ExactPointText(x: real, k: nat, n: nat)
    requires n as real == x * Pow10(k) as real
    ensures DecimalPrefix(PointText(n, k)) == (|PointText(n, k)|, Some(x))
  {
    ScaledBack(x, Pow10(k) as real, n);
    PointTextPrefix(n, k);
  }

  /** With at most 20 fraction digits, the digit count chosen makes the number whole. */
  lemma {:induction false} FractionDigitsWhole(x: real, k: nat)
    requires x >= 0.0 && k <= MaxFractionDigits && HasShortExpansion(x)
    ensures WholeAt(x, FractionDigits(x, k))
    decreases MaxFractionDigits - k
  {
    if !WholeAt(x, k) && k < MaxFractionDigits {
      FractionDigitsWhole(x, k + 1);
    } else if k == MaxFractionDigits {
      assert Magnitude(x) == x;
    }
  }

  /** The layout `ScaledText` chooses for a number with at most 20 fraction digits is read back as that number. */
  lemma ScaledTextPrefix(x: real)
    requires x >= 0.0 && HasShortExpansion(x)
    ensures DecimalPrefix(ScaledText(x)) == (|ScaledText(x)|, Some(x))
  {
    var d := FractionDigits(x, 0);
    FractionDigitsWhole(x, 0);
    var n := WholeScaled(x, d);
    ExactPointText(x, d, n);
    ScaledTextLayout(x, d, n);
  }

  /** `ScaledText` writes the whole number `x * 10^d` with `d` fraction digits. */
  lemma ScaledTextLayout(x: real, d: nat, n: nat)
    requires x >= 0.0 && d == FractionDigits(x, 0) && n == ScaledWhole(x, d)
    ensures ScaledText(x) == PointText(n, d)
  {
    assert ScaledText(x) == ScaledAt(x, d);
    ScaledAtLayout(x, d, n);
  }

  lemma ScaledAtLayout(x: real, d: nat, n: nat)
    requires x >= 0.0 && n == ScaledWhole(x, d)
    ensures ScaledAt(x, d) == PointText(n, d)
  {
  }

  /** The whole number `x * 10^k`. */
  lemma WholeScaled(x: real, k: nat) returns (n: nat)
    requires x >= 0.0 && WholeAt(x, k)
    ensures n == ScaledWhole(x, k) && n as real == x * Pow10(k) as real
  {
    FloorOfProduct(x, Pow10(k) as real);
    n := ScaledWhole(x, k);
  }

  lemma FloorOfProduct(x: real, p: real)
    requires x >= 0.0 && p >= 1.0
    ensures (x * p).Floor >= 0
  {
  }

  /**
   * `Number(String(x)) == x` for every number with at most 20 fraction
   * digits: the text `NumberText` writes is read back by `StringToNumber`
   * as the same number.
   */
  lemma NumberTextRoundTrip(x: real)
    requires HasShortExpansion(x)
    ensures StringToNumber(NumberText(x)) == Some(x)
  {
    if x < 0.0 {
      var t := NegativeRoundTrip(x);
    } else {
      var t := ScaledText(x);
      assert NumberText(x) == t;
      ScaledTextPrefix(x);
      UnsignedRoundTrip(t, x);
    }
  }

  /** A negative number is written as '-' before the layout of its magnitude, and read back as itself. */
  lemma NegativeRoundTrip(x: real) returns (t: string)
    requires x < 0.0 && HasShortExpansion(x)
    ensures NumberText(x) == "-" + t
    ensures StringToNumber("-" + t) == Some(x)
  {
    var y := -x;
    ShortExpansionOfNegation(x, y);
    t := NegativeLayout(x, y);
    ScaledTextPrefix(y);
    NegatedRoundTrip(t, y);
    assert -y == x;
  }

  /** A negative number `x` is written as '-' before the layout of `y == -x`. */
  lemma NegativeLayout(x: real, y: real) returns (t: string)
    requires x < 0.0 && y == -x
    ensures t == ScaledText(y) && NumberText(x) == "-" + t
  {
    t := ScaledText(y);
  }

  lemma ShortExpansionOfNegation(x: real, y: real)
    requires y == -x && HasShortExpansion(x)
    ensures HasShortExpansion(y)
  {
    assert Magnitude(y) == Magnitude(x);
  }

  /** An unsigned literal read whole by the prefix grammar is what `Number` reads. */
  lemma UnsignedRoundTrip(t: string, v: real)
    requires |t| >= 1 && IsDigit(t[0]) && IsDigit(t[|t| - 1])
    requires DecimalPrefix(t) == (|t|, Some(v))
    ensures StringToNumber(t) == Some(v)
  {
    TrimUnchanged(t);
  }

  /** A minus sign before an unsigned literal read whole as `v` is read by `Number` as `-v`. */
  lemma NegatedRoundTrip(t: string, v: real)
    requires |t| >= 1 && IsDigit(t[0]) && IsDigit(t[|t| - 1])
    requires DecimalPrefix(t) == (|t|, Some(v))
    ensures StringToNumber("-" + t) == Some(-v)
  {
    var r := "-" + t;
    assert r[0] == '-' && r[|r| - 1] == t[|t| - 1];
    TrimUnchanged(r);
    assert r[1..] == t;
  }
}
