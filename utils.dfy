/**
 * The shared helpers of the ledger pages: HTML escaping, the currency
 * symbol, Arabic-Indic digit normalisation and the lenient money parser.
 */
module Utils {
  import opened Wrappers
  import opened Text
  import opened Numeric

  /** `escapeHtml(s)`: a missing value prints as empty text; the apostrophe becomes `&#039;`. */
  function EscapeHtml(s: Option<string>): (r: string)
    ensures MarkupSafe(r, "&#039;")
    ensures Unescape(r, "&#039;") == s.GetOr("")
  {
    EscapeIsSafe(s.GetOr(""), "&#039;");
    UnescapeEscape(s.GetOr(""), "&#039;");
    Escape(s.GetOr(""), "&#039;")
  }

  /** `getCurrencySymbol`: the two known codes name themselves, anything else is the dollar sign. */
  function GetCurrencySymbol(currency: string): (r: string)
    ensures r == "IQD" || r == "USD" || r == "$"
    ensures r != "$" ==> r == currency
    ensures currency == "IQD" || currency == "USD" ==> r == currency
  {
    if currency == "IQD" then "IQD"
    else if currency == "USD" then "USD"
    else "$"
  }

  /** Arabic-Indic (U+0660..U+0669) and extended Arabic-Indic (U+06F0..U+06F9) digits. */
  predicate IsArabicIndicDigit(c: char) {
    ('\U{0660}' <= c <= '\U{0669}') || ('\U{06F0}' <= c <= '\U{06F9}')
  }

  /** The value of an Arabic-Indic digit. */
  function ArabicIndicValue(c: char): nat
    requires IsArabicIndicDigit(c)
  {
    if c <= '\U{0669}' then c as int - 0x660 else c as int - 0x6F0
  }

  function LatinDigit(c: char): (d: char)
    ensures IsArabicIndicDigit(c) ==> IsDigit(d) && DigitValue(d) == ArabicIndicValue(c)
    ensures !IsArabicIndicDigit(c) ==> d == c
  {
    if IsArabicIndicDigit(c) then DigitChar(ArabicIndicValue(c)) else c
  }

  /** `normalizeDigits`: each Arabic-Indic digit becomes the ASCII digit of the same value; nothing else changes. */
  function NormalizeDigits(s: string): (r: string)
    ensures |r| == |s|
  {
    seq(|s|, i requires 0 <= i < |s| => LatinDigit(s[i]))
  }

  /** What normalising does to each character: digits take their Latin form, nothing else changes, no Arabic-Indic digit is left. */
  lemma NormalizeDigitsChars(s: string)
    ensures forall i :: 0 <= i < |s| && !IsArabicIndicDigit(s[i]) ==> NormalizeDigits(s)[i] == s[i]
    ensures forall i :: 0 <= i < |s| && IsArabicIndicDigit(s[i]) ==>
              IsDigit(NormalizeDigits(s)[i]) && DigitValue(NormalizeDigits(s)[i]) == ArabicIndicValue(s[i])
    ensures forall i :: 0 <= i < |s| ==> !IsArabicIndicDigit(NormalizeDigits(s)[i])
  {
  }

  /** Normalising twice is normalising once. */
  lemma NormalizeDigitsIdempotent(s: string)
    ensures NormalizeDigits(NormalizeDigits(s)) == NormalizeDigits(s)
  {
  }

  lemma NormalizeDigitsConcat(a: string, b: string)
    ensures NormalizeDigits(a + b) == NormalizeDigits(a) + NormalizeDigits(b)
  {
  }

  /** `replace(/[^0-9.\-]/g, '')`: every character other than an ASCII digit, '.' or '-' removed, the rest kept in order. */
  function KeepClean(s: string): (r: string)
    ensures IsClean(r) && |r| <= |s|
    ensures IsClean(s) ==> r == s
    ensures (forall i :: 0 <= i < |s| ==> !IsCleanChar(s[i])) ==> r == ""
    ensures forall c :: c in r ==> c in s
  {
    if s == [] then ""
    else (if IsCleanChar(s[0]) then [s[0]] else []) + KeepClean(s[1..])
  }

  lemma {:induction false} KeepCleanConcat(a: string, b: string)
    ensures KeepClean(a + b) == KeepClean(a) + KeepClean(b)
  {
    if a == [] {
      assert a + b == b;
    } else {
      var head := if IsCleanChar(a[0]) then [a[0]] else [];
      assert (a + b)[0] == a[0] && (a + b)[1..] == a[1..] + b;
      KeepCleanConcat(a[1..], b);
      calc {
        KeepClean(a + b);
        head + KeepClean(a[1..] + b);
        head + (KeepClean(a[1..]) + KeepClean(b));
        (head + KeepClean(a[1..])) + KeepClean(b);
        KeepClean(a) + KeepClean(b);
      }
    }
  }

  /** A currency label that holds no digit, '.' or '-'. */
  predicate IsPlainLabel(sym: string) {
    forall i :: 0 <= i < |sym| ==> !IsCleanChar(sym[i]) && !IsArabicIndicDigit(sym[i])
  }

  /**
   * `parseMoney`: digits normalised, everything but digits, '.' and '-'
   * dropped, then the numeric prefix read; text without one is 0.
   */
  function ParseMoney(text: string): real {
    var cleaned := KeepClean(NormalizeDigits(text));
    ParseFloatPrefix(cleaned).GetOr(0.0)
  }

  /** Money is read only from text holding a digit (Latin or Arabic-Indic), and is negative only when the text holds a '-'. */
  lemma ParseMoneyNeedsDigit(text: string)
    ensures (forall i :: 0 <= i < |text| ==> !IsDigit(text[i]) && !IsArabicIndicDigit(text[i])) ==> ParseMoney(text) == 0.0
    ensures ParseMoney(text) < 0.0 ==> '-' in text
  {
    var cleaned := KeepClean(NormalizeDigits(text));
    CleanedFromText(text);
    ParseFloatPrefixNeeds(cleaned);
    assert ParseMoney(text) == ParseFloatPrefix(cleaned).GetOr(0.0);
    if ParseFloatPrefix(cleaned).Some? {
      if ParseFloatPrefix(cleaned).value < 0.0 {
        assert cleaned[0] == '-' && cleaned[0] in cleaned;
        assert '-' in text;
      }
    }
  }

  /** A digit `parseMoney` cleans out of text stands for a digit of the text, and a '-' for a '-'. */
  lemma CleanedFromText(text: string)
    ensures var cleaned := KeepClean(NormalizeDigits(text));
      && ((exists i :: 0 <= i < |cleaned| && IsDigit(cleaned[i])) ==>
            exists j :: 0 <= j < |text| && (IsDigit(text[j]) || IsArabicIndicDigit(text[j])))
      && ('-' in cleaned ==> '-' in text)
  {
    var n := NormalizeDigits(text);
    var cleaned := KeepClean(n);
    NormalizeDigitsChars(text);
    if exists i :: 0 <= i < |cleaned| && IsDigit(cleaned[i]) {
      var i :| 0 <= i < |cleaned| && IsDigit(cleaned[i]);
      assert cleaned[i] in n;
      var j :| 0 <= j < |n| && n[j] == cleaned[i];
      assert IsDigit(text[j]) || IsArabicIndicDigit(text[j]);
    }
    if '-' in cleaned {
      var j :| 0 <= j < |n| && n[j] == '-';
      assert text[j] == '-';
    }
  }

  /** Text without digits, '.' or '-' (Latin or Arabic-Indic) is worth 0, as are "", "-" and ".". */
  lemma ParseMoneyWithoutNumber(text: string)
    requires IsPlainLabel(text) || text == "-" || text == "."
    ensures ParseMoney(text) == 0.0
  {
    if IsPlainLabel(text) {
      assert KeepClean(NormalizeDigits(text)) == "";
    } else {
      assert NormalizeDigits(text) == text;
    }
  }

  /** Arabic-Indic digits are read exactly like the Latin digits they stand for. */
  lemma ParseMoneyReadsArabicDigits(text: string)
    ensures ParseMoney(text) == ParseMoney(NormalizeDigits(text))
  {
    NormalizeDigitsIdempotent(text);
  }

  lemma CleanOfLabelled(n: int, sym: string)
    requires IsPlainLabel(sym)
    ensures KeepClean(NormalizeDigits(IntText(n) + sym)) == IntText(n)
  {
    var t := IntText(n);
    NormalizeDigitsConcat(t, sym);
    KeepCleanConcat(t, sym);
    assert NormalizeDigits(t) == t;
    assert NormalizeDigits(sym) == sym;
    assert KeepClean(sym) == "";
    assert t + "" == t;
  }

  /** `parseFloat(String(n))` is `n`. */
  lemma ParseIntText(n: int)
    ensures IsClean(IntText(n))
    ensures ParseFloatPrefix(IntText(n)) == Some(n as real)
  {
    var a: nat := if n < 0 then -n else n;
    ParseNatText(a, "");
    assert NatText(a) + "" == NatText(a);
    if n < 0 {
      var t := IntText(n);
      assert t[0] == '-' && t[1..] == NatText(a);
      DecimalPrefixOfDigits(NatText(a), "");
      NatTextValue(a);
      var v := a as real;
      assert ParseFloatPrefix(t) == Some(-v);
      assert -v == n as real;
    }
  }

  /** An integer amount followed by a plain currency label parses back to the integer. */
  lemma ParseMoneyOfLabelled(n: int, sym: string)
    requires IsPlainLabel(sym)
    ensures ParseMoney(IntText(n) + sym) == n as real
  {
    CleanOfLabelled(n, sym);
    ParseIntText(n);
  }
}
