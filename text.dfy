/**
 * String helpers shared by the whole model: JavaScript's `trim`, ASCII
 * lower-casing, substring search, decimal rendering of integers, `join`, and
 * the character-by-character markup escaping that every page of the
 * application writes out with a chain of `replaceAll` calls.
 */
module Text {

  /** The characters `String.prototype.trim` removes: ECMAScript WhiteSpace and LineTerminator. */
  predicate IsWhite(c: char) {
    c == ' ' || c == '\t' || c == '\n' || c == '\r' || c == '\U{000B}' || c == '\U{000C}'
    || c == '\U{00A0}' || c == '\U{1680}' || ('\U{2000}' <= c <= '\U{200A}')
    || c == '\U{2028}' || c == '\U{2029}' || c == '\U{202F}' || c == '\U{205F}'
    || c == '\U{3000}' || c == '\U{FEFF}'
  }

  function TrimStart(s: string): (r: string)
    ensures |r| <= |s|
    ensures r == [] || !IsWhite(r[0])
  {
    if s != [] && IsWhite(s[0]) then TrimStart(s[1..]) else s
  }

  function TrimEnd(s: string): (r: string)
    ensures |r| <= |s|
    ensures r == [] || !IsWhite(r[|r| - 1])
  {
    if s != [] && IsWhite(s[|s| - 1]) then TrimEnd(s[..|s| - 1]) else s
  }

  /** `TrimStart` drops a prefix of white characters. */
  lemma {:induction false} TrimStartShape(s: string)
    ensures var r := TrimStart(s);
      r == s[|s| - |r|..] && forall i :: 0 <= i < |s| - |r| ==> IsWhite(s[i])
  {
    if s != [] && IsWhite(s[0]) {
      TrimStartShape(s[1..]);
    }
  }

  /** `TrimEnd` drops a suffix of white characters. */
  lemma {:induction false} TrimEndShape(s: string)
    ensures var r := TrimEnd(s);
      r == s[..|r|] && forall i :: |r| <= i < |s| ==> IsWhite(s[i])
  {
    if s != [] && IsWhite(s[|s| - 1]) {
      TrimEndShape(s[..|s| - 1]);
      var r := TrimEnd(s[..|s| - 1]);
      assert s[..|s| - 1][..|r|] == s[..|r|];
    }
  }

  /** `s.trim()`: no white character is left at either end. */
  function Trim(s: string): (r: string)
    ensures |r| <= |s|
  {
    TrimEnd(TrimStart(s))
  }

  /** No white character is left at either end of trimmed text. */
  lemma TrimEnds(s: string)
    ensures var r := Trim(s);
      r == [] || (!IsWhite(r[0]) && !IsWhite(r[|r| - 1]))
  {
    TrimEndShape(TrimStart(s));
  }

  /** The number of white characters `Trim` drops at the front. */
  function TrimOffset(s: string): nat {
    |s| - |TrimStart(s)|
  }

  /** Trimming keeps the middle of the text: a white prefix and a white suffix are dropped. */
  lemma TrimShape(s: string)
    ensures var k, r := TrimOffset(s), Trim(s);
      && k + |r| <= |s| && r == s[k..k + |r|]
      && (forall i :: 0 <= i < k ==> IsWhite(s[i]))
      && (forall i :: k + |r| <= i < |s| ==> IsWhite(s[i]))
  {
    var t := TrimStart(s);
    TrimStartShape(s);
    TrimEndShape(t);
    TrimMiddle(s, t, TrimEnd(t));
  }

  /** A prefix `r` of a suffix `t` of `s`, followed in `t` by white characters only, is a middle part of `s`. */
  lemma TrimMiddle(s: string, t: string, r: string)
    requires |t| <= |s| && t == s[|s| - |t|..] && |r| <= |t| && r == t[..|r|]
    requires forall i :: |r| <= i < |t| ==> IsWhite(t[i])
    ensures var k := |s| - |t|;
      r == s[k..k + |r|] && forall i :: k + |r| <= i < |s| ==> IsWhite(s[i])
  {
    var k := |s| - |t|;
    forall i | k + |r| <= i < |s| ensures IsWhite(s[i]) {
      assert s[i] == t[i - k];
    }
  }

  /** Text made only of white characters trims to nothing. */
  lemma {:induction false} TrimAllWhite(s: string)
    requires forall i :: 0 <= i < |s| ==> IsWhite(s[i])
    ensures TrimStart(s) == [] && Trim(s) == []
  {
    if s != [] {
      TrimAllWhite(s[1..]);
    }
  }

  /** Trimming keeps only characters of the text: a property of every character survives it. */
  lemma TrimKeeps(s: string, p: char -> bool)
    requires forall i :: 0 <= i < |s| ==> p(s[i])
    ensures forall i :: 0 <= i < |Trim(s)| ==> p(Trim(s)[i])
  {
    TrimShape(s);
    var k := TrimOffset(s);
    assert forall i :: 0 <= i < |Trim(s)| ==> Trim(s)[i] == s[k + i];
  }

  /** The characters of the text that are not white, in order. */
  function NonWhite(s: string): string {
    if s == [] then [] else (if IsWhite(s[0]) then [] else [s[0]]) + NonWhite(s[1..])
  }

  lemma {:induction false} NonWhiteConcat(a: string, b: string)
    ensures NonWhite(a + b) == NonWhite(a) + NonWhite(b)
    decreases |a|
  {
    if a != [] {
      assert (a + b)[0] == a[0] && (a + b)[1..] == a[1..] + b;
      NonWhiteConcat(a[1..], b);
    } else {
      assert a + b == b;
    }
  }

  lemma {:induction false} NonWhiteOfWhite(s: string)
    requires forall i :: 0 <= i < |s| ==> IsWhite(s[i])
    ensures NonWhite(s) == []
    decreases |s|
  {
    if s != [] {
      NonWhiteOfWhite(s[1..]);
    }
  }

  /** Trimming drops only white characters: the other characters are all kept, in order. */
  lemma TrimKeepsNonWhite(s: string)
    ensures NonWhite(Trim(s)) == NonWhite(s)
    ensures NonWhite(TrimStart(s)) == NonWhite(s)
  {
    TrimShape(s);
    var k, r := TrimOffset(s), Trim(s);
    assert s == s[..k] + r + s[k + |r|..];
    NonWhiteConcat(s[..k] + r, s[k + |r|..]);
    NonWhiteConcat(s[..k], r);
    NonWhiteOfWhite(s[..k]);
    NonWhiteOfWhite(s[k + |r|..]);
    TrimStartShape(s);
    var t := TrimStart(s);
    assert s == s[..|s| - |t|] + t;
    NonWhiteConcat(s[..|s| - |t|], t);
    NonWhiteOfWhite(s[..|s| - |t|]);
  }

  /**
   * Where white space stands among the non-white characters: entry `j` says
   * whether white precedes the `j`-th non-white character, and the last entry
   * whether the text ends in white.
   */
  function Gaps(s: string): (g: seq<bool>)
    ensures |g| == |NonWhite(s)| + 1
  {
    if s == [] then [false]
    else if IsWhite(s[0]) then [true] + Gaps(s[1..])[1..]
    else [false] + Gaps(s[1..])
  }

  /** Whether white separates each non-white character from the next one: the word boundaries. */
  function InnerGaps(s: string): (g: seq<bool>)
    ensures |g| == if NonWhite(s) == [] then 0 else |NonWhite(s)| - 1
  {
    var g := Gaps(s);
    if |g| < 2 then [] else g[1..|g| - 1]
  }

  /** The gaps of joined text: those of the first part, then those of the second, the gap at the seam merged. */
  lemma {:induction false} GapsConcat(a: string, b: string)
    ensures var ga, gb, m := Gaps(a), Gaps(b), |NonWhite(a)|;
      Gaps(a + b) == ga[..m] + [ga[m] || gb[0]] + gb[1..]
    decreases |a|
  {
    if a == [] {
      assert a + b == b;
    } else {
      GapsConcat(a[1..], b);
      GapsConcatStep(a, b);
    }
  }

  /** The inductive step of `GapsConcat`: from the tail of `a` to `a`. */
  lemma GapsConcatStep(a: string, b: string)
    requires a != []
    requires var ga, gb, m := Gaps(a[1..]), Gaps(b), |NonWhite(a[1..])|;
      Gaps(a[1..] + b) == ga[..m] + [ga[m] || gb[0]] + gb[1..]
    ensures var ga, gb, m := Gaps(a), Gaps(b), |NonWhite(a)|;
      Gaps(a + b) == ga[..m] + [ga[m] || gb[0]] + gb[1..]
  {
    var gb, a1 := Gaps(b), a[1..];
    var g1, m1, h := Gaps(a1), |NonWhite(a1)|, Gaps(a1 + b);
    var ga, gab, m := Gaps(a), Gaps(a + b), |NonWhite(a)|;
    if IsWhite(a[0]) {
      GapsUnfoldWhite(a, b);
      GapsConcatWhiteHead(g1, gb, m1, h, ga, gab);
      assert m == m1;
    } else {
      GapsUnfoldKept(a, b);
      GapsConcatKeptHead(g1, gb, m1, h, ga, gab);
      assert m == m1 + 1;
    }
    assert gab == ga[..m] + [ga[m] || gb[0]] + gb[1..];
  }

  /** The step of `GapsConcat` for text that starts with a kept character, on the gap sequences alone. */
  lemma GapsConcatKeptHead(g1: seq<bool>, gb: seq<bool>, m: nat, h: seq<bool>, ga: seq<bool>, gab: seq<bool>)
    requires m < |g1| && 1 <= |gb|
    requires h == g1[..m] + [g1[m] || gb[0]] + gb[1..]
    requires ga == [false] + g1 && gab == [false] + h
    ensures gab == ga[..m + 1] + [ga[m + 1] || gb[0]] + gb[1..]
  {
    assert ga[..m + 1] == [false] + g1[..m];
  }

  /** The step of `GapsConcat` for text that starts with white, on the gap sequences alone. */
  lemma GapsConcatWhiteHead(g1: seq<bool>, gb: seq<bool>, m: nat, h: seq<bool>, ga: seq<bool>, gab: seq<bool>)
    requires m < |g1| && 1 <= |gb|
    requires h == g1[..m] + [g1[m] || gb[0]] + gb[1..]
    requires ga == [true] + g1[1..] && gab == [true] + h[1..]
    ensures gab == ga[..m] + [ga[m] || gb[0]] + gb[1..]
  {
    if m == 0 {
      assert h[1..] == gb[1..];
    } else {
      assert h[1..] == g1[1..m] + [g1[m] || gb[0]] + gb[1..];
      assert ga[..m] == [true] + g1[1..m];
    }
  }

  lemma GapsUnfoldWhite(a: string, b: string)
    requires a != [] && IsWhite(a[0])
    ensures Gaps(a) == [true] + Gaps(a[1..])[1..]
    ensures |NonWhite(a)| == |NonWhite(a[1..])|
    ensures Gaps(a + b) == [true] + Gaps(a[1..] + b)[1..]
  {
    assert (a + b)[0] == a[0] && (a + b)[1..] == a[1..] + b;
  }

  lemma GapsUnfoldKept(a: string, b: string)
    requires a != [] && !IsWhite(a[0])
    ensures Gaps(a) == [false] + Gaps(a[1..])
    ensures |NonWhite(a)| == |NonWhite(a[1..])| + 1
    ensures Gaps(a + b) == [false] + Gaps(a[1..] + b)
  {
    assert (a + b)[0] == a[0] && (a + b)[1..] == a[1..] + b;
  }

  /** White text has a single gap, set exactly when the text is not empty. */
  lemma {:induction false} GapsOfWhite(w: string)
    requires forall i :: 0 <= i < |w| ==> IsWhite(w[i])
    ensures Gaps(w) == [w != []]
    decreases |w|
  {
    if w != [] {
      GapsOfWhite(w[1..]);
    }
  }

  /** Dropping leading white changes only whether white comes first. */
  lemma TrimStartGaps(s: string)
    ensures Gaps(TrimStart(s))[1..] == Gaps(s)[1..]
  {
    var t := TrimStart(s);
    TrimStartShape(s);
    var pre := s[..|s| - |t|];
    assert s == pre + t;
    GapsOfWhite(pre);
    NonWhiteOfWhite(pre);
    GapsConcat(pre, t);
  }

  /** Trimming keeps the word boundaries. */
  lemma TrimInnerGaps(s: string)
    ensures InnerGaps(Trim(s)) == InnerGaps(s)
  {
    var k, r := TrimOffset(s), Trim(s);
    TrimShape(s);
    var pre, post := s[..k], s[k + |r|..];
    assert s == (pre + r) + post;
    GapsAfterWhite(pre, r);
    GapsBeforeWhite(pre + r, post);
    var gr, g1, gs := Gaps(r), Gaps(pre + r), Gaps(s);
    InnerOfOuterGaps(gr, pre != [], post != [], g1, gs);
  }

  /** White in front of text sets only its first gap. */
  lemma GapsAfterWhite(w: string, t: string)
    requires forall i :: 0 <= i < |w| ==> IsWhite(w[i])
    ensures var g := Gaps(t); Gaps(w + t) == [w != [] || g[0]] + g[1..]
    ensures NonWhite(w + t) == NonWhite(t)
  {
    GapsOfWhite(w);
    NonWhiteOfWhite(w);
    GapsConcat(w, t);
    NonWhiteConcat(w, t);
  }

  /** White after text sets only its last gap. */
  lemma GapsBeforeWhite(t: string, w: string)
    requires forall i :: 0 <= i < |w| ==> IsWhite(w[i])
    ensures var g, m := Gaps(t), |NonWhite(t)|; Gaps(t + w) == g[..m] + [g[m] || w != []]
  {
    GapsOfWhite(w);
    GapsConcat(t, w);
  }

  /** Setting the first and the last gap leaves the inner ones alone. */
  lemma InnerOfOuterGaps(gr: seq<bool>, x: bool, y: bool, g1: seq<bool>, gs: seq<bool>)
    requires |gr| >= 1
    requires g1 == [x || gr[0]] + gr[1..]
    requires gs == g1[..|gr| - 1] + [g1[|gr| - 1] || y]
    ensures (if |gs| < 2 then [] else gs[1..|gs| - 1]) == (if |gr| < 2 then [] else gr[1..|gr| - 1])
  {
    if |gr| >= 2 {
      assert gs[1..|gs| - 1] == g1[1..|gr| - 1];
    }
  }

  /** Text whose first character is not white keeps that character at the front after trimming. */
  lemma TrimKeepsFirst(s: string)
    requires s != [] && !IsWhite(s[0])
    ensures Trim(s) != [] && Trim(s)[0] == s[0]
  {
    assert TrimStart(s) == s;
    TrimEndShape(s);
    var r := TrimEnd(s);
    assert r != [];
  }

  /** Text without white characters at its ends is left alone. */
  lemma TrimUnchanged(s: string)
    requires s != [] && !IsWhite(s[0]) && !IsWhite(s[|s| - 1])
    ensures Trim(s) == s
  {
    assert TrimStart(s) == s;
  }

  function LowerChar(c: char): char {
    if 'A' <= c <= 'Z' then (c as int + 32) as char else c
  }

  /** `toLowerCase()`, restricted to the ASCII letters. */
  function Lower(s: string): string {
    seq(|s|, i requires 0 <= i < |s| => LowerChar(s[i]))
  }

  /** `hay.includes(needle)`. */
  predicate Contains(hay: string, needle: string) {
    exists i | 0 <= i <= |hay| :: needle <= hay[i..]
  }

  predicate IsDigit(c: char) {
    '0' <= c <= '9'
  }

  predicate AllDigits(s: string) {
    forall i :: 0 <= i < |s| ==> IsDigit(s[i])
  }

  /** The value of a decimal digit (0 for any other character). */
  function DigitValue(c: char): nat
  {
    if IsDigit(c) then c as int - '0' as int else 0
  }

  function DigitChar(d: nat): (c: char)
    requires d < 10
    ensures IsDigit(c) && DigitValue(c) == d
  {
    "0123456789"[d]
  }

  /** The value of a string of decimal digits, read left to right. */
  function DigitsValue(ds: string): nat
  {
    if ds == [] then 0 else DigitsValue(ds[..|ds| - 1]) * 10 + DigitValue(ds[|ds| - 1])
  }

  /** `String(n)` for a non-negative integer: its decimal digits, without leading zeros. */
  function NatText(n: nat): (r: string)
    ensures |r| >= 1 && AllDigits(r)
    ensures r[0] == '0' ==> n == 0
  {
    if n < 10 then [DigitChar(n)] else NatText(n / 10) + [DigitChar(n % 10)]
  }

  /** Reading back the digits `NatText` writes gives the number again. */
  lemma {:induction false} NatTextValue(n: nat)
    ensures DigitsValue(NatText(n)) == n
  {
    if n >= 10 {
      var r := NatText(n);
      assert r[..|r| - 1] == NatText(n / 10);
      NatTextValue(n / 10);
    }
  }

  /** `String(n)` for an integer. */
  function IntText(n: int): (r: string)
    ensures |r| >= 1
    ensures n >= 0 ==> r == NatText(n)
    ensures n < 0 ==> r == "-" + NatText(-n)
  {
    if n < 0 then "-" + NatText(-n) else NatText(n)
  }

  /** `parts.join(sep)`. */
  function Join(parts: seq<string>, sep: string): (r: string)
    ensures parts == [] ==> r == ""
    ensures |parts| == 1 ==> r == parts[0]
  {
    if parts == [] then ""
    else if |parts| == 1 then parts[0]
    else parts[0] + sep + Join(parts[1..], sep)
  }

  /** The pieces written one after another. */
  function Flatten(parts: seq<string>): string {
    if parts == [] then "" else Flatten(parts[..|parts| - 1]) + parts[|parts| - 1]
  }

  lemma {:induction false} FlattenConcat(a: seq<string>, b: seq<string>)
    ensures Flatten(a + b) == Flatten(a) + Flatten(b)
  {
    if b == [] {
      assert a + b == a;
    } else {
      assert (a + b)[..|a + b| - 1] == a + b[..|b| - 1];
      FlattenConcat(a, b[..|b| - 1]);
    }
  }

  /** A string of `n` copies of the empty cell `""`. */
  function Blanks(n: nat): (r: seq<string>)
    ensures |r| == n && forall i :: 0 <= i < n ==> r[i] == ""
  {
    seq(n, _ => "")
  }

  // ---------------------------------------------------------------------------
  // Markup escaping
  // ---------------------------------------------------------------------------

  /** The three spellings of the apostrophe entity used across the application. */
  predicate IsAposEntity(apos: string) {
    apos == "&#039;" || apos == "&apos;" || apos == "&#39;"
  }

  /**
   * One character escaped. The source chains `replaceAll('&', '&amp;')` first
   * and then `<`, `>`, `"` and `'`; since none of the later patterns occurs in
   * an entity, the chain equals this per-character replacement.
   */
  function EscapeChar(c: char, apos: string): string {
    if c == '&' then "&amp;"
    else if c == '<' then "&lt;"
    else if c == '>' then "&gt;"
    else if c == '"' then "&quot;"
    else if c == '\'' then apos
    else [c]
  }

  function Escape(s: string, apos: string): string {
    if s == [] then "" else EscapeChar(s[0], apos) + Escape(s[1..], apos)
  }

  predicate IsSpecial(c: char) {
    c == '<' || c == '>' || c == '"' || c == '\''
  }

  predicate StartsEntity(t: string, apos: string) {
    "&amp;" <= t || "&lt;" <= t || "&gt;" <= t || "&quot;" <= t || apos <= t
  }

  /** Text that can be placed inside markup: no raw `<`, `>`, `"` or `'`, and every `&` opens an entity. */
  predicate MarkupSafe(s: string, apos: string) {
    && (forall i :: 0 <= i < |s| ==> !IsSpecial(s[i]))
    && (forall i :: 0 <= i < |s| && s[i] == '&' ==> StartsEntity(s[i..], apos))
  }

  lemma EscapeCharSafe(c: char, apos: string)
    requires IsAposEntity(apos)
    ensures MarkupSafe(EscapeChar(c, apos), apos)
  {
    var e := EscapeChar(c, apos);
    if c == '&' || c == '<' || c == '>' || c == '"' || c == '\'' {
      assert StartsEntity(e, apos);
      EntitySafe(e, apos);
    }
  }

  /** A single entity is safe: it opens with its only `&` and holds nothing special. */
  lemma EntitySafe(e: string, apos: string)
    requires |e| >= 1 && e[0] == '&' && StartsEntity(e, apos)
    requires forall i :: 0 < i < |e| ==> e[i] != '&' && !IsSpecial(e[i])
    ensures MarkupSafe(e, apos)
  {
    assert e[0..] == e;
  }

  lemma ConcatSafe(a: string, b: string, apos: string)
    requires MarkupSafe(a, apos) && MarkupSafe(b, apos)
    ensures MarkupSafe(a + b, apos)
  {
    var r := a + b;
    forall i | 0 <= i < |r| ensures !IsSpecial(r[i]) {
      if i >= |a| { assert r[i] == b[i - |a|]; }
    }
    forall i | 0 <= i < |r| && r[i] == '&' ensures StartsEntity(r[i..], apos) {
      if i < |a| {
        assert r[i..] == a[i..] + b;
        assert StartsEntity(a[i..], apos);
      } else {
        assert r[i..] == b[i - |a|..];
      }
    }
  }

  /** Escaped text is safe inside markup. */
  lemma {:induction false} EscapeIsSafe(s: string, apos: string)
    requires IsAposEntity(apos)
    ensures MarkupSafe(Escape(s, apos), apos)
  {
    if s != [] {
      EscapeCharSafe(s[0], apos);
      EscapeIsSafe(s[1..], apos);
      ConcatSafe(EscapeChar(s[0], apos), Escape(s[1..], apos), apos);
    }
  }

  /** Decoding of the five entities `Escape` writes; any other text is copied. */
  function Unescape(s: string, apos: string): string
    decreases |s|
  {
    if s == [] then ""
    else if "&amp;" <= s then "&" + Unescape(s[5..], apos)
    else if "&lt;" <= s then "<" + Unescape(s[4..], apos)
    else if "&gt;" <= s then ">" + Unescape(s[4..], apos)
    else if "&quot;" <= s then "\"" + Unescape(s[6..], apos)
    else if |apos| > 0 && apos <= s then "'" + Unescape(s[|apos|..], apos)
    else [s[0]] + Unescape(s[1..], apos)
  }

  /** Decoding an escaped character followed by any text gives the character back first. */
  lemma UnescapeChar(c: char, tail: string, apos: string)
    requires IsAposEntity(apos)
    ensures Unescape(EscapeChar(c, apos) + tail, apos) == [c] + Unescape(tail, apos)
  {
    var head := EscapeChar(c, apos);
    var r := head + tail;
    assert r[|head|..] == tail;
    if c == '&' {
      assert "&amp;" <= r;
    } else if c == '<' {
      assert r[1] == 'l';
      assert !("&amp;" <= r) && "&lt;" <= r;
    } else if c == '>' {
      assert r[1] == 'g';
      assert !("&amp;" <= r) && !("&lt;" <= r) && "&gt;" <= r;
    } else if c == '"' {
      assert r[1] == 'q';
      assert !("&amp;" <= r) && !("&lt;" <= r) && !("&gt;" <= r) && "&quot;" <= r;
    } else if c == '\'' {
      UnescapeApos(tail, apos);
    } else {
      assert r[0] == c && r[0] != '&';
      assert !("&amp;" <= r) && !("&lt;" <= r) && !("&gt;" <= r) && !("&quot;" <= r) && !(apos <= r);
    }
  }

  lemma UnescapeApos(tail: string, apos: string)
    requires IsAposEntity(apos)
    ensures Unescape(apos + tail, apos) == "'" + Unescape(tail, apos)
  {
    var r := apos + tail;
    assert r[|apos|..] == tail;
    assert r[1] == '#' || r[1] == 'a';
    assert r[1] == 'a' ==> r[2] == 'p';
    assert !("&amp;" <= r) && !("&lt;" <= r) && !("&gt;" <= r) && !("&quot;" <= r) && apos <= r;
  }

  /** Escaping loses nothing: decoding the escaped text gives the original back. */
  lemma {:induction false} UnescapeEscape(s: string, apos: string)
    requires IsAposEntity(apos)
    ensures Unescape(Escape(s, apos), apos) == s
  {
    if s != [] {
      UnescapeEscape(s[1..], apos);
      UnescapeChar(s[0], Escape(s[1..], apos), apos);
      assert s == [s[0]] + s[1..];
    }
  }
}
