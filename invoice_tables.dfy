/**
 * The two ledger tables of an invoice on the invoice page: "operations" (t1)
 * and "receipts" (t2). A table is a header row plus rows of text cells.
 * Cell 0 of every row is the row's 1-based ordinal, and the amount column,
 * headed "المبلغ", is kept last.
 *
 * This module holds the table normalisation, the amount pinning, the
 * amount parser and formatter, the column sum and the data part of the four
 * structural edits (add/delete a row, add/delete a column).
 */
module InvoiceTables {
  import opened Wrappers
  import opened Text
  import opened Numeric
  import opened Utils

  /** The header of the amount column. */
  const AmountHeader: string := "المبلغ"

  /** The headers a new or header-less invoice table gets. */
  const DefaultHeaders: seq<string> := ["رقم", "التاريخ", "اسم السائق", "رقم السيارة", "ملاحظة", AmountHeader]

  datatype Table = Table(headers: seq<string>, rows: seq<seq<string>>, minCols: real)

  /**
   * A table as found in stored data, before normalisation. `None` stands
   * for a field that is missing or not an array; a row that is not an array
   * is `None`; `minCols` is `Some(x)` when `Number(t.minCols)` is the finite
   * number `x`.
   */
  datatype RawTable = RawTable(headers: Option<seq<string>>, rows: Option<seq<Option<seq<string>>>>, minCols: Option<real>)

  /** The selection of one table: the clicked row and column, if any (a row index may be -1). */
  datatype Selection = Selection(row: Option<int>, col: Option<int>)

  const NoSelection := Selection(None, None)

  // ---------------------------------------------------------------------------
  // Cells and rows
  // ---------------------------------------------------------------------------

  /** `r[i]`, where a cell past the end of the row reads as empty text. */
  function CellAt(r: seq<string>, i: nat): string {
    if i < |r| then r[i] else ""
  }

  /** `cells[0] = v`: an empty row grows to hold the one cell. */
  function SetFirst(cells: seq<string>, v: string): (r: seq<string>)
    ensures |r| >= 1 && r[0] == v
    ensures |r| == if cells == [] then 1 else |cells|
    ensures forall j :: 1 <= j < |cells| ==> r[j] == cells[j]
  {
    if cells == [] then [v] else [v] + cells[1..]
  }

  /** The cells right-padded with empty cells to at least `n`; never shortened. */
  function Padded(cells: seq<string>, n: nat): (r: seq<string>)
    ensures |r| == if |cells| >= n then |cells| else n
    ensures r[..|cells|] == cells
    ensures forall j :: |cells| <= j < |r| ==> r[j] == ""
  {
    cells + Blanks(if |cells| >= n then 0 else n - |cells|)
  }

  /** `defaultRow(cols)`: `cols` empty cells, the first one set to "1". */
  function DefaultRow(cols: nat): (r: seq<string>)
    ensures |r| == if cols == 0 then 1 else cols
    ensures r[0] == "1" && forall j :: 1 <= j < |r| ==> r[j] == ""
  {
    SetFirst(Blanks(cols), "1")
  }

  /** Every row holds its 1-based ordinal in cell 0. */
  predicate IsNumbered(rows: seq<seq<string>>) {
    forall i :: 0 <= i < |rows| ==> |rows[i]| >= 1 && rows[i][0] == NatText(i + 1)
  }

  /** `renumberRows`: cell 0 of row i becomes `String(i + 1)`. */
  function RenumberRows(rows: seq<seq<string>>): (r: seq<seq<string>>)
    ensures |r| == |rows| && IsNumbered(r)
    ensures forall i :: 0 <= i < |rows| ==> |r[i]| == if rows[i] == [] then 1 else |rows[i]|
    ensures forall i, j :: 0 <= i < |rows| && 1 <= j < |rows[i]| ==> r[i][j] == rows[i][j]
  {
    seq(|rows|, i requires 0 <= i < |rows| => SetFirst(rows[i], NatText(i + 1)))
  }

  /** Rows that are already numbered are left as they are. */
  lemma RenumberNumbered(rows: seq<seq<string>>)
    requires IsNumbered(rows)
    ensures RenumberRows(rows) == rows
  {
    forall i | 0 <= i < |rows| ensures RenumberRows(rows)[i] == rows[i] {
      assert rows[i] == [rows[i][0]] + rows[i][1..];
    }
  }

  /** `s.splice(i, 1)` for an index inside `s`. */
  function RemoveAt<T>(s: seq<T>, i: nat): (r: seq<T>)
    requires i < |s|
    ensures |r| == |s| - 1
    ensures forall j :: 0 <= j < i ==> r[j] == s[j]
    ensures forall j :: i <= j < |r| ==> r[j] == s[j + 1]
  {
    s[..i] + s[i + 1..]
  }

  /** `s.splice(i, 0, v)`: an index past the end inserts at the end. */
  function InsertAt<T>(s: seq<T>, i: nat, v: T): (r: seq<T>)
    ensures |r| == |s| + 1
    ensures var k := if i <= |s| then i else |s|;
      r[k] == v && r[..k] == s[..k] && r[k + 1..] == s[k..]
  {
    var k := if i <= |s| then i else |s|;
    s[..k] + [v] + s[k..]
  }

  // ---------------------------------------------------------------------------
  // Normalisation of stored tables
  // ---------------------------------------------------------------------------

  /** The headers `normalizeTable` keeps: the stored ones when they form a non-empty array. */
  function ChosenHeaders(t: Option<RawTable>, defaults: seq<string>): seq<string> {
    if t.Some? && t.value.headers.Some? && |t.value.headers.value| > 0 then t.value.headers.value else defaults
  }

  /** The rows `normalizeTable` starts from: the stored ones when they form a non-empty array. */
  function ChosenRows(t: Option<RawTable>, cols: nat): (rows: seq<Option<seq<string>>>)
    ensures |rows| >= 1
  {
    if t.Some? && t.value.rows.Some? && |t.value.rows.value| > 0 then t.value.rows.value else [Some(DefaultRow(cols))]
  }

  /** The width of a normalised row: the stored width or the column count, whichever is larger, and at least 1. */
  function RowWidth(stored: nat, cols: nat): (w: nat)
    ensures w >= 1 && w >= stored && w >= cols
    ensures w == stored || w == cols || w == 1
  {
    if stored == 0 && cols == 0 then 1 else if stored >= cols then stored else cols
  }

  function NormalizedRow(r: Option<seq<string>>, i: nat, cols: nat): seq<string> {
    SetFirst(Padded(r.GetOr([]), cols), NatText(i + 1))
  }

  /**
   * `normalizeTable(t, minCols, defaultHeaders)`: missing or empty headers
   * become the defaults, missing or empty rows become one default row, every
   * row is right-padded with empty cells to the header count (never cut), cell 0
   * of row i becomes `String(i + 1)`, and the column floor is the larger of the
   * stored one and `minCols`.
   */
  function NormalizedTable(t: Option<RawTable>, minCols: real, defaults: seq<string>): (r: Table)
    ensures r.headers == ChosenHeaders(t, defaults)
    ensures |r.rows| == |ChosenRows(t, |r.headers|)| >= 1
    ensures IsNumbered(r.rows)
    ensures forall i :: 0 <= i < |r.rows| ==> |r.rows[i]| == RowWidth(|ChosenRows(t, |r.headers|)[i].GetOr([])|, |r.headers|)
    ensures forall i, j :: 0 <= i < |r.rows| && 1 <= j < |r.rows[i]| ==>
              r.rows[i][j] == CellAt(ChosenRows(t, |r.headers|)[i].GetOr([]), j)
    ensures r.minCols >= minCols
    ensures t.Some? && t.value.minCols.Some? ==> r.minCols >= t.value.minCols.value
    ensures r.minCols == minCols || (t.Some? && t.value.minCols == Some(r.minCols))
  {
    var headers := ChosenHeaders(t, defaults);
    var rows := ChosenRows(t, |headers|);
    var asserted := if t.Some? && t.value.minCols.Some? then t.value.minCols.value else minCols;
    Table(headers,
          seq(|rows|, i requires 0 <= i < |rows| => NormalizedRow(rows[i], i, |headers|)),
          if asserted >= minCols then asserted else minCols)
  }

  /** The padding loop of `normalizeTable` on one copied row. */
  method PadRow(cells: seq<string>, n: nat) returns (r: seq<string>)
    ensures r == Padded(cells, n)
  {
    r := cells;
    while |r| < n
      invariant |cells| <= |r| && r[..|cells|] == cells
      invariant forall j :: |cells| <= j < |r| ==> r[j] == ""
      invariant |r| <= if |cells| >= n then |cells| else n
      decreases n - |r|
    {
      r := r + [""];
    }
  }

  /** `normalizeTable` as the source runs it: each row copied, padded by a loop and numbered. */
  method NormalizeTable(t: Option<RawTable>, minCols: real, defaults: seq<string>) returns (r: Table)
    ensures r == NormalizedTable(t, minCols, defaults)
  {
    var headers := ChosenHeaders(t, defaults);
    var rows := ChosenRows(t, |headers|);
    var out: seq<seq<string>> := [];
    var i := 0;
    while i < |rows|
      invariant 0 <= i <= |rows| && |out| == i
      invariant forall k :: 0 <= k < i ==> out[k] == NormalizedRow(rows[k], k, |headers|)
    {
      var cells := PadRow(rows[i].GetOr([]), |headers|);
      out := out + [SetFirst(cells, NatText(i + 1))];
      i := i + 1;
    }
    var asserted := if t.Some? && t.value.minCols.Some? then t.value.minCols.value else minCols;
    r := Table(headers, out, if asserted >= minCols then asserted else minCols);
  }

  // ---------------------------------------------------------------------------
  // The amount column
  // ---------------------------------------------------------------------------

  /** A header names the amount column when its trimmed text is the label. */
  predicate IsAmountHeader(h: string) {
    Trim(h) == AmountHeader
  }

  lemma AmountHeaderIsAmount()
    ensures IsAmountHeader(AmountHeader)
  {
    TrimUnchanged(AmountHeader);
  }

  /** The first amount header at or after `i`. */
  function FindAmountFrom(headers: seq<string>, i: nat): (r: Option<nat>)
    requires i <= |headers|
    ensures r.Some? ==> i <= r.value < |headers| && IsAmountHeader(headers[r.value])
    ensures r.Some? ==> forall j :: i <= j < r.value ==> !IsAmountHeader(headers[j])
    ensures r.None? ==> forall j :: i <= j < |headers| ==> !IsAmountHeader(headers[j])
    decreases |headers| - i
  {
    if i == |headers| then None
    else if IsAmountHeader(headers[i]) then Some(i)
    else FindAmountFrom(headers, i + 1)
  }

  /** The first amount header, as `findIndex` finds it. */
  function FindAmount(headers: seq<string>): (r: Option<nat>)
    ensures r.Some? ==> r.value < |headers| && IsAmountHeader(headers[r.value])
    ensures r.Some? ==> forall j :: 0 <= j < r.value ==> !IsAmountHeader(headers[j])
    ensures r.None? ==> forall j :: 0 <= j < |headers| ==> !IsAmountHeader(headers[j])
  {
    FindAmountFrom(headers, 0)
  }

  /** The amount header occurs at most once. */
  predicate AtMostOneAmount(headers: seq<string>) {
    match FindAmount(headers)
    case None => true
    case Some(i) => FindAmountFrom(headers, i + 1).None?
  }

  /** At most one amount header: no two headers are both the amount label. */
  lemma AtMostOneAmountPairs(headers: seq<string>)
    ensures AtMostOneAmount(headers) <==>
      forall j, k :: 0 <= j < k < |headers| && IsAmountHeader(headers[j]) ==> !IsAmountHeader(headers[k])
  {
    match FindAmount(headers)
    case None =>
    case Some(i) =>
      var r := FindAmountFrom(headers, i + 1);
      if r.Some? {
        assert IsAmountHeader(headers[i]) && IsAmountHeader(headers[r.value]);
      }
  }

  /** One row with the cell at `idx` moved to its end; a row too short for `idx` gets an empty cell. */
  function MoveCellToEnd(r: seq<string>, idx: nat): seq<string> {
    if idx < |r| then RemoveAt(r, idx) + [r[idx]] else r + [""]
  }

  /**
   * `pinAmountLast`: the table with the amount column last. An absent
   * column is appended with an empty cell in each row; a column that is
   * already last leaves the table as it is; otherwise the column is moved to
   * the end.
   */
  function PinAmountLast(t: Table): (p: Table)
    ensures |p.headers| >= 1
    ensures |p.rows| == |t.rows| && p.minCols == t.minCols
  {
    match FindAmount(t.headers)
    case None =>
      t.(headers := t.headers + [AmountHeader],
         rows := seq(|t.rows|, i requires 0 <= i < |t.rows| => t.rows[i] + [""]))
    case Some(idx) =>
      if idx == |t.headers| - 1 then t
      else
        t.(headers := RemoveAt(t.headers, idx) + [AmountHeader],
           rows := seq(|t.rows|, i requires 0 <= i < |t.rows| => MoveCellToEnd(t.rows[i], idx)))
  }

  /** Every row has one cell per header. */
  predicate IsShaped(t: Table) {
    forall i :: 0 <= i < |t.rows| ==> |t.rows[i]| == |t.headers|
  }

  /** The header row and every row without the column at `idx`. */
  function WithoutColumn(t: Table, idx: nat): (r: Table)
    requires idx < |t.headers|
  {
    t.(headers := RemoveAt(t.headers, idx),
       rows := seq(|t.rows|, i requires 0 <= i < |t.rows| => if idx < |t.rows[i]| then RemoveAt(t.rows[i], idx) else t.rows[i]))
  }

  /**
   * What pinning keeps: on a shaped table, the pinned table is shaped, every
   * column but the amount column keeps its header, cells and relative order
   * in front, and the amount cells are the cells of the first amount column
   * (empty when the table had none).
   */
  lemma {:induction false} PinKeepsColumns(t: Table)
    requires IsShaped(t)
    ensures var p := PinAmountLast(t);
      && IsShaped(p)
      && (FindAmount(t.headers).None? ==>
            p.headers[..|p.headers| - 1] == t.headers
            && forall i :: 0 <= i < |t.rows| ==> p.rows[i][..|p.headers| - 1] == t.rows[i] && p.rows[i][|p.headers| - 1] == "")
      && (FindAmount(t.headers).Some? ==>
            var idx := FindAmount(t.headers).value;
            var rest := WithoutColumn(t, idx);
            p.headers[..|p.headers| - 1] == rest.headers
            && forall i :: 0 <= i < |t.rows| ==>
                 p.rows[i][..|p.headers| - 1] == rest.rows[i] && p.rows[i][|p.headers| - 1] == t.rows[i][idx])
  {
    var p := PinAmountLast(t);
    match FindAmount(t.headers)
    case None =>
      assert p.headers[..|p.headers| - 1] == t.headers;
      forall i | 0 <= i < |t.rows| ensures p.rows[i][..|p.headers| - 1] == t.rows[i] {
        assert p.rows[i] == t.rows[i] + [""];
      }
    case Some(idx) =>
      var rest := WithoutColumn(t, idx);
      if idx == |t.headers| - 1 {
        assert p.headers[..|p.headers| - 1] == rest.headers;
        forall i | 0 <= i < |t.rows| ensures p.rows[i][..|p.headers| - 1] == rest.rows[i] {
        }
      } else {
        assert p.headers[..|p.headers| - 1] == rest.headers;
        forall i | 0 <= i < |t.rows| ensures p.rows[i][..|p.headers| - 1] == rest.rows[i] {
          assert p.rows[i] == RemoveAt(t.rows[i], idx) + [t.rows[i][idx]];
        }
      }
  }

  /** The amount header is last and occurs nowhere else. */
  predicate OnlyLastAmount(headers: seq<string>) {
    && |headers| >= 1 && IsAmountHeader(headers[|headers| - 1])
    && forall j :: 0 <= j < |headers| - 1 ==> !IsAmountHeader(headers[j])
  }

  /** A table whose only amount header is last is a fixed point of pinning. */
  lemma PinnedIsFixed(t: Table)
    requires OnlyLastAmount(t.headers)
    ensures PinAmountLast(t) == t
  {
    assert FindAmount(t.headers) == Some(|t.headers| - 1);
  }

  /** Pinning always leaves the amount header last. */
  lemma PinEndsWithAmount(t: Table)
    ensures IsAmountHeader(PinAmountLast(t).headers[|PinAmountLast(t).headers| - 1])
  {
    AmountHeaderIsAmount();
  }

  /** Pinning a table with at most one amount header leaves exactly one, last. */
  lemma PinLeavesOneAmount(t: Table)
    requires AtMostOneAmount(t.headers)
    ensures OnlyLastAmount(PinAmountLast(t).headers)
  {
    var p := PinAmountLast(t);
    AmountHeaderIsAmount();
    match FindAmount(t.headers)
    case None =>
      assert p.headers == t.headers + [AmountHeader];
    case Some(idx) =>
      if idx < |t.headers| - 1 {
        assert p.headers == RemoveAt(t.headers, idx) + [AmountHeader];
        forall j | 0 <= j < |p.headers| - 1 ensures !IsAmountHeader(p.headers[j]) {
          if j >= idx { assert p.headers[j] == t.headers[j + 1]; }
        }
      }
  }

  /** Pinning a shaped table gives a shaped table. */
  lemma PinKeepsShape(t: Table)
    requires IsShaped(t)
    ensures IsShaped(PinAmountLast(t))
  {
  }

  /** Pinning twice is pinning once, when the label occurs at most once. */
  lemma PinAmountLastIdempotent(t: Table)
    requires AtMostOneAmount(t.headers)
    ensures PinAmountLast(PinAmountLast(t)) == PinAmountLast(t)
  {
    PinLeavesOneAmount(t);
    PinnedIsFixed(PinAmountLast(t));
  }

  /** With the label twice, a second pinning still moves a column: pinning is then not idempotent. */
  lemma PinTwiceWithDuplicateLabel()
    ensures var t := Table([AmountHeader, AmountHeader, "x"], [], 6.0);
      PinAmountLast(PinAmountLast(t)) != PinAmountLast(t)
  {
    var t := Table([AmountHeader, AmountHeader, "x"], [], 6.0);
    AmountHeaderIsAmount();
    assert FindAmount(t.headers) == Some(0);
    var p := PinAmountLast(t);
    assert p.headers == [AmountHeader, "x", AmountHeader];
    assert FindAmount(p.headers) == Some(0);
    assert PinAmountLast(p).headers == ["x", AmountHeader, AmountHeader];
  }

  // ---------------------------------------------------------------------------
  // Amounts
  // ---------------------------------------------------------------------------

  predicate IsAmountChar(c: char) {
    IsDigit(c) || c == '.' || c == ',' || c == '-'
  }

  /** `replace(/[^\d.,\-]/g, "")`. */
  function KeepAmountChars(s: string): (r: string)
    ensures forall i :: 0 <= i < |r| ==> IsAmountChar(r[i])
  {
    if s == [] then "" else (if IsAmountChar(s[0]) then [s[0]] else []) + KeepAmountChars(s[1..])
  }

  /** `replace(/,/g, "")`. */
  function DropCommas(s: string): (r: string)
    ensures (forall i :: 0 <= i < |s| ==> IsAmountChar(s[i])) ==> IsClean(r)
  {
    if s == [] then "" else (if s[0] == ',' then [] else [s[0]]) + DropCommas(s[1..])
  }

  /** The two cleaning passes of `parseAmount` keep exactly what `parseMoney`'s one pass keeps. */
  lemma {:induction false} AmountCleaningIsKeepClean(s: string)
    ensures DropCommas(KeepAmountChars(s)) == KeepClean(s)
  {
    if s != [] {
      AmountCleaningIsKeepClean(s[1..]);
      var head := if IsAmountChar(s[0]) then [s[0]] else [];
      assert KeepAmountChars(s) == head + KeepAmountChars(s[1..]);
      var k := KeepAmountChars(s);
      if head == [] {
        assert k == KeepAmountChars(s[1..]);
      } else {
        assert k[0] == s[0] && k[1..] == KeepAmountChars(s[1..]);
      }
    }
  }

  /**
   * `parseAmount`: trimmed blank text is 0; otherwise everything but ASCII
   * digits, '.', ',' and '-' is dropped, then the commas, and the numeric
   * prefix is read, 0 when there is none. Arabic-Indic digits are not read.
   */
  function ParseAmount(s: string): real {
    var raw := Trim(s);
    if raw == "" then 0.0
    else
      var cleaned := DropCommas(KeepAmountChars(raw));
      ParseFloatPrefix(cleaned).GetOr(0.0)
  }

  /** An amount is read only from text holding an ASCII digit, and is negative only when the text holds a '-'. */
  lemma ParseAmountNeedsDigit(s: string)
    ensures (forall i :: 0 <= i < |s| ==> !IsDigit(s[i])) ==> ParseAmount(s) == 0.0
    ensures ParseAmount(s) < 0.0 ==> '-' in s
  {
    var raw := Trim(s);
    if raw != "" {
      AmountCleaningIsKeepClean(raw);
      var cleaned := KeepClean(raw);
      CleanedFromTrimmed(s);
      ParseFloatPrefixNeeds(cleaned);
      if ParseFloatPrefix(cleaned).Some? {
        if ParseFloatPrefix(cleaned).value < 0.0 {
          assert cleaned[0] in cleaned;
        }
      }
    }
  }

  /** A digit cleaned out of the trimmed text is a digit of the text, and a '-' is a '-' of the text. */
  lemma CleanedFromTrimmed(s: string)
    ensures var cleaned := KeepClean(Trim(s));
      && ((exists i :: 0 <= i < |cleaned| && IsDigit(cleaned[i])) ==> exists j :: 0 <= j < |s| && IsDigit(s[j]))
      && ('-' in cleaned ==> '-' in s)
  {
    var k, r := TrimOffset(s), Trim(s);
    var cleaned := KeepClean(r);
    TrimShape(s);
    if exists i :: 0 <= i < |cleaned| && IsDigit(cleaned[i]) {
      var i :| 0 <= i < |cleaned| && IsDigit(cleaned[i]);
      assert cleaned[i] in r;
      var m :| 0 <= m < |r| && r[m] == cleaned[i];
      assert s[k + m] == r[m];
    }
    if '-' in cleaned {
      var m :| 0 <= m < |r| && r[m] == '-';
      assert s[k + m] == r[m];
    }
  }

  lemma {:induction false} KeepCleanWhite(s: string)
    requires forall i :: 0 <= i < |s| ==> IsWhite(s[i])
    ensures KeepClean(s) == ""
  {
  }

  /** Trimming never changes what cleaning keeps. */
  lemma KeepCleanTrim(s: string)
    ensures KeepClean(Trim(s)) == KeepClean(s)
  {
    var k, r := TrimOffset(s), Trim(s);
    TrimShape(s);
    var pre, post := s[..k], s[k + |r|..];
    assert s == pre + r + post;
    KeepCleanPadded(pre, r, post);
  }

  /** White space around text adds nothing to what cleaning keeps. */
  lemma KeepCleanPadded(pre: string, r: string, post: string)
    requires forall i :: 0 <= i < |pre| ==> IsWhite(pre[i])
    requires forall i :: 0 <= i < |post| ==> IsWhite(post[i])
    ensures KeepClean(pre + r + post) == KeepClean(r)
  {
    KeepCleanConcat(pre + r, post);
    KeepCleanConcat(pre, r);
    KeepCleanWhite(pre);
    KeepCleanWhite(post);
  }

  /** Without Arabic-Indic digits, `parseAmount` and `parseMoney` read the same value. */
  lemma ParseAmountIsParseMoney(s: string)
    requires forall i :: 0 <= i < |s| ==> !IsArabicIndicDigit(s[i])
    ensures ParseAmount(s) == ParseMoney(s)
  {
    var n := NormalizeDigits(s);
    assert n == s by {
      assert |n| == |s|;
      forall i | 0 <= i < |s| ensures n[i] == s[i] { }
    }
    KeepCleanTrim(s);
    var raw := Trim(s);
    if raw == "" {
      assert KeepClean(s) == "";
    } else {
      AmountCleaningIsKeepClean(raw);
      assert ParseAmount(s) == ParseFloatPrefix(KeepClean(raw)).GetOr(0.0);
    }
  }

  /** The two parsers disagree on Arabic-Indic digits: "١" is 0 as an amount and 1 as money. */
  lemma ParsersDisagreeOnArabicDigits()
    ensures ParseAmount("١") == 0.0
    ensures ParseMoney("١") == 1.0
  {
    assert KeepClean(NormalizeDigits("١")) == "1";
    assert DecimalPrefix("1").1 == Some(1.0);
  }

  /** `formatAmount(n, currency)`: an integer (within 1e-9) in plain digits, anything else with two decimals; then the currency. */
  function FormatAmount(n: real, currency: string): (res: string)
    ensures |res| >= |currency| && res[|res| - |currency|..] == currency
    ensures n == n.Floor as real ==> res == IntText(n.Floor) + currency
  {
    var r := Round(n);
    RoundOfWhole(n);
    var d := n - r as real;
    var isInt := -1.0 / 1000000000.0 < d < 1.0 / 1000000000.0;
    var digits := if isInt then IntText(r) else Fixed2(n);
    assert (digits + currency)[|digits|..] == currency;
    digits + currency
  }

  lemma FormatAmountOfInt(n: int, currency: string)
    ensures FormatAmount(n as real, currency) == IntText(n) + currency
  {
    assert Round(n as real) == n;
  }

  /** An integer amount formatted with a plain currency label reads back as the integer. */
  lemma ParseFormattedAmount(n: int, currency: string)
    requires IsPlainLabel(currency)
    ensures ParseAmount(FormatAmount(n as real, currency)) == n as real
  {
    FormatAmountOfInt(n, currency);
    var s := IntText(n) + currency;
    forall i | 0 <= i < |s| ensures !IsArabicIndicDigit(s[i]) {
      if i >= |IntText(n)| { assert s[i] == currency[i - |IntText(n)|]; }
    }
    ParseAmountIsParseMoney(s);
    ParseMoneyOfLabelled(n, currency);
  }

  /** The sum of `parseAmount` over column `col` of the rows, a missing cell reading as empty. */
  function AmountSum(rows: seq<seq<string>>, col: nat): real {
    if rows == [] then 0.0 else AmountSum(rows[..|rows| - 1], col) + ParseAmount(CellAt(rows[|rows| - 1], col))
  }

  /** `computeTableSum`'s value: the amount column of the pinned table, summed. */
  function TableSum(t: Table): real {
    var p := PinAmountLast(t);
    AmountSum(p.rows, |p.headers| - 1)
  }

  /** `computeTableSum`: pins the amount column, then adds up the last cell of each row. */
  method ComputeTableSum(t: Table) returns (sum: real)
    ensures sum == TableSum(t)
  {
    var pinned := PinAmountLast(t);
    var rows, lastIdx := pinned.rows, |pinned.headers| - 1;
    sum := 0.0;
    var i := 0;
    while i < |rows|
      invariant 0 <= i <= |rows|
      invariant sum == AmountSum(rows[..i], lastIdx)
    {
      AmountSumStep(rows, i, lastIdx);
      sum := sum + ParseAmount(CellAt(rows[i], lastIdx));
      i := i + 1;
    }
    assert rows[..i] == rows;
    TableSumOfPinned(t, pinned, sum);
  }

  /** The amounts of the pinned rows, summed, are the table's sum. */
  lemma TableSumOfPinned(t: Table, p: Table, sum: real)
    requires p == PinAmountLast(t) && sum == AmountSum(p.rows, |p.headers| - 1)
    ensures sum == TableSum(t)
  {
  }

  /** Adding one more row to the prefix adds that row's amount. */
  lemma AmountSumStep(rows: seq<seq<string>>, i: nat, col: nat)
    requires i < |rows|
    ensures AmountSum(rows[..i + 1], col) == AmountSum(rows[..i], col) + ParseAmount(CellAt(rows[i], col))
  {
    assert rows[..i + 1][..i] == rows[..i];
  }

  /** Rows whose amount cells hold no digit add nothing. */
  lemma {:induction false} AmountSumOfBlank(rows: seq<seq<string>>, col: nat)
    requires forall i :: 0 <= i < |rows| ==> CellAt(rows[i], col) == ""
    ensures AmountSum(rows, col) == 0.0
  {
    if rows != [] {
      AmountSumOfBlank(rows[..|rows| - 1], col);
    }
  }

  // ---------------------------------------------------------------------------
  // Structural edits (the data part of addRow, delRow, addColPinned, delColPinned)
  // ---------------------------------------------------------------------------

  /** A fresh row of `cols` empty cells with the ordinal first and the amount last. */
  function NewRow(cols: nat, ordinal: nat, amount: string): (r: seq<string>)
    requires cols >= 1
    ensures |r| == cols && r[cols - 1] == amount
    ensures cols > 1 ==> r[0] == NatText(ordinal)
    ensures forall j :: 0 < j < cols - 1 ==> r[j] == ""
  {
    Blanks(cols)[0 := NatText(ordinal)][cols - 1 := amount]
  }

  /** `addRow`: the pinned table with one more row, numbered next, its amount `formatAmount(0, currency)`. */
  function AddRowData(t: Table, currency: string): (r: Table)
    ensures var p := PinAmountLast(t);
      && r.headers == p.headers && r.minCols == t.minCols
      && |r.rows| == |t.rows| + 1 && r.rows[..|t.rows|] == p.rows
  {
    var pinned := PinAmountLast(t);
    var cols := |pinned.headers|;
    var newRow := NewRow(cols, |pinned.rows| + 1, FormatAmount(0.0, currency));
    pinned.(rows := pinned.rows + [newRow])
  }

  /**
   * Adding a row keeps the amount column last, does not change the table's
   * sum when the currency label is plain, and numbers the new row next.
   */
  lemma AddRowKeepsSum(t: Table, currency: string)
    requires AtMostOneAmount(t.headers) && IsPlainLabel(currency)
    ensures var r := AddRowData(t, currency);
      && IsAmountHeader(r.headers[|r.headers| - 1])
      && TableSum(r) == TableSum(t)
      && r.rows[|r.rows| - 1][|r.headers| - 1] == "0" + currency
      && (|r.headers| > 1 ==> r.rows[|r.rows| - 1][0] == NatText(|r.rows|))
  {
    var p := PinAmountLast(t);
    var r := AddRowData(t, currency);
    AddRowStaysPinned(t, currency);
    ZeroAmount(currency);
    var last := |p.headers| - 1;
    var newRow := r.rows[|r.rows| - 1];
    assert r.rows[..|r.rows| - 1] == p.rows;
    assert CellAt(newRow, last) == "0" + currency;
    assert AmountSum(r.rows, last) == AmountSum(p.rows, last) + ParseAmount(CellAt(newRow, last));
  }

  /** A table with a row added is already pinned. */
  lemma AddRowStaysPinned(t: Table, currency: string)
    requires AtMostOneAmount(t.headers)
    ensures PinAmountLast(AddRowData(t, currency)) == AddRowData(t, currency)
  {
    var p := PinAmountLast(t);
    var r := AddRowData(t, currency);
    PinLeavesOneAmount(t);
    assert r.headers == p.headers;
    PinnedIsFixed(r);
  }

  /** The amount of a new row is written "0" and reads back as zero. */
  lemma ZeroAmount(currency: string)
    requires IsPlainLabel(currency)
    ensures FormatAmount(0.0, currency) == "0" + currency
    ensures ParseAmount("0" + currency) == 0.0
  {
    FormatAmountOfInt(0, currency);
    assert IntText(0) == "0";
    ParseFormattedAmount(0, currency);
  }

  /** The column a new column goes to: before the amount column, or right after a selected column in front of it. */
  function InsertIndex(afterSelected: bool, col: Option<int>, amountIdx: nat): (k: nat)
    ensures k <= amountIdx
    ensures afterSelected && col.Some? && 0 <= col.value < amountIdx ==> k == col.value + 1
    ensures !(afterSelected && col.Some? && 0 <= col.value < amountIdx) ==> k == amountIdx
  {
    if !afterSelected then amountIdx
    else if col.None? || col.value < 0 then amountIdx
    else if col.value >= amountIdx then amountIdx
    else if amountIdx <= col.value + 1 then amountIdx else col.value + 1
  }

  /** `addColPinned`: an empty column headed "عمود <count>" inserted at `InsertIndex`, then the amount column pinned again. */
  function AddColPinnedData(t: Table, sel: Selection, afterSelected: bool): (r: Table)
    ensures |r.headers| >= 1 && IsAmountHeader(r.headers[|r.headers| - 1])
    ensures |r.rows| == |t.rows| && r.minCols == t.minCols
  {
    var pinned := PinAmountLast(t);
    var cols := |pinned.headers|;
    var insertAt := InsertIndex(afterSelected, sel.col, cols - 1);
    var inserted := InsertColumn(pinned, insertAt, NewColumnHeader(cols));
    PinEndsWithAmount(inserted);
    PinAmountLast(inserted)
  }

  /** A column headed `h` inserted at `k`: `headers.splice(k, 0, h)` and `r.splice(k, 0, "")` for every row. */
  function InsertColumn(t: Table, k: nat, h: string): (r: Table)
    ensures r.headers == InsertAt(t.headers, k, h) && r.minCols == t.minCols
    ensures |r.rows| == |t.rows| && forall i :: 0 <= i < |t.rows| ==> r.rows[i] == InsertAt(t.rows[i], k, "")
    ensures IsShaped(t) ==> IsShaped(r)
  {
    t.(headers := InsertAt(t.headers, k, h), rows := seq(|t.rows|, i requires 0 <= i < |t.rows| => InsertAt(t.rows[i], k, "")))
  }

  /** The header of the column added to a table of `cols` columns. */
  function NewColumnHeader(cols: nat): string {
    "عمود " + NatText(cols)
  }

  /** The header of an added column is never the amount label. */
  lemma NewColumnHeaderNotAmount(cols: nat)
    ensures !IsAmountHeader(NewColumnHeader(cols))
  {
    var h := NewColumnHeader(cols);
    assert h[0] == 'ع' && !IsWhite(h[0]);
    TrimKeepsFirst(h);
  }

  /**
   * On a table whose amount label occurs at most once, adding a column to it
   * (pinned `p`, insert index `k`) inserts exactly one header and one cell
   * per row, at `k`, which is never past the amount column; the amount label
   * stays on the last column only, and a shaped table stays shaped.
   */
  lemma AddColPinnedInserts(t: Table, sel: Selection, afterSelected: bool, p: Table, k: nat)
    requires AtMostOneAmount(t.headers)
    requires p == PinAmountLast(t) && k == InsertIndex(afterSelected, sel.col, |p.headers| - 1)
    ensures k <= |p.headers| - 1
    ensures AddColPinnedData(t, sel, afterSelected) == InsertColumn(p, k, NewColumnHeader(|p.headers|))
    ensures IsShaped(t) ==> IsShaped(AddColPinnedData(t, sel, afterSelected))
    ensures OnlyLastAmount(AddColPinnedData(t, sel, afterSelected).headers)
  {
    var h := NewColumnHeader(|p.headers|);
    var q, r := InsertColumn(p, k, h), AddColPinnedData(t, sel, afterSelected);
    assert r == PinAmountLast(q);
    PinLeavesOneAmount(t);
    NewColumnHeaderNotAmount(|p.headers|);
    InsertKeepsOnlyLast(p.headers, k, h);
    PinnedIsFixed(q);
    if IsShaped(t) {
      PinKeepsShape(t);
      InsertColumnStaysPinned(p, k, h);
    }
  }

  /** Inserting a non-amount column before the amount column of a pinned table leaves it pinned. */
  lemma InsertColumnStaysPinned(p: Table, k: nat, h: string)
    requires OnlyLastAmount(p.headers) && IsShaped(p) && k <= |p.headers| - 1 && !IsAmountHeader(h)
    ensures var q := InsertColumn(p, k, h);
      PinAmountLast(q) == q && IsShaped(q) && OnlyLastAmount(q.headers)
  {
    InsertKeepsOnlyLast(p.headers, k, h);
    PinnedIsFixed(InsertColumn(p, k, h));
  }

  lemma InsertKeepsOnlyLast(h: seq<string>, k: nat, v: string)
    requires OnlyLastAmount(h) && k <= |h| - 1 && !IsAmountHeader(v)
    ensures OnlyLastAmount(InsertAt(h, k, v))
  {
    var g := InsertAt(h, k, v);
    forall j | 0 <= j < |g| - 1 ensures !IsAmountHeader(g[j]) {
      if j < k { assert g[..k][j] == h[..k][j]; }
      else if j > k { assert g[k + 1..][j - k - 1] == h[k..][j - k - 1]; }
    }
    assert g[k + 1..][|h| - 1 - k] == h[k..][|h| - 1 - k];
  }

  /** `delRow`: the selected row removed and the rest renumbered, the selection cleared; a no-op without a valid selection or with one row left. */
  function DelRowData(t: Table, sel: Selection): (r: (Table, Selection))
    ensures var p := PinAmountLast(t);
      var ok := sel.row.Some? && 0 <= sel.row.value < |p.rows| && |p.rows| > 1;
      && (!ok ==> r == (t, sel))
      && (ok ==> r.1 == NoSelection && r.0.headers == p.headers
                 && |r.0.rows| == |t.rows| - 1 && IsNumbered(r.0.rows))
  {
    var pinned := PinAmountLast(t);
    if sel.row.None? || sel.row.value < 0 || sel.row.value >= |pinned.rows| then (t, sel)
    else if |pinned.rows| <= 1 then (t, sel)
    else (pinned.(rows := RenumberRows(RemoveAt(pinned.rows, sel.row.value))), NoSelection)
  }

  /** Deleting a row keeps every other row's cells past the ordinal, in order. */
  lemma DelRowKeepsOthers(t: Table, sel: Selection)
    requires sel.row.Some? && 0 <= sel.row.value < |t.rows| && |t.rows| > 1
    ensures var p := PinAmountLast(t);
      var r := DelRowData(t, sel).0;
      var k := sel.row.value;
      && (forall i :: 0 <= i < |r.rows| ==>
            var q := if i < k then p.rows[i] else p.rows[i + 1];
            |r.rows[i]| == (if q == [] then 1 else |q|))
      && (forall i, j :: 0 <= i < |r.rows| && 1 <= j < |r.rows[i]| ==>
            r.rows[i][j] == (if i < k then p.rows[i][j] else p.rows[i + 1][j]))
  {
  }

  /**
   * `delColPinned`: the selected column removed from the headers and every
   * row, the amount column pinned again and the selection cleared. Nothing
   * happens when the table is at its column floor, or the selection is
   * missing, out of range, column 0 or the amount column.
   */
  function DelColPinnedData(t: Table, sel: Selection): (r: (Table, Selection))
    ensures var p := PinAmountLast(t);
      var cols := |p.headers|;
      var ok := cols as real > p.minCols && sel.col.Some? && 0 < sel.col.value < cols - 1;
      && (!ok ==> r == (t, sel))
      && (ok ==> r.1 == NoSelection && |r.0.rows| == |t.rows| && |r.0.headers| >= 1 && IsAmountHeader(r.0.headers[|r.0.headers| - 1]))
  {
    var pinned := PinAmountLast(t);
    var cols := |pinned.headers|;
    var amountIdx := cols - 1;
    if cols as real <= pinned.minCols then (t, sel)
    else if sel.col.None? || sel.col.value < 0 || sel.col.value >= cols then (t, sel)
    else if sel.col.value == 0 then (t, sel)
    else if sel.col.value == amountIdx then (t, sel)
    else
      var without := WithoutColumn(pinned, sel.col.value);
      PinEndsWithAmount(without);
      (PinAmountLast(without), NoSelection)
  }

  /** On a shaped table with one amount label, deleting a column removes exactly that column. */
  lemma DelColPinnedRemoves(t: Table, sel: Selection)
    requires AtMostOneAmount(t.headers)
    requires var p := PinAmountLast(t);
      |p.headers| as real > p.minCols && sel.col.Some? && 0 < sel.col.value < |p.headers| - 1
    ensures var p := PinAmountLast(t);
      DelColPinnedData(t, sel) == (WithoutColumn(p, sel.col.value), NoSelection)
  {
    var p := PinAmountLast(t);
    var k := sel.col.value;
    PinLeavesOneAmount(t);
    var w := WithoutColumn(p, k);
    assert OnlyLastAmount(w.headers) by {
      forall j | 0 <= j < |w.headers| - 1 ensures !IsAmountHeader(w.headers[j]) {
        if j >= k { assert w.headers[j] == p.headers[j + 1]; }
      }
      assert w.headers[|w.headers| - 1] == p.headers[|p.headers| - 1];
    }
    PinnedIsFixed(w);
  }
}
