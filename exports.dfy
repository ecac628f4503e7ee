/**
 * The export helpers of the statement pages: the sheet-name cleaner, the
 * array-of-arrays builders that append a totals row, and the amount total of
 * a saved table payload.
 */
module Exports {
  import opened Wrappers
  import opened Text
  import opened Numeric
  import opened Utils

  /** The characters a spreadsheet refuses in a sheet name. */
  predicate IsSheetForbidden(c: char) {
    c == '[' || c == ']' || c == '*' || c == '/' || c == '\\' || c == '?' || c == ':'
  }

  /** `replace(/[\[\]\*\/\\\?\:]/g, ' ')`: each forbidden character becomes a space, nothing else changes. */
  function ReplaceForbidden(s: string): (r: string)
    ensures |r| == |s|
    ensures forall i :: 0 <= i < |s| ==> r[i] == if IsSheetForbidden(s[i]) then ' ' else s[i]
  {
    seq(|s|, i requires 0 <= i < |s| => if IsSheetForbidden(s[i]) then ' ' else s[i])
  }

  /** `s.slice(0, n)`. */
  function Prefix(s: string, n: nat): (r: string)
    ensures |r| <= n && r <= s
    ensures |s| <= n ==> r == s
  {
    if |s| <= n then s else s[..n]
  }

  /**
   * `sanitizeSheetName`: every forbidden character replaced by a space, then
   * the first 31 characters. No trimming and no default name.
   */
  function SanitizeSheetName(name: string): (r: string)
    ensures |r| <= 31 && forall i :: 0 <= i < |r| ==> !IsSheetForbidden(r[i])
    ensures |r| == if |name| <= 31 then |name| else 31
    ensures forall i :: 0 <= i < |r| && !IsSheetForbidden(name[i]) ==> r[i] == name[i]
  {
    Prefix(ReplaceForbidden(name), 31)
  }

  /** A clean name of at most 31 characters is kept as it is. */
  lemma SanitizeKeepsCleanName(name: string)
    requires |name| <= 31 && forall i :: 0 <= i < |name| ==> !IsSheetForbidden(name[i])
    ensures SanitizeSheetName(name) == name
  {
  }

  /** Cleaning a cleaned name changes nothing. */
  lemma SanitizeSheetNameIdempotent(name: string)
    ensures SanitizeSheetName(SanitizeSheetName(name)) == SanitizeSheetName(name)
  {
    SanitizeKeepsCleanName(SanitizeSheetName(name));
  }

  /**
   * The totals row of an export: `n` empty cells, the label in the
   * second-to-last cell and the value in the last one (when there is room).
   */
  method TotalsRow(n: nat, caption: string, value: string) returns (row: seq<string>)
    ensures |row| == n
    ensures n >= 2 ==> row[n - 2] == caption
    ensures n >= 1 ==> row[n - 1] == value
    ensures forall i :: 0 <= i < n - 2 ==> row[i] == ""
  {
    var cells := new string[n](_ => "");
    if n >= 2 {
      cells[n - 2] := caption;
    }
    if n >= 1 {
      cells[n - 1] := value;
    }
    row := cells[..];
  }

  /** `tableDomToAoA` over the rendered header and body text: header, body rows in order, totals row. */
  method TableDomToAoA(headers: seq<string>, body: seq<seq<string>>, totalsLabel: string, totalsValue: string)
    returns (aoa: seq<seq<string>>)
    ensures |aoa| == |body| + 2
    ensures aoa[0] == headers && aoa[1..|body| + 1] == body
    ensures var t := aoa[|aoa| - 1];
      |t| == |headers|
      && (|headers| >= 2 ==> t[|headers| - 2] == totalsLabel)
      && (|headers| >= 1 ==> t[|headers| - 1] == totalsValue)
      && forall i :: 0 <= i < |headers| - 2 ==> t[i] == ""
  {
    var totals := TotalsRow(|headers|, totalsLabel, totalsValue);
    aoa := [headers] + body + [totals];
    assert aoa[1..|body| + 1] == body;
  }

  /**
   * A saved table payload: its header titles and rows, each `None` when not
   * an array. A cell past the end of a row reads as missing.
   */
  datatype Payload = Payload(headerTitles: Option<seq<string>>, rows: Option<seq<seq<string>>>)

  /** `parseMoney(r?.[col] ?? '')`: the money in column `col`, a missing cell reading as empty text. */
  function CellMoney(r: seq<string>, col: nat): real {
    ParseMoney(if col < |r| then r[col] else "")
  }

  /** `parseMoney` summed over column `col`; a missing cell reads as empty text. */
  function MoneySum(rows: seq<seq<string>>, col: nat): real {
    if rows == [] then 0.0 else MoneySum(rows[..|rows| - 1], col) + CellMoney(rows[|rows| - 1], col)
  }

  /** The amount column of a payload: the last header's index, or 0 without headers. */
  function AmountIndex(headerTitles: seq<string>): (k: nat)
    ensures |headerTitles| >= 1 ==> k == |headerTitles| - 1
    ensures |headerTitles| == 0 ==> k == 0
  {
    if |headerTitles| >= 1 then |headerTitles| - 1 else 0
  }

  /** The total `sumAmountFromPayload` computes. */
  function PayloadSum(t: Option<Payload>): real {
    if t.None? || t.value.rows.None? || t.value.headerTitles.None? then 0.0
    else MoneySum(t.value.rows.value, AmountIndex(t.value.headerTitles.value))
  }

  /** `sumAmountFromPayload`: 0 for a missing payload or one without row and header arrays; else the money in the last column. */
  method SumAmountFromPayload(t: Option<Payload>) returns (sum: real)
    ensures sum == PayloadSum(t)
    ensures t.None? || t.value.rows.None? || t.value.headerTitles.None? ==> sum == 0.0
  {
    if t.None? || t.value.rows.None? || t.value.headerTitles.None? {
      return 0.0;
    }
    var rows := t.value.rows.value;
    var amountIdx := AmountIndex(t.value.headerTitles.value);
    sum := 0.0;
    var i := 0;
    while i < |rows|
      invariant 0 <= i <= |rows|
      invariant sum == MoneySum(rows[..i], amountIdx)
    {
      assert rows[..i + 1][..i] == rows[..i];
      sum := sum + CellMoney(rows[i], amountIdx);
      i := i + 1;
    }
    assert rows[..i] == rows;
  }

  function SumInts(vs: seq<int>): int {
    if vs == [] then 0 else SumInts(vs[..|vs| - 1]) + vs[|vs| - 1]
  }

  lemma CellMoneyOfLabelled(r: seq<string>, col: nat, v: int, sym: string)
    requires IsPlainLabel(sym) && col < |r| && r[col] == IntText(v) + sym
    ensures CellMoney(r, col) == v as real
  {
    ParseMoneyOfLabelled(v, sym);
  }

  /** Row `i` holds, in column `col`, the integer `vs[i]` followed by the label `sym`. */
  predicate LabelledColumn(rows: seq<seq<string>>, col: nat, vs: seq<int>, sym: string) {
    |vs| == |rows| && forall i :: 0 <= i < |rows| ==> col < |rows[i]| && rows[i][col] == IntText(vs[i]) + sym
  }

  /**
   * A column of integer amounts written with a plain currency label totals
   * the integers: the export total reads back what the tables show.
   */
  lemma MoneySumOfLabelled(rows: seq<seq<string>>, col: nat, vs: seq<int>, sym: string)
    requires IsPlainLabel(sym) && LabelledColumn(rows, col, vs, sym)
    ensures MoneySum(rows, col) == SumInts(vs) as real
  {
    forall i | 0 <= i < |rows|
      ensures CellMoney(rows[i], col) == vs[i] as real
    {
      CellMoneyOfLabelled(rows[i], col, vs[i], sym);
    }
    MoneySumOfValues(rows, col, vs);
  }

  /** A column whose cells are worth the given integers totals their sum. */
  lemma {:induction false} MoneySumOfValues(rows: seq<seq<string>>, col: nat, vs: seq<int>)
    requires |vs| == |rows| && forall i :: 0 <= i < |rows| ==> CellMoney(rows[i], col) == vs[i] as real
    ensures MoneySum(rows, col) == SumInts(vs) as real
  {
    if rows != [] {
      var n := |rows|;
      var front, vfront := rows[..n - 1], vs[..n - 1];
      forall i | 0 <= i < |front|
        ensures CellMoney(front[i], col) == vfront[i] as real
      {
        assert front[i] == rows[i] && vfront[i] == vs[i];
      }
      MoneySumOfValues(front, col, vfront);
    }
  }

  /** The totals cell: the total written as a number, directly followed by the currency label. */
  function TotalText(total: real, sym: string): string {
    NumberText(total) + sym
  }

  /** The header titles of a payload, none when they are not an array. */
  function PayloadHeaders(payload: Option<Payload>): seq<string> {
    if payload.Some? && payload.value.headerTitles.Some? then payload.value.headerTitles.value else []
  }

  /** The rows of a payload, none when they are not an array. */
  function PayloadRows(payload: Option<Payload>): seq<seq<string>> {
    if payload.Some? && payload.value.rows.Some? then payload.value.rows.value else []
  }

  /**
   * `payloadToAoA`: the header titles, the rows, and a totals row whose
   * last cell is the payload total written as a number and followed
   * directly by `sym`, with the label in the cell before it.
   */
  method PayloadToAoA(payload: Option<Payload>, totalLabel: string, sym: string) returns (aoa: seq<seq<string>>)
    ensures |aoa| == |PayloadRows(payload)| + 2
    ensures aoa[0] == PayloadHeaders(payload) && aoa[1..|aoa| - 1] == PayloadRows(payload)
    ensures var t, n := aoa[|aoa| - 1], |PayloadHeaders(payload)|;
      |t| == n
      && (n >= 2 ==> t[n - 2] == totalLabel)
      && (n >= 1 ==> t[n - 1] == TotalText(PayloadSum(payload), sym))
      && forall i :: 0 <= i < n - 2 ==> t[i] == ""
  {
    var total := SumAmountFromPayload(payload);
    aoa := TableDomToAoA(PayloadHeaders(payload), PayloadRows(payload), totalLabel, TotalText(total, sym));
  }
}
