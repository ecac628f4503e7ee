/**
 * The `TableEditor` of the statement pages: an editable table whose header
 * titles and body rows live in the page, with a selected cell, a column
 * floor `minCols` and the amount column always last. The header row and the
 * body rows are held here as sequences of cell texts; the window prompt for
 * a column title becomes a parameter with the user's answer.
 */
module TableEditing {
  import opened Wrappers
  import opened Text
  import opened InvoiceTables
  import Exports

  /** The title a new column gets when the prompt gives none. */
  const NewColumnTitle: string := "عمود جديد"

  /** `(prompt(...) || 'عمود جديد').trim()`: a dismissed or empty answer gives the default title, any other answer is trimmed. */
  function ColumnTitle(answer: Option<string>): (r: string)
    ensures answer.None? || answer.value == "" ==> r == NewColumnTitle
    ensures answer.Some? && answer.value != "" ==> r == Trim(answer.value)
  {
    var title := if answer.None? || answer.value == "" then NewColumnTitle else answer.value;
    if title == NewColumnTitle then
      TrimUnchanged(NewColumnTitle);
      title
    else Trim(title)
  }

  /** A blank answer is accepted as it stands and gives a column with an empty title. */
  lemma BlankAnswerGivesEmptyTitle()
    ensures ColumnTitle(Some(" ")) == ""
  {
    assert TrimStart(" ") == "";
  }

  /**
   * The cells of body row `i` as `build`'s `makeRow` writes them into
   * `cols` columns: the ordinal first, then the payload values, a missing
   * amount reading `0` and the symbol and any other missing cell empty.
   */
  function BuiltRow(values: seq<string>, i: nat, cols: nat, sym: string): (r: seq<string>)
    ensures |r| == cols
    ensures cols >= 1 ==> r[0] == NatText(i + 1)
    ensures forall c :: 0 < c < cols && c < |values| ==> r[c] == values[c]
    ensures cols >= 2 && cols - 1 >= |values| ==> r[cols - 1] == "0" + sym
    ensures forall c :: 0 < c < cols - 1 && c >= |values| ==> r[c] == ""
  {
    seq(cols, c requires 0 <= c < cols =>
      if c == 0 then NatText(i + 1)
      else if c == cols - 1 then (if c < |values| then values[c] else "0" + sym)
      else if c < |values| then values[c] else "")
  }

  /** The body `build` makes of the payload rows: one row per payload row, or one empty row when there are none. */
  function BuiltRows(payloadRows: seq<seq<string>>, cols: nat, sym: string): (r: seq<seq<string>>)
    ensures |r| == if payloadRows == [] then 1 else |payloadRows|
    ensures payloadRows == [] ==> r == [BuiltRow([], 0, cols, sym)]
    ensures payloadRows != [] ==> forall i :: 0 <= i < |r| ==> r[i] == BuiltRow(payloadRows[i], i, cols, sym)
  {
    if payloadRows == [] then [BuiltRow([], 0, cols, sym)]
    else seq(|payloadRows|, i requires 0 <= i < |payloadRows| => BuiltRow(payloadRows[i], i, cols, sym))
  }

  /** The built rows are numbered and have one cell per column. */
  lemma BuiltRowsNumbered(payloadRows: seq<seq<string>>, cols: nat, sym: string)
    requires cols >= 1
    ensures var r := BuiltRows(payloadRows, cols, sym);
      IsNumbered(r) && forall i :: 0 <= i < |r| ==> |r[i]| == cols
  {
  }

  /** A full, numbered row is rebuilt as it is. */
  lemma BuiltRowOfFullRow(values: seq<string>, i: nat, sym: string)
    requires |values| >= 1 && values[0] == NatText(i + 1)
    ensures BuiltRow(values, i, |values|, sym) == values
  {
  }

  /** The column a column added "after the selected one" goes to: right after a selected column strictly between the first and the amount column, else before the amount column. */
  function AfterSelectedIndex(col: Option<int>, amountIdx: nat): (k: nat)
    ensures k <= amountIdx
    ensures col.Some? && 0 < col.value < amountIdx ==> k == col.value + 1
    ensures !(col.Some? && 0 < col.value < amountIdx) ==> k == amountIdx
  {
    if col.Some? && col.value > 0 && col.value < amountIdx then col.value + 1 else amountIdx
  }

  /** Every row with an empty cell inserted at `k`. */
  function RowsWithColumn(rows: seq<seq<string>>, k: nat): (r: seq<seq<string>>)
    ensures |r| == |rows| && forall i :: 0 <= i < |rows| ==> r[i] == InsertAt(rows[i], k, "")
  {
    seq(|rows|, i requires 0 <= i < |rows| => InsertAt(rows[i], k, ""))
  }

  /** Every row without its cell at `k`. */
  function RowsWithoutColumn(rows: seq<seq<string>>, k: nat): (r: seq<seq<string>>)
    requires forall i :: 0 <= i < |rows| ==> k < |rows[i]|
    ensures |r| == |rows| && forall i :: 0 <= i < |rows| ==> r[i] == RemoveAt(rows[i], k)
  {
    seq(|rows|, i requires 0 <= i < |rows| => RemoveAt(rows[i], k))
  }

  /** An insert before the last position keeps the last element last. */
  lemma InsertKeepsLast<T>(s: seq<T>, k: nat, v: T)
    requires 1 <= |s| && k <= |s| - 1
    ensures InsertAt(s, k, v)[|s|] == s[|s| - 1] && InsertAt(s, k, v)[k] == v
  {
    assert InsertAt(s, k, v)[k + 1..] == s[k..];
    assert InsertAt(s, k, v)[k + 1..][|s| - 1 - k] == s[k..][|s| - 1 - k];
  }

  class TableEditor {
    var headers: seq<string>
    var rows: seq<seq<string>>
    const minCols: int
    var sel: Selection

    /** One cell per column in every row, at least one column, and a selection inside the table. */
    predicate Valid()
      reads this
    {
      && |headers| >= 1 && minCols >= 1
      && (forall i :: 0 <= i < |rows| ==> |rows[i]| == |headers|)
      && (sel.row.Some? ==> 0 <= sel.row.value < |rows|)
      && (sel.col.Some? ==> 0 <= sel.col.value < |headers|)
    }

    /** The editor over a table already in the page, nothing selected. */
    constructor (minCols: int, headers: seq<string>, rows: seq<seq<string>>)
      requires minCols >= 1 && |headers| >= 1
      requires forall i :: 0 <= i < |rows| ==> |rows[i]| == |headers|
      ensures Valid()
      ensures this.minCols == minCols && this.headers == headers && this.rows == rows && sel == NoSelection
    {
      this.minCols := minCols;
      this.headers := headers;
      this.rows := rows;
      sel := NoSelection;
    }

    /** `colCount`. */
    function ColCount(): nat
      reads this
    {
      |headers|
    }

    /** `amountColIndex`: the last column. */
    function AmountColIndex(): int
      reads this
    {
      |headers| - 1
    }

    /** A click on a header cell (no row) or a body cell selects it. */
    method Click(row: Option<int>, col: int)
      requires Valid()
      requires row.Some? ==> 0 <= row.value < |rows|
      requires 0 <= col < |headers|
      modifies this
      ensures Valid() && sel == Selection(row, Some(col))
      ensures headers == old(headers) && rows == old(rows)
    {
      sel := Selection(row, Some(col));
    }

    /** `renumber`: cell 0 of row `i` becomes `i + 1`; nothing else changes. */
    method Renumber()
      requires Valid()
      modifies this
      ensures Valid()
      ensures rows == RenumberRows(old(rows)) && IsNumbered(rows)
      ensures headers == old(headers) && sel == old(sel)
    {
      var i := 0;
      while i < |rows|
        invariant 0 <= i <= |rows| == |old(rows)|
        invariant forall k :: 0 <= k < i ==> rows[k] == RenumberRows(old(rows))[k]
        invariant forall k :: i <= k < |rows| ==> rows[k] == old(rows)[k]
        invariant headers == old(headers) && sel == old(sel)
      {
        var row := rows[i];
        assert row[0 := NatText(i + 1)] == SetFirst(row, NatText(i + 1));
        rows := rows[i := row[0 := NatText(i + 1)]];
        i := i + 1;
      }
    }

    /** `makeRow(values, i)` over the current columns: the cells of `BuiltRow`. */
    method MakeRow(values: seq<string>, i: nat, sym: string) returns (row: seq<string>)
      ensures row == BuiltRow(values, i, |headers|, sym)
    {
      var cols := |headers|;
      row := [];
      var c := 0;
      while c < cols
        invariant 0 <= c <= cols && |row| == c
        invariant forall j :: 0 <= j < c ==> row[j] == BuiltRow(values, i, cols, sym)[j]
      {
        var cell;
        if c == 0 {
          cell := NatText(i + 1);
        } else if c == cols - 1 {
          cell := if c < |values| then values[c] else "0" + sym;
        } else {
          cell := if c < |values| then values[c] else "";
        }
        row := row + [cell];
        c := c + 1;
      }
    }

    /** The row loop of `build` over the current columns: the rows of `BuiltRows`. */
    method MakeRows(given: seq<seq<string>>, sym: string) returns (built: seq<seq<string>>)
      ensures built == BuiltRows(given, |headers|, sym)
    {
      if given == [] {
        var row := MakeRow([], 0, sym);
        return [row];
      }
      built := [];
      var i := 0;
      while i < |given|
        invariant 0 <= i <= |given| && |built| == i
        invariant forall j :: 0 <= j < i ==> built[j] == BuiltRow(given[j], j, |headers|, sym)
      {
        var row := MakeRow(given[i], i, sym);
        built := built + [row];
        i := i + 1;
      }
    }

    /**
     * `addRow`: one row appended with a cell per column, numbered next, its
     * amount `0` followed by the symbol and its other cells empty; then the
     * body is renumbered.
     */
    method AddRow(sym: string)
      requires Valid()
      modifies this
      ensures Valid()
      ensures rows == RenumberRows(old(rows) + [BuiltRow([], |old(rows)|, |headers|, sym)])
      ensures |rows| == |old(rows)| + 1 && rows[|rows| - 1] == BuiltRow([], |old(rows)|, |headers|, sym)
      ensures forall i, j :: 0 <= i < |old(rows)| && 1 <= j < |headers| ==> rows[i][j] == old(rows)[i][j]
      ensures headers == old(headers) && sel == old(sel)
    {
      var row := MakeRow([], |rows|, sym);
      rows := rows + [row];
      Renumber();
    }

    /**
     * `removeSelectedRow`: with more than one row and a selected row, that
     * row is removed, the row selection cleared and the body renumbered;
     * otherwise nothing changes.
     */
    method RemoveSelectedRow()
      requires Valid()
      modifies this
      ensures Valid()
      ensures |old(rows)| <= 1 || old(sel).row.None? ==> rows == old(rows) && sel == old(sel)
      ensures |old(rows)| > 1 && old(sel).row.Some? ==>
        rows == RenumberRows(RemoveAt(old(rows), old(sel).row.value)) && sel == Selection(None, old(sel).col)
      ensures headers == old(headers)
    {
      if |rows| <= 1 || sel.row.None? {
        return;
      }
      rows := RemoveAt(rows, sel.row.value);
      sel := sel.(row := None);
      Renumber();
    }

    /** Inserts a column titled `title` at `k`, before the amount column, with an empty cell in every row. */
    method InsertColumnAt(k: nat, title: string)
      requires Valid() && k <= |headers| - 1
      modifies this
      ensures Valid()
      ensures headers == InsertAt(old(headers), k, title) && rows == RowsWithColumn(old(rows), k)
      ensures headers[k] == title && headers[|headers| - 1] == old(headers)[|old(headers)| - 1]
      ensures forall i :: 0 <= i < |rows| ==> rows[i][k] == "" && rows[i][|headers| - 1] == old(rows)[i][|headers| - 2]
      ensures sel == old(sel)
    {
      InsertKeepsLast(headers, k, title);
      headers := InsertAt(headers, k, title);
      var i := 0;
      while i < |rows|
        invariant 0 <= i <= |rows| == |old(rows)|
        invariant forall j :: 0 <= j < i ==> rows[j] == InsertAt(old(rows)[j], k, "")
        invariant forall j :: i <= j < |rows| ==> rows[j] == old(rows)[j]
        invariant headers == InsertAt(old(headers), k, title) && sel == old(sel)
      {
        InsertKeepsLast(rows[i], k, "");
        rows := rows[i := InsertAt(rows[i], k, "")];
        i := i + 1;
      }
    }

    /**
     * `addColumn(promptTitle)`: a column inserted right before the amount
     * column, titled by the prompt's answer or "عمود جديد" without a prompt.
     */
    method AddColumn(promptTitle: bool, answer: Option<string>)
      requires Valid()
      modifies this
      ensures Valid()
      ensures var k, title := |old(headers)| - 1, if promptTitle then ColumnTitle(answer) else NewColumnTitle;
        headers == InsertAt(old(headers), k, title) && rows == RowsWithColumn(old(rows), k)
      ensures |headers| == |old(headers)| + 1 && headers[|headers| - 1] == old(headers)[|old(headers)| - 1]
      ensures sel == old(sel)
    {
      var title := if promptTitle then ColumnTitle(answer) else NewColumnTitle;
      InsertColumnAt(|headers| - 1, title);
    }

    /**
     * `addColumnAfterSelected`: a column titled by the prompt's answer,
     * inserted right after the selected column when that is strictly between
     * the first and the amount column, else right before the amount column.
     */
    method AddColumnAfterSelected(answer: Option<string>)
      requires Valid()
      modifies this
      ensures Valid()
      ensures var k := AfterSelectedIndex(old(sel).col, |old(headers)| - 1);
        headers == InsertAt(old(headers), k, ColumnTitle(answer)) && rows == RowsWithColumn(old(rows), k)
      ensures |headers| == |old(headers)| + 1 && headers[|headers| - 1] == old(headers)[|old(headers)| - 1]
      ensures sel == old(sel)
    {
      var k := AfterSelectedIndex(sel.col, |headers| - 1);
      InsertColumnAt(k, ColumnTitle(answer));
    }

    /**
     * `removeSelectedColumn`: above the column floor, with a selected column
     * that is neither the first nor the amount column, that column is removed
     * from the header and every row, and the selection moves to
     * `min(idx, colCount - 2)`, which is never the amount column; otherwise
     * nothing changes.
     */
    method RemoveSelectedColumn()
      requires Valid()
      modifies this
      ensures Valid()
      ensures var ok := |old(headers)| > minCols && old(sel).col.Some? && 0 < old(sel).col.value < |old(headers)| - 1;
        && (!ok ==> headers == old(headers) && rows == old(rows) && sel == old(sel))
        && (ok ==> var idx := old(sel).col.value;
              && headers == RemoveAt(old(headers), idx) && rows == RowsWithoutColumn(old(rows), idx)
              && sel == Selection(old(sel).row, Some(if idx <= |headers| - 2 then idx else |headers| - 2))
              && 0 <= sel.col.value < |headers| - 1)
    {
      if |headers| <= minCols || sel.col.None? {
        return;
      }
      var idx := sel.col.value;
      if idx == 0 || idx == |headers| - 1 {
        return;
      }
      headers := RemoveAt(headers, idx);
      var i := 0;
      while i < |rows|
        invariant 0 <= i <= |rows| == |old(rows)|
        invariant forall j :: 0 <= j < i ==> rows[j] == RemoveAt(old(rows)[j], idx)
        invariant forall j :: i <= j < |rows| ==> rows[j] == old(rows)[j]
        invariant headers == RemoveAt(old(headers), idx) && sel == old(sel)
      {
        rows := rows[i := RemoveAt(rows[i], idx)];
        i := i + 1;
      }
      sel := sel.(col := Some(if idx <= |headers| - 2 then idx else |headers| - 2));
    }

    /** `serialize`: the header titles and the rows' cell texts, in order. */
    method Serialize() returns (payload: Exports.Payload)
      ensures payload == Exports.Payload(Some(headers), Some(rows))
    {
      payload := Exports.Payload(Some(headers), Some(rows));
    }

    /**
     * `build(payload, currencySym)`: the payload's headers when there are at
     * least `minCols` of them, else the current ones; then the rows of
     * `BuiltRows`, padded or cut to the column count; nothing selected.
     */
    method Build(payload: Option<Exports.Payload>, sym: string)
      requires Valid()
      modifies this
      ensures Valid()
      ensures var h := Exports.PayloadHeaders(payload);
        headers == if |h| >= minCols then h else old(headers)
      ensures rows == BuiltRows(Exports.PayloadRows(payload), |headers|, sym)
      ensures sel == NoSelection
    {
      var titles := Exports.PayloadHeaders(payload);
      var given := Exports.PayloadRows(payload);
      if |titles| >= minCols {
        headers := titles;
      }
      var built := MakeRows(given, sym);
      rows := built;
      sel := NoSelection;
      BuiltRowsNumbered(given, |headers|, sym);
      RenumberNumbered(rows);
      Renumber();
    }
  }

  /**
   * Building from what `serialize` returns gives the table back: a table with
   * at least `minCols` headers, at least one row, full rows and numbered rows
   * is rebuilt as it is.
   */
  lemma BuildSerializeRoundTrip(headers: seq<string>, rows: seq<seq<string>>, minCols: int, sym: string)
    requires |headers| >= 1 && |headers| >= minCols && rows != [] && IsNumbered(rows)
    requires forall i :: 0 <= i < |rows| ==> |rows[i]| == |headers|
    ensures var p := Some(Exports.Payload(Some(headers), Some(rows)));
      && Exports.PayloadHeaders(p) == headers
      && BuiltRows(Exports.PayloadRows(p), |headers|, sym) == rows
  {
    forall i | 0 <= i < |rows| ensures BuiltRow(rows[i], i, |headers|, sym) == rows[i] {
      BuiltRowOfFullRow(rows[i], i, sym);
    }
  }
}
