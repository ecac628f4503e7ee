/**
 * The mutable state of the invoice page: the invoice list, the id of the
 * current invoice and the selected cell of each of its two tables, with the
 * operations that load the list, edit the current invoice's tables and
 * create, rename or delete invoices.
 *
 * The window prompts and the confirmation dialog become parameters holding
 * the user's answer; `uid()` and today's date are passed in.
 */
module InvoiceState {
  import opened Wrappers
  import opened Text
  import opened InvoiceTables
  import opened InvoicePage

  /** The two tables of an invoice: the operations ("t1") and the receipts ("t2"). */
  datatype TableId = T1 | T2

  function TableOf(inv: Invoice, id: TableId): Table {
    if id == T1 then inv.t1 else inv.t2
  }

  /** The invoice with one of its tables replaced. */
  function WithTable(inv: Invoice, id: TableId, t: Table): (r: Invoice)
    ensures TableOf(r, id) == t
    ensures r.id == inv.id && r.name == inv.name && r.date == inv.date && r.currency == inv.currency
    ensures id == T1 ==> r.t2 == inv.t2
    ensures id == T2 ==> r.t1 == inv.t1
  {
    if id == T1 then inv.(t1 := t) else inv.(t2 := t)
  }

  /**
   * `promptNonEmpty`: a dismissed prompt (`None`) gives nothing; an answer
   * is trimmed, and a blank one gives nothing too.
   */
  function PromptNonEmpty(answer: Option<string>): (r: Option<string>)
    ensures r.Some? ==> answer.Some? && r.value == Trim(answer.value)
    ensures r.Some? ==> r.value != [] && !IsWhite(r.value[0]) && !IsWhite(r.value[|r.value| - 1])
    ensures r.None? <==> answer.None? || forall i :: 0 <= i < |answer.value| ==> IsWhite(answer.value[i])
  {
    if answer.None? then None
    else
      var t := Trim(answer.value);
      if t == [] then
        TrimShape(answer.value);
        None
      else
        assert !(forall i :: 0 <= i < |answer.value| ==> IsWhite(answer.value[i])) by {
          TrimShape(answer.value);
          var k := TrimOffset(answer.value);
          assert answer.value[k] == t[0];
        }
        TrimEnds(answer.value);
        Some(t)
  }

  /** An accepted answer is accepted again unchanged. */
  lemma PromptNonEmptyStable(answer: Option<string>)
    ensures PromptNonEmpty(PromptNonEmpty(answer)) == PromptNonEmpty(answer)
  {
    var r := PromptNonEmpty(answer);
    if r.Some? {
      TrimUnchanged(r.value);
    }
  }

  /** A blank answer becomes nothing. */
  lemma PromptBlank(answer: string)
    requires forall i :: 0 <= i < |answer| ==> IsWhite(answer[i])
    ensures PromptNonEmpty(Some(answer)) == None
  {
  }

  /** Replacing an invoice by one with the same id leaves every id lookup as it was. */
  lemma {:induction false} FindByIdAfterUpdate(s: seq<Invoice>, k: nat, x: Invoice, id: string)
    requires k < |s| && x.id == s[k].id
    ensures FindById(s[k := x], id) == FindById(s, id)
  {
    if s[0].id != id && k > 0 {
      assert s[k := x][1..] == s[1..][k - 1 := x];
      FindByIdAfterUpdate(s[1..], k - 1, x, id);
    }
  }

  /** Looking up the id of the first invoice finds the first invoice. */
  lemma FindFirst(s: seq<Invoice>)
    requires s != []
    ensures FindById(s, s[0].id) == Some(0)
    ensures CurrentInvoice(s, Some(s[0].id)) == Some(s[0])
  {
  }

  /**
   * The invoice list `loadAll` makes of the parsed storage value (`None`
   * when it is not an array): a non-empty array normalised entry by entry,
   * anything else the one invoice "فاتورة 1". It is never empty.
   */
  function LoadedInvoices(data: Option<seq<Option<RawInvoice>>>, freshIds: nat -> string, newId: string, today: string): (r: seq<Invoice>)
    ensures r != []
  {
    if data.Some? && data.value != [] then
      seq(|data.value|, i requires 0 <= i < |data.value| => NormalizeInvoice(data.value[i], freshIds(i), today))
    else [CreateDefaultInvoice(FirstInvoiceName, newId, today)]
  }

  /** A stored array keeps its length and each entry is normalised with its own fresh id; anything else loads one default invoice. */
  lemma LoadedInvoicesEntries(data: Option<seq<Option<RawInvoice>>>, freshIds: nat -> string, newId: string, today: string)
    ensures var r := LoadedInvoices(data, freshIds, newId, today);
      && (data.Some? && data.value != [] ==>
            |r| == |data.value| && forall i :: 0 <= i < |r| ==> r[i] == NormalizeInvoice(data.value[i], freshIds(i), today))
      && (data.None? || data.value == [] ==> r == [CreateDefaultInvoice(FirstInvoiceName, newId, today)])
  {
  }

  /** An invoice as `normalizeInvoice` leaves it: every text field filled in, both tables pinned. */
  predicate IsFilledInvoice(inv: Invoice) {
    inv.id != "" && inv.name != "" && inv.date != "" && inv.currency != ""
    && IsPinnedTable(inv.t1) && IsPinnedTable(inv.t2)
  }

  /** Every loaded invoice is in normalised form, whatever the stored value held. */
  lemma LoadedInvoicesFilled(data: Option<seq<Option<RawInvoice>>>, freshIds: nat -> string, newId: string, today: string)
    requires today != "" && newId != ""
    requires forall i :: freshIds(i) != ""
    ensures var r := LoadedInvoices(data, freshIds, newId, today);
      forall i :: 0 <= i < |r| ==> IsFilledInvoice(r[i])
  {
    var r := LoadedInvoices(data, freshIds, newId, today);
    LoadedInvoicesEntries(data, freshIds, newId, today);
    if data.None? || data.value == [] {
      DefaultInvoiceIsStored(FirstInvoiceName, newId, today);
      DefaultTableStored();
      assert IsFilledInvoice(r[0]);
    } else {
      forall i | 0 <= i < |r| ensures IsFilledInvoice(r[i]) {
        NormalizeFilled(data.value[i], freshIds(i), today);
      }
    }
  }

  lemma NormalizeFilled(raw: Option<RawInvoice>, freshId: string, today: string)
    requires freshId != "" && today != ""
    ensures IsFilledInvoice(NormalizeInvoice(raw, freshId, today))
  {
  }

  /** The page state; `sel1` and `sel2` are `state.selected.t1` and `state.selected.t2`. */
  class InvoicePageState {
    var invoices: seq<Invoice>
    var currentId: Option<string>
    var sel1: Selection
    var sel2: Selection

    /** The initial `state`: no invoices, no current invoice, nothing selected. */
    constructor ()
      ensures invoices == [] && currentId == None && sel1 == NoSelection && sel2 == NoSelection
    {
      invoices := [];
      currentId := None;
      sel1 := NoSelection;
      sel2 := NoSelection;
    }

    /** The position of the current invoice: the first invoice with the current id. */
    function CurrentIndex(): (k: Option<nat>)
      reads this
      ensures k.Some? ==> k.value < |invoices| && currentId == Some(invoices[k.value].id)
      ensures k.None? ==> currentId.None? || currentId.value !in Ids(invoices)
    {
      if currentId.None? then None else FindById(invoices, currentId.value)
    }

    /** `getCurrentInvoice()`. */
    function Current(): Option<Invoice>
      reads this
    {
      CurrentInvoice(invoices, currentId)
    }

    function SelectionOf(id: TableId): Selection
      reads this
    {
      if id == T1 then sel1 else sel2
    }

    /** `setSelected(tableId, rowIndex, colIndex)`. */
    method SetSelected(id: TableId, sel: Selection)
      modifies this
      ensures SelectionOf(id) == sel
      ensures id == T1 ==> sel2 == old(sel2)
      ensures id == T2 ==> sel1 == old(sel1)
      ensures invoices == old(invoices) && currentId == old(currentId)
    {
      if id == T1 {
        sel1 := sel;
      } else {
        sel2 := sel;
      }
    }

    /**
     * `loadAll`, with the parsed storage value passed in, `freshIds(i)` for
     * the id `normalizeInvoice` would invent for entry `i`, `newId` for the id
     * of a default invoice and `today` for the date: the invoices are
     * `LoadedInvoices` and the first of them becomes current.
     */
    method LoadAll(data: Option<seq<Option<RawInvoice>>>, freshIds: nat -> string, newId: string, today: string)
      modifies this
      ensures invoices == LoadedInvoices(data, freshIds, newId, today)
      ensures currentId == Some(invoices[0].id) && Current() == Some(invoices[0])
      ensures sel1 == old(sel1) && sel2 == old(sel2)
    {
      var loaded := LoadedInvoices(data, freshIds, newId, today);
      FindFirst(loaded);
      invoices := loaded;
      currentId := Some(loaded[0].id);
    }

    /** The current invoice's table `id` replaced by `t`; nothing else changes. */
    method UpdateCurrentTable(k: nat, id: TableId, t: Table)
      requires k < |invoices|
      modifies this
      ensures invoices == old(invoices)[k := WithTable(old(invoices)[k], id, t)]
      ensures currentId == old(currentId) && sel1 == old(sel1) && sel2 == old(sel2)
      ensures CurrentIndex() == old(CurrentIndex())
    {
      var s := invoices;
      invoices := s[k := WithTable(s[k], id, t)];
      if currentId.Some? {
        FindByIdAfterUpdate(s, k, WithTable(s[k], id, t), currentId.value);
      }
    }

    /**
     * `addRow`: with a current invoice, its table `id` is pinned and gets one
     * more row, numbered next, with `formatAmount(0, currency)` as its
     * amount; without one nothing changes.
     */
    method AddRow(id: TableId)
      modifies this
      ensures old(CurrentIndex()).None? ==> invoices == old(invoices)
      ensures old(CurrentIndex()).Some? ==>
        var k := old(CurrentIndex()).value;
        var inv := old(invoices)[k];
        invoices == old(invoices)[k := WithTable(inv, id, AddRowData(TableOf(inv, id), inv.currency))]
      ensures currentId == old(currentId) && CurrentIndex() == old(CurrentIndex())
      ensures sel1 == old(sel1) && sel2 == old(sel2)
    {
      var k := CurrentIndex();
      if k.None? {
        return;
      }
      var inv := invoices[k.value];
      UpdateCurrentTable(k.value, id, AddRowData(TableOf(inv, id), inv.currency));
    }

    /**
     * `delRow`: with a current invoice and a valid row selected in a table
     * of more than one row, that row is removed, the rest renumbered and the
     * selection cleared; otherwise nothing changes.
     */
    method DelRow(id: TableId)
      modifies this
      ensures old(CurrentIndex()).None? ==> invoices == old(invoices) && SelectionOf(id) == old(SelectionOf(id))
      ensures old(CurrentIndex()).Some? ==>
        var k := old(CurrentIndex()).value;
        var inv := old(invoices)[k];
        var r := DelRowData(TableOf(inv, id), old(SelectionOf(id)));
        invoices == old(invoices)[k := WithTable(inv, id, r.0)] && SelectionOf(id) == r.1
      ensures id == T1 ==> sel2 == old(sel2)
      ensures id == T2 ==> sel1 == old(sel1)
      ensures currentId == old(currentId) && CurrentIndex() == old(CurrentIndex())
    {
      var k := CurrentIndex();
      if k.None? {
        return;
      }
      var inv := invoices[k.value];
      var r := DelRowData(TableOf(inv, id), SelectionOf(id));
      UpdateCurrentTable(k.value, id, r.0);
      SetSelected(id, r.1);
    }

    /**
     * `addColPinned`: with a current invoice, an empty column is inserted in
     * its table `id` before the amount column, or right after the selected
     * column when `afterSelected` holds; the selection is kept.
     */
    method AddColPinned(id: TableId, afterSelected: bool)
      modifies this
      ensures old(CurrentIndex()).None? ==> invoices == old(invoices)
      ensures old(CurrentIndex()).Some? ==>
        var k := old(CurrentIndex()).value;
        var inv := old(invoices)[k];
        invoices == old(invoices)[k := WithTable(inv, id, AddColPinnedData(TableOf(inv, id), old(SelectionOf(id)), afterSelected))]
      ensures currentId == old(currentId) && CurrentIndex() == old(CurrentIndex())
      ensures sel1 == old(sel1) && sel2 == old(sel2)
    {
      var k := CurrentIndex();
      if k.None? {
        return;
      }
      var inv := invoices[k.value];
      UpdateCurrentTable(k.value, id, AddColPinnedData(TableOf(inv, id), SelectionOf(id), afterSelected));
    }

    /**
     * `delColPinned`: with a current invoice, the selected column of table
     * `id` is removed when the table is above its column floor and the
     * column is neither the first nor the amount column; the selection is
     * then cleared.
     */
    method DelColPinned(id: TableId)
      modifies this
      ensures old(CurrentIndex()).None? ==> invoices == old(invoices) && SelectionOf(id) == old(SelectionOf(id))
      ensures old(CurrentIndex()).Some? ==>
        var k := old(CurrentIndex()).value;
        var inv := old(invoices)[k];
        var r := DelColPinnedData(TableOf(inv, id), old(SelectionOf(id)));
        invoices == old(invoices)[k := WithTable(inv, id, r.0)] && SelectionOf(id) == r.1
      ensures id == T1 ==> sel2 == old(sel2)
      ensures id == T2 ==> sel1 == old(sel1)
      ensures currentId == old(currentId) && CurrentIndex() == old(CurrentIndex())
    {
      var k := CurrentIndex();
      if k.None? {
        return;
      }
      var inv := invoices[k.value];
      var r := DelColPinnedData(TableOf(inv, id), SelectionOf(id));
      UpdateCurrentTable(k.value, id, r.0);
      SetSelected(id, r.1);
    }

    /**
     * `createInvoice`, with the prompt's answer, the new id and today's date:
     * an accepted name puts a default invoice of that name first and makes it
     * current; a dismissed or blank answer changes nothing.
     */
    method CreateInvoice(answer: Option<string>, newId: string, today: string)
      modifies this
      ensures PromptNonEmpty(answer).None? ==> invoices == old(invoices) && currentId == old(currentId)
      ensures PromptNonEmpty(answer).Some? ==>
        var inv := CreateDefaultInvoice(PromptNonEmpty(answer).value, newId, today);
        && invoices == [inv] + old(invoices) && currentId == Some(newId)
        && Current() == Some(inv) && inv.name == PromptNonEmpty(answer).value
      ensures sel1 == old(sel1) && sel2 == old(sel2)
    {
      var name := PromptNonEmpty(answer);
      if name.None? {
        return;
      }
      var inv := CreateDefaultInvoice(name.value, newId, today);
      invoices := [inv] + invoices;
      currentId := Some(inv.id);
      FindFirst(invoices);
    }

    /**
     * `renameInvoice`, with the prompt's answer: an accepted name replaces
     * the current invoice's name; nothing else changes.
     */
    method RenameInvoice(answer: Option<string>)
      modifies this
      ensures old(CurrentIndex()).None? || PromptNonEmpty(answer).None? ==> invoices == old(invoices)
      ensures old(CurrentIndex()).Some? && PromptNonEmpty(answer).Some? ==>
        var k := old(CurrentIndex()).value;
        invoices == old(invoices)[k := old(invoices)[k].(name := PromptNonEmpty(answer).value)]
      ensures currentId == old(currentId) && CurrentIndex() == old(CurrentIndex())
      ensures sel1 == old(sel1) && sel2 == old(sel2)
    {
      var k := CurrentIndex();
      if k.None? {
        return;
      }
      var name := PromptNonEmpty(answer);
      if name.None? {
        return;
      }
      var s := invoices;
      var renamed := s[k.value].(name := name.value);
      invoices := s[k.value := renamed];
      FindByIdAfterUpdate(s, k.value, renamed, currentId.value);
    }

    /**
     * `deleteInvoice`, with the user's confirmation, and the id and date of
     * the default invoice that replaces the last one: the current invoice is
     * removed, an emptied list gets the invoice "فاتورة 1", and the first
     * invoice becomes current.
     */
    method DeleteInvoice(confirmed: bool, newId: string, today: string)
      modifies this
      ensures old(CurrentIndex()).None? || !confirmed ==> invoices == old(invoices) && currentId == old(currentId)
      ensures old(CurrentIndex()).Some? && confirmed ==>
        var rest := RemoveAt(old(invoices), old(CurrentIndex()).value);
        && (rest != [] ==> invoices == rest)
        && (rest == [] ==> invoices == [CreateDefaultInvoice(FirstInvoiceName, newId, today)])
        && currentId == Some(invoices[0].id) && Current() == Some(invoices[0])
      ensures sel1 == old(sel1) && sel2 == old(sel2)
    {
      var k := CurrentIndex();
      if k.None? || !confirmed {
        return;
      }
      invoices := RemoveAt(invoices, k.value);
      if invoices == [] {
        invoices := [CreateDefaultInvoice(FirstInvoiceName, newId, today)];
      }
      currentId := Some(invoices[0].id);
      FindFirst(invoices);
    }
  }
}
