/**
 * The invoices of one client as the invoice page keeps them: normalisation
 * of stored invoices, the default invoice, the search and date-range
 * filters of the invoice list, the print-range selection with its
 * fall-back to every invoice, and the sheet list of the client workbook.
 *
 * `Date.parse` is not modelled: the filters take it as a parameter `parse`
 * mapping a date text to a day number, or to `None` when it is not a date.
 */
module InvoicePage {
  import opened Wrappers
  import opened Text
  import opened Utils
  import opened InvoiceTables
  import Exports

  datatype Invoice = Invoice(id: string, name: string, date: string, currency: string, t1: Table, t2: Table)

  /** An invoice as found in stored data; `None` stands for a missing (or falsy) field. */
  datatype RawInvoice = RawInvoice(
    id: Option<string>, name: Option<string>, date: Option<string>, currency: Option<string>,
    t1: Option<RawTable>, t2: Option<RawTable>)

  const NoRawInvoice := RawInvoice(None, None, None, None, None, None)

  /** The name of an invoice stored without one. */
  const UnnamedInvoice: string := "فاتورة"

  /** The name of the invoice a client starts with. */
  const FirstInvoiceName: string := "فاتورة 1"

  /** The column floor of both invoice tables. */
  const InvoiceMinCols: real := 6.0

  /** `v || d` on a text field: an empty or missing text falls back to `d`. */
  function OrElse(v: Option<string>, d: string): string {
    if v.Some? && v.value != "" then v.value else d
  }

  // ---------------------------------------------------------------------------
  // Normalisation and the default invoice
  // ---------------------------------------------------------------------------

  /** A table as `normalizeInvoice` leaves it: amount column last, at least one row, floor at least 6. */
  predicate IsPinnedTable(t: Table) {
    |t.headers| >= 1 && IsAmountHeader(t.headers[|t.headers| - 1]) && |t.rows| >= 1 && t.minCols >= InvoiceMinCols
  }

  function NormalizedInvoiceTable(t: Option<RawTable>): (r: Table)
    ensures IsPinnedTable(r)
  {
    var n := NormalizedTable(t, InvoiceMinCols, DefaultHeaders);
    PinEndsWithAmount(n);
    PinAmountLast(n)
  }

  /**
   * `normalizeInvoice(inv)`, with `freshId` for the `uid()` it calls and
   * `today` for `nowIsoDate()`: every missing text field takes its default,
   * a present one is kept, and both tables are normalised with the default
   * headers and then pinned.
   */
  function NormalizeInvoice(raw: Option<RawInvoice>, freshId: string, today: string): (inv: Invoice)
    ensures var r := raw.GetOr(NoRawInvoice);
      && (r.id.Some? && r.id.value != "" ==> inv.id == r.id.value)
      && (r.id.None? || r.id.value == "" ==> inv.id == freshId)
      && (r.name.Some? && r.name.value != "" ==> inv.name == r.name.value)
      && (r.name.None? || r.name.value == "" ==> inv.name == UnnamedInvoice)
      && (r.date.Some? && r.date.value != "" ==> inv.date == r.date.value)
      && (r.date.None? || r.date.value == "" ==> inv.date == today)
      && (r.currency.Some? && r.currency.value != "" ==> inv.currency == r.currency.value)
      && (r.currency.None? || r.currency.value == "" ==> inv.currency == "$")
    ensures IsPinnedTable(inv.t1) && IsPinnedTable(inv.t2)
  {
    var r := raw.GetOr(NoRawInvoice);
    Invoice(OrElse(r.id, freshId), OrElse(r.name, UnnamedInvoice), OrElse(r.date, today), OrElse(r.currency, "$"),
            NormalizedInvoiceTable(r.t1), NormalizedInvoiceTable(r.t2))
  }

  /** A table in the form the page stores: amount last and only there, numbered rows of full length, floor at least 6. */
  predicate IsStoredTable(t: Table) {
    && OnlyLastAmount(t.headers) && |t.rows| >= 1 && IsNumbered(t.rows)
    && (forall i :: 0 <= i < |t.rows| ==> |t.rows[i]| >= |t.headers|)
    && t.minCols >= InvoiceMinCols
  }

  predicate IsStoredInvoice(inv: Invoice) {
    inv.id != "" && inv.name != "" && inv.date != "" && inv.currency != ""
    && IsStoredTable(inv.t1) && IsStoredTable(inv.t2)
  }

  /** A table written out as stored data. */
  function RawOf(t: Table): RawTable {
    RawTable(Some(t.headers), Some(seq(|t.rows|, i requires 0 <= i < |t.rows| => Some(t.rows[i]))), Some(t.minCols))
  }

  /** An invoice written out as stored data. */
  function ToRaw(inv: Invoice): RawInvoice {
    RawInvoice(Some(inv.id), Some(inv.name), Some(inv.date), Some(inv.currency), Some(RawOf(inv.t1)), Some(RawOf(inv.t2)))
  }

  /** Normalising a stored table gives it back. */
  lemma NormalizeStoredTable(t: Table)
    requires IsStoredTable(t)
    ensures NormalizedInvoiceTable(Some(RawOf(t))) == t
  {
    var n := NormalizedTable(Some(RawOf(t)), InvoiceMinCols, DefaultHeaders);
    assert n.headers == t.headers;
    assert |n.rows| == |t.rows|;
    forall i | 0 <= i < |t.rows| ensures n.rows[i] == t.rows[i] {
      var row := t.rows[i];
      assert ChosenRows(Some(RawOf(t)), |t.headers|)[i] == Some(row);
      assert n.rows[i][0] == row[0];
    }
    assert n == t;
    PinnedIsFixed(t);
  }

  /** Saving an invoice and loading it back gives the same invoice, whatever id and date the load could invent. */
  lemma NormalizeStoredInvoice(inv: Invoice, freshId: string, today: string)
    requires IsStoredInvoice(inv)
    ensures NormalizeInvoice(Some(ToRaw(inv)), freshId, today) == inv
  {
    NormalizeStoredTable(inv.t1);
    NormalizeStoredTable(inv.t2);
  }

  /** The default headers hold the amount label last and only there. */
  lemma DefaultHeadersPinned()
    ensures OnlyLastAmount(DefaultHeaders)
  {
    AmountHeaderIsAmount();
    forall j | 0 <= j < |DefaultHeaders| - 1 ensures !IsAmountHeader(DefaultHeaders[j]) {
      var h := DefaultHeaders[j];
      TrimUnchanged(h);
    }
  }

  /**
   * `createDefaultInvoice(name)` with the id and the date passed in: an
   * invoice in dollars whose two tables have the default headers and the one
   * row `1, "", "", "", "", 0$`.
   */
  function CreateDefaultInvoice(name: string, id: string, today: string): (inv: Invoice)
    ensures inv.id == id && inv.currency == "$"
    ensures name != "" ==> inv.name == name
    ensures name == "" ==> inv.name == UnnamedInvoice
    ensures today != "" ==> inv.date == today
    ensures inv.t1 == inv.t2 == DefaultTable
  {
    DefaultHeadersPinned();
    var n := NormalizedTable(None, InvoiceMinCols, DefaultHeaders);
    assert n.headers == DefaultHeaders && n.minCols == InvoiceMinCols;
    PinnedIsFixed(n);
    var raw := RawInvoice(Some(id), Some(name), Some(today), Some("$"), None, None);
    var inv := NormalizeInvoice(Some(raw), id, today);
    assert inv.t1 == NormalizedInvoiceTable(raw.t1) == n;
    assert inv.t2 == NormalizedInvoiceTable(raw.t2) == n;
    assert inv.currency == "$";
    var rows := [["1", "", "", "", "", "0" + inv.currency]];
    assert "0" + inv.currency == "0$";
    assert inv.t1.(rows := rows) == DefaultTable;
    inv.(t1 := inv.t1.(rows := rows), t2 := inv.t2.(rows := rows))
  }

  /** The table of a new invoice: the default headers and the one row `1, "", "", "", "", 0$`. */
  const DefaultTable: Table := Table(DefaultHeaders, [["1", "", "", "", "", "0$"]], InvoiceMinCols)

  /** A new invoice is in the stored form and its tables total nothing. */
  lemma DefaultInvoiceIsStored(name: string, id: string, today: string)
    requires name != "" && id != "" && today != ""
    ensures var inv := CreateDefaultInvoice(name, id, today);
      IsStoredInvoice(inv) && TableSum(inv.t1) == 0.0 && TableSum(inv.t2) == 0.0
  {
    DefaultTableStored();
  }

  /** The default table is in the stored form and totals nothing. */
  lemma DefaultTableStored()
    ensures IsStoredTable(DefaultTable) && TableSum(DefaultTable) == 0.0
  {
    DefaultTableIsStored();
    DefaultTableTotalsZero();
  }

  lemma DefaultTableIsStored()
    ensures IsStoredTable(DefaultTable)
  {
    DefaultHeadersPinned();
    assert DefaultTable.rows[0][0] == "1" == NatText(1);
  }

  lemma DefaultTableTotalsZero()
    ensures TableSum(DefaultTable) == 0.0
  {
    var t := DefaultTable;
    DefaultHeadersPinned();
    PinnedIsFixed(t);
    var rows := t.rows;
    assert IsPlainLabel("$");
    ParseFormattedAmount(0, "$");
    assert IntText(0) + "$" == "0$";
    assert rows[..0] == [];
    assert AmountSum(rows, 5) == AmountSum(rows[..0], 5) + ParseAmount(CellAt(rows[0], 5));
  }

  // ---------------------------------------------------------------------------
  // Search and date filters
  // ---------------------------------------------------------------------------

  /** Every run of white characters replaced by one space; the other characters all kept, in order. */
  function CollapseWhite(s: string): (r: string)
    ensures |r| <= |s|
    ensures NonWhite(r) == NonWhite(s)
    ensures s != [] ==> r != [] && r[0] == (if IsWhite(s[0]) then ' ' else s[0])
    ensures forall i :: 0 <= i < |r| && IsWhite(r[i]) ==> r[i] == ' '
    ensures forall i :: 0 <= i < |r| - 1 ==> !IsWhite(r[i]) || !IsWhite(r[i + 1])
    decreases |s|
  {
    if s == [] then []
    else if IsWhite(s[0]) then
      var t := CollapseWhite(TrimStart(s[1..]));
      var r := " " + t;
      assert forall i :: 1 <= i < |r| ==> r[i] == t[i - 1];
      TrimKeepsNonWhite(s[1..]);
      assert r[1..] == t;
      r
    else
      var t := CollapseWhite(s[1..]);
      var r := [s[0]] + t;
      assert forall i :: 1 <= i < |r| ==> r[i] == t[i - 1];
      assert r[1..] == t;
      r
  }

  /** Collapsing keeps where white stood: before which kept characters, and at the end. */
  lemma {:induction false} CollapseWhiteGaps(s: string)
    ensures Gaps(CollapseWhite(s)) == Gaps(s)
    decreases |s|
  {
    if s != [] {
      var r := CollapseWhite(s);
      if IsWhite(s[0]) {
        var x := TrimStart(s[1..]);
        var t := CollapseWhite(x);
        assert r == " " + t && r[1..] == t;
        CollapseWhiteGaps(x);
        TrimStartGaps(s[1..]);
        assert Gaps(r) == [true] + Gaps(t)[1..];
      } else {
        var t := CollapseWhite(s[1..]);
        assert r == [s[0]] + t && r[1..] == t;
        CollapseWhiteGaps(s[1..]);
        assert Gaps(r) == [false] + Gaps(t);
      }
    }
  }

  /** Collapsing writes only characters of the text and spaces: a property they all have survives it. */
  lemma {:induction false} CollapseKeeps(s: string, p: char -> bool)
    requires p(' ') && forall i :: 0 <= i < |s| ==> p(s[i])
    ensures forall i :: 0 <= i < |CollapseWhite(s)| ==> p(CollapseWhite(s)[i])
    decreases |s|
  {
    if s != [] {
      if IsWhite(s[0]) {
        var rest := TrimStart(s[1..]);
        TrimStartShape(s[1..]);
        assert forall i :: 0 <= i < |rest| ==> rest[i] == s[|s| - |rest| + i];
        CollapseKeeps(rest, p);
      } else {
        assert forall i :: 0 <= i < |s| - 1 ==> s[1..][i] == s[i + 1];
        CollapseKeeps(s[1..], p);
      }
    }
  }

  /** Text as the search compares it: lower case, no white but single inner spaces. */
  predicate IsSearchForm(s: string) {
    && (s == [] || (!IsWhite(s[0]) && !IsWhite(s[|s| - 1])))
    && (forall i :: 0 <= i < |s| ==> LowerChar(s[i]) == s[i])
    && (forall i :: 0 <= i < |s| && IsWhite(s[i]) ==> s[i] == ' ')
    && (forall i :: 0 <= i < |s| - 1 ==> !IsWhite(s[i]) || !IsWhite(s[i + 1]))
  }

  /** `normalizeForSearch`: lower-cased, white runs collapsed to one space, trimmed. */
  function NormalizeForSearch(s: string): (r: string)
    ensures IsSearchForm(r)
    ensures NonWhite(r) == NonWhite(Lower(s))
    ensures InnerGaps(r) == InnerGaps(Lower(s))
  {
    var c := CollapseWhite(Lower(s));
    CollapseOfLower(s, c);
    CollapseWhiteGaps(Lower(s));
    TrimInnerGaps(c);
    SearchFormOfTrim(c);
    TrimKeepsNonWhite(c);
    Trim(c)
  }

  /** Collapsing white space in lower-case text leaves it lower case. */
  lemma CollapseOfLower(s: string, c: string)
    requires c == CollapseWhite(Lower(s))
    ensures forall i :: 0 <= i < |c| ==> LowerChar(c[i]) == c[i]
  {
    var low, p := Lower(s), (c: char) => LowerChar(c) == c;
    assert forall i :: 0 <= i < |low| ==> p(low[i]);
    CollapseKeeps(low, p);
  }

  /** Trimming lower-case text with single spaces gives the search form. */
  lemma SearchFormOfTrim(c: string)
    requires forall i :: 0 <= i < |c| ==> LowerChar(c[i]) == c[i]
    requires forall i :: 0 <= i < |c| && IsWhite(c[i]) ==> c[i] == ' '
    requires forall i :: 0 <= i < |c| - 1 ==> !IsWhite(c[i]) || !IsWhite(c[i + 1])
    ensures IsSearchForm(Trim(c))
  {
    var r := Trim(c);
    TrimShape(c);
    TrimEnds(c);
    var k := TrimOffset(c);
    assert forall i :: 0 <= i < |r| ==> r[i] == c[k + i];
  }

  lemma {:induction false} CollapseSearchForm(s: string)
    requires forall i :: 0 <= i < |s| && IsWhite(s[i]) ==> s[i] == ' '
    requires forall i :: 0 <= i < |s| - 1 ==> !IsWhite(s[i]) || !IsWhite(s[i + 1])
    ensures CollapseWhite(s) == s
    decreases |s|
  {
    if s != [] {
      if IsWhite(s[0]) {
        assert |s| == 1 || !IsWhite(s[1]);
        assert TrimStart(s[1..]) == s[1..];
      }
      CollapseSearchForm(s[1..]);
    }
  }

  /** Normalising search text twice is normalising it once. */
  lemma NormalizeForSearchIdempotent(s: string)
    ensures NormalizeForSearch(NormalizeForSearch(s)) == NormalizeForSearch(s)
  {
    var r := NormalizeForSearch(s);
    assert Lower(r) == r;
    CollapseSearchForm(r);
    if r != [] {
      TrimUnchanged(r);
    }
  }

  /** `toDateNum`: an empty text is no date; otherwise whatever `Date.parse` makes of it. */
  function ToDateNum(iso: string, parse: string -> Option<int>): (d: Option<int>)
    ensures iso == "" ==> d.None?
    ensures iso != "" ==> d == parse(iso)
  {
    if iso == "" then None else parse(iso)
  }

  /**
   * `invoiceInRange`: an invoice whose date does not parse is out; otherwise
   * it is in when it lies between the bounds, both inclusive, a bound that is
   * empty or does not parse being open.
   */
  function InvoiceInRange(date: string, fromIso: string, toIso: string, parse: string -> Option<int>): (r: bool)
    ensures r ==> date != "" && parse(date).Some?
    ensures fromIso == "" && toIso == "" ==> (r <==> date != "" && parse(date).Some?)
  {
    var d := ToDateNum(date, parse);
    if d.None? then false
    else
      var f := ToDateNum(fromIso, parse);
      var t := ToDateNum(toIso, parse);
      if f.Some? && d.value < f.value then false
      else if t.Some? && d.value > t.value then false
      else true
  }

  /** The range test, stated bound by bound. */
  lemma InvoiceInRangeMeaning(date: string, fromIso: string, toIso: string, parse: string -> Option<int>)
    ensures var d, f, t := ToDateNum(date, parse), ToDateNum(fromIso, parse), ToDateNum(toIso, parse);
      InvoiceInRange(date, fromIso, toIso, parse) <==>
        d.Some? && (f.None? || f.value <= d.value) && (t.None? || d.value <= t.value)
  {
  }

  /** Widening the range never drops an invoice. */
  lemma InvoiceInRangeWidens(date: string, f1: string, t1: string, f2: string, t2: string, parse: string -> Option<int>)
    requires InvoiceInRange(date, f1, t1, parse)
    requires ToDateNum(f2, parse).None? || (ToDateNum(f1, parse).Some? && ToDateNum(f2, parse).value <= ToDateNum(f1, parse).value)
    requires ToDateNum(t2, parse).None? || (ToDateNum(t1, parse).Some? && ToDateNum(t1, parse).value <= ToDateNum(t2, parse).value)
    ensures InvoiceInRange(date, f2, t2, parse)
  {
  }

  /** The list filter: a search term and two date bounds, as typed. */
  datatype Filter = Filter(term: string, from: string, to: string)

  /** `[a, b, c].filter(Boolean)` on texts: the non-empty ones, in order. */
  function NonEmpty(parts: seq<string>): (r: seq<string>)
    ensures forall i :: 0 <= i < |r| ==> r[i] != ""
    ensures forall p :: p in parts && p != "" ==> p in r
    ensures forall p :: p in r ==> p in parts
  {
    if parts == [] then []
    else (if parts[0] != "" then [parts[0]] else []) + NonEmpty(parts[1..])
  }

  /** The text the search looks in: name, date and currency, the empty ones left out, joined by spaces. */
  function SearchText(inv: Invoice): string {
    NormalizeForSearch(Join(NonEmpty([inv.name, inv.date, inv.currency]), " "))
  }

  /**
   * `invoiceMatches`: the normalised term is empty or occurs in the
   * normalised search text, and the invoice is in the date range when a bound
   * is given.
   */
  predicate InvoiceMatches(inv: Invoice, f: Filter, parse: string -> Option<int>) {
    var term := NormalizeForSearch(f.term);
    (term == "" || Contains(SearchText(inv), term))
    && ((f.from == "" && f.to == "") || InvoiceInRange(inv.date, f.from, f.to, parse))
  }

  /** An empty filter lets every invoice through. */
  lemma EmptyFilterMatchesAll(inv: Invoice, parse: string -> Option<int>)
    ensures InvoiceMatches(inv, Filter("", "", ""), parse)
  {
    assert NormalizeForSearch("") == "";
  }

  /** `Array.prototype.filter`: the elements with the property, in their order. */
  function Keep(s: seq<Invoice>, p: Invoice -> bool): (r: seq<Invoice>)
    ensures |r| <= |s|
    ensures forall x :: x in r <==> x in s && p(x)
  {
    if s == [] then []
    else Keep(s[..|s| - 1], p) + (if p(s[|s| - 1]) then [s[|s| - 1]] else [])
  }

  /** The ids of a list of invoices. */
  function Ids(s: seq<Invoice>): (r: set<string>)
    ensures forall i :: 0 <= i < |s| ==> s[i].id in r
    ensures forall id :: id in r ==> exists i :: 0 <= i < |s| && s[i].id == id
  {
    if s == [] then {}
    else
      var front := s[..|s| - 1];
      assert forall i :: 0 <= i < |front| ==> front[i] == s[i];
      Ids(front) + {s[|s| - 1].id}
  }

  /** The ids of a list with one invoice put in front. */
  lemma IdsOfPrepend(x: Invoice, s: seq<Invoice>)
    ensures Ids([x] + s) == Ids(s) + {x.id}
  {
    var l := [x] + s;
    assert l[0] == x;
    forall id | id in Ids(l) ensures id in Ids(s) + {x.id} {
      var i :| 0 <= i < |l| && l[i].id == id;
      if i > 0 { assert l[i] == s[i - 1]; }
    }
    forall id | id in Ids(s) ensures id in Ids(l) {
      var i :| 0 <= i < |s| && s[i].id == id;
      assert l[i + 1] == s[i];
    }
  }

  predicate DistinctIds(s: seq<Invoice>) {
    forall i, j :: 0 <= i < j < |s| ==> s[i].id != s[j].id
  }

  /** The index of the first invoice with the id, if any. */
  function FindById(s: seq<Invoice>, id: string): (k: Option<nat>)
    ensures k.Some? ==> k.value < |s| && s[k.value].id == id
    ensures k.Some? ==> forall j :: 0 <= j < k.value ==> s[j].id != id
    ensures k.None? ==> forall j :: 0 <= j < |s| ==> s[j].id != id
  {
    if s == [] then None
    else if s[0].id == id then Some(0)
    else
      var k := FindById(s[1..], id);
      assert forall j :: 1 <= j < |s| ==> s[j] == s[1..][j - 1];
      if k.None? then None else Some(k.value + 1)
  }

  /** The first invoice of each id, in order: what the `seen`-set filter keeps. */
  function Deduped(s: seq<Invoice>): (r: seq<Invoice>)
    ensures DistinctIds(r) && Ids(r) == Ids(s)
    ensures forall x :: x in r ==> x in s
  {
    if s == [] then []
    else
      var d := Deduped(s[..|s| - 1]);
      var x := s[|s| - 1];
      assert forall y :: y in s[..|s| - 1] ==> y in s;
      if x.id in Ids(d) then d
      else
        AppendNewId(d, x);
        d + [x]
  }

  /** An invoice with a new id appended keeps the ids distinct and adds its id. */
  lemma AppendNewId(d: seq<Invoice>, x: Invoice)
    requires DistinctIds(d) && x.id !in Ids(d)
    ensures DistinctIds(d + [x]) && Ids(d + [x]) == Ids(d) + {x.id}
  {
    var r := d + [x];
    assert r[..|r| - 1] == d;
    assert forall i :: 0 <= i < |d| ==> r[i] == d[i];
  }

  /** The dedupe loop of `getFilteredInvoices`, with its `seen` set. */
  method DedupeById(list: seq<Invoice>) returns (r: seq<Invoice>)
    ensures r == Deduped(list)
  {
    var seen: set<string> := {};
    r := [];
    var i := 0;
    while i < |list|
      invariant 0 <= i <= |list|
      invariant r == Deduped(list[..i]) && seen == Ids(r)
    {
      var x := list[i];
      assert list[..i + 1][..i] == list[..i];
      if x.id !in seen {
        AppendNewId(r, x);
        seen := seen + {x.id};
        r := r + [x];
      }
      i := i + 1;
    }
    assert list[..i] == list;
  }

  /** `getCurrentInvoice`: the first invoice with the current id. */
  function CurrentInvoice(invoices: seq<Invoice>, currentId: Option<string>): (cur: Option<Invoice>)
    ensures cur.Some? ==> cur.value in invoices && currentId == Some(cur.value.id)
    ensures currentId.Some? && currentId.value in Ids(invoices) ==> cur.Some?
  {
    if currentId.None? then None
    else
      match FindById(invoices, currentId.value)
      case None => None
      case Some(k) => Some(invoices[k])
  }

  /**
   * The list `getFilteredInvoices` returns: the matching invoices, the
   * current one put in front when no matching invoice has its id, then one
   * invoice per id.
   */
  function FilteredInvoices(invoices: seq<Invoice>, currentId: Option<string>, f: Filter, parse: string -> Option<int>): seq<Invoice> {
    var list := Keep(invoices, (x: Invoice) => InvoiceMatches(x, f, parse));
    var cur := CurrentInvoice(invoices, currentId);
    var withCur := if cur.Some? && cur.value.id !in Ids(list) then [cur.value] + list else list;
    Deduped(withCur)
  }

  method GetFilteredInvoices(invoices: seq<Invoice>, currentId: Option<string>, f: Filter, parse: string -> Option<int>)
    returns (r: seq<Invoice>)
    ensures r == FilteredInvoices(invoices, currentId, f, parse)
  {
    var list := Keep(invoices, (x: Invoice) => InvoiceMatches(x, f, parse));
    var cur := CurrentInvoice(invoices, currentId);
    if cur.Some? && cur.value.id !in Ids(list) {
      list := [cur.value] + list;
    }
    r := DedupeById(list);
  }

  /** Every matching invoice's id is among the ids of the matching list. */
  lemma MatchingIdsKept(invoices: seq<Invoice>, f: Filter, parse: string -> Option<int>, x: Invoice)
    requires x in invoices && InvoiceMatches(x, f, parse)
    ensures x.id in Ids(Keep(invoices, (y: Invoice) => InvoiceMatches(y, f, parse)))
  {
    var list := Keep(invoices, (y: Invoice) => InvoiceMatches(y, f, parse));
    assert x in list;
    var i :| 0 <= i < |list| && list[i] == x;
  }

  /**
   * What the invoice list shows: invoices of the client only, each id once,
   * every matching invoice's id, and the current invoice's id whether it
   * matches or not.
   */
  lemma FilteredInvoicesShow(invoices: seq<Invoice>, currentId: Option<string>, f: Filter, parse: string -> Option<int>)
    ensures var r := FilteredInvoices(invoices, currentId, f, parse);
      && DistinctIds(r)
      && (forall x :: x in r ==> x in invoices)
      && (forall x :: x in invoices && InvoiceMatches(x, f, parse) ==> x.id in Ids(r))
      && (currentId.Some? && currentId.value in Ids(invoices) ==> currentId.value in Ids(r))
  {
    var list := Keep(invoices, (y: Invoice) => InvoiceMatches(y, f, parse));
    var cur := CurrentInvoice(invoices, currentId);
    var withCur := if cur.Some? && cur.value.id !in Ids(list) then [cur.value] + list else list;
    if withCur != list {
      IdsOfPrepend(cur.value, list);
    }
    forall x | x in invoices && InvoiceMatches(x, f, parse) ensures x.id in Ids(withCur) {
      MatchingIdsKept(invoices, f, parse, x);
    }
    assert forall x :: x in withCur ==> x in invoices;
  }

  /**
   * The `btnPdfRange` selection: the invoices in the range, or every invoice
   * when none is.
   */
  function PdfRangeSelection(invoices: seq<Invoice>, fromIso: string, toIso: string, parse: string -> Option<int>): (r: seq<Invoice>)
    ensures invoices != [] ==> r != []
    ensures forall x :: x in r ==> x in invoices
    ensures (forall x :: x in invoices ==> !InvoiceInRange(x.date, fromIso, toIso, parse)) ==> r == invoices
    ensures (exists x :: x in invoices && InvoiceInRange(x.date, fromIso, toIso, parse)) ==>
              r == Keep(invoices, InRangeOf(fromIso, toIso, parse))
  {
    var inRange := Keep(invoices, InRangeOf(fromIso, toIso, parse));
    if inRange == [] then invoices
    else
      assert inRange[0] in invoices && InvoiceInRange(inRange[0].date, fromIso, toIso, parse);
      inRange
  }

  /** The range test as a property of invoices, the form `filter` takes it in. */
  function InRangeOf(fromIso: string, toIso: string, parse: string -> Option<int>): Invoice -> bool {
    (x: Invoice) => InvoiceInRange(x.date, fromIso, toIso, parse)
  }

  /** When some invoice is in the range, exactly the invoices in the range are printed. */
  lemma PdfRangeSelectsInRange(invoices: seq<Invoice>, fromIso: string, toIso: string, parse: string -> Option<int>)
    requires exists x :: x in invoices && InvoiceInRange(x.date, fromIso, toIso, parse)
    ensures forall x :: x in PdfRangeSelection(invoices, fromIso, toIso, parse) <==>
              x in invoices && InvoiceInRange(x.date, fromIso, toIso, parse)
  {
    var p := InRangeOf(fromIso, toIso, parse);
    var x :| x in invoices && InvoiceInRange(x.date, fromIso, toIso, parse);
    assert p(x) && x in Keep(invoices, p);
  }

  /**
   * With both bounds left empty the range still drops every invoice whose
   * date does not parse, as long as one invoice has a date that does.
   */
  lemma PdfRangeDropsUndated(invoices: seq<Invoice>, parse: string -> Option<int>, undated: Invoice)
    requires undated in invoices && ToDateNum(undated.date, parse).None?
    requires exists x :: x in invoices && ToDateNum(x.date, parse).Some?
    ensures undated !in PdfRangeSelection(invoices, "", "", parse)
  {
    var x :| x in invoices && ToDateNum(x.date, parse).Some?;
    PdfRangeSelectsInRange(invoices, "", "", parse);
  }

  // ---------------------------------------------------------------------------
  // The client workbook
  // ---------------------------------------------------------------------------

  /**
   * `sanitizeSheetName` of the invoice page: the name or "Sheet", forbidden
   * characters replaced by spaces, trimmed, then cut to 31 characters, or
   * "Sheet" when nothing is left.
   */
  function SanitizeSheetName(name: string): (r: string)
    ensures 1 <= |r| <= 31
    ensures forall i :: 0 <= i < |r| ==> !Exports.IsSheetForbidden(r[i])
  {
    var replaced := Exports.ReplaceForbidden(if name == "" then "Sheet" else name);
    TrimKeeps(replaced, (c: char) => !Exports.IsSheetForbidden(c));
    var cleaned := Trim(replaced);
    if |cleaned| > 31 then cleaned[..31] else if cleaned == "" then "Sheet" else cleaned
  }

  /**
   * What the sheet title holds: "Sheet" when the name has nothing but white
   * and forbidden characters; otherwise a run of the name's own characters,
   * each forbidden one turned into a space, that keeps every non-white
   * character unless the title was cut at 31.
   */
  lemma SanitizeSheetNameContent(name: string)
    ensures var src := if name == "" then "Sheet" else name;
      var replaced := Exports.ReplaceForbidden(src);
      var k, r := TrimOffset(replaced), SanitizeSheetName(name);
      && (NonWhite(replaced) == [] ==> r == "Sheet")
      && (NonWhite(replaced) != [] ==>
            && k + |r| <= |src|
            && (forall i :: 0 <= i < |r| ==> r[i] == if Exports.IsSheetForbidden(src[k + i]) then ' ' else src[k + i])
            && (|r| < 31 ==> NonWhite(r) == NonWhite(replaced)))
  {
    var src := if name == "" then "Sheet" else name;
    var replaced := Exports.ReplaceForbidden(src);
    var cleaned, r := Trim(replaced), SanitizeSheetName(name);
    assert r == if |cleaned| > 31 then cleaned[..31] else if cleaned == "" then "Sheet" else cleaned;
    SheetTitleContent(src, replaced, cleaned, r);
  }

  /** `SanitizeSheetNameContent` for the replaced and trimmed text, given as parameters. */
  lemma SheetTitleContent(src: string, replaced: string, cleaned: string, r: string)
    requires replaced == Exports.ReplaceForbidden(src) && cleaned == Trim(replaced)
    requires r == if |cleaned| > 31 then cleaned[..31] else if cleaned == "" then "Sheet" else cleaned
    ensures var k := TrimOffset(replaced);
      && (NonWhite(replaced) == [] ==> r == "Sheet")
      && (NonWhite(replaced) != [] ==>
            && k + |r| <= |src|
            && (forall i :: 0 <= i < |r| ==> r[i] == if Exports.IsSheetForbidden(src[k + i]) then ' ' else src[k + i])
            && (|r| < 31 ==> NonWhite(r) == NonWhite(replaced)))
  {
    var k := TrimOffset(replaced);
    TrimShape(replaced);
    TrimKeepsNonWhite(replaced);
    if NonWhite(replaced) != [] {
      assert cleaned != [];
      assert r == cleaned[..|r|];
      PrefixOfMiddle(replaced, k, cleaned, r);
    }
  }

  /** A prefix `r` of the part of `s` that starts at `k` holds the characters of `s` from `k` on. */
  lemma PrefixOfMiddle(s: string, k: nat, m: string, r: string)
    requires k + |m| <= |s| && m == s[k..k + |m|] && |r| <= |m| && r == m[..|r|]
    ensures forall i :: 0 <= i < |r| ==> r[i] == s[k + i]
  {
  }

  /** A name that is already a clean sheet title is kept; a blank one becomes "Sheet". */
  lemma SanitizeSheetNameKeeps(name: string)
    ensures name != "" && |name| <= 31 && !IsWhite(name[0]) && !IsWhite(name[|name| - 1])
            && (forall i :: 0 <= i < |name| ==> !Exports.IsSheetForbidden(name[i]))
            ==> SanitizeSheetName(name) == name
    ensures (forall i :: 0 <= i < |name| ==> IsWhite(name[i])) ==> SanitizeSheetName(name) == "Sheet"
  {
    if name != "" && |name| <= 31 && !IsWhite(name[0]) && !IsWhite(name[|name| - 1])
       && (forall i :: 0 <= i < |name| ==> !Exports.IsSheetForbidden(name[i])) {
      assert Exports.ReplaceForbidden(name) == name;
      TrimUnchanged(name);
    }
    if name != "" && forall i :: 0 <= i < |name| ==> IsWhite(name[i]) {
      var replaced := Exports.ReplaceForbidden(name);
      assert forall i :: 0 <= i < |replaced| ==> IsWhite(replaced[i]);
      TrimAllWhite(replaced);
    }
  }

  /** `invoiceDataToMatrix`: the pinned header row followed by the pinned rows. */
  function InvoiceDataToMatrix(t: Table): (m: seq<seq<string>>)
    ensures var p := PinAmountLast(t);
      |m| == |t.rows| + 1 && m[0] == p.headers && m[1..] == p.rows
    ensures IsAmountHeader(m[0][|m[0]| - 1])
  {
    var p := PinAmountLast(t);
    [p.headers] + p.rows
  }

  /** A cell of the client workbook: text, or a number. */
  datatype SheetCell = TextCell(s: string) | NumberCell(x: real)

  datatype Sheet = Sheet(name: string, data: seq<seq<SheetCell>>)

  const SummarySheetName: string := "ملخص"

  const SummaryHeader: seq<SheetCell> :=
    [TextCell("الفاتورة"), TextCell("التاريخ"), TextCell("العملة"),
     TextCell("إجمالي العمليات"), TextCell("مجموع القبوضات"), TextCell("الرصيد النهائي")]

  /** The currency an export writes: the invoice's, or "$". */
  function ExportCurrency(inv: Invoice): string {
    if inv.currency == "" then "$" else inv.currency
  }

  /** One summary row: name, date, currency, then the two table totals and the balance as numbers. */
  function SummaryRow(inv: Invoice, s1: real, s2: real): seq<SheetCell> {
    [TextCell(inv.name), TextCell(inv.date), TextCell(ExportCurrency(inv)), NumberCell(s1), NumberCell(s2), NumberCell(s1 - s2)]
  }

  function TextRows(m: seq<seq<string>>): (r: seq<seq<SheetCell>>)
    ensures |r| == |m| && forall i :: 0 <= i < |m| ==> |r[i]| == |m[i]|
    ensures forall i, j :: 0 <= i < |m| && 0 <= j < |m[i]| ==> r[i][j] == TextCell(m[i][j])
  {
    seq(|m|, i requires 0 <= i < |m| => seq(|m[i]|, j requires 0 <= j < |m[i]| => TextCell(m[i][j])))
  }

  /** The three sheets of one invoice: its two tables and its final account, the amounts formatted. */
  function InvoiceSheets(inv: Invoice, s1: real, s2: real): seq<Sheet> {
    var cur := ExportCurrency(inv);
    [Sheet(inv.name + "-عمليات", TextRows(InvoiceDataToMatrix(inv.t1))),
     Sheet(inv.name + "-قبوضات", TextRows(InvoiceDataToMatrix(inv.t2))),
     Sheet(inv.name + "-نهائي",
           [[TextCell("إجمالي العمليات"), TextCell(FormatAmount(s1, cur))],
            [TextCell("مجموع القبوضات"), TextCell(FormatAmount(s2, cur))],
            [TextCell("الرصيد النهائي"), TextCell(FormatAmount(s1 - s2, cur))]])]
  }

  /** The three sheets of one invoice, with its two table totals. */
  function SheetsOf(inv: Invoice): (r: seq<Sheet>)
    ensures |r| == 3
  {
    InvoiceSheets(inv, TableSum(inv.t1), TableSum(inv.t2))
  }

  /** The summary row of one invoice, with its two table totals. */
  function SummaryRowOf(inv: Invoice): seq<SheetCell> {
    SummaryRow(inv, TableSum(inv.t1), TableSum(inv.t2))
  }

  /** The summary rows, one per invoice, in order. */
  function SummaryRows(invs: seq<Invoice>): (r: seq<seq<SheetCell>>)
    ensures |r| == |invs| && forall i :: 0 <= i < |invs| ==> r[i] == SummaryRowOf(invs[i])
  {
    seq(|invs|, i requires 0 <= i < |invs| => SummaryRowOf(invs[i]))
  }

  /** Groups written one after another. */
  function Concat<T>(groups: seq<seq<T>>): seq<T> {
    if groups == [] then [] else Concat(groups[..|groups| - 1]) + groups[|groups| - 1]
  }

  /** With groups of three, group `i` sits at positions `3i` to `3i + 2`. */
  lemma {:induction false} ConcatAt<T>(groups: seq<seq<T>>, i: nat)
    requires forall j :: 0 <= j < |groups| ==> |groups[j]| == 3
    ensures |Concat(groups)| == 3 * |groups|
    ensures i < |groups| ==> Concat(groups)[3 * i..3 * i + 3] == groups[i]
  {
    if groups != [] {
      var front := groups[..|groups| - 1];
      ConcatAt(front, i);
      if i < |front| {
        assert front[i] == groups[i];
      }
    }
  }

  /** Writing one more group appends it. */
  lemma ConcatStep<T>(groups: seq<seq<T>>, i: nat)
    requires i < |groups|
    ensures Concat(groups[..i + 1]) == Concat(groups[..i]) + groups[i]
  {
    assert groups[..i + 1][..i] == groups[..i];
  }

  /** A prefix one longer ends with the next element. */
  lemma TakeStep<T>(s: seq<T>, i: nat)
    requires i < |s|
    ensures s[..i + 1] == s[..i] + [s[i]]
  {
  }

  /** A head row before rows, then one more row. */
  lemma HeadedAppend<T>(header: T, rows: seq<T>, row: T)
    ensures ([header] + rows) + [row] == [header] + (rows + [row])
  {
  }

  lemma HeadedAt<T>(header: T, rows: seq<T>, i: nat)
    requires i < |rows|
    ensures |[header] + rows| == |rows| + 1 && ([header] + rows)[0] == header && ([header] + rows)[i + 1] == rows[i]
  {
  }

  /** Behind a first element, group `i` of three sits at positions `3i + 1` to `3i + 3`. */
  lemma AfterFirstAt<T>(first: T, groups: seq<seq<T>>, i: nat)
    requires forall j :: 0 <= j < |groups| ==> |groups[j]| == 3
    requires i < |groups|
    ensures |[first] + Concat(groups)| == 1 + 3 * |groups|
    ensures ([first] + Concat(groups))[3 * i + 1..3 * i + 4] == groups[i]
  {
    ConcatAt(groups, i);
    var all := Concat(groups);
    assert ([first] + all)[3 * i + 1..3 * i + 4] == all[3 * i..3 * i + 3];
  }

  /** The three sheets of each invoice, in order. */
  function InvoiceGroups(invs: seq<Invoice>): (g: seq<seq<Sheet>>)
    ensures |g| == |invs| && forall j :: 0 <= j < |invs| ==> g[j] == SheetsOf(invs[j])
  {
    var sheetsOf := SheetsOf;
    seq(|invs|, j requires 0 <= j < |invs| => sheetsOf(invs[j]))
  }

  /** The summary sheet: the header row, then one summary row per invoice. */
  function SummarySheet(invs: seq<Invoice>): Sheet {
    Sheet(SummarySheetName, [SummaryHeader] + SummaryRows(invs))
  }

  /** The sheet list of `exportClientExcel`: the summary first, then three sheets per invoice. */
  function ClientSheetList(invs: seq<Invoice>): seq<Sheet> {
    [SummarySheet(invs)] + Concat(InvoiceGroups(invs))
  }

  /**
   * The sheet loop of `exportClientExcel` over the normalised invoices: one
   * summary row and three sheets per invoice, the summary sheet put first.
   */
  method ClientSheets(invs: seq<Invoice>) returns (sheets: seq<Sheet>)
    ensures sheets == ClientSheetList(invs)
  {
    ghost var rows, groups := SummaryRows(invs), InvoiceGroups(invs);
    var summary := [SummaryHeader];
    var perInvoice: seq<Sheet> := [];
    var i := 0;
    while i < |invs|
      invariant 0 <= i <= |invs|
      invariant summary == [SummaryHeader] + rows[..i]
      invariant perInvoice == Concat(groups[..i])
    {
      var inv := invs[i];
      var s1 := ComputeTableSum(inv.t1);
      var s2 := ComputeTableSum(inv.t2);
      var row, group := SummaryRow(inv, s1, s2), InvoiceSheets(inv, s1, s2);
      SheetsOfTotals(invs, i, s1, s2);
      TakeStep(rows, i);
      ConcatStep(groups, i);
      HeadedAppend(SummaryHeader, rows[..i], row);
      summary := summary + [row];
      perInvoice := perInvoice + group;
      i := i + 1;
    }
    assert rows[..i] == rows && groups[..i] == groups;
    sheets := [Sheet(SummarySheetName, summary)] + perInvoice;
  }

  /** With the two totals of invoice `i`, its summary row and its sheets are the ones the sheet list holds. */
  lemma SheetsOfTotals(invs: seq<Invoice>, i: nat, s1: real, s2: real)
    requires i < |invs| && s1 == TableSum(invs[i].t1) && s2 == TableSum(invs[i].t2)
    ensures SummaryRow(invs[i], s1, s2) == SummaryRows(invs)[i]
    ensures InvoiceSheets(invs[i], s1, s2) == InvoiceGroups(invs)[i]
  {
  }

  /**
   * The summary sheet comes first, with the header row and then one row per
   * invoice whose last three cells are its two table totals and their
   * difference, the balance.
   */
  lemma SummarySheetShape(invs: seq<Invoice>, i: nat)
    requires i < |invs|
    ensures var s := ClientSheetList(invs);
      && s[0].name == SummarySheetName && |s[0].data| == |invs| + 1 && s[0].data[0] == SummaryHeader
      && s[0].data[i + 1] == SummaryRowOf(invs[i])
  {
    HeadedAt(SummaryHeader, SummaryRows(invs), i);
  }

  /** A summary row ends with the two table totals and the balance. */
  lemma SummaryRowTotals(inv: Invoice)
    ensures var s1, s2 := TableSum(inv.t1), TableSum(inv.t2);
      SummaryRowOf(inv)[3..] == [NumberCell(s1), NumberCell(s2), NumberCell(s1 - s2)]
  {
  }

  /** After the summary, each invoice in order has its three sheets. */
  lemma InvoiceSheetsAt(invs: seq<Invoice>, i: nat)
    requires i < |invs|
    ensures var s := ClientSheetList(invs);
      |s| == 1 + 3 * |invs| && s[3 * i + 1..3 * i + 4] == SheetsOf(invs[i])
  {
    AfterFirstAt(SummarySheet(invs), InvoiceGroups(invs), i);
  }

  /**
   * The three sheets of an invoice: its operations table and its receipts
   * table, each pinned and written as text, then its final account with the
   * two totals and the balance formatted in its currency.
   */
  lemma SheetsOfShape(inv: Invoice)
    ensures var g, s1, s2, cur := SheetsOf(inv), TableSum(inv.t1), TableSum(inv.t2), ExportCurrency(inv);
      && g[0] == Sheet(inv.name + "-عمليات", TextRows(InvoiceDataToMatrix(inv.t1)))
      && g[1] == Sheet(inv.name + "-قبوضات", TextRows(InvoiceDataToMatrix(inv.t2)))
      && g[2].name == inv.name + "-نهائي"
      && g[2].data[2] == [TextCell("الرصيد النهائي"), TextCell(FormatAmount(s1 - s2, cur))]
  {
  }
}
