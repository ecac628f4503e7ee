/**
 * The saved application record of the client pages: clients, each client's
 * invoice list, and each invoice's statement (two saved tables), together
 * with the loader that falls back to an empty record and the guarantee that
 * every client owns at least one invoice.
 */
module Storage {
  import opened Wrappers
  import opened Text
  import opened Utils
  import opened Exports
  import InvoiceTables

  /** The record version the pages understand. */
  const AppVersion: int := 2

  /** A client; a field missing from the saved record reads as empty text. */
  datatype Client = Client(id: string, name: string, phone: string, location: string, currency: string, createdAt: int)

  /** An entry of a client's invoice list. */
  datatype InvoiceEntry = InvoiceEntry(id: string, name: string, date: string, createdAt: int)

  datatype Meta = Meta(date: string, period: string, currency: string, invoiceName: string)

  /** The statement of one invoice: its heading and its two tables (work done, payments received). */
  datatype Statement = Statement(sv: int, meta: Meta, t1: Option<Payload>, t2: Option<Payload>)

  /**
   * The record as read back from storage; `None` stands for a field that is
   * missing or falsy. A record that is missing, not valid JSON or `null` is
   * `None` as a whole.
   */
  datatype StoredApp = StoredApp(
    v: Option<int>,
    clients: Option<seq<Client>>,
    invoicesByClient: Option<map<string, seq<InvoiceEntry>>>,
    statementsByInvoice: Option<map<string, Statement>>)

  /** The record the pages work on. */
  datatype AppData = AppData(
    v: int,
    clients: seq<Client>,
    invoicesByClient: map<string, seq<InvoiceEntry>>,
    statementsByInvoice: map<string, Statement>)

  /** `emptyApp`: version 2, no clients, no invoice lists, no statements. */
  const EmptyApp: AppData := AppData(AppVersion, [], map[], map[])

  /**
   * `loadApp`: a missing or unreadable record, or one whose version is not
   * 2, loads as the empty record; otherwise every field is kept and a
   * missing collection becomes an empty one.
   */
  function LoadedApp(stored: Option<StoredApp>): (a: AppData)
    ensures a.v == AppVersion
    ensures stored.None? || stored.value.v != Some(AppVersion) ==> a == EmptyApp
    ensures stored.Some? && stored.value.v == Some(AppVersion) ==>
      a.clients == stored.value.clients.GetOr([])
      && a.invoicesByClient == stored.value.invoicesByClient.GetOr(map[])
      && a.statementsByInvoice == stored.value.statementsByInvoice.GetOr(map[])
  {
    if stored.None? || stored.value.v != Some(AppVersion) then EmptyApp
    else AppData(AppVersion, stored.value.clients.GetOr([]),
      stored.value.invoicesByClient.GetOr(map[]), stored.value.statementsByInvoice.GetOr(map[]))
  }

  /** `saveApp`: the record as written to storage, every field present. */
  function Saved(a: AppData): StoredApp {
    StoredApp(Some(a.v), Some(a.clients), Some(a.invoicesByClient), Some(a.statementsByInvoice))
  }

  /** Saving a loaded record and loading it again gives the same record. */
  lemma SaveLoadRoundTrip(stored: Option<StoredApp>)
    ensures LoadedApp(Some(Saved(LoadedApp(stored)))) == LoadedApp(stored)
  {
  }

  /** The record as the pages hold it while they change it. */
  class App {
    var v: int
    var clients: seq<Client>
    var invoicesByClient: map<string, seq<InvoiceEntry>>
    var statementsByInvoice: map<string, Statement>

    constructor (d: AppData)
      ensures Data() == d
    {
      v, clients, invoicesByClient, statementsByInvoice := d.v, d.clients, d.invoicesByClient, d.statementsByInvoice;
    }

    function Data(): AppData
      reads this
    {
      AppData(v, clients, invoicesByClient, statementsByInvoice)
    }
  }

  /** `loadApp`, producing the record the page then changes. */
  method LoadApp(stored: Option<StoredApp>) returns (app: App)
    ensures fresh(app) && app.Data() == LoadedApp(stored)
  {
    app := new App(LoadedApp(stored));
  }

  // ---------------------------------------------------------------------------
  // Lookups
  // ---------------------------------------------------------------------------

  /** The index of the first client with the id, if any. */
  function ClientIndex(clients: seq<Client>, id: string): (k: Option<nat>)
    ensures k.Some? ==> k.value < |clients| && clients[k.value].id == id
    ensures k.Some? ==> forall j :: 0 <= j < k.value ==> clients[j].id != id
    ensures k.None? ==> forall j :: 0 <= j < |clients| ==> clients[j].id != id
  {
    if clients == [] then None
    else if clients[0].id == id then Some(0)
    else
      match ClientIndex(clients[1..], id)
      case None => None
      case Some(j) => Some(j + 1)
  }

  /** `getClient`: the first client with the id, or none when no client has it. */
  function GetClient(clients: seq<Client>, id: string): (r: Option<Client>)
    ensures r.Some? ==> r.value in clients && r.value.id == id
    ensures r.Some? ==> exists k :: 0 <= k < |clients| && clients[k] == r.value && forall j :: 0 <= j < k ==> clients[j].id != id
    ensures r.None? <==> forall j :: 0 <= j < |clients| ==> clients[j].id != id
  {
    match ClientIndex(clients, id)
    case None => None
    case Some(k) => Some(clients[k])
  }

  /** `getInvoices`: the client's invoice list, empty when the client has none. */
  function GetInvoices(a: AppData, clientId: string): (r: seq<InvoiceEntry>)
    ensures clientId !in a.invoicesByClient ==> r == []
    ensures clientId in a.invoicesByClient ==> r == a.invoicesByClient[clientId]
  {
    if clientId in a.invoicesByClient then a.invoicesByClient[clientId] else []
  }

  /** `getStatement`: the invoice's statement, or none. */
  function GetStatement(a: AppData, invoiceId: string): (r: Option<Statement>)
    ensures r.Some? <==> invoiceId in a.statementsByInvoice
    ensures r.Some? ==> r.value == a.statementsByInvoice[invoiceId]
  {
    if invoiceId in a.statementsByInvoice then Some(a.statementsByInvoice[invoiceId]) else None
  }

  // ---------------------------------------------------------------------------
  // The default statement and the first invoice
  // ---------------------------------------------------------------------------

  const WorkHeaders: seq<string> := ["رقم", "البيان", InvoiceTables.AmountHeader]
  const PaymentHeaders: seq<string> := ["رقم", "التاريخ", "البيان", InvoiceTables.AmountHeader]
  const OpenPeriod: string := "مفتوحة"
  const DefaultInvoiceName: string := "فاتورة"

  /**
   * `defaultStatement`: version 1, dated `today`, an open period, the
   * currency's symbol, the name or "فاتورة" when it is blank; a work table
   * of three columns and a payments table of four, each with the amount
   * column last and one row numbered 1 whose amount is zero in that symbol.
   */
  function DefaultStatement(currency: string, invoiceName: string, today: string): (st: Statement)
    ensures st.sv == 1 && st.meta.date == today && st.meta.period == OpenPeriod
    ensures st.meta.currency == GetCurrencySymbol(currency)
    ensures st.meta.invoiceName == if invoiceName == "" then DefaultInvoiceName else invoiceName
    ensures st.t1.Some? && st.t1.value.headerTitles == Some(WorkHeaders)
    ensures st.t2.Some? && st.t2.value.headerTitles == Some(PaymentHeaders)
    ensures WorkHeaders[|WorkHeaders| - 1] == PaymentHeaders[|PaymentHeaders| - 1] == InvoiceTables.AmountHeader
    ensures forall t :: t in [st.t1.value, st.t2.value] ==>
      t.rows.Some? && |t.rows.value| == 1 && |t.rows.value[0]| == |t.headerTitles.value|
      && t.rows.value[0][0] == "1" && t.rows.value[0][|t.rows.value[0]| - 1] == "0" + GetCurrencySymbol(currency)
  {
    var sym := GetCurrencySymbol(currency);
    Statement(1,
      Meta(today, OpenPeriod, sym, if invoiceName == "" then DefaultInvoiceName else invoiceName),
      Some(Payload(Some(WorkHeaders), Some([["1", "شغل", "0" + sym]]))),
      Some(Payload(Some(PaymentHeaders), Some([["1", "", "استلام نقدي", "0" + sym]]))))
  }

  /** Both tables of a default statement total zero: a new invoice carries no balance. */
  lemma DefaultStatementTotalsZero(currency: string, invoiceName: string, today: string)
    ensures var st := DefaultStatement(currency, invoiceName, today);
      PayloadSum(st.t1) == 0.0 && PayloadSum(st.t2) == 0.0
  {
    var st := DefaultStatement(currency, invoiceName, today);
    var sym := GetCurrencySymbol(currency);
    assert IsPlainLabel(sym);
    assert IntText(0) + sym == "0" + sym;
    var work, paid := st.t1.value.rows.value, st.t2.value.rows.value;
    CellMoneyOfLabelled(work[0], 2, 0, sym);
    CellMoneyOfLabelled(paid[0], 3, 0, sym);
    assert work[..0] == [] && paid[..0] == [];
    assert MoneySum(work, 2) == MoneySum([], 2) + CellMoney(work[0], 2);
    assert MoneySum(paid, 3) == MoneySum([], 3) + CellMoney(paid[0], 3);
  }

  /** The name of a client's first invoice. */
  const FirstInvoiceName: string := "فاتورة 1"

  /** The client owns a non-empty invoice list. */
  predicate HasInvoices(a: AppData, clientId: string) {
    clientId in a.invoicesByClient && |a.invoicesByClient[clientId]| > 0
  }

  /** The record after `ensureClientHasFirstInvoice`: a client without invoices gets the first invoice `invId` and its default statement. */
  function WithFirstInvoice(a: AppData, clientId: string, invId: string, today: string, now: int): (r: AppData)
    ensures HasInvoices(r, clientId)
    ensures r.v == a.v && r.clients == a.clients
  {
    if HasInvoices(a, clientId) then a
    else a.(invoicesByClient := a.invoicesByClient[clientId := [InvoiceEntry(invId, FirstInvoiceName, today, now)]],
            statementsByInvoice := a.statementsByInvoice[invId :=
              DefaultStatement(ClientCurrency(a.clients, clientId), FirstInvoiceName, today)])
  }

  /** `c?.currency || '$'`: the currency of the first client with the id, the dollar sign when there is none. */
  function ClientCurrency(clients: seq<Client>, id: string): (cur: string)
    ensures cur != ""
    ensures GetClient(clients, id).Some? && GetClient(clients, id).value.currency != "" ==> cur == GetClient(clients, id).value.currency
  {
    var c := GetClient(clients, id);
    if c.Some? && c.value.currency != "" then c.value.currency else "$"
  }

  /**
   * `ensureClientHasFirstInvoice`: a client without invoices gets one named
   * "فاتورة 1" with the id `invId`, and a default statement in the client's
   * currency filed under that id; a client that already has invoices is left
   * as it is. The new id and the dates are parameters.
   */
  method EnsureClientHasFirstInvoice(app: App, clientId: string, invId: string, today: string, now: int)
    modifies app
    ensures HasInvoices(app.Data(), clientId)
    ensures HasInvoices(old(app.Data()), clientId) ==> app.Data() == old(app.Data())
    ensures !HasInvoices(old(app.Data()), clientId) ==>
      app.v == old(app.v) && app.clients == old(app.clients)
      && app.invoicesByClient == old(app.invoicesByClient)[clientId := [InvoiceEntry(invId, FirstInvoiceName, today, now)]]
      && app.statementsByInvoice == old(app.statementsByInvoice)[invId :=
           DefaultStatement(ClientCurrency(app.clients, clientId), FirstInvoiceName, today)]
    ensures app.Data() == WithFirstInvoice(old(app.Data()), clientId, invId, today, now)
  {
    if clientId !in app.invoicesByClient {
      app.invoicesByClient := app.invoicesByClient[clientId := []];
    }
    var list := app.invoicesByClient[clientId];
    if |list| > 0 {
      return;
    }
    assert list + [InvoiceEntry(invId, FirstInvoiceName, today, now)] == [InvoiceEntry(invId, FirstInvoiceName, today, now)];
    app.invoicesByClient := app.invoicesByClient[clientId := list + [InvoiceEntry(invId, FirstInvoiceName, today, now)]];
    var cur := ClientCurrency(app.clients, clientId);
    app.statementsByInvoice := app.statementsByInvoice[invId := DefaultStatement(cur, FirstInvoiceName, today)];
  }
}
