/**
 * The clients page: the balance of an invoice and of a client, the search
 * over the client list, and the operations that add, edit and delete
 * clients and replace the whole record from a backup.
 */
module ClientsPage {
  import opened Wrappers
  import opened Text
  import opened Utils
  import opened Exports
  import opened Storage

  // ---------------------------------------------------------------------------
  // Balances
  // ---------------------------------------------------------------------------

  /** `calcInvoiceBalance`: the work table's total less the payments table's; no statement has no balance. */
  function CalcInvoiceBalance(stmt: Option<Statement>): (b: real)
    ensures stmt.None? ==> b == 0.0
    ensures stmt.Some? ==> b == PayloadSum(stmt.value.t1) - PayloadSum(stmt.value.t2)
  {
    if stmt.None? then 0.0 else PayloadSum(stmt.value.t1) - PayloadSum(stmt.value.t2)
  }

  /** The balances of the invoices, added in order; an invoice without a statement adds nothing. */
  function BalanceSum(invs: seq<InvoiceEntry>, a: AppData): real {
    if invs == [] then 0.0
    else BalanceSum(invs[..|invs| - 1], a) + CalcInvoiceBalance(GetStatement(a, invs[|invs| - 1].id))
  }

  /** The balance a client owes: the balances of all of its invoices. */
  function ClientBalance(a: AppData, clientId: string): real {
    BalanceSum(GetInvoices(a, clientId), a)
  }

  /** `clientTotalBalance`: the sum of the invoice balances of the client, 0 for a client without invoices. */
  method ClientTotalBalance(app: App, clientId: string) returns (total: real)
    ensures total == ClientBalance(app.Data(), clientId)
    ensures GetInvoices(app.Data(), clientId) == [] ==> total == 0.0
  {
    var invs := GetInvoices(app.Data(), clientId);
    total := 0.0;
    var i := 0;
    while i < |invs|
      invariant 0 <= i <= |invs|
      invariant total == BalanceSum(invs[..i], app.Data())
    {
      assert invs[..i + 1][..i] == invs[..i];
      total := total + CalcInvoiceBalance(GetStatement(app.Data(), invs[i].id));
      i := i + 1;
    }
    assert invs[..i] == invs;
  }

  /** A new invoice with its default statement carries no balance. */
  lemma DefaultInvoiceBalanceZero(currency: string, invoiceName: string, today: string)
    ensures CalcInvoiceBalance(Some(DefaultStatement(currency, invoiceName, today))) == 0.0
  {
    DefaultStatementTotalsZero(currency, invoiceName, today);
  }

  /** A client whose only invoice is a first invoice with its default statement owes nothing. */
  lemma FirstInvoiceBalanceZero(a: AppData, clientId: string, entry: InvoiceEntry, currency: string, today: string)
    requires clientId in a.invoicesByClient && a.invoicesByClient[clientId] == [entry]
    requires entry.id in a.statementsByInvoice
    requires a.statementsByInvoice[entry.id] == DefaultStatement(currency, FirstInvoiceName, today)
    ensures ClientBalance(a, clientId) == 0.0
  {
    DefaultInvoiceBalanceZero(currency, FirstInvoiceName, today);
    var invs := GetInvoices(a, clientId);
    assert invs == [entry] && invs[..0] == [];
    assert BalanceSum(invs, a) == BalanceSum([], a) + CalcInvoiceBalance(GetStatement(a, entry.id));
  }

  /** A client's balance is additive over its invoice list. */
  lemma {:induction false} BalanceSumConcat(xs: seq<InvoiceEntry>, ys: seq<InvoiceEntry>, a: AppData)
    ensures BalanceSum(xs + ys, a) == BalanceSum(xs, a) + BalanceSum(ys, a)
  {
    if ys != [] {
      var n := |ys|;
      assert (xs + ys)[..|xs + ys| - 1] == xs + ys[..n - 1];
      BalanceSumConcat(xs, ys[..n - 1], a);
    } else {
      assert xs + ys == xs;
    }
  }

  // ---------------------------------------------------------------------------
  // Search
  // ---------------------------------------------------------------------------

  /** The query as the page uses it: trimmed, then in lower case. */
  function SearchQuery(input: string): string {
    Lower(Trim(input))
  }

  /** The text a query is looked for in: name, phone and location, separated by spaces, in lower case. */
  function Haystack(c: Client): string {
    Lower(c.name + " " + c.phone + " " + c.location)
  }

  /** A client is listed when the query is empty or occurs in its haystack. */
  predicate ClientShown(c: Client, q: string) {
    q == "" || Contains(Haystack(c), q)
  }

  /** The listed clients, in the order of the record. */
  function Visible(clients: seq<Client>, q: string): (r: seq<Client>)
    ensures |r| <= |clients|
  {
    if clients == [] then []
    else Visible(clients[..|clients| - 1], q) + (if ClientShown(clients[|clients| - 1], q) then [clients[|clients| - 1]] else [])
  }

  /** One more client is listed after the earlier ones exactly when the query selects it. */
  lemma VisibleStep(clients: seq<Client>, i: nat, q: string)
    requires i < |clients|
    ensures Visible(clients[..i + 1], q) == Visible(clients[..i], q) + (if ClientShown(clients[i], q) then [clients[i]] else [])
  {
    assert clients[..i + 1][..i] == clients[..i];
  }

  /** Exactly the clients the query selects are listed. */
  lemma {:induction false} VisibleMembers(clients: seq<Client>, q: string)
    ensures forall c :: c in Visible(clients, q) <==> c in clients && ClientShown(c, q)
  {
    if clients != [] {
      var n := |clients|;
      VisibleMembers(clients[..n - 1], q);
      assert clients == clients[..n - 1] + [clients[n - 1]];
    }
  }

  /** A query of white space only lists every client. */
  lemma BlankQueryShowsAll(input: string, clients: seq<Client>)
    requires forall i :: 0 <= i < |input| ==> IsWhite(input[i])
    ensures Visible(clients, SearchQuery(input)) == clients
  {
    TrimAllWhite(input);
    VisibleAll(clients, SearchQuery(input));
  }

  lemma {:induction false} VisibleAll(clients: seq<Client>, q: string)
    requires q == ""
    ensures Visible(clients, q) == clients
  {
    if clients != [] {
      VisibleAll(clients[..|clients| - 1], q);
    }
  }

  lemma LowerConcat(a: string, b: string)
    ensures Lower(a + b) == Lower(a) + Lower(b)
  {
    assert forall i :: 0 <= i < |a + b| ==> Lower(a + b)[i] == (Lower(a) + Lower(b))[i];
  }

  lemma ContainsWithin(a: string, b: string, c: string, q: string)
    requires Contains(b, q)
    ensures Contains(a + b + c, q)
  {
    var i :| 0 <= i <= |b| && q <= b[i..];
    var whole := a + b + c;
    assert whole[|a| + i..] == b[i..] + c;
  }

  /** A client is listed when the query occurs in its name, its phone or its location. */
  lemma ShownByField(c: Client, q: string)
    requires Contains(Lower(c.name), q) || Contains(Lower(c.phone), q) || Contains(Lower(c.location), q)
    ensures ClientShown(c, q)
  {
    LowerConcat(c.name + " " + c.phone + " ", c.location);
    LowerConcat(c.name + " " + c.phone, " ");
    LowerConcat(c.name + " ", c.phone);
    LowerConcat(c.name, " ");
    var n, p, l, sp := Lower(c.name), Lower(c.phone), Lower(c.location), Lower(" ");
    assert Haystack(c) == n + sp + p + sp + l;
    if Contains(n, q) {
      ContainsWithin([], n, sp + p + sp + l, q);
      assert [] + n + (sp + p + sp + l) == Haystack(c);
    } else if Contains(p, q) {
      ContainsWithin(n + sp, p, sp + l, q);
      assert n + sp + p + (sp + l) == Haystack(c);
    } else {
      ContainsWithin(n + sp + p + sp, l, [], q);
      assert n + sp + p + sp + l + [] == Haystack(c);
    }
  }

  /** One line of the client list: the client, its invoice count, its balance and its currency symbol. */
  datatype ClientRow = ClientRow(client: Client, invCount: nat, total: real, sym: string)

  /** The currency symbol a client's amounts are shown in. */
  function ClientSymbol(c: Client): string {
    GetCurrencySymbol(if c.currency == "" then "$" else c.currency)
  }

  /**
   * One pass of the loop of `render`: the client is given its first invoice,
   * then listed when the query selects it, with its invoice count and balance.
   */
  method RenderClient(app: App, c: Client, q: string, invId: string, today: string, now: int)
    returns (row: Option<ClientRow>)
    modifies app
    ensures app.Data() == WithFirstInvoice(old(app.Data()), c.id, invId, today, now)
    ensures row.Some? <==> ClientShown(c, q)
    ensures row.Some? ==> row.value.client == c && row.value.sym == ClientSymbol(c)
    ensures row.Some? ==> row.value.invCount == |GetInvoices(app.Data(), c.id)| >= 1
    ensures row.Some? ==> row.value.total == ClientBalance(app.Data(), c.id)
    ensures row == RowOf(app.Data(), c, q)
  {
    EnsureClientHasFirstInvoice(app, c.id, invId, today, now);
    if !ClientShown(c, q) {
      return None;
    }
    var count := |GetInvoices(app.Data(), c.id)|;
    var total := ClientTotalBalance(app, c.id);
    row := Some(ClientRow(c, count, total, ClientSymbol(c)));
  }

  /** Giving a client its first invoice leaves every non-empty invoice list as it was. */
  lemma FirstInvoiceKeepsLists(a: AppData, clientId: string, invId: string, today: string, now: int, k: string)
    requires HasInvoices(a, k)
    ensures GetInvoices(WithFirstInvoice(a, clientId, invId, today, now), k) == GetInvoices(a, k)
  {
  }

  /** The balance depends only on the statements of the invoices summed. */
  lemma {:induction false} BalanceSumFrame(invs: seq<InvoiceEntry>, a: AppData, b: AppData)
    requires forall j :: 0 <= j < |invs| ==> GetStatement(a, invs[j].id) == GetStatement(b, invs[j].id)
    ensures BalanceSum(invs, a) == BalanceSum(invs, b)
  {
    if invs != [] {
      BalanceSumFrame(invs[..|invs| - 1], a, b);
    }
  }

  /** Giving a client its first invoice `invId` keeps the balance of every client with invoices none of which is `invId`. */
  lemma FirstInvoiceKeepsBalance(a: AppData, clientId: string, invId: string, today: string, now: int, k: string)
    requires HasInvoices(a, k) && invId !in InvoiceIds(GetInvoices(a, k))
    ensures ClientBalance(WithFirstInvoice(a, clientId, invId, today, now), k) == ClientBalance(a, k)
  {
    var b := WithFirstInvoice(a, clientId, invId, today, now);
    var invs := GetInvoices(a, k);
    FirstInvoiceKeepsLists(a, clientId, invId, today, now, k);
    forall j | 0 <= j < |invs| ensures GetStatement(a, invs[j].id) == GetStatement(b, invs[j].id) {
      assert invs[j].id in InvoiceIds(invs);
    }
    BalanceSumFrame(invs, a, b);
  }

  /** An id that no invoice list holds, other than `invId`, is still held by none once a first invoice `invId` is added. */
  lemma FirstInvoiceKeepsFresh(a: AppData, clientId: string, invId: string, today: string, now: int, id: string)
    requires forall k :: HasInvoices(a, k) ==> id !in InvoiceIds(GetInvoices(a, k))
    requires id != invId
    ensures var b := WithFirstInvoice(a, clientId, invId, today, now);
      forall k :: HasInvoices(b, k) ==> id !in InvoiceIds(GetInvoices(b, k))
  {
    var b := WithFirstInvoice(a, clientId, invId, today, now);
    forall k | HasInvoices(b, k) ensures id !in InvoiceIds(GetInvoices(b, k)) {
      if HasInvoices(a, k) {
        FirstInvoiceKeepsLists(a, clientId, invId, today, now, k);
      } else {
        assert GetInvoices(b, k) == [InvoiceEntry(invId, FirstInvoiceName, today, now)];
      }
    }
  }

  /** Row `j` lists client `j` of `shown` in its currency symbol, with its invoice count (at least one) and its balance in `a`. */
  predicate ListsClients(rows: seq<ClientRow>, shown: seq<Client>, a: AppData) {
    |rows| == |shown|
    && forall j :: 0 <= j < |rows| ==>
      && rows[j].client == shown[j] && rows[j].sym == ClientSymbol(shown[j])
      && rows[j].invCount == |GetInvoices(a, shown[j].id)| >= 1
  }

  lemma ListsClientsSnoc(rows: seq<ClientRow>, shown: seq<Client>, a: AppData, row: ClientRow)
    requires ListsClients(rows, shown, a)
    requires row.sym == ClientSymbol(row.client) && row.invCount == |GetInvoices(a, row.client.id)| >= 1
    ensures ListsClients(rows + [row], shown + [row.client], a)
  {
  }

  /** The rows stay right after another client is given its first invoice. */
  lemma ListsClientsFrame(rows: seq<ClientRow>, shown: seq<Client>, a: AppData, clientId: string, invId: string, today: string, now: int)
    requires ListsClients(rows, shown, a)
    ensures ListsClients(rows, shown, WithFirstInvoice(a, clientId, invId, today, now))
  {
    forall j | 0 <= j < |rows| ensures rows[j].invCount == |GetInvoices(WithFirstInvoice(a, clientId, invId, today, now), shown[j].id)| {
      FirstInvoiceKeepsLists(a, clientId, invId, today, now, shown[j].id);
    }
  }

  /** The invoice ids `freshIds` gives the clients are distinct and belong to no invoice the record holds. */
  ghost predicate FreshIdsFor(a: AppData, freshIds: nat -> string, n: nat) {
    && (forall i, j :: 0 <= i < j < n ==> freshIds(i) != freshIds(j))
    && (forall i, k :: 0 <= i < n && HasInvoices(a, k) ==> freshIds(i) !in InvoiceIds(GetInvoices(a, k)))
  }

  /** Each row's total is its client's balance in `a`. */
  predicate RowTotals(rows: seq<ClientRow>, a: AppData) {
    forall j :: 0 <= j < |rows| ==> rows[j].total == ClientBalance(a, rows[j].client.id)
  }

  /** The row `render` lists for client `c` on record `a`: the client, its invoice count, balance and symbol, when the query selects it. */
  function RowOf(a: AppData, c: Client, q: string): (r: Option<ClientRow>)
    ensures r.Some? <==> ClientShown(c, q)
  {
    if ClientShown(c, q) then Some(ClientRow(c, |GetInvoices(a, c.id)|, ClientBalance(a, c.id), ClientSymbol(c))) else None
  }

  /** The record after the first `n` passes of `render`: each of the first `n` clients given its first invoice in turn. */
  function RenderedData(a0: AppData, clients: seq<Client>, n: nat, freshIds: nat -> string, today: string, now: int): (r: AppData)
    requires n <= |clients|
    ensures r.v == a0.v && r.clients == a0.clients
  {
    if n == 0 then a0
    else WithFirstInvoice(RenderedData(a0, clients, n - 1, freshIds, today, now), clients[n - 1].id, freshIds(n - 1), today, now)
  }

  /** The rows listed by the first `n` passes of `render`, each taken on the record as it is right after its own pass. */
  function RenderedRows(a0: AppData, clients: seq<Client>, n: nat, q: string, freshIds: nat -> string, today: string, now: int): seq<ClientRow>
    requires n <= |clients|
  {
    if n == 0 then []
    else RenderedRows(a0, clients, n - 1, q, freshIds, today, now)
         + Listed(RowOf(RenderedData(a0, clients, n, freshIds, today, now), clients[n - 1], q))
  }

  /**
   * `render`: every client of the record is given its first invoice (the new
   * invoice ids are `freshIds(0)`, `freshIds(1)`, … by client position), and
   * the clients the query selects are listed in order, each in its currency
   * symbol with its invoice count. Clients that had invoices keep them. When
   * the new ids are fresh, each row shows its client's balance.
   */
  method Render(app: App, queryInput: string, freshIds: nat -> string, today: string, now: int)
    returns (rows: seq<ClientRow>)
    modifies app
    ensures app.clients == old(app.clients) && app.v == old(app.v)
    ensures forall j :: 0 <= j < |app.clients| ==> HasInvoices(app.Data(), app.clients[j].id)
    ensures forall k :: HasInvoices(old(app.Data()), k) ==> GetInvoices(app.Data(), k) == GetInvoices(old(app.Data()), k)
    ensures ListsClients(rows, Visible(app.clients, SearchQuery(queryInput)), app.Data())
    ensures FreshIdsFor(old(app.Data()), freshIds, |app.clients|) ==> RowTotals(rows, app.Data())
    ensures app.Data() == RenderedData(old(app.Data()), app.clients, |app.clients|, freshIds, today, now)
    ensures rows == RenderedRows(old(app.Data()), app.clients, |app.clients|, SearchQuery(queryInput), freshIds, today, now)
  {
    var q := SearchQuery(queryInput);
    var clients := app.clients;
    ghost var a0 := app.Data();
    rows := [];
    var i := 0;
    while i < |clients|
      invariant 0 <= i <= |clients|
      invariant app.Data() == RenderedData(a0, clients, i, freshIds, today, now)
      invariant rows == RenderedRows(a0, clients, i, q, freshIds, today, now)
    {
      var row := RenderClient(app, clients[i], q, freshIds(i), today, now);
      rows := rows + Listed(row);
      i := i + 1;
    }
    RenderedInv(a0, clients, i, q, freshIds, today, now);
    assert clients[..i] == clients;
  }

  /** After any number of passes `RenderInv` holds of the record and rows they produce. */
  lemma {:induction false} RenderedInv(a0: AppData, clients: seq<Client>, n: nat, q: string, freshIds: nat -> string, today: string, now: int)
    requires n <= |clients|
    ensures RenderInv(a0, RenderedData(a0, clients, n, freshIds, today, now), clients, n, freshIds,
                      FreshIdsFor(a0, freshIds, |clients|), RenderedRows(a0, clients, n, q, freshIds, today, now), Visible(clients[..n], q))
  {
    var idsFresh := FreshIdsFor(a0, freshIds, |clients|);
    if n == 0 {
      assert clients[..0] == [];
    } else {
      var i := n - 1;
      RenderedInv(a0, clients, i, q, freshIds, today, now);
      var after := RenderedData(a0, clients, n, freshIds, today, now);
      var row := RowOf(after, clients[i], q);
      RenderPass(a0, RenderedData(a0, clients, i, freshIds, today, now), after, clients, i, freshIds, today, now,
                 idsFresh, RenderedRows(a0, clients, i, q, freshIds, today, now), Visible(clients[..i], q), row);
      VisibleStep(clients, i, q);
    }
  }

  /** The row a pass of `render` lists, if any. */
  function Listed<T>(x: Option<T>): (r: seq<T>)
    ensures x.None? ==> r == []
    ensures x.Some? ==> r == [x.value]
  {
    if x.Some? then [x.value] else []
  }

  /**
   * What holds after `i` passes of `render`, started from `a0`: the first `i`
   * clients have invoices, the lists that had invoices are kept, the rows list `shown`, and when the new ids are
   * fresh the rows show the balances and the ids still to come are held by
   * no invoice.
   */
  ghost predicate RenderInv(a0: AppData, a: AppData, clients: seq<Client>, i: nat, freshIds: nat -> string,
                            idsFresh: bool, rows: seq<ClientRow>, shown: seq<Client>) {
    && i <= |clients|
    && (forall j :: 0 <= j < i ==> HasInvoices(a, clients[j].id))
    && (forall k :: HasInvoices(a0, k) ==> GetInvoices(a, k) == GetInvoices(a0, k))
    && ListsClients(rows, shown, a)
    && (idsFresh ==> FreshIdsFor(a0, freshIds, |clients|) && RowTotals(rows, a))
    && (idsFresh ==> forall i2, k :: i <= i2 < |clients| && HasInvoices(a, k) ==>
          freshIds(i2) !in InvoiceIds(GetInvoices(a, k)))
  }

  /** One pass of `render` keeps `RenderInv`, with the client's row added when it is listed. */
  lemma RenderPass(a0: AppData, before: AppData, after: AppData, clients: seq<Client>, i: nat, freshIds: nat -> string,
                   today: string, now: int, idsFresh: bool, rows: seq<ClientRow>, shown: seq<Client>, row: Option<ClientRow>)
    requires i < |clients| && after == WithFirstInvoice(before, clients[i].id, freshIds(i), today, now)
    requires RenderInv(a0, before, clients, i, freshIds, idsFresh, rows, shown)
    requires idsFresh == FreshIdsFor(a0, freshIds, |clients|)
    requires row.Some? ==> row.value.client == clients[i] && row.value.sym == ClientSymbol(clients[i])
    requires row.Some? ==> row.value.invCount == |GetInvoices(after, clients[i].id)| >= 1
    requires row.Some? ==> row.value.total == ClientBalance(after, clients[i].id)
    ensures RenderInv(a0, after, clients, i + 1, freshIds, idsFresh, rows + Listed(row),
                      shown + Listed(if row.Some? then Some(clients[i]) else None))
  {
    var id, inv := clients[i].id, freshIds(i);
    forall k | HasInvoices(a0, k) ensures GetInvoices(after, k) == GetInvoices(a0, k) {
      FirstInvoiceKeepsLists(before, id, inv, today, now, k);
    }
    forall j | 0 <= j < i + 1 ensures HasInvoices(after, clients[j].id) {
      if j < i {
        FirstInvoiceKeepsLists(before, id, inv, today, now, clients[j].id);
      }
    }
    ListsClientsFrame(rows, shown, before, id, inv, today, now);
    if row.Some? {
      ListsClientsSnoc(rows, shown, after, row.value);
    } else {
      assert rows + Listed(row) == rows && shown + Listed<Client>(None) == shown;
    }
    if idsFresh {
      forall j | 0 <= j < |rows| ensures rows[j].total == ClientBalance(after, rows[j].client.id) {
        FirstInvoiceKeepsBalance(before, id, inv, today, now, rows[j].client.id);
      }
      forall i2 | i + 1 <= i2 < |clients|
        ensures forall k :: HasInvoices(after, k) ==> freshIds(i2) !in InvoiceIds(GetInvoices(after, k))
      {
        FirstInvoiceKeepsFresh(before, id, inv, today, now, freshIds(i2));
      }
    }
  }

  // ---------------------------------------------------------------------------
  // Adding, editing and deleting clients
  // ---------------------------------------------------------------------------

  /**
   * `addClient`: a name that is blank once trimmed changes nothing; otherwise
   * one client with the trimmed name, phone and location is appended and
   * given its first invoice.
   */
  method AddClient(app: App, nameInput: string, phoneInput: string, locationInput: string, currency: string,
                   id: string, invId: string, today: string, now: int)
    modifies app
    ensures Trim(nameInput) == "" ==> app.Data() == old(app.Data())
    ensures Trim(nameInput) != "" ==>
      app.clients == old(app.clients) + [Client(id, Trim(nameInput), Trim(phoneInput), Trim(locationInput), currency, now)]
      && HasInvoices(app.Data(), id)
    ensures Trim(nameInput) != "" && id !in old(app.invoicesByClient) && GetClient(old(app.clients), id).None? ==>
      app.invoicesByClient == old(app.invoicesByClient)[id := [InvoiceEntry(invId, FirstInvoiceName, today, now)]]
      && app.statementsByInvoice == old(app.statementsByInvoice)[invId :=
           DefaultStatement(if currency == "" then "$" else currency, FirstInvoiceName, today)]
  {
    var name := Trim(nameInput);
    if name == "" {
      return;
    }
    var c := Client(id, name, Trim(phoneInput), Trim(locationInput), currency, now);
    ghost var before := app.clients;
    app.clients := app.clients + [c];
    if GetClient(before, id).None? {
      assert ClientIndex(app.clients, id) == Some(|before|) by {
        ClientIndexAfterAppend(before, c);
      }
    }
    EnsureClientHasFirstInvoice(app, id, invId, today, now);
  }

  /** A client appended behind clients of other ids is the first with its id. */
  lemma {:induction false} ClientIndexAfterAppend(clients: seq<Client>, c: Client)
    requires forall j :: 0 <= j < |clients| ==> clients[j].id != c.id
    ensures ClientIndex(clients + [c], c.id) == Some(|clients|)
  {
    if clients != [] {
      assert (clients + [c])[1..] == clients[1..] + [c];
      ClientIndexAfterAppend(clients[1..], c);
    }
  }

  /** `!editingClientId`: no client is being edited. */
  predicate NotEditing(editing: Option<string>) {
    editing.None? || editing.value == ""
  }

  /**
   * `saveEdit`: without a client being edited, with a blank name, or when
   * the client is gone, nothing changes; otherwise the first client with the
   * id takes the trimmed name, phone and location and the currency, and
   * keeps its id and creation time.
   */
  method SaveEdit(app: App, editing: Option<string>, nameInput: string, phoneInput: string, locationInput: string, currency: string)
    modifies app
    ensures app.v == old(app.v) && app.invoicesByClient == old(app.invoicesByClient)
    ensures app.statementsByInvoice == old(app.statementsByInvoice)
    ensures NotEditing(editing) || Trim(nameInput) == "" || ClientIndex(old(app.clients), editing.value).None? ==>
      app.clients == old(app.clients)
    ensures !NotEditing(editing) && Trim(nameInput) != "" && ClientIndex(old(app.clients), editing.value).Some? ==>
      var k := ClientIndex(old(app.clients), editing.value).value;
      var c := old(app.clients)[k];
      app.clients == old(app.clients)[k := Client(c.id, Trim(nameInput), Trim(phoneInput), Trim(locationInput), currency, c.createdAt)]
  {
    if NotEditing(editing) {
      return;
    }
    var name := Trim(nameInput);
    if name == "" {
      return;
    }
    var k := ClientIndex(app.clients, editing.value);
    if k.None? {
      return;
    }
    var c := app.clients[k.value];
    app.clients := app.clients[k.value := c.(name := name, phone := Trim(phoneInput), location := Trim(locationInput), currency := currency)];
  }

  /** `clients.filter(x => x.id !== id)`: the clients with other ids, in order. */
  function WithoutClient(clients: seq<Client>, id: string): (r: seq<Client>)
    ensures forall c :: c in r <==> c in clients && c.id != id
    ensures |r| <= |clients|
  {
    if clients == [] then []
    else WithoutClient(clients[..|clients| - 1], id) + (if clients[|clients| - 1].id != id then [clients[|clients| - 1]] else [])
  }

  /** The ids of the invoices. */
  function InvoiceIds(invs: seq<InvoiceEntry>): set<string> {
    set j | 0 <= j < |invs| :: invs[j].id
  }

  /**
   * `deleteClientFromEdit`: without a client being edited, when the client
   * is gone or when the user declines, nothing changes; otherwise the
   * statements of the client's invoices, its invoice list and every client
   * with its id are removed, and nothing else.
   */
  method DeleteClientFromEdit(app: App, editing: Option<string>, confirmed: bool)
    modifies app
    ensures NotEditing(editing) || GetClient(old(app.clients), editing.value).None? || !confirmed ==>
      app.Data() == old(app.Data())
    ensures !NotEditing(editing) && GetClient(old(app.clients), editing.value).Some? && confirmed ==>
      var id := editing.value;
      app.v == old(app.v)
      && app.statementsByInvoice == old(app.statementsByInvoice) - InvoiceIds(GetInvoices(old(app.Data()), id))
      && app.invoicesByClient == old(app.invoicesByClient) - {id}
      && app.clients == WithoutClient(old(app.clients), id)
  {
    if NotEditing(editing) {
      return;
    }
    var id := editing.value;
    var c := GetClient(app.clients, id);
    if c.None? || !confirmed {
      return;
    }
    var invs := GetInvoices(app.Data(), id);
    var statements := app.statementsByInvoice;
    var i := 0;
    while i < |invs|
      invariant 0 <= i <= |invs|
      invariant statements == old(app.statementsByInvoice) - InvoiceIds(invs[..i])
    {
      assert InvoiceIds(invs[..i + 1]) == InvoiceIds(invs[..i]) + {invs[i].id};
      statements := statements - {invs[i].id};
      i := i + 1;
    }
    assert invs[..i] == invs;
    app.statementsByInvoice := statements;
    app.invoicesByClient := app.invoicesByClient - {id};
    app.clients := WithoutClient(app.clients, id);
  }

  /** After the deletion no client has the id and every client with another id is still there. */
  lemma DeletionRemovesOnlyTheClient(clients: seq<Client>, id: string, other: Client)
    ensures forall c :: c in WithoutClient(clients, id) ==> c.id != id
    ensures other in clients && other.id != id ==> other in WithoutClient(clients, id)
  {
  }

  // ---------------------------------------------------------------------------
  // Backup
  // ---------------------------------------------------------------------------

  /**
   * `importBackup`: the stored record is replaced by the parsed file only when
   * the file holds a record of version 2 and the user confirms; otherwise the
   * stored record stays.
   */
  function ImportBackup(stored: Option<StoredApp>, parsed: Option<StoredApp>, confirmed: bool): (r: Option<StoredApp>)
    ensures parsed.Some? && parsed.value.v == Some(AppVersion) && confirmed ==> r == parsed
    ensures parsed.None? || parsed.value.v != Some(AppVersion) || !confirmed ==> r == stored
  {
    if parsed.None? || parsed.value.v != Some(AppVersion) then stored
    else if !confirmed then stored
    else parsed
  }

  /** An imported backup is what the next page load reads, with missing collections empty. */
  lemma ImportThenLoad(stored: Option<StoredApp>, parsed: StoredApp)
    requires parsed.v == Some(AppVersion)
    ensures LoadedApp(ImportBackup(stored, Some(parsed), true)).clients == parsed.clients.GetOr([])
    ensures LoadedApp(ImportBackup(stored, Some(parsed), true)).statementsByInvoice == parsed.statementsByInvoice.GetOr(map[])
    ensures LoadedApp(ImportBackup(stored, Some(parsed), false)) == LoadedApp(stored)
  {
  }
}
