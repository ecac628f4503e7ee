/**
 * The accounts page: a ledger keyed by client name, each name holding a
 * list of invoices. The ledger is read back from stored JSON through a
 * lenient normaliser, summarised into totals, and changed by adding,
 * renaming and deleting names.
 */
module Accounts {
  import opened Wrappers
  import opened Text
  import opened Numeric

  // ---------------------------------------------------------------------------
  // Parsed JSON and JavaScript's conversions
  // ---------------------------------------------------------------------------

  /** A parsed JSON value. An object lists its members in order, each key once. */
  datatype Json = JNull | JBool(b: bool) | JNum(x: real) | JStr(s: string) | JArr(items: seq<Json>) | JObj(fields: seq<(string, Json)>)

  /** JavaScript truthiness of a parsed value. */
  predicate Truthy(j: Json) {
    match j
    case JNull => false
    case JBool(b) => b
    case JNum(x) => x != 0.0
    case JStr(s) => s != ""
    case _ => true
  }

  /** `typeof j === 'object'` for a non-null value: arrays and objects. */
  predicate IsObject(j: Json) {
    j.JArr? || j.JObj?
  }

  /** `j[key]`: the member of an object with that key; anything else has no members. */
  function Field(j: Json, key: string): Option<Json> {
    if !j.JObj? then None else FieldOf(j.fields, key)
  }

  /** The value of the first member with the key. */
  function FieldOf(fields: seq<(string, Json)>, key: string): Option<Json> {
    if fields == [] then None
    else if fields[0].0 == key then Some(fields[0].1)
    else FieldOf(fields[1..], key)
  }

  /** A member that is found is a member of the object, under that key. */
  lemma {:induction false} FieldOfFound(fields: seq<(string, Json)>, key: string)
    ensures FieldOf(fields, key).Some? ==> exists i :: 0 <= i < |fields| && fields[i] == (key, FieldOf(fields, key).value)
  {
    if fields != [] && fields[0].0 != key {
      FieldOfFound(fields[1..], key);
      if FieldOf(fields, key).Some? {
        var i :| 0 <= i < |fields[1..]| && fields[1..][i] == (key, FieldOf(fields, key).value);
        assert fields[i + 1] == fields[1..][i];
      }
    } else if fields != [] {
      assert fields[0] == (key, FieldOf(fields, key).value);
    }
  }

  /** `String(j)`, which is also the key a value names when used as a property. */
  function KeyText(j: Json): string {
    match j
    case JNull => "null"
    case JBool(b) => if b then "true" else "false"
    case JNum(x) => NumberText(x)
    case JStr(s) => s
    case JArr(items) => Join(seq(|items|, i requires 0 <= i < |items| => if items[i] == JNull then "" else KeyText(items[i])), ",")
    case JObj(_) => "[object Object]"
  }

  /** `Number(j)`; `None` is `NaN`. Text is read by `StringToNumber`, arrays and objects through their text. */
  function ToNumber(j: Json): (r: Option<real>)
    ensures j.JNum? ==> r == Some(j.x)
    ensures j.JNull? ==> r == Some(0.0)
    ensures j.JObj? ==> r.None?
  {
    match j
    case JNull => Some(0.0)
    case JBool(b) => Some(if b then 1.0 else 0.0)
    case JNum(x) => Some(x)
    case JStr(t) => StringToNumber(t)
    case JArr(_) => StringToNumber(KeyText(j))
    case JObj(_) => None  // "[object Object]" is not a number
  }

  // ---------------------------------------------------------------------------
  // Invoices
  // ---------------------------------------------------------------------------

  /** An invoice of the ledger; the note is absent on the placeholder made for a non-object. */
  datatype AccountInvoice = AccountInvoice(reference: string, price: real, status: string, note: Option<string>)

  /** What `normalizeInvoice` makes of anything that is not an object. */
  const Placeholder: AccountInvoice := AccountInvoice("", 0.0, "", None)

  /** A member that is missing or `null`, which `??` passes over. */
  predicate Nullish(o: Option<Json>) {
    o.None? || o.value == JNull
  }

  /** A text member, or empty text when it is not a string. */
  function TextField(entry: Json, key: string): string {
    match Field(entry, key)
    case Some(JStr(s)) => s
    case _ => ""
  }

  /** `entry.price ?? entry.amount ?? 0`. */
  function PriceSource(entry: Json): Json {
    if !Nullish(Field(entry, "price")) then Field(entry, "price").value
    else if !Nullish(Field(entry, "amount")) then Field(entry, "amount").value
    else JNum(0.0)
  }

  /**
   * `normalizeInvoice`: a non-object becomes the placeholder; an object keeps
   * its text members when they are strings (else empty text) and takes its
   * price from `price`, else `amount`, else 0, with a price that is not a
   * number becoming 0.
   */
  function NormalizeInvoice(entry: Json): (r: AccountInvoice)
    ensures !IsObject(entry) ==> r == Placeholder
    ensures IsObject(entry) ==> r.note.Some?
    ensures Nullish(Field(entry, "price")) && Nullish(Field(entry, "amount")) ==> r.price == 0.0
  {
    if !IsObject(entry) then Placeholder
    else
      AccountInvoice(TextField(entry, "reference"), ToNumber(PriceSource(entry)).GetOr(0.0),
        TextField(entry, "status"), Some(TextField(entry, "note")))
  }

  /** What `normalizeInvoice` keeps of each member. */
  lemma NormalizeInvoiceMembers(entry: Json)
    ensures var r := NormalizeInvoice(entry);
      && (!IsObject(entry) ==> r == Placeholder)
      && (IsObject(entry) ==>
        r.reference == TextField(entry, "reference") && r.status == TextField(entry, "status")
        && r.note == Some(TextField(entry, "note")))
      && (IsObject(entry) && Field(entry, "price").Some? && Field(entry, "price").value.JNum? ==>
        r.price == Field(entry, "price").value.x)
      && (IsObject(entry) && Nullish(Field(entry, "price")) && Field(entry, "amount").Some? && Field(entry, "amount").value.JNum? ==>
        r.price == Field(entry, "amount").value.x)
      && (Nullish(Field(entry, "price")) && Nullish(Field(entry, "amount")) ==> r.price == 0.0)
      && (ToNumber(PriceSource(entry)).None? ==> r.price == 0.0)
  {
  }

  /** `invoices.map(normalizeInvoice)`. */
  function NormalizeInvoices(items: seq<Json>): (r: seq<AccountInvoice>)
    ensures |r| == |items| && forall i :: 0 <= i < |items| ==> r[i] == NormalizeInvoice(items[i])
  {
    seq(|items|, i requires 0 <= i < |items| => NormalizeInvoice(items[i]))
  }

  /** An invoice as `JSON.stringify` writes it; the placeholder has no note member. */
  function InvoiceJson(inv: AccountInvoice): Json {
    JObj([("reference", JStr(inv.reference)), ("price", JNum(inv.price)), ("status", JStr(inv.status))]
      + (if inv.note.Some? then [("note", JStr(inv.note.value))] else []))
  }

  /** A written invoice reads back as itself; the placeholder comes back with an empty note. */
  lemma InvoiceRoundTrip(inv: AccountInvoice)
    ensures NormalizeInvoice(InvoiceJson(inv)) == if inv.note.Some? then inv else inv.(note := Some(""))
  {
    var j := InvoiceJson(inv);
    var f := j.fields;
    assert "reference" != "price" && "reference" != "status" && "reference" != "note";
    assert "price" != "status" && "price" != "note" && "status" != "note";
    assert f[0].0 == "reference" && f[1].0 == "price" && f[2].0 == "status";
    assert f[1..][0] == f[1] && f[2..][0] == f[2] && f[1..][1..] == f[2..];
    assert Field(j, "reference") == Some(JStr(inv.reference));
    assert FieldOf(f, "price") == FieldOf(f[1..], "price") == Some(JNum(inv.price));
    assert FieldOf(f, "status") == FieldOf(f[1..], "status") == FieldOf(f[2..], "status") == Some(JStr(inv.status));
    assert FieldOf(f, "note") == FieldOf(f[1..], "note") == FieldOf(f[2..], "note") == FieldOf(f[3..], "note");
    if inv.note.Some? {
      assert f[3..][0] == f[3];
      assert Field(j, "note") == Some(JStr(inv.note.value));
    } else {
      assert f[3..] == [];
      assert Field(j, "note") == None;
    }
  }

  // ---------------------------------------------------------------------------
  // The ledger: names in insertion order, each with its invoices
  // ---------------------------------------------------------------------------

  datatype Account = Account(name: string, invoices: seq<AccountInvoice>)

  /** `Object.keys(accounts)`. */
  function Names(acc: seq<Account>): (r: seq<string>)
    ensures |r| == |acc| && forall i :: 0 <= i < |acc| ==> r[i] == acc[i].name
  {
    seq(|acc|, i requires 0 <= i < |acc| => acc[i].name)
  }

  /** Each name occurs once, as the keys of an object do. */
  predicate DistinctNames(acc: seq<Account>) {
    forall i, j :: 0 <= i < j < |acc| ==> acc[i].name != acc[j].name
  }

  /** The position of the name, if it is a key. */
  function IndexOf(acc: seq<Account>, name: string): (k: Option<nat>)
    ensures k.Some? ==> k.value < |acc| && acc[k.value].name == name
    ensures k.Some? ==> forall j :: 0 <= j < k.value ==> acc[j].name != name
    ensures k.None? <==> forall j :: 0 <= j < |acc| ==> acc[j].name != name
  {
    if acc == [] then None
    else if acc[0].name == name then Some(0)
    else
      match IndexOf(acc[1..], name)
      case None => None
      case Some(j) => Some(j + 1)
  }

  /** `accounts[name]`: the name's invoices, none when it is not a key. */
  function Lookup(acc: seq<Account>, name: string): (r: Option<seq<AccountInvoice>>)
    ensures r.Some? <==> name in Names(acc)
  {
    match IndexOf(acc, name)
    case None => None
    case Some(k) => Some(acc[k].invoices)
  }

  /**
   * `accounts[name] = invoices`: a key keeps its place and takes the new
   * list; a new key is added last.
   */
  function Put(acc: seq<Account>, name: string, invoices: seq<AccountInvoice>): (r: seq<Account>)
    ensures name in Names(acc) ==> Names(r) == Names(acc)
    ensures name !in Names(acc) ==> r == acc + [Account(name, invoices)]
    ensures DistinctNames(acc) ==> DistinctNames(r)
  {
    match IndexOf(acc, name)
    case None => acc + [Account(name, invoices)]
    case Some(k) =>
      var r := acc[k := Account(name, invoices)];
      assert Names(r) == Names(acc);
      r
  }

  /** After `accounts[name] = invoices` the name reads as the new list and every other name as before. */
  lemma PutLookup(acc: seq<Account>, name: string, invoices: seq<AccountInvoice>)
    ensures Lookup(Put(acc, name, invoices), name) == Some(invoices)
    ensures forall n :: n != name ==> Lookup(Put(acc, name, invoices), n) == Lookup(acc, n)
  {
    match IndexOf(acc, name)
    case None =>
      var r := acc + [Account(name, invoices)];
      forall n | n != name
        ensures IndexOf(r, n) == IndexOf(acc, n)
      {
        IndexOfAppend(acc, Account(name, invoices), n);
      }
      IndexOfAppend(acc, Account(name, invoices), name);
    case Some(k) =>
      var r := acc[k := Account(name, invoices)];
      forall n | n != name
        ensures IndexOf(r, n) == IndexOf(acc, n)
      {
        IndexOfReplace(acc, k, invoices, n);
      }
      IndexOfReplace(acc, k, invoices, name);
  }

  lemma IndexOfAppend(acc: seq<Account>, a: Account, n: string)
    ensures IndexOf(acc + [a], n) == if IndexOf(acc, n).Some? then IndexOf(acc, n) else if a.name == n then Some(|acc|) else None
  {
    var r := acc + [a];
    assert forall j :: 0 <= j < |acc| ==> r[j] == acc[j];
    assert r[|acc|] == a;
  }

  lemma IndexOfReplace(acc: seq<Account>, k: nat, invoices: seq<AccountInvoice>, n: string)
    requires k < |acc|
    ensures IndexOf(acc[k := Account(acc[k].name, invoices)], n) == IndexOf(acc, n)
  {
    var r := acc[k := Account(acc[k].name, invoices)];
    assert forall j :: 0 <= j < |acc| ==> r[j].name == acc[j].name;
  }

  /** `delete accounts[name]`: every entry with another name stays, in order. */
  function Remove(acc: seq<Account>, name: string): (r: seq<Account>)
    ensures forall a :: a in r <==> a in acc && a.name != name
    ensures |r| <= |acc|
  {
    if acc == [] then [] else (if acc[0].name == name then [] else [acc[0]]) + Remove(acc[1..], name)
  }

  /** Deleting a key keeps the names distinct. */
  lemma {:induction false} RemoveDistinct(acc: seq<Account>, name: string)
    requires DistinctNames(acc)
    ensures DistinctNames(Remove(acc, name))
  {
    if acc != [] {
      var rest := Remove(acc[1..], name);
      assert DistinctNames(acc[1..]);
      RemoveDistinct(acc[1..], name);
      if acc[0].name != name {
        var r := [acc[0]] + rest;
        forall i, j | 0 <= i < j < |r|
          ensures r[i].name != r[j].name
        {
          if i == 0 {
            assert r[j] in rest;
            assert r[j] in acc[1..];
            var k :| 0 <= k < |acc[1..]| && acc[1..][k] == r[j];
            assert acc[k + 1] == r[j];
          } else {
            assert r[i] == rest[i - 1] && r[j] == rest[j - 1];
          }
        }
      }
    }
  }

  /** With distinct names, a name's invoices are those of its one entry. */
  lemma LookupMember(acc: seq<Account>, n: string, invoices: seq<AccountInvoice>)
    requires DistinctNames(acc)
    ensures Lookup(acc, n) == Some(invoices) <==> Account(n, invoices) in acc
  {
    if Account(n, invoices) in acc {
      var i :| 0 <= i < |acc| && acc[i] == Account(n, invoices);
      assert IndexOf(acc, n) == Some(i);
    }
  }

  /** After `delete accounts[name]` the name is gone and every other name reads as before. */
  lemma RemoveLookup(acc: seq<Account>, name: string)
    requires DistinctNames(acc)
    ensures DistinctNames(Remove(acc, name))
    ensures Lookup(Remove(acc, name), name).None?
    ensures forall n :: n != name ==> Lookup(Remove(acc, name), n) == Lookup(acc, n)
  {
    var r := Remove(acc, name);
    RemoveDistinct(acc, name);
    forall n | n != name
      ensures Lookup(r, n) == Lookup(acc, n)
    {
      if Lookup(acc, n).Some? {
        LookupMember(acc, n, Lookup(acc, n).value);
        LookupMember(r, n, Lookup(acc, n).value);
      } else if Lookup(r, n).Some? {
        LookupMember(r, n, Lookup(r, n).value);
        LookupMember(acc, n, Lookup(r, n).value);
      }
    }
  }

  // ---------------------------------------------------------------------------
  // Reading a ledger from JSON
  // ---------------------------------------------------------------------------

  /** The member is present and truthy. */
  predicate IsTruthy(o: Option<Json>) {
    o.Some? && Truthy(o.value)
  }

  /** `entry.name || entry.client || entry.title`, when one of them is truthy. */
  function EntryName(entry: Json): (r: Option<Json>)
    ensures r.Some? ==> Truthy(r.value)
    ensures r.None? <==> !IsTruthy(Field(entry, "name")) && !IsTruthy(Field(entry, "client")) && !IsTruthy(Field(entry, "title"))
  {
    if IsTruthy(Field(entry, "name")) then Field(entry, "name")
    else if IsTruthy(Field(entry, "client")) then Field(entry, "client")
    else if IsTruthy(Field(entry, "title")) then Field(entry, "title")
    else None
  }

  /** The invoices of an array entry: its `invoices` array, else its `entries` array, else none. */
  function EntryInvoices(entry: Json): seq<Json> {
    match Field(entry, "invoices")
    case Some(JArr(xs)) => xs
    case _ =>
      match Field(entry, "entries")
      case Some(JArr(ys)) => ys
      case _ => []
  }

  /** One step over an array of entries: an object with a name files its invoices under that name. */
  function EntryStep(acc: seq<Account>, entry: Json): seq<Account> {
    if IsObject(entry) && EntryName(entry).Some? then
      Put(acc, KeyText(EntryName(entry).value), NormalizeInvoices(EntryInvoices(entry)))
    else acc
  }

  /** The ledger an array of entries gives, entry by entry. */
  function FromEntries(items: seq<Json>): seq<Account> {
    if items == [] then [] else EntryStep(FromEntries(items[..|items| - 1]), items[|items| - 1])
  }

  /** The invoices of an object member: the value when it is an array, else its `invoices` array, else none. */
  function FieldInvoices(value: Json): (r: seq<Json>)
    ensures !value.JArr? && !(Field(value, "invoices").Some? && Field(value, "invoices").value.JArr?) ==> r == []
  {
    match value
    case JArr(xs) => xs
    case _ =>
      match Field(value, "invoices")
      case Some(JArr(xs)) => xs
      case _ => []
  }

  /** One step over the members of an object: a member with a non-empty key files its invoices under that key. */
  function FieldStep(acc: seq<Account>, field: (string, Json)): seq<Account> {
    if field.0 == "" then acc else Put(acc, field.0, NormalizeInvoices(FieldInvoices(field.1)))
  }

  /** The ledger the members of an object give, member by member. */
  function FromFields(fields: seq<(string, Json)>): seq<Account> {
    if fields == [] then [] else FieldStep(FromFields(fields[..|fields| - 1]), fields[|fields| - 1])
  }

  /** `Object.entries` of a string: each index, as text, with its character. */
  function StringEntries(s: string): (r: seq<(string, Json)>)
    ensures |r| == |s|
  {
    seq(|s|, i requires 0 <= i < |s| => (NatText(i), JStr([s[i]])))
  }

  /** The ledger `normalizeAccounts` builds: nothing for a falsy value, entry by entry for an array, member by member otherwise. */
  function NormalizedAccounts(raw: Json): (r: seq<Account>)
    ensures !Truthy(raw) || raw.JNum? || raw.JBool? ==> r == []
  {
    if !Truthy(raw) then []
    else
      match raw
      case JArr(items) => FromEntries(items)
      case JObj(fields) => FromFields(fields)
      case JStr(s) => FromFields(StringEntries(s))
      case _ => []
  }

  /** `normalizeAccounts`, with its two loops. */
  method NormalizeAccounts(raw: Json) returns (acc: seq<Account>)
    ensures acc == NormalizedAccounts(raw)
  {
    acc := [];
    if !Truthy(raw) {
      return;
    }
    if raw.JArr? {
      var items := raw.items;
      var i := 0;
      while i < |items|
        invariant 0 <= i <= |items|
        invariant acc == FromEntries(items[..i])
      {
        FromEntriesStep(items, i);
        acc := EntryStep(acc, items[i]);
        i := i + 1;
      }
      assert items[..i] == items;
      return;
    }
    var fields := match raw
      case JObj(fs) => fs
      case JStr(t) => StringEntries(t)
      case _ => [];
    var i := 0;
    while i < |fields|
      invariant 0 <= i <= |fields|
      invariant acc == FromFields(fields[..i])
    {
      FromFieldsStep(fields, i);
      acc := FieldStep(acc, fields[i]);
      i := i + 1;
    }
    assert fields[..i] == fields;
  }

  lemma FromEntriesStep(items: seq<Json>, i: nat)
    requires i < |items|
    ensures FromEntries(items[..i + 1]) == EntryStep(FromEntries(items[..i]), items[i])
  {
    assert items[..i + 1][..i] == items[..i];
  }

  lemma FromFieldsStep(fields: seq<(string, Json)>, i: nat)
    requires i < |fields|
    ensures FromFields(fields[..i + 1]) == FieldStep(FromFields(fields[..i]), fields[i])
  {
    assert fields[..i + 1][..i] == fields[..i];
  }

  /** A normalised ledger never holds a name twice. */
  lemma {:induction false} FromEntriesDistinct(items: seq<Json>)
    ensures DistinctNames(FromEntries(items))
  {
    if items != [] {
      FromEntriesDistinct(items[..|items| - 1]);
    }
  }

  lemma {:induction false} FromFieldsDistinct(fields: seq<(string, Json)>)
    ensures DistinctNames(FromFields(fields))
  {
    if fields != [] {
      FromFieldsDistinct(fields[..|fields| - 1]);
    }
  }

  lemma NormalizedDistinct(raw: Json)
    ensures DistinctNames(NormalizedAccounts(raw))
  {
    match raw
    case JArr(items) => FromEntriesDistinct(items);
    case JObj(fields) => FromFieldsDistinct(fields);
    case JStr(t) => FromFieldsDistinct(StringEntries(t));
    case _ =>
  }

  /** An array entry that is not an object or has no truthy name is skipped. */
  lemma NamelessEntrySkipped(items: seq<Json>, entry: Json)
    requires !IsObject(entry) || EntryName(entry).None?
    ensures FromEntries(items + [entry]) == FromEntries(items)
  {
    assert (items + [entry])[..|items|] == items;
  }

  /** A named array entry files its invoices under its name, whatever came before. */
  lemma NamedEntryFiled(items: seq<Json>, entry: Json)
    requires IsObject(entry) && EntryName(entry).Some?
    ensures Lookup(FromEntries(items + [entry]), KeyText(EntryName(entry).value)) == Some(NormalizeInvoices(EntryInvoices(entry)))
  {
    assert (items + [entry])[..|items|] == items;
    PutLookup(FromEntries(items), KeyText(EntryName(entry).value), NormalizeInvoices(EntryInvoices(entry)));
  }

  /** The keys of a member list are distinct. */
  predicate DistinctKeys(fields: seq<(string, Json)>) {
    forall i, j :: 0 <= i < j < |fields| ==> fields[i].0 != fields[j].0
  }

  /**
   * Each member of an object with a non-empty key is filed under its key with
   * its invoices; a value that is neither an array nor an object with an
   * `invoices` array gives an empty list.
   */
  lemma {:induction false} MemberFiled(fields: seq<(string, Json)>, i: nat)
    requires DistinctKeys(fields) && i < |fields| && fields[i].0 != ""
    ensures Lookup(FromFields(fields), fields[i].0) == Some(NormalizeInvoices(FieldInvoices(fields[i].1)))
  {
    var n := |fields|;
    var front, last := fields[..n - 1], fields[n - 1];
    var before := FromFields(front);
    assert FromFields(fields) == FieldStep(before, last);
    if i < n - 1 {
      assert front[i] == fields[i];
      assert DistinctKeys(front);
      MemberFiled(front, i);
      assert last.0 != fields[i].0;
      if last.0 != "" {
        PutLookup(before, last.0, NormalizeInvoices(FieldInvoices(last.1)));
      }
    } else {
      PutLookup(before, last.0, NormalizeInvoices(FieldInvoices(last.1)));
    }
  }

  // ---------------------------------------------------------------------------
  // Writing a ledger to JSON and reading it back
  // ---------------------------------------------------------------------------

  /** The invoices as `JSON.stringify` writes them. */
  function InvoicesJson(invoices: seq<AccountInvoice>): (r: seq<Json>)
    ensures |r| == |invoices| && forall i :: 0 <= i < |invoices| ==> r[i] == InvoiceJson(invoices[i])
  {
    seq(|invoices|, i requires 0 <= i < |invoices| => InvoiceJson(invoices[i]))
  }

  /** `JSON.stringify(accounts)`: one member per name, in order, holding the invoice array. */
  function AccountsJson(acc: seq<Account>): (j: Json)
    ensures j.JObj? && |j.fields| == |acc|
    ensures forall i :: 0 <= i < |acc| ==> j.fields[i] == (acc[i].name, JArr(InvoicesJson(acc[i].invoices)))
  {
    JObj(seq(|acc|, i requires 0 <= i < |acc| => (acc[i].name, JArr(InvoicesJson(acc[i].invoices)))))
  }

  /** Every invoice carries a note, as every invoice read from an object does. */
  predicate NotesPresent(acc: seq<Account>) {
    forall i, k :: 0 <= i < |acc| && 0 <= k < |acc[i].invoices| ==> acc[i].invoices[k].note.Some?
  }

  lemma InvoicesRoundTrip(invoices: seq<AccountInvoice>)
    requires forall k :: 0 <= k < |invoices| ==> invoices[k].note.Some?
    ensures NormalizeInvoices(InvoicesJson(invoices)) == invoices
  {
    forall k | 0 <= k < |invoices|
      ensures NormalizeInvoice(InvoicesJson(invoices)[k]) == invoices[k]
    {
      InvoiceRoundTrip(invoices[k]);
    }
  }

  /** A ledger that survives being written and read back: distinct, non-empty names, and a note on every invoice. */
  predicate Persistable(acc: seq<Account>) {
    DistinctNames(acc) && NotesPresent(acc) && forall i :: 0 <= i < |acc| ==> acc[i].name != ""
  }

  /**
   * `persist` then `loadAccounts`: a ledger with distinct, non-empty names
   * whose invoices all carry a note is read back exactly.
   */
  lemma PersistRoundTrip(acc: seq<Account>)
    requires Persistable(acc)
    ensures NormalizedAccounts(AccountsJson(acc)) == acc
  {
    MembersRoundTrip(acc);
  }

  /** Reading back the members written for a persistable ledger, member by member, gives the ledger. */
  lemma {:induction false} MembersRoundTrip(acc: seq<Account>)
    requires Persistable(acc)
    ensures FromFields(AccountsJson(acc).fields) == acc
  {
    if acc != [] {
      var front, last := acc[..|acc| - 1], acc[|acc| - 1];
      PersistableSplit(acc);
      MembersRoundTrip(front);
      assert acc == front + [last];
      AccountsJsonSnoc(front, last);
      FromFieldsSnoc(AccountsJson(front).fields, (last.name, JArr(InvoicesJson(last.invoices))));
      FieldStepAppends(front, last);
    }
  }

  /** Writing one more account writes one more member. */
  lemma AccountsJsonSnoc(front: seq<Account>, last: Account)
    ensures AccountsJson(front + [last]).fields == AccountsJson(front).fields + [(last.name, JArr(InvoicesJson(last.invoices)))]
  {
  }

  /** Reading one more member is one more step. */
  lemma FromFieldsSnoc(fields: seq<(string, Json)>, member: (string, Json))
    ensures FromFields(fields + [member]) == FieldStep(FromFields(fields), member)
  {
    assert (fields + [member])[..|fields|] == fields;
  }

  /** A persistable ledger is a persistable ledger followed by an account with a new, non-empty name and noted invoices. */
  lemma PersistableSplit(acc: seq<Account>)
    requires acc != [] && Persistable(acc)
    ensures var front, last := acc[..|acc| - 1], acc[|acc| - 1];
      Persistable(front) && last.name != "" && last.name !in Names(front)
      && forall k :: 0 <= k < |last.invoices| ==> last.invoices[k].note.Some?
  {
    var front := acc[..|acc| - 1];
    assert forall i :: 0 <= i < |front| ==> Names(front)[i] == acc[i].name;
  }

  /** The member written for an account with a new name appends that account when read back. */
  lemma FieldStepAppends(before: seq<Account>, last: Account)
    requires last.name != "" && last.name !in Names(before)
    requires forall k :: 0 <= k < |last.invoices| ==> last.invoices[k].note.Some?
    ensures FieldStep(before, (last.name, JArr(InvoicesJson(last.invoices)))) == before + [last]
  {
    InvoicesRoundTrip(last.invoices);
  }

  /** `loadAccounts`: nothing stored or unreadable text gives an empty ledger, else the normalised one. */
  function LoadedAccounts(stored: Option<Json>): (acc: seq<Account>)
    ensures DistinctNames(acc)
    ensures stored.None? ==> acc == []
  {
    if stored.None? then []
    else
      NormalizedDistinct(stored.value);
      NormalizedAccounts(stored.value)
  }

  // ---------------------------------------------------------------------------
  // Totals
  // ---------------------------------------------------------------------------

  /** The sum of the prices of the invoices. */
  function PriceSum(invoices: seq<AccountInvoice>): real {
    if invoices == [] then 0.0 else PriceSum(invoices[..|invoices| - 1]) + invoices[|invoices| - 1].price
  }

  /** The number of invoices over all names. */
  function InvoiceCount(acc: seq<Account>): nat {
    if acc == [] then 0 else InvoiceCount(acc[..|acc| - 1]) + |acc[|acc| - 1].invoices|
  }

  /** The sum of all prices over all names. */
  function Balance(acc: seq<Account>): real {
    if acc == [] then 0.0 else Balance(acc[..|acc| - 1]) + PriceSum(acc[|acc| - 1].invoices)
  }

  /** The largest total of a name, or 0 when none is positive. */
  function TopTotal(acc: seq<Account>): (t: real)
    ensures t >= 0.0
    ensures forall k :: 0 <= k < |acc| ==> PriceSum(acc[k].invoices) <= t
    ensures t > 0.0 ==> exists k :: 0 <= k < |acc| && PriceSum(acc[k].invoices) == t
  {
    if acc == [] then 0.0
    else
      var front := TopTotal(acc[..|acc| - 1]);
      var last := PriceSum(acc[|acc| - 1].invoices);
      assert forall k :: 0 <= k < |acc| - 1 ==> acc[..|acc| - 1][k] == acc[k];
      if last > front then last else front
  }

  /** What `computeTotals` reports. */
  datatype Totals = Totals(clients: nat, invoices: nat, balance: real, topClient: string, topClientTotal: real)

  /**
   * `computeTotals`: the number of names, the number of invoices, the sum of
   * all prices, and the first name whose total is the largest, provided that
   * total is positive (else no name and 0).
   */
  method ComputeTotals(acc: seq<Account>) returns (t: Totals)
    ensures t.clients == |acc| && t.invoices == InvoiceCount(acc) && t.balance == Balance(acc)
    ensures t.topClientTotal == TopTotal(acc)
    ensures t.topClientTotal == 0.0 ==> t.topClient == ""
    ensures t.topClientTotal > 0.0 ==>
      exists k :: (0 <= k < |acc| && acc[k].name == t.topClient && PriceSum(acc[k].invoices) == t.topClientTotal
        && forall j :: 0 <= j < k ==> PriceSum(acc[j].invoices) < t.topClientTotal)
  {
    var invoices, balance, topClient, topTotal := 0, 0.0, "", 0.0;
    ghost var topIndex := 0;
    var i := 0;
    while i < |acc|
      invariant 0 <= i <= |acc|
      invariant invoices == InvoiceCount(acc[..i]) && balance == Balance(acc[..i])
      invariant topTotal == TopTotal(acc[..i])
      invariant topTotal == 0.0 ==> topClient == ""
      invariant topTotal > 0.0 ==>
        topIndex < i && acc[topIndex].name == topClient && PriceSum(acc[topIndex].invoices) == topTotal
        && forall j :: 0 <= j < topIndex ==> PriceSum(acc[j].invoices) < topTotal
    {
      assert acc[..i + 1][..i] == acc[..i];
      assert forall j :: 0 <= j < i ==> acc[..i][j] == acc[j];
      var total := PriceSum(acc[i].invoices);
      invoices := invoices + |acc[i].invoices|;
      balance := balance + total;
      if total > topTotal {
        topTotal, topClient := total, acc[i].name;
        topIndex := i;
      }
      i := i + 1;
    }
    assert acc[..i] == acc;
    t := Totals(|acc|, invoices, balance, topClient, topTotal);
  }

  lemma {:induction false} BalanceConcat(a: seq<Account>, b: seq<Account>)
    ensures Balance(a + b) == Balance(a) + Balance(b)
    ensures InvoiceCount(a + b) == InvoiceCount(a) + InvoiceCount(b)
  {
    if b == [] {
      assert a + b == a;
    } else {
      assert (a + b)[..|a + b| - 1] == a + b[..|b| - 1];
      BalanceConcat(a, b[..|b| - 1]);
    }
  }

  /** Deleting a name takes exactly its invoices out of the totals. */
  lemma {:induction false} RemoveTotals(acc: seq<Account>, name: string)
    requires DistinctNames(acc) && Lookup(acc, name).Some?
    ensures Balance(Remove(acc, name)) == Balance(acc) - PriceSum(Lookup(acc, name).value)
    ensures InvoiceCount(Remove(acc, name)) == InvoiceCount(acc) - |Lookup(acc, name).value|
    ensures |Remove(acc, name)| == |acc| - 1
    decreases |acc|, 1
  {
    if acc[0].name == name {
      RemoveHead(acc, name);
      DropHeadTotals(acc);
    } else {
      RemoveHeadKept(acc, name);
    }
  }

  lemma RemoveHead(acc: seq<Account>, name: string)
    requires DistinctNames(acc) && acc != [] && acc[0].name == name
    ensures Lookup(acc, name) == Some(acc[0].invoices)
    ensures Remove(acc, name) == acc[1..]
  {
    var rest := acc[1..];
    assert forall j :: 0 <= j < |rest| ==> rest[j].name != name by {
      forall j | 0 <= j < |rest|
        ensures rest[j].name != name
      {
        assert rest[j] == acc[j + 1];
      }
    }
    RemoveNothing(rest, name);
  }

  /** The first account's invoices, taken out of the totals. */
  lemma DropHeadTotals(acc: seq<Account>)
    requires acc != []
    ensures Balance(acc[1..]) == Balance(acc) - PriceSum(acc[0].invoices)
    ensures InvoiceCount(acc[1..]) == InvoiceCount(acc) - |acc[0].invoices|
  {
    var head, rest := acc[0], acc[1..];
    assert acc == [head] + rest;
    BalanceConcat([head], rest);
    assert [head][..0] == [];
  }

  lemma RemoveHeadKept(acc: seq<Account>, name: string)
    requires DistinctNames(acc) && Lookup(acc, name).Some? && acc[0].name != name
    ensures Balance(Remove(acc, name)) == Balance(acc) - PriceSum(Lookup(acc, name).value)
    ensures InvoiceCount(Remove(acc, name)) == InvoiceCount(acc) - |Lookup(acc, name).value|
    ensures |Remove(acc, name)| == |acc| - 1
    decreases |acc|, 0
  {
    var head, rest := acc[0], acc[1..];
    assert acc == [head] + rest;
    assert DistinctNames(rest);
    assert Lookup(rest, name) == Lookup(acc, name);
    RemoveTotals(rest, name);
    assert Remove(acc, name) == [head] + Remove(rest, name);
    BalanceConcat([head], rest);
    BalanceConcat([head], Remove(rest, name));
  }

  lemma {:induction false} RemoveNothing(acc: seq<Account>, name: string)
    requires forall j :: 0 <= j < |acc| ==> acc[j].name != name
    ensures Remove(acc, name) == acc
  {
    if acc != [] {
      RemoveNothing(acc[1..], name);
    }
  }

  // ---------------------------------------------------------------------------
  // Names
  // ---------------------------------------------------------------------------

  /** The first name equal to `target` once both are in lower case. */
  function FindName(names: seq<string>, target: string): (r: Option<nat>)
    ensures r.Some? ==> r.value < |names| && Lower(names[r.value]) == Lower(target)
    ensures r.Some? ==> forall j :: 0 <= j < r.value ==> Lower(names[j]) != Lower(target)
    ensures r.None? <==> forall j :: 0 <= j < |names| ==> Lower(names[j]) != Lower(target)
  {
    if names == [] then None
    else if Lower(names[0]) == Lower(target) then Some(0)
    else
      match FindName(names[1..], target)
      case None => None
      case Some(j) => Some(j + 1)
  }

  /**
   * `findExistingName`: the first name equal to `name` ignoring case, or none
   * (an empty name found this way also counts as none).
   */
  function FindExistingName(acc: seq<Account>, name: string): (r: Option<string>)
    ensures r.Some? ==> r.value in Names(acc) && Lower(r.value) == Lower(name) && r.value != ""
    ensures name != "" ==> (r.None? <==> forall j :: 0 <= j < |acc| ==> Lower(acc[j].name) != Lower(name))
    ensures r.Some? ==> exists k :: (0 <= k < |acc| && acc[k].name == r.value
      && forall j :: 0 <= j < k ==> Lower(acc[j].name) != Lower(name))
  {
    match FindName(Names(acc), name)
    case None => None
    case Some(k) => if Names(acc)[k] == "" then None else Some(Names(acc)[k])
  }

  // ---------------------------------------------------------------------------
  // Change indicators
  // ---------------------------------------------------------------------------

  /** `formatCurrency`: the amount rounded to a whole number, formatted, then the dinar sign. */
  function FormatCurrency(amount: real, formatNumber: real -> string): string {
    formatNumber(Round(amount) as real) + " د.ع"
  }

  /** The formatted size of a change, as money or as a count. */
  function Magnitude(delta: real, isCurrency: bool, formatNumber: real -> string): string {
    if isCurrency then FormatCurrency(delta, formatNumber) else formatNumber(delta)
  }

  const NoPrevious: string := "—"
  const NoChange: string := "بدون تغيير"

  /**
   * `formatDelta`: a dash without a previous value, "no change" for equal
   * values, else an up or down arrow and the size of the change.
   * `formatNumber` stands for the locale's number formatter.
   */
  function FormatDelta(current: real, previous: Option<real>, isCurrency: bool, formatNumber: real -> string): (r: string)
    ensures previous.None? ==> r == NoPrevious
    ensures previous.Some? && current == previous.value ==> r == NoChange
    ensures previous.Some? && current > previous.value ==> r == "▲ " + Magnitude(current - previous.value, isCurrency, formatNumber)
    ensures previous.Some? && current < previous.value ==> r == "▼ " + Magnitude(previous.value - current, isCurrency, formatNumber)
  {
    if previous.None? then NoPrevious
    else
      var delta := current - previous.value;
      if delta == 0.0 then NoChange
      else
        var magnitude := if delta < 0.0 then -delta else delta;
        (if delta > 0.0 then "▲ " else "▼ ") + Magnitude(magnitude, isCurrency, formatNumber)
  }

  /** Swapping the two values turns the arrow round and keeps the size. */
  lemma FormatDeltaSwap(a: real, b: real, isCurrency: bool, formatNumber: real -> string)
    requires a != b
    ensures var up, down := FormatDelta(a, Some(b), isCurrency, formatNumber), FormatDelta(b, Some(a), isCurrency, formatNumber);
      |up| >= 2 && |down| >= 2 && up[2..] == down[2..] && {up[0], down[0]} == {'▲', '▼'}
  {
  }

  // ---------------------------------------------------------------------------
  // Renaming
  // ---------------------------------------------------------------------------

  /**
   * The rename of `handleEditSubmit`: the new name takes the old name's
   * invoices (none when the old name is not a key), then the old name is
   * deleted.
   */
  function Renamed(acc: seq<Account>, from: string, to: string): (r: seq<Account>)
    requires DistinctNames(acc)
    ensures DistinctNames(r)
  {
    var put := Put(acc, to, Lookup(acc, from).GetOr([]));
    RemoveDistinct(put, from);
    Remove(put, from)
  }

  /** The new name holds the old name's invoices, the old name is gone, every other name reads as before. */
  lemma RenamedLookup(acc: seq<Account>, from: string, to: string)
    requires DistinctNames(acc) && from != to
    ensures Lookup(Renamed(acc, from, to), to) == Some(Lookup(acc, from).GetOr([]))
    ensures Lookup(Renamed(acc, from, to), from).None?
    ensures forall n :: n != from && n != to ==> Lookup(Renamed(acc, from, to), n) == Lookup(acc, n)
  {
    var put := Put(acc, to, Lookup(acc, from).GetOr([]));
    PutLookup(acc, to, Lookup(acc, from).GetOr([]));
    RemoveLookup(put, from);
  }

  /** Renaming to a name that is not yet a key keeps the balance. */
  lemma RenameKeepsBalance(acc: seq<Account>, from: string, to: string)
    requires DistinctNames(acc) && from != to && from in Names(acc) && to !in Names(acc)
    ensures Balance(Renamed(acc, from, to)) == Balance(acc)
  {
    var invoices := Lookup(acc, from).value;
    var ext := acc + [Account(to, invoices)];
    RenamedAppends(acc, from, to);
    RemoveTotals(ext, from);
    BalanceAppend(acc, Account(to, invoices));
  }

  /** Renaming to a name that is not yet a key keeps the number of names and of invoices. */
  lemma RenameKeepsCounts(acc: seq<Account>, from: string, to: string)
    requires DistinctNames(acc) && from != to && from in Names(acc) && to !in Names(acc)
    ensures |Renamed(acc, from, to)| == |acc|
    ensures InvoiceCount(Renamed(acc, from, to)) == InvoiceCount(acc)
  {
    var invoices := Lookup(acc, from).value;
    var ext := acc + [Account(to, invoices)];
    RenamedAppends(acc, from, to);
    RemoveTotals(ext, from);
    BalanceAppend(acc, Account(to, invoices));
  }

  /** Renaming onto a fresh name appends the moved entry and then deletes the old one. */
  lemma RenamedAppends(acc: seq<Account>, from: string, to: string)
    requires DistinctNames(acc) && from != to && from in Names(acc) && to !in Names(acc)
    ensures var ext := acc + [Account(to, Lookup(acc, from).value)];
      Renamed(acc, from, to) == Remove(ext, from) && DistinctNames(ext) && Lookup(ext, from) == Lookup(acc, from)
  {
    PutLookup(acc, to, Lookup(acc, from).value);
  }

  lemma BalanceAppend(acc: seq<Account>, a: Account)
    ensures Balance(acc + [a]) == Balance(acc) + PriceSum(a.invoices)
    ensures InvoiceCount(acc + [a]) == InvoiceCount(acc) + |a.invoices|
  {
    assert (acc + [a])[..|acc|] == acc;
  }

  /**
   * A rename that differs only in letter case passes the clash check even
   * when the new name is already another key: that key's invoices are
   * replaced and lost.
   */
  lemma RenameOntoCaseTwin(mine: AccountInvoice, theirs: AccountInvoice)
    ensures var acc := [Account("Ali", [mine]), Account("ALI", [theirs])];
      DistinctNames(acc)
      && FindExistingName(acc, "ALI") == Some("Ali")
      && Renamed(acc, "Ali", "ALI") == [Account("ALI", [mine])]
  {
    var acc := [Account("Ali", [mine]), Account("ALI", [theirs])];
    assert Lower("Ali") == "ali" == Lower("ALI");
    assert Names(acc) == ["Ali", "ALI"];
    assert FindName(Names(acc), "ALI") == Some(0);
    assert IndexOf(acc, "Ali") == Some(0);
    assert IndexOf(acc, "ALI") == Some(1);
    var put := Put(acc, "ALI", [mine]);
    assert put == [Account("Ali", [mine]), Account("ALI", [mine])];
    assert Remove(put, "Ali") == [Account("ALI", [mine])];
  }

  // ---------------------------------------------------------------------------
  // The page state
  // ---------------------------------------------------------------------------

  /** What `handleAddClient` did. */
  datatype AddOutcome = BlankName | AlreadyThere(existing: string) | Added(name: string)

  /** What `handleEditSubmit` did. */
  datatype EditOutcome = NotEditing | EmptyName | NameTaken(existing: string) | SameName | RenamedTo(name: string)

  /** `loadAccounts`. */
  method LoadAccounts(stored: Option<Json>) returns (acc: seq<Account>)
    ensures acc == LoadedAccounts(stored)
  {
    if stored.None? {
      return [];
    }
    acc := NormalizeAccounts(stored.value);
  }

  /**
   * The decision `handleEditSubmit` takes: nothing is being edited without a
   * selection; a blank name is refused; a name that belongs, ignoring case, to
   * another key is refused; a different name renames; the same name only
   * closes the dialog.
   */
  function EditDecision(accounts: seq<Account>, selection: Option<string>, input: string): (o: EditOutcome)
    ensures o.NotEditing? <==> selection.None? || selection.value == ""
    ensures !o.NotEditing? ==> (o.EmptyName? <==> Trim(input) == "")
    ensures !o.NotEditing? ==>
      var existing := FindExistingName(accounts, Trim(input));
      (o.NameTaken? <==> Trim(input) != "" && existing.Some? && existing.value != selection.value)
      && (o.NameTaken? ==> o.existing == existing.value)
      && (o.RenamedTo? <==> Trim(input) != "" && (existing.None? || existing.value == selection.value) && Trim(input) != selection.value)
    ensures o.RenamedTo? ==> o.name == Trim(input)
  {
    if selection.None? || selection.value == "" then NotEditing
    else
      var name := Trim(input);
      if name == "" then EmptyName
      else
        var existing := FindExistingName(accounts, name);
        if existing.Some? && existing.value != selection.value then NameTaken(existing.value)
        else if name != selection.value then RenamedTo(name)
        else SameName
  }

  /** The page's `state`: the ledger, the search filter, the selected name and the delete mode. */
  class AccountsPage {
    var accounts: seq<Account>
    var filter: string
    var selection: Option<string>
    var deleteMode: string

    /** The ledger never holds a name twice. */
    predicate Valid()
      reads this
    {
      DistinctNames(accounts)
    }

    constructor (stored: Option<Json>)
      ensures Valid()
      ensures accounts == LoadedAccounts(stored) && filter == "" && selection.None? && deleteMode == "single"
    {
      var loaded := LoadAccounts(stored);
      accounts, filter, selection, deleteMode := loaded, "", None, "single";
    }

    /** `handleSearch`: the filter is the input, trimmed and in lower case. */
    method Search(input: string)
      modifies this
      ensures filter == Lower(Trim(input))
      ensures accounts == old(accounts) && selection == old(selection) && deleteMode == old(deleteMode)
    {
      filter := Lower(Trim(input));
    }

    /**
     * `handleAddClient`: a blank name is refused, a name already present
     * ignoring case is reported, anything else is added last with no invoices.
     */
    method AddClient(input: string) returns (outcome: AddOutcome)
      requires Valid()
      modifies this
      ensures Valid()
      ensures filter == old(filter) && selection == old(selection) && deleteMode == old(deleteMode)
      ensures outcome.BlankName? <==> Trim(input) == ""
      ensures outcome.AlreadyThere? <==> Trim(input) != "" && FindExistingName(old(accounts), Trim(input)).Some?
      ensures outcome.AlreadyThere? ==> outcome.existing == FindExistingName(old(accounts), Trim(input)).value
      ensures !outcome.Added? ==> accounts == old(accounts)
      ensures outcome.Added? ==> outcome.name == Trim(input) && accounts == old(accounts) + [Account(Trim(input), [])]
    {
      var name := Trim(input);
      if name == "" {
        return BlankName;
      }
      var existing := FindExistingName(accounts, name);
      if existing.Some? {
        return AlreadyThere(existing.value);
      }
      assert name !in Names(accounts);
      accounts := Put(accounts, name, []);
      outcome := Added(name);
    }

    /** `openEditDialog` and `openDeleteDialog`: the name becomes the selection, for deleting one name. */
    method Select(name: string, forDelete: bool)
      modifies this
      ensures selection == Some(name) && accounts == old(accounts) && filter == old(filter)
      ensures deleteMode == if forDelete then "single" else old(deleteMode)
    {
      selection := Some(name);
      if forDelete {
        deleteMode := "single";
      }
    }

    /** `requestClearAll`: nothing selected, delete everything. */
    method RequestClearAll()
      modifies this
      ensures selection.None? && deleteMode == "all" && accounts == old(accounts) && filter == old(filter)
    {
      selection, deleteMode := None, "all";
    }

    /**
     * `handleEditSubmit`: without a selection, with a blank name or with a
     * name that belongs (ignoring case) to another key nothing changes;
     * otherwise the selected name is renamed and the selection cleared.
     */
    method EditSubmit(input: string) returns (outcome: EditOutcome)
      requires Valid()
      modifies this
      ensures Valid()
      ensures filter == old(filter) && deleteMode == old(deleteMode)
      ensures outcome == EditDecision(old(accounts), old(selection), input)
      ensures outcome.RenamedTo? ==> accounts == Renamed(old(accounts), old(selection).value, outcome.name)
      ensures !outcome.RenamedTo? ==> accounts == old(accounts)
      ensures selection == if outcome.SameName? || outcome.RenamedTo? then None else old(selection)
    {
      outcome := EditDecision(accounts, selection, input);
      match outcome
      case RenamedTo(name) =>
        accounts := Renamed(accounts, selection.value, name);
        selection := None;
      case SameName =>
        selection := None;
      case _ =>
    }

    /**
     * `handleDeleteSubmit`: in mode "all" the ledger is emptied; otherwise the
     * selected name, if any, is deleted. The selection is cleared either way.
     */
    method DeleteSubmit(dialogMode: string)
      requires Valid()
      modifies this
      ensures Valid()
      ensures selection.None? && filter == old(filter) && deleteMode == old(deleteMode)
      ensures (if dialogMode != "" then dialogMode else old(deleteMode)) == "all" ==> accounts == []
      ensures (if dialogMode != "" then dialogMode else old(deleteMode)) != "all" ==>
        accounts == if old(selection).Some? && old(selection).value != "" then Remove(old(accounts), old(selection).value) else old(accounts)
    {
      var mode := if dialogMode != "" then dialogMode else deleteMode;
      if mode == "all" {
        accounts := [];
      } else if selection.Some? && selection.value != "" {
        RemoveDistinct(accounts, selection.value);
        accounts := Remove(accounts, selection.value);
      }
      selection := None;
    }

    /** `handleImport`: an unreadable file changes nothing; otherwise the ledger becomes the normalised file. */
    method Import(parsed: Option<Json>)
      requires Valid()
      modifies this
      ensures Valid()
      ensures parsed.None? ==> accounts == old(accounts)
      ensures parsed.Some? ==> accounts == NormalizedAccounts(parsed.value)
      ensures filter == old(filter) && selection == old(selection) && deleteMode == old(deleteMode)
    {
      if parsed.None? {
        return;
      }
      NormalizedDistinct(parsed.value);
      accounts := NormalizeAccounts(parsed.value);
    }
  }
}
