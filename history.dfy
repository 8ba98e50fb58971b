/** The repair history (src/modules/repair_history.js): every ticket with its store's
    name, a search over five fields, a CSV export, and a passphrase-guarded delete. */
module History {
  import opened Wrappers
  import opened Seqs
  import opened Text
  import opened Access
  import opened Tables
  import opened Repairs
  import opened Stores

  /** A fetched ticket with the name of its store, as the `stores(name)` join gives it
      (`None` when the ticket has no store or the store is gone). */
  datatype Listed = Listed(repair: Repair, storeName: Option<string>)

  /** The name the join attaches for a store id. */
  function StoreNameOf(stores: seq<Store>, storeId: Option<string>): (r: Option<string>)
    ensures r.Some? <==> storeId.Some? && HasKey(stores, StoreId, storeId.value)
    ensures r.Some? ==> exists i :: 0 <= i < |stores| && stores[i].id == storeId.value && stores[i].name == r.value
  {
    if storeId.None? then None
    else
      FindByKey(stores, StoreId, storeId.value);
      match Find(stores, KeyIs(StoreId, storeId.value))
      case None => None
      case Some(s) => Some(s.name)
  }

  /** The fetched tickets, each with its store's name, in fetched order. */
  function Joined(repairs: seq<Repair>, stores: seq<Store>): (r: seq<Listed>)
    ensures |r| == |repairs|
    ensures forall i :: 0 <= i < |repairs| ==> r[i] == Listed(repairs[i], StoreNameOf(stores, repairs[i].storeId))
    decreases |repairs|
  {
    if |repairs| == 0 then []
    else [Listed(repairs[0], StoreNameOf(stores, repairs[0].storeId))] + Joined(repairs[1..], stores)
  }

  // ================================================================ search

  /** The lower-cased term occurs somewhere in a lower-cased field. */
  ghost predicate Mentions(field: string, term: string) {
    exists i :: OccursAt(Lower(field), Lower(term), i)
  }

  /** One of the five searched fields mentions the term; a null serial or store name
      mentions nothing. */
  ghost predicate SomeFieldMentions(l: Listed, term: string) {
    Mentions(l.repair.customerName, term) || Mentions(l.repair.deviceDetails, term)
    || (Truthy(l.repair.serialNumber) && Mentions(l.repair.serialNumber.value, term))
    || Mentions(l.repair.status, term)
    || (Truthy(l.storeName) && Mentions(l.storeName.value, term))
  }

  /** The search predicate: customer, device, serial (when set), status or store name
      (when set) contains the term, ignoring case; an empty term matches every ticket. */
  function HistoryMatches(term: string): (m: Listed -> bool)
    ensures term == "" ==> forall l :: m(l)
  {
    var t := Lower(term);
    (l: Listed) =>
      Includes(Lower(l.repair.customerName), t)
      || Includes(Lower(l.repair.deviceDetails), t)
      || (Truthy(l.repair.serialNumber) && Includes(Lower(l.repair.serialNumber.value), t))
      || Includes(Lower(l.repair.status), t)
      || (Truthy(l.storeName) && Includes(Lower(l.storeName.value), t))
  }

  /** The rows the search box shows. */
  function HistorySearch(listed: seq<Listed>, term: string): seq<Listed> {
    Filter(listed, HistoryMatches(term))
  }

  lemma MatchesIff(term: string, l: Listed)
    ensures HistoryMatches(term)(l) <==> SomeFieldMentions(l, term)
  {
    var t := Lower(term);
    IncludesIff(Lower(l.repair.customerName), t);
    IncludesIff(Lower(l.repair.deviceDetails), t);
    if Truthy(l.repair.serialNumber) {
      IncludesIff(Lower(l.repair.serialNumber.value), t);
    }
    IncludesIff(Lower(l.repair.status), t);
    if Truthy(l.storeName) {
      IncludesIff(Lower(l.storeName.value), t);
    }
  }

  /** The search keeps, in fetched order, exactly the tickets one of whose five fields
      mentions the term; a null serial or store name never matches; an empty term keeps
      every ticket. */
  lemma HistorySearchSpec(listed: seq<Listed>, term: string)
    ensures forall l :: l in HistorySearch(listed, term) <==> l in listed && SomeFieldMentions(l, term)
    ensures IsSubsequence(HistorySearch(listed, term), listed)
    ensures term == "" ==> HistorySearch(listed, term) == listed
  {
    if term == "" {
      forall i | 0 <= i < |listed| ensures HistoryMatches(term)(listed[i]) {
      }
      FilterKeepsAllIff(listed, HistoryMatches(term));
    }
    FilterIsSubsequence(listed, HistoryMatches(term));
    forall l | true ensures l in HistorySearch(listed, term) <==> l in listed && SomeFieldMentions(l, term)
    {
      MatchesIff(term, l);
    }
  }

  // ================================================================ CSV export

  /** The export's columns; a super admin's carry Store second. */
  function HistoryColumns(superAdmin: bool): seq<string> {
    if superAdmin then ["Date", "Store"] + TicketColumns else ["Date"] + TicketColumns
  }

  /** The columns after the date and the store. */
  const TicketColumns: seq<string> :=
    ["Customer", "Contact", "Device", "Model", "Serial No", "Problem", "Status", "Cost", "Technician", "PartReplaced"]

  function HistoryHeader(superAdmin: bool): string {
    Join(HistoryColumns(superAdmin), ',')
  }

  /** `text.replace(/,/g, ' ')`. */
  function Safe(s: string): string {
    ReplaceAll(s, ',', ' ')
  }

  /** The cells of a ticket's CSV line: commas in customer, device, problem, serial and
      store name become spaces; a null or zero cost is 0; a null contact, model,
      technician or part is empty; the creation date goes through the viewer's date
      format. */
  function HistoryFields(l: Listed, superAdmin: bool, formatDate: string -> string): seq<string> {
    var r := l.repair;
    var rest := [Safe(r.customerName), OrEmpty(r.contactNumber), Safe(r.deviceDetails), OrEmpty(r.modelNumber),
                 Safe(OrEmpty(r.serialNumber)), Safe(OrEmpty(r.issueDescription)), r.status,
                 IntToString(r.estimatedCost.GetOr(0)), OrEmpty(r.technicianName), OrEmpty(r.partReplacedName)];
    if superAdmin then [formatDate(r.createdAt), Safe(OrEmpty(l.storeName))] + rest
    else [formatDate(r.createdAt)] + rest
  }

  function HistoryRow(l: Listed, superAdmin: bool, formatDate: string -> string): string {
    Join(HistoryFields(l, superAdmin, formatDate), ',')
  }

  function HistoryRows(listed: seq<Listed>, superAdmin: bool, formatDate: string -> string): (r: seq<string>)
    ensures |r| == |listed|
    ensures forall i :: 0 <= i < |listed| ==> r[i] == HistoryRow(listed[i], superAdmin, formatDate)
    decreases |listed|
  {
    if |listed| == 0 then [] else [HistoryRow(listed[0], superAdmin, formatDate)] + HistoryRows(listed[1..], superAdmin, formatDate)
  }

  /** The exported text; nothing at all for an empty list. */
  function HistoryCsv(listed: seq<Listed>, superAdmin: bool, formatDate: string -> string): (r: Option<string>)
    ensures r.None? <==> |listed| == 0
    ensures r.Some? ==> HistoryHeader(superAdmin) + "\n" <= r.value
  {
    if |listed| == 0 then None
    else Some(HistoryHeader(superAdmin) + "\n" + Join(HistoryRows(listed, superAdmin, formatDate), '\n'))
  }

  lemma TicketColumnAvoids(k: nat)
    requires k < |TicketColumns|
    ensures ',' !in TicketColumns[k] && '\n' !in TicketColumns[k]
  {
    var c := TicketColumns[k];
    forall i | 0 <= i < |c| ensures c[i] != ',' && c[i] != '\n' { }
  }

  lemma HistoryColumnAvoids(superAdmin: bool, k: nat)
    requires k < |HistoryColumns(superAdmin)|
    ensures ',' !in HistoryColumns(superAdmin)[k] && '\n' !in HistoryColumns(superAdmin)[k]
  {
    var d := if superAdmin then 2 else 1;
    if k < d {
      var c := HistoryColumns(superAdmin)[k];
      assert c == "Date" || c == "Store";
    } else {
      TicketColumnAvoids(k - d);
    }
  }

  /** The header names eleven columns, or twelve for a super admin with Store second
      and the other eleven in the same order. */
  lemma HistoryHeaderColumns(superAdmin: bool)
    ensures Split(HistoryHeader(superAdmin), ',') == HistoryColumns(superAdmin)
    ensures |HistoryColumns(superAdmin)| == if superAdmin then 12 else 11
    ensures superAdmin ==> HistoryColumns(true)[1] == "Store" && HistoryColumns(true)[..1] + HistoryColumns(true)[2..] == HistoryColumns(false)
    ensures '\n' !in HistoryHeader(superAdmin)
  {
    var cs := HistoryColumns(superAdmin);
    forall k | 0 <= k < |cs| ensures ',' !in cs[k] && '\n' !in cs[k] {
      HistoryColumnAvoids(superAdmin, k);
    }
    SplitJoin(cs, ',');
    JoinAvoids(cs, ',', '\n');
  }

  /** The cells that are not sanitised. */
  predicate PlainCellsHaveNoComma(l: Listed, formatDate: string -> string) {
    && ',' !in formatDate(l.repair.createdAt) && ',' !in OrEmpty(l.repair.contactNumber)
    && ',' !in OrEmpty(l.repair.modelNumber) && ',' !in l.repair.status
    && ',' !in OrEmpty(l.repair.technicianName) && ',' !in OrEmpty(l.repair.partReplacedName)
  }

  /** A ticket's line has as many cells as the header, and they read back as the
      sanitised values, when the cells that are not sanitised hold no comma. */
  lemma HistoryRowFields(l: Listed, superAdmin: bool, formatDate: string -> string)
    requires PlainCellsHaveNoComma(l, formatDate)
    ensures Split(HistoryRow(l, superAdmin, formatDate), ',') == HistoryFields(l, superAdmin, formatDate)
    ensures |Split(HistoryRow(l, superAdmin, formatDate), ',')| == |Split(HistoryHeader(superAdmin), ',')|
  {
    NumberAvoids(l.repair.estimatedCost.GetOr(0));
    var fs := HistoryFields(l, superAdmin, formatDate);
    forall k | 0 <= k < |fs| ensures ',' !in fs[k] { }
    SplitJoin(fs, ',');
    HistoryHeaderColumns(superAdmin);
  }

  lemma HistoryRowAvoidsNewline(l: Listed, superAdmin: bool, formatDate: string -> string)
    requires forall k :: 0 <= k < |HistoryFields(l, superAdmin, formatDate)| ==> '\n' !in HistoryFields(l, superAdmin, formatDate)[k]
    ensures '\n' !in HistoryRow(l, superAdmin, formatDate)
  {
    JoinAvoids(HistoryFields(l, superAdmin, formatDate), ',', '\n');
  }

  /** The export is the header line followed by one line per ticket of the whole
      fetched list, in fetched order, when no cell holds a line break; an empty list
      exports nothing. */
  lemma HistoryCsvLines(listed: seq<Listed>, superAdmin: bool, formatDate: string -> string)
    requires forall i, k :: 0 <= i < |listed| && 0 <= k < |HistoryFields(listed[i], superAdmin, formatDate)| ==>
      '\n' !in HistoryFields(listed[i], superAdmin, formatDate)[k]
    ensures |listed| == 0 <==> HistoryCsv(listed, superAdmin, formatDate).None?
    ensures |listed| > 0 ==>
      Split(HistoryCsv(listed, superAdmin, formatDate).value, '\n') == [HistoryHeader(superAdmin)] + HistoryRows(listed, superAdmin, formatDate)
  {
    if |listed| > 0 {
      var rows := HistoryRows(listed, superAdmin, formatDate);
      forall i | 0 <= i < |rows| ensures '\n' !in rows[i] {
        HistoryRowAvoidsNewline(listed[i], superAdmin, formatDate);
      }
      HistoryHeaderColumns(superAdmin);
      LinesSplit(HistoryHeader(superAdmin), rows);
    }
  }

  // ================================================================ delete gate

  /** The passphrase the delete prompt compares against. */
  const DeletePassphrase: string := "admin123"

  /** A delete goes ahead only when the prompt returned the passphrase (a cancelled
      prompt returns nothing) and the confirmation that follows was accepted. */
  function DeleteAllowed(entered: Option<string>, confirmed: bool): (b: bool)
    ensures b ==> confirmed && entered.Some? && entered.value == "admin123"
    ensures entered.None? || !confirmed ==> !b
    ensures entered == Some("admin123") && confirmed ==> b
  {
    entered == Some(DeletePassphrase) && confirmed
  }

  // ================================================================ the panel

  /** The panel's own state: the fetched tickets with their store names, the super
      admin's store selection, and the rows the table shows. */
  class HistoryPanel {
    const user: User
    var repairs: seq<Listed>
    var storeFilter: Option<string>
    var shown: seq<Listed>

    /** `initRepairHistory`: no selection, then the first fetch. */
    constructor (user: User, table: Table<Repair>, stores: Table<Store>)
      ensures this.user == user && storeFilter == None
      ensures repairs == Joined(RepairQuery(user, None, table.rows), stores.rows)
      ensures shown == repairs
    {
      this.user := user;
      storeFilter := None;
      repairs := Joined(RepairQuery(user, None, table.rows), stores.rows);
      shown := Joined(RepairQuery(user, None, table.rows), stores.rows);
    }

    /** `fetchRepairs`: the query with the store filter and the join, then every fetched
        row shown (whatever the search box holds). */
    method Fetch(table: Table<Repair>, stores: Table<Store>)
      modifies this`repairs, this`shown
      ensures repairs == Joined(RepairQuery(user, storeFilter, table.rows), stores.rows)
      ensures shown == repairs
    {
      repairs := Joined(RepairQuery(user, storeFilter, table.rows), stores.rows);
      shown := repairs;
    }

    /** A change of the store selector, which only a super admin has. */
    method ChangeStoreFilter(value: string, table: Table<Repair>, stores: Table<Store>)
      modifies this`storeFilter, this`repairs, this`shown
      ensures IsSuperAdmin(user) ==>
        storeFilter == Some(value) && shown == repairs
        && repairs == Joined(RepairQuery(user, storeFilter, table.rows), stores.rows)
      ensures !IsSuperAdmin(user) ==>
        storeFilter == old(storeFilter) && repairs == old(repairs) && shown == old(shown)
    {
      if IsSuperAdmin(user) {
        storeFilter := Some(value);
        Fetch(table, stores);
      }
    }

    /** Typing in the search box: the fetched list filtered, the list itself kept. */
    method Search(term: string)
      modifies this`shown
      ensures shown == HistorySearch(repairs, term)
    {
      shown := HistorySearch(repairs, term);
    }

    /** The export button: the CSV of the whole fetched list, whatever the search box
        shows. */
    method Export(formatDate: string -> string) returns (csv: Option<string>)
      ensures csv == HistoryCsv(repairs, IsSuperAdmin(user), formatDate)
      ensures csv.None? <==> |repairs| == 0
    {
      csv := HistoryCsv(repairs, IsSuperAdmin(user), formatDate);
    }

    /** A row's delete button, offered to every actor: the ticket is deleted only when
        the passphrase was entered and the confirmation accepted, then the list is
        fetched again. */
    method Delete(id: string, entered: Option<string>, confirmed: bool, table: Table<Repair>, stores: Table<Store>)
      returns (outcome: Outcome)
      requires table.Valid()
      modifies this`repairs, this`shown, table
      ensures table.Valid()
      ensures outcome == (if DeleteAllowed(entered, confirmed) then Done else Declined)
      ensures outcome == Done ==> table.rows == Filter(old(table.rows), Not(KeyIs(table.key, id)))
                                  && shown == repairs
                                  && repairs == Joined(RepairQuery(user, storeFilter, table.rows), stores.rows)
      ensures outcome != Done ==> table.rows == old(table.rows) && repairs == old(repairs) && shown == old(shown)
    {
      if entered != Some(DeletePassphrase) {
        outcome := Declined;
      } else if !confirmed {
        outcome := Declined;
      } else {
        table.Delete(id);
        Fetch(table, stores);
        outcome := Done;
      }
    }
  }

  /** A ticket the search hides from the table still has its line in the export,
      which is built from the whole fetched list (when no cell holds a line break). */
  lemma ExportIgnoresSearch(listed: seq<Listed>, term: string, superAdmin: bool, formatDate: string -> string, l: Listed)
    requires forall i, k :: 0 <= i < |listed| && 0 <= k < |HistoryFields(listed[i], superAdmin, formatDate)| ==>
      '\n' !in HistoryFields(listed[i], superAdmin, formatDate)[k]
    requires l in listed && l !in HistorySearch(listed, term)
    ensures HistoryCsv(listed, superAdmin, formatDate).Some?
    ensures HistoryRow(l, superAdmin, formatDate) in Split(HistoryCsv(listed, superAdmin, formatDate).value, '\n')[1..]
  {
    HistoryCsvLines(listed, superAdmin, formatDate);
    var i :| 0 <= i < |listed| && listed[i] == l;
    var rows := HistoryRows(listed, superAdmin, formatDate);
    assert ([HistoryHeader(superAdmin)] + rows)[1..] == rows;
    assert rows[i] == HistoryRow(l, superAdmin, formatDate);
  }
}
