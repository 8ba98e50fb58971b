/** The repair board (src/modules/repairs.js): tickets grouped into six fixed status
    columns with their counts, the ticket form and what its submit writes. */
module Repairs {
  import opened Wrappers
  import opened Seqs
  import opened Text
  import opened Access
  import opened Tables

  /** A row of the `repairs` table. */
  datatype Repair = Repair(
    id: string,
    storeId: Option<string>,
    customerName: string,
    contactNumber: Option<string>,
    deviceDetails: string,
    modelNumber: Option<string>,
    serialNumber: Option<string>,
    issueDescription: Option<string>,
    problemFound: Option<string>,
    technicianName: Option<string>,
    isPartChange: bool,
    isServiceOnly: bool,
    partReplacedName: Option<string>,
    status: string,
    estimatedCost: Option<int>,
    customMessage: Option<string>,
    createdAt: string)

  function RepairId(r: Repair): string { r.id }

  function RepairStore(r: Repair): Option<string> { r.storeId }

  // ================================================================ the board

  const Received := "Received"
  const InProcess := "In Process"
  const PartNotAvailable := "Part Not Available"
  const Repaired := "Repaired"
  const PaymentPending := "Delivered (Payment Pending)"
  const Delivered := "Delivered"

  /** The board's columns, left to right. */
  const Statuses: seq<string> := [Received, InProcess, PartNotAvailable, Repaired, PaymentPending, Delivered]

  /** The options of the status select in the form, in their order there. */
  const StatusOptions: seq<string> := [Received, InProcess, PartNotAvailable, Repaired, Delivered, PaymentPending]

  /** The select offers exactly the board's statuses. */
  lemma StatusOptionsAreStatuses()
    ensures multiset(StatusOptions) == multiset(Statuses)
    ensures forall s :: s in StatusOptions <==> s in Statuses
  {
    var front := Statuses[..4];
    assert StatusOptions == front + [Delivered] + [PaymentPending];
    assert Statuses == front + [PaymentPending] + [Delivered];
  }

  /** The character a DOM id carries for a status character: whitespace, `(` and `)`
      become `-`. */
  function IdChar(c: char): (r: char)
    ensures r == '-' <==> c == '-' || IsSpace(c) || c == '(' || c == ')'
    ensures r != '-' ==> r == c
  {
    if IsSpace(c) || c == '(' || c == ')' then '-' else c
  }

  /** `status.replace(/[\s\(\)]/g, '-')`. */
  function KeyOf(s: string): (r: string)
    ensures |r| == |s|
    ensures forall i :: 0 <= i < |s| ==> r[i] == IdChar(s[i])
    decreases |s|
  {
    if |s| == 0 then "" else [IdChar(s[0])] + KeyOf(s[1..])
  }

  function ColumnId(status: string): string { "col-" + KeyOf(status) }

  function CountId(status: string): string { "count-" + KeyOf(status) }

  lemma PrefixCancels(p: string, a: string, b: string)
    requires p + a == p + b
    ensures a == b
  {
    assert a == (p + a)[|p|..];
    assert b == (p + b)[|p|..];
  }

  lemma KeyDiffers(a: string, b: string, i: nat)
    requires |a| != |b| || (i < |a| && i < |b| && IdChar(a[i]) != IdChar(b[i]))
    ensures KeyOf(a) != KeyOf(b)
  {
    if |a| == |b| {
      assert KeyOf(a)[i] != KeyOf(b)[i];
    }
  }

  /** The six statuses get six different ids; only Received and Repaired have the same
      length, and they differ in their third character. */
  lemma KeysDistinct()
    ensures forall j, k :: 0 <= j < k < |Statuses| ==> KeyOf(Statuses[j]) != KeyOf(Statuses[k])
  {
    var lengths := [8, 10, 18, 8, 27, 9];
    assert forall k :: 0 <= k < 6 ==> |Statuses[k]| == lengths[k];
    forall j, k | 0 <= j < k < |Statuses| ensures KeyOf(Statuses[j]) != KeyOf(Statuses[k]) {
      if j == 0 && k == 3 {
        assert Statuses[0][2] == 'c' && Statuses[3][2] == 'p';
        KeyDiffers(Statuses[0], Statuses[3], 2);
      } else {
        KeyDiffers(Statuses[j], Statuses[k], 0);
      }
    }
  }

  /** The six columns get six different column ids and six different count ids, so
      each status's cards and count land in their own column. */
  lemma ColumnIdsDistinct()
    ensures forall j, k :: 0 <= j < k < |Statuses| ==> ColumnId(Statuses[j]) != ColumnId(Statuses[k])
    ensures forall j, k :: 0 <= j < k < |Statuses| ==> CountId(Statuses[j]) != CountId(Statuses[k])
  {
    KeysDistinct();
    forall j, k | 0 <= j < k < |Statuses| ensures ColumnId(Statuses[j]) != ColumnId(Statuses[k]) {
      if ColumnId(Statuses[j]) == ColumnId(Statuses[k]) {
        PrefixCancels("col-", KeyOf(Statuses[j]), KeyOf(Statuses[k]));
      }
    }
    forall j, k | 0 <= j < k < |Statuses| ensures CountId(Statuses[j]) != CountId(Statuses[k]) {
      if CountId(Statuses[j]) == CountId(Statuses[k]) {
        PrefixCancels("count-", KeyOf(Statuses[j]), KeyOf(Statuses[k]));
      }
    }
  }

  function HasStatus(s: string): Repair -> bool {
    (r: Repair) => r.status == s
  }

  /** The cards of a column: the tickets with exactly that status, in fetched order. */
  function Bucket(repairs: seq<Repair>, s: string): seq<Repair> {
    Filter(repairs, HasStatus(s))
  }

  /** The counts of the columns for a list of statuses. */
  function Sizes(repairs: seq<Repair>, ss: seq<string>): (r: seq<nat>)
    ensures |r| == |ss|
    ensures forall k :: 0 <= k < |ss| ==> r[k] == |Bucket(repairs, ss[k])|
    decreases |ss|
  {
    if |ss| == 0 then [] else [|Bucket(repairs, ss[0])|] + Sizes(repairs, ss[1..])
  }

  function Sum(xs: seq<nat>): nat
    decreases |xs|
  {
    if |xs| == 0 then 0 else xs[0] + Sum(xs[1..])
  }

  /** The repairs query of the board and the history: the table narrowed by the
      actor's filter for the current selection. */
  function RepairQuery(u: User, selected: Option<string>, rows: seq<Repair>): seq<Repair> {
    Narrow(rows, RepairStore, RepairFilter(u, selected))
  }

  /** The columns of a list of statuses: each status's bucket, in order. */
  function Buckets(repairs: seq<Repair>, ss: seq<string>): (r: seq<seq<Repair>>)
    ensures |r| == |ss|
    ensures forall k :: 0 <= k < |ss| ==> r[k] == Bucket(repairs, ss[k])
    decreases |ss|
  {
    if |ss| == 0 then [] else [Bucket(repairs, ss[0])] + Buckets(repairs, ss[1..])
  }

  /** `renderBoard`: for each status in board order, the tickets with that status and
      how many there are. */
  method Board(repairs: seq<Repair>) returns (columns: seq<seq<Repair>>, counts: seq<nat>)
    ensures columns == Buckets(repairs, Statuses)
    ensures counts == Sizes(repairs, Statuses)
  {
    columns, counts := [], [];
    var k := 0;
    while k < |Statuses|
      invariant 0 <= k <= |Statuses|
      invariant |columns| == k && |counts| == k
      invariant forall j :: 0 <= j < k ==> columns[j] == Bucket(repairs, Statuses[j])
      invariant forall j :: 0 <= j < k ==> counts[j] == |columns[j]|
    {
      var items := Filter(repairs, HasStatus(Statuses[k]));
      columns := columns + [items];
      counts := counts + [|items|];
      k := k + 1;
    }
    assert columns == Buckets(repairs, Statuses);
  }

  /** A column holds exactly the fetched tickets of its status, in fetched order. */
  lemma BucketSpec(repairs: seq<Repair>, s: string)
    ensures forall r :: r in Bucket(repairs, s) <==> r in repairs && r.status == s
    ensures IsSubsequence(Bucket(repairs, s), repairs)
  {
    FilterIsSubsequence(repairs, HasStatus(s));
  }

  /** No ticket shows in two columns. */
  lemma AtMostOneColumn(repairs: seq<Repair>, r: Repair, j: nat, k: nat)
    requires j < |Statuses| && k < |Statuses|
    requires r in Bucket(repairs, Statuses[j]) && r in Bucket(repairs, Statuses[k])
    ensures j == k
  {
    assert r.status == Statuses[j] && r.status == Statuses[k];
  }

  /** A fetched ticket shows in some column exactly when its status is one of the six;
      a ticket with any other status is fetched but drawn nowhere. */
  lemma InSomeColumnIff(repairs: seq<Repair>, r: Repair)
    ensures (exists k :: 0 <= k < |Statuses| && r in Bucket(repairs, Statuses[k])) <==> r in repairs && r.status in Statuses
  {
    if r in repairs && r.status in Statuses {
      var k :| 0 <= k < |Statuses| && Statuses[k] == r.status;
      assert r in Bucket(repairs, Statuses[k]);
    }
  }

  function StatusIn(ss: seq<string>): Repair -> bool {
    (r: Repair) => r.status in ss
  }

  predicate Distinct(ss: seq<string>) {
    forall j, k :: 0 <= j < k < |ss| ==> ss[j] != ss[k]
  }

  lemma {:induction false} SizesSum(repairs: seq<Repair>, ss: seq<string>)
    requires Distinct(ss)
    ensures Sum(Sizes(repairs, ss)) == |Filter(repairs, StatusIn(ss))|
    decreases |ss|
  {
    if |ss| == 0 {
      FilterNone(repairs, StatusIn(ss));
    } else {
      var t := ss[1..];
      assert Distinct(t) by {
        forall j, k | 0 <= j < k < |t| ensures t[j] != t[k] {
          assert t[j] == ss[j + 1] && t[k] == ss[k + 1];
        }
      }
      SizesSum(repairs, t);
      assert Sizes(repairs, ss)[1..] == Sizes(repairs, t);
      forall x: Repair ensures StatusIn(ss)(x) == (HasStatus(ss[0])(x) || StatusIn(t)(x)) {
        assert ss == [ss[0]] + t;
      }
      assert ss[0] !in t by {
        forall k | 0 <= k < |t| ensures t[k] != ss[0] {
          assert t[k] == ss[k + 1];
        }
      }
      FilterCountDisjoint(repairs, StatusIn(ss), HasStatus(ss[0]), StatusIn(t));
    }
  }

  /** The counts add up to the number of tickets with one of the six statuses: never
      more than the tickets fetched, and all of them exactly when every status is one
      of the six. */
  lemma CountsAddUp(repairs: seq<Repair>)
    ensures Sum(Sizes(repairs, Statuses)) == |Filter(repairs, StatusIn(Statuses))|
    ensures Sum(Sizes(repairs, Statuses)) <= |repairs|
    ensures Sum(Sizes(repairs, Statuses)) == |repairs| <==> forall i :: 0 <= i < |repairs| ==> repairs[i].status in Statuses
  {
    StatusesDistinct();
    SizesSum(repairs, Statuses);
    FilterKeepsAllIff(repairs, StatusIn(Statuses));
  }

  /** The six statuses are six different strings (their ids already differ). */
  lemma StatusesDistinct()
    ensures Distinct(Statuses)
  {
    KeysDistinct();
  }

  // ================================================================ the form

  /** The ticket form when Save is pressed. `cost` is the number field (`None`: empty). */
  datatype RepairForm = RepairForm(
    id: string,
    customerName: string,
    contact: string,
    device: string,
    model: string,
    serial: string,
    issue: string,
    problem: string,
    technician: string,
    partChange: bool,
    serviceOnly: bool,
    partName: string,
    status: string,
    cost: Option<int>,
    message: string)

  /** What the status select shows after being set to a value: that value when it is
      one of its options, nothing otherwise. */
  function SelectStatus(s: string): (r: string)
    ensures r in StatusOptions || r == ""
    ensures s in StatusOptions ==> r == s
    ensures s !in StatusOptions ==> r == ""
  {
    if s in StatusOptions then s else ""
  }

  /** "New Entry": every field blank, status Received, both boxes clear. */
  function NewRepairForm(): (f: RepairForm)
    ensures f.id == "" && f.customerName == "" && f.device == "" && f.cost.None?
    ensures f.status == Received && !f.partChange && !f.serviceOnly
  {
    RepairForm("", "", "", "", "", "", "", "", "", false, false, "", SelectStatus(Received), None, "")
  }

  /** The edit button on a card: the form pre-filled from the ticket, a null column
      shown blank, and the status shown only when the select offers it. */
  function EditRepairForm(r: Repair): (f: RepairForm)
    ensures f.id == r.id && f.customerName == r.customerName && f.device == r.deviceDetails
    ensures f.partChange == r.isPartChange && f.serviceOnly == r.isServiceOnly && f.cost == r.estimatedCost
    ensures r.contactNumber.Some? ==> f.contact == r.contactNumber.value
    ensures r.contactNumber.None? ==> f.contact == ""
    ensures r.issueDescription.Some? ==> f.issue == r.issueDescription.value
    ensures r.issueDescription.None? ==> f.issue == ""
    ensures r.status in StatusOptions ==> f.status == r.status
    ensures r.status !in StatusOptions ==> f.status == ""
  {
    RepairForm(r.id, r.customerName, OrEmpty(r.contactNumber), r.deviceDetails, OrEmpty(r.modelNumber),
               OrEmpty(r.serialNumber), OrEmpty(r.issueDescription), OrEmpty(r.problemFound),
               OrEmpty(r.technicianName), r.isPartChange, r.isServiceOnly, OrEmpty(r.partReplacedName),
               SelectStatus(r.status), r.estimatedCost, OrEmpty(r.customMessage))
  }

  /** Saving a new entry as it opens inserts a ticket that is Received, with neither
      box ticked and no cost, in the actor's store. */
  lemma NewEntryDefaults(u: User)
    requires IsStoreAdmin(u)
    ensures var w := RepairSave(u, NewRepairForm());
            && w.InsertRow? && w.payload.status == "Received" && w.payload.storeId == u.storeId
            && !w.payload.partChange && !w.payload.serviceOnly && w.payload.cost == 0
  {
  }

  /** The columns a save writes. */
  datatype RepairPayload = RepairPayload(
    storeId: Option<string>,
    customerName: string,
    contact: string,
    device: string,
    model: string,
    serial: string,
    issue: string,
    problem: string,
    technician: string,
    partChange: bool,
    serviceOnly: bool,
    partName: string,
    status: string,
    cost: int,
    message: string)

  function RepairPayloadOf(u: User, form: RepairForm): RepairPayload {
    RepairPayload(u.storeId, form.customerName, form.contact, form.device, form.model, form.serial,
                  form.issue, form.problem, form.technician, form.partChange, form.serviceOnly,
                  form.partName, form.status, form.cost.GetOr(0), form.message)
  }

  /** The submit handler: nothing is written for an actor without a store; otherwise
      an update of the form's id, or an insert when it has none. */
  function RepairSave(u: User, form: RepairForm): (w: Write<RepairPayload>)
    ensures w.NoWrite? <==> !IsStoreAdmin(u)
    ensures !w.NoWrite? ==> w.payload.storeId == u.storeId
  {
    if !IsStoreAdmin(u) then NoWrite
    else if form.id != "" then UpdateRow(form.id, RepairPayloadOf(u, form))
    else InsertRow(RepairPayloadOf(u, form))
  }

  /** What a save writes: nothing for an actor without a store id; otherwise the form's
      fields as typed, the store forced to the actor's, an empty cost as 0, any status
      the select holds, and an update exactly when the form carries an id. */
  lemma RepairSaveRules(u: User, form: RepairForm)
    ensures RepairSave(u, form).NoWrite? <==> !IsStoreAdmin(u)
    ensures RepairSave(u, form).UpdateRow? <==> IsStoreAdmin(u) && form.id != ""
    ensures RepairSave(u, form).UpdateRow? ==> RepairSave(u, form).id == form.id
    ensures !RepairSave(u, form).NoWrite? ==>
      var p := RepairSave(u, form).payload;
      && p.storeId == u.storeId && p.storeId.Some?
      && (form.cost.None? ==> p.cost == 0) && (form.cost.Some? ==> p.cost == form.cost.value)
      && p.status == form.status && p.partChange == form.partChange && p.partName == form.partName
      && p.customerName == form.customerName && p.device == form.device && p.serial == form.serial
      && p.contact == form.contact && p.model == form.model && p.issue == form.issue
      && p.problem == form.problem && p.technician == form.technician
      && p.serviceOnly == form.serviceOnly && p.message == form.message
  {
  }

  /** Ticking "Part Change?" and leaving the part name empty is saved as it is. */
  lemma PartNameNotRequired(u: User, form: RepairForm)
    requires IsStoreAdmin(u) && form.partChange && form.partName == ""
    ensures var w := RepairSave(u, form); !w.NoWrite? && w.payload.partChange && w.payload.partName == ""
  {
  }

  /** The row an update leaves: the payload's columns over the old row. */
  function Updated(r: Repair, w: RepairPayload): (n: Repair)
    ensures n.id == r.id && n.createdAt == r.createdAt
  {
    r.(storeId := w.storeId, customerName := w.customerName, contactNumber := Some(w.contact),
       deviceDetails := w.device, modelNumber := Some(w.model), serialNumber := Some(w.serial),
       issueDescription := Some(w.issue), problemFound := Some(w.problem), technicianName := Some(w.technician),
       isPartChange := w.partChange, isServiceOnly := w.serviceOnly, partReplacedName := Some(w.partName),
       status := w.status, estimatedCost := Some(w.cost), customMessage := Some(w.message))
  }

  function ApplyPayload(w: RepairPayload): Repair -> Repair {
    (r: Repair) => Updated(r, w)
  }

  /** The row an insert adds; the backend supplies the id and the creation time. */
  function Inserted(w: RepairPayload, newId: string, createdAt: string): Repair {
    Updated(Repair(newId, None, "", None, "", None, None, None, None, None, false, false, None, "", None, None, createdAt), w)
  }

  /** Any status of the select may be saved over any current status: there is no
      transition rule. */
  lemma AnyStatusAccepted(u: User, r: Repair, s: string)
    requires IsStoreAdmin(u) && r.id != "" && s in StatusOptions
    ensures var w := RepairSave(u, EditRepairForm(r).(status := s));
            w.UpdateRow? && w.id == r.id && Updated(r, w.payload).status == s
  {
  }

  /** Opening a ticket of the actor's store and saving it untouched rewrites it
      unchanged, when its status is one of the six, its cost is set, and its optional
      text columns are set. */
  lemma EditThenSaveKeepsRepair(u: User, r: Repair)
    requires IsStoreAdmin(u) && r.id != "" && r.storeId == u.storeId
    requires r.status in Statuses && r.estimatedCost.Some?
    requires r.contactNumber.Some? && r.modelNumber.Some? && r.serialNumber.Some?
    requires r.issueDescription.Some? && r.problemFound.Some? && r.technicianName.Some?
    requires r.partReplacedName.Some? && r.customMessage.Some?
    ensures var w := RepairSave(u, EditRepairForm(r));
            w == UpdateRow(r.id, w.payload) && Updated(r, w.payload) == r
  {
    StatusOptionsAreStatuses();
  }

  /** A ticket whose status is not one of the six loses it when edited: the select
      cannot show it and the save writes the empty status. */
  lemma UnknownStatusClearedOnEdit(u: User, r: Repair)
    requires IsStoreAdmin(u) && r.id != "" && r.status !in Statuses
    ensures RepairSave(u, EditRepairForm(r)).payload.status == ""
  {
    StatusOptionsAreStatuses();
  }

  // ================================================================ the board's state

  /** The board's own state: the fetched tickets and the super admin's store selection.
      Every fetch ends in `renderBoard`, which draws `Board(repairs)`; the drawn columns
      live in the page, not in the module's variables. */
  class RepairBoard {
    const user: User
    var repairs: seq<Repair>
    var storeFilter: Option<string>

    /** `initRepairs`: no selection, then the first fetch. */
    constructor (user: User, table: Table<Repair>)
      ensures this.user == user && storeFilter == None
      ensures repairs == RepairQuery(user, None, table.rows)
    {
      this.user := user;
      storeFilter := None;
      repairs := RepairQuery(user, None, table.rows);
    }

    /** `fetchRepairs`: the repairs query with the board's filter. */
    method Fetch(table: Table<Repair>)
      modifies this`repairs
      ensures repairs == RepairQuery(user, storeFilter, table.rows)
    {
      repairs := RepairQuery(user, storeFilter, table.rows);
    }

    /** A change of the store selector, which only a super admin has. */
    method ChangeStoreFilter(value: string, table: Table<Repair>)
      modifies this`storeFilter, this`repairs
      ensures IsSuperAdmin(user) ==>
        storeFilter == Some(value) && repairs == RepairQuery(user, storeFilter, table.rows)
      ensures !IsSuperAdmin(user) ==> storeFilter == old(storeFilter) && repairs == old(repairs)
    {
      if IsSuperAdmin(user) {
        storeFilter := Some(value);
        Fetch(table);
      }
    }

    /** Save: the write RepairSave decides, carried out on the table; on success the
        board is fetched again. */
    method Submit(form: RepairForm, newId: string, createdAt: string, table: Table<Repair>) returns (outcome: Outcome)
      requires table.Valid() && table.key == RepairId
      modifies this`repairs, table
      ensures table.Valid()
      ensures var w := RepairSave(user, form);
              && (w.NoWrite? ==> outcome == NotOffered && table.rows == old(table.rows))
              && (w.InsertRow? ==>
                    (outcome == Done <==> !HasKey(old(table.rows), RepairId, newId))
                    && table.rows == (if outcome == Done then old(table.rows) + [Inserted(w.payload, newId, createdAt)] else old(table.rows))
                    && (outcome != Done ==> outcome == BackendError))
              && (w.UpdateRow? ==>
                    outcome == Done && table.rows == UpdateWhere(old(table.rows), KeyIs(RepairId, w.id), ApplyPayload(w.payload)))
      ensures outcome == Done ==> repairs == RepairQuery(user, storeFilter, table.rows)
      ensures outcome != Done ==> repairs == old(repairs)
    {
      var w := RepairSave(user, form);
      if w.NoWrite? {
        outcome := NotOffered;
      } else {
        var ok := table.Commit(w, (p: RepairPayload) => Inserted(p, newId, createdAt), ApplyPayload);
        outcome := if ok then Done else BackendError;
        if ok {
          Fetch(table);
        }
      }
    }
  }
}
