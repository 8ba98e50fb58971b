/** The stock-requests panel (src/modules/requests.js): a store asks for stock, the
    super admin moves the request on. */
module Requests {
  import opened Wrappers
  import opened Seqs
  import opened Text
  import opened Access
  import opened Tables

  /** A row of the `inventory_requests` table. `quantity` is `None` where `parseInt`
      gave NaN, which is sent as null. */
  datatype Request = Request(
    id: string,
    storeId: Option<string>,
    productName: string,
    quantity: Option<int>,
    customerName: string,
    customerPhone: string,
    status: string,
    createdAt: string)

  function RequestId(r: Request): string { r.id }

  function RequestStore(r: Request): Option<string> { r.storeId }

  /** The rows the list query returns for an actor: table rows only, and never a row
      of another store for an actor with a store id. */
  function Visible(u: User, rows: seq<Request>): (r: seq<Request>)
    ensures forall x :: x in r ==> x in rows
    ensures IsStoreAdmin(u) ==> forall x :: x in r ==> x.storeId == u.storeId
  {
    NarrowSpec(rows, RequestStore, RequestFilter(u));
    Narrow(rows, RequestStore, RequestFilter(u))
  }

  /** An actor with a store id sees exactly their store's requests, in table order; an
      actor without one sees all of them. */
  lemma VisibleSpec(u: User, rows: seq<Request>)
    ensures IsStoreAdmin(u) ==> forall r :: r in Visible(u, rows) <==> r in rows && r.storeId == u.storeId
    ensures !IsStoreAdmin(u) ==> Visible(u, rows) == rows
    ensures IsSubsequence(Visible(u, rows), rows)
  {
    RequestScope(u, rows, RequestStore);
    NarrowSpec(rows, RequestStore, RequestFilter(u));
  }

  // ================================================================ new requests

  /** The request form when Submit is pressed: its four fields as typed. */
  datatype RequestForm = RequestForm(product: string, quantity: string, customerName: string, customerPhone: string)

  /** The row an insert adds: Pending, in the actor's store, the fields as typed and
      the quantity as `parseInt` reads it; the backend supplies id and time. */
  function NewRequest(u: User, form: RequestForm, newId: string, createdAt: string): (r: Request)
    ensures r.id == newId && r.createdAt == createdAt
    ensures r.productName == form.product && r.customerName == form.customerName
    ensures r.customerPhone == form.customerPhone
  {
    Request(newId, u.storeId, form.product, ParseInt(form.quantity), form.customerName, form.customerPhone,
            "Pending", createdAt)
  }

  /** A new request is always Pending and always in the actor's store, whatever was
      typed; a quantity that is not a number is sent as null, a typed integer as
      itself. */
  lemma NewRequestRules(u: User, form: RequestForm, newId: string, createdAt: string, n: int)
    ensures NewRequest(u, form, newId, createdAt).status == "Pending"
    ensures NewRequest(u, form, newId, createdAt).storeId == u.storeId
    ensures NewRequest(u, form, newId, createdAt).productName == form.product
    ensures NewRequest(u, form, newId, createdAt).customerName == form.customerName
    ensures NewRequest(u, form, newId, createdAt).customerPhone == form.customerPhone
    ensures NewRequest(u, form, newId, createdAt).quantity == ParseInt(form.quantity)
    ensures form.quantity == IntToString(n) ==> NewRequest(u, form, newId, createdAt).quantity == Some(n)
    ensures form.quantity == "" ==> NewRequest(u, form, newId, createdAt).quantity == None
  {
    if form.quantity == IntToString(n) {
      ParseIntOfIntToString(n);
    }
  }

  // ================================================================ status control

  /** The choices of a row's status select. */
  datatype StatusOption = Placeholder | MarkOrdered | MarkFulfilled | Cancel

  /** The value an option sends: the placeholder sends the empty string. */
  function OptionValue(o: StatusOption): string {
    match o
    case Placeholder => ""
    case MarkOrdered => "Ordered"
    case MarkFulfilled => "Fulfilled"
    case Cancel => "Cancelled"
  }

  /** The statuses a request can be moved to. */
  const Targets: set<string> := {"Ordered", "Fulfilled", "Cancelled"}

  /** The options send exactly the three targets, besides the placeholder's empty
      value. */
  lemma OptionsAreTargets()
    ensures forall o :: o != Placeholder <==> OptionValue(o) != ""
    ensures forall o :: o != Placeholder ==> OptionValue(o) in Targets
    ensures forall s :: s in Targets ==> exists o :: OptionValue(o) == s
  {
    assert OptionValue(MarkOrdered) == "Ordered";
    assert OptionValue(MarkFulfilled) == "Fulfilled";
    assert OptionValue(Cancel) == "Cancelled";
  }

  /** A row carries the status select only for a super admin and only while it is not
      Fulfilled. */
  function ShowsStatusControl(u: User, r: Request): (b: bool)
    ensures b ==> IsSuperAdmin(u)
    ensures r.status == "Fulfilled" ==> !b
  {
    IsSuperAdmin(u) && r.status != "Fulfilled"
  }

  /** Of the statuses a request can be in, only Fulfilled locks it: a Pending, Ordered
      or Cancelled request offers the select to a super admin. */
  lemma OnlyFulfilledLocks(u: User, r: Request)
    requires IsSuperAdmin(u)
    ensures r.status in {"Pending", "Ordered", "Cancelled"} ==> ShowsStatusControl(u, r)
    ensures r.status == "Fulfilled" ==> !ShowsStatusControl(u, r)
  {
  }

  /** The update a status choice sends: only the status column. */
  function WithStatus(s: string): Request -> Request {
    (r: Request) => r.(status := s)
  }

  // ================================================================ the panel

  /** The panel's own state: the rows drawn by the last fetch (the source keeps no list
      of its own; the rows live in the table body it draws). */
  class RequestsPanel {
    const user: User
    var rendered: seq<Request>

    /** `initRequests`: the first fetch. */
    constructor (user: User, table: Table<Request>)
      ensures this.user == user && rendered == Visible(user, table.rows)
    {
      this.user := user;
      rendered := Visible(user, table.rows);
    }

    /** `fetchRequests`. */
    method Fetch(table: Table<Request>)
      modifies this`rendered
      ensures rendered == Visible(user, table.rows)
    {
      rendered := Visible(user, table.rows);
    }

    /** Submit of the request form: the new row inserted, then a fetch. */
    method Submit(form: RequestForm, newId: string, createdAt: string, table: Table<Request>) returns (outcome: Outcome)
      requires table.Valid() && table.key == RequestId
      modifies this`rendered, table
      ensures table.Valid()
      ensures outcome == Done <==> !HasKey(old(table.rows), RequestId, newId)
      ensures outcome == Done ==> table.rows == old(table.rows) + [NewRequest(user, form, newId, createdAt)]
                                  && rendered == Visible(user, table.rows)
      ensures outcome != Done ==> outcome == BackendError && table.rows == old(table.rows) && rendered == old(rendered)
    {
      var ok := table.Insert(NewRequest(user, form, newId, createdAt));
      if ok {
        outcome := Done;
        Fetch(table);
      } else {
        outcome := BackendError;
      }
    }

    /** A choice in the status select of the drawn row `id`. Only a super admin's rows
        that were not Fulfilled when drawn carry the select; the placeholder sends
        nothing; any other choice rewrites the status of that request and nothing
        else, then the list is fetched again. */
    method ChangeStatus(id: string, choice: StatusOption, table: Table<Request>) returns (outcome: Outcome)
      requires table.Valid() && table.key == RequestId
      modifies this`rendered, table
      ensures table.Valid()
      ensures var row := Find(old(rendered), KeyIs(RequestId, id));
              outcome == (if row.None? || !ShowsStatusControl(user, row.value) then NotOffered
                          else if choice == Placeholder then Declined else Done)
      ensures outcome == Done ==> table.rows == UpdateWhere(old(table.rows), KeyIs(RequestId, id), WithStatus(OptionValue(choice)))
                                  && rendered == Visible(user, table.rows)
      ensures outcome != Done ==> table.rows == old(table.rows) && rendered == old(rendered)
    {
      OptionsAreTargets();
      var row := Find(rendered, KeyIs(RequestId, id));
      if row.None? || !ShowsStatusControl(user, row.value) {
        outcome := NotOffered;
      } else if OptionValue(choice) == "" {
        outcome := Declined;
      } else {
        table.Update(id, WithStatus(OptionValue(choice)));
        outcome := Done;
        Fetch(table);
      }
    }
  }

  /** A status change moves exactly the request with that id to the chosen status and
      leaves every other request, and every other column, as it was. */
  lemma StatusUpdateIsLocal(rows: seq<Request>, id: string, s: string)
    requires forall i, j :: 0 <= i < j < |rows| ==> rows[i].id != rows[j].id
    ensures var after := UpdateWhere(rows, KeyIs(RequestId, id), WithStatus(s));
            && |after| == |rows|
            && (forall i :: 0 <= i < |rows| && rows[i].id != id ==> after[i] == rows[i])
            && (forall i :: 0 <= i < |rows| && rows[i].id == id ==> after[i] == rows[i].(status := s))
            && (forall i, j :: 0 <= i < j < |after| ==> after[i].id != after[j].id)
  {
    var after := UpdateWhere(rows, KeyIs(RequestId, id), WithStatus(s));
    forall i | 0 <= i < |rows| ensures after[i] == if rows[i].id == id then rows[i].(status := s) else rows[i] {
      assert RequestId(rows[i]) == rows[i].id;
      assert KeyIs(RequestId, id)(rows[i]) == (rows[i].id == id);
    }
  }

  /** A Cancelled request can be moved again, to any of the three targets. */
  lemma CancelledIsNotFinal(u: User, r: Request, choice: StatusOption)
    requires IsSuperAdmin(u) && r.status == "Cancelled" && choice != Placeholder
    ensures ShowsStatusControl(u, r) && OptionValue(choice) in Targets
    ensures WithStatus(OptionValue(choice))(r).status == OptionValue(choice)
  {
    OptionsAreTargets();
  }
}
