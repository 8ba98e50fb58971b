/** The stores panel (src/modules/stores.js): the super admin's list of stores, with
    create, edit and delete. */
module Stores {
  import opened Wrappers
  import opened Seqs
  import opened Access
  import opened Tables

  /** A row of the `stores` table. */
  datatype Store = Store(id: string, name: string, location: Option<string>, createdAt: string)

  function StoreId(s: Store): string { s.id }

  /** The store form when Save is pressed: the hidden id and the two fields. */
  datatype StoreForm = StoreForm(id: string, name: string, location: string)

  /** The columns a save writes: exactly these two. */
  datatype StorePayload = StorePayload(name: string, location: string)

  /** "Add Store": a blank form. */
  function NewStoreForm(): StoreForm {
    StoreForm("", "", "")
  }

  /** The edit button: the form pre-filled from the store (a null location shows as an
      empty field). */
  function EditStoreForm(s: Store): StoreForm {
    StoreForm(s.id, s.name, if s.location.Some? then s.location.value else "")
  }

  /** The submit handler's decision: nothing without a name, otherwise an update of the
      form's id, or an insert when it has none. */
  function StoreSave(form: StoreForm): (w: Write<StorePayload>)
    ensures w.NoWrite? <==> form.name == ""
    ensures !w.NoWrite? ==> w.payload.name == form.name && w.payload.location == form.location
  {
    if form.name == "" then NoWrite
    else if form.id != "" then UpdateRow(form.id, StorePayload(form.name, form.location))
    else InsertRow(StorePayload(form.name, form.location))
  }

  /** What a save writes: nothing without a name; otherwise the name and location as
      typed, as an update exactly when the form carries an id. */
  lemma StoreSaveRules(form: StoreForm)
    ensures StoreSave(form).NoWrite? <==> form.name == ""
    ensures StoreSave(form).UpdateRow? <==> form.name != "" && form.id != ""
    ensures StoreSave(form).UpdateRow? ==> StoreSave(form).id == form.id
    ensures !StoreSave(form).NoWrite? ==> StoreSave(form).payload == StorePayload(form.name, form.location)
  {
  }

  /** The row an update leaves: name and location replaced, id and creation time kept. */
  function Updated(s: Store, p: StorePayload): (r: Store)
    ensures r.id == s.id && r.createdAt == s.createdAt
  {
    s.(name := p.name, location := Some(p.location))
  }

  function ApplyPayload(p: StorePayload): Store -> Store {
    (s: Store) => Updated(s, p)
  }

  /** The row an insert adds; the backend supplies the id and the creation time. */
  function Inserted(p: StorePayload, newId: string, createdAt: string): Store {
    Store(newId, p.name, Some(p.location), createdAt)
  }

  /** Opening a store and saving it untouched writes it back unchanged when it has a
      name and a location. */
  lemma EditThenSaveKeepsStore(s: Store)
    requires s.id != "" && s.name != "" && s.location.Some?
    ensures var w := StoreSave(EditStoreForm(s));
            w == UpdateRow(s.id, w.payload) && Updated(s, w.payload) == s
  {
  }

  /** The panel's own state: the fetched stores. For anyone but a super admin the panel
      shows "Access Denied" and has no controls. */
  class StoresPanel {
    const user: User
    var stores: seq<Store>

    /** `initStores`: the first fetch, for a super admin only. */
    constructor (user: User, table: Table<Store>)
      ensures this.user == user
      ensures stores == if IsSuperAdmin(user) then table.rows else []
    {
      this.user := user;
      stores := if IsSuperAdmin(user) then table.rows else [];
    }

    /** `fetchStores`. */
    method Fetch(table: Table<Store>)
      requires IsSuperAdmin(user)
      modifies this`stores
      ensures stores == table.rows
    {
      stores := table.rows;
    }

    /** The edit button of row `id`: the form pre-filled from the fetched store with
        that id; nothing opens when there is none. */
    method OpenEdit(id: string) returns (form: Option<StoreForm>)
      ensures !IsSuperAdmin(user) ==> form == None
      ensures IsSuperAdmin(user) ==> (form.Some? <==> HasKey(stores, StoreId, id))
      ensures form.Some? ==> exists i :: 0 <= i < |stores| && stores[i].id == id && form.value == EditStoreForm(stores[i])
    {
      form := None;
      if IsSuperAdmin(user) {
        var found := Find(stores, KeyIs(StoreId, id));
        FindByKey(stores, StoreId, id);
        if found.Some? {
          form := Some(EditStoreForm(found.value));
        }
      }
    }

    /** Save: the write StoreSave decides, carried out on the table; on success the list
        is fetched again. */
    method Submit(form: StoreForm, newId: string, createdAt: string, table: Table<Store>) returns (outcome: Outcome)
      requires table.Valid() && table.key == StoreId
      modifies this`stores, table
      ensures table.Valid()
      ensures var w := StoreSave(form);
              && (!IsSuperAdmin(user) ==> outcome == NotOffered)
              && (IsSuperAdmin(user) && w.NoWrite? ==> outcome == Invalid)
              && (IsSuperAdmin(user) && w.InsertRow? ==>
                    (outcome == Done <==> !HasKey(old(table.rows), StoreId, newId))
                    && table.rows == (if outcome == Done then old(table.rows) + [Inserted(w.payload, newId, createdAt)] else old(table.rows)))
              && (IsSuperAdmin(user) && w.UpdateRow? ==>
                    outcome == Done && table.rows == UpdateWhere(old(table.rows), KeyIs(StoreId, w.id), ApplyPayload(w.payload)))
      ensures outcome == Done ==> stores == table.rows
      ensures outcome != Done ==> table.rows == old(table.rows) && stores == old(stores)
    {
      var w := StoreSave(form);
      if !IsSuperAdmin(user) {
        outcome := NotOffered;
      } else if w.NoWrite? {
        outcome := Invalid;
      } else {
        var ok := table.Commit(w, (p: StorePayload) => Inserted(p, newId, createdAt), ApplyPayload);
        outcome := if ok then Done else BackendError;
        if ok {
          Fetch(table);
        }
      }
    }

    /** The delete button: after confirmation the store's row, and only it, is removed
        and the list fetched again. The method changes no other table: rows that refer
        to the store are left as they are. */
    method Delete(id: string, confirmed: bool, table: Table<Store>) returns (outcome: Outcome)
      requires table.Valid()
      modifies this`stores, table
      ensures table.Valid()
      ensures outcome == (if !IsSuperAdmin(user) then NotOffered else if !confirmed then Declined else Done)
      ensures outcome == Done ==> table.rows == Filter(old(table.rows), Not(KeyIs(table.key, id)))
                                  && !HasKey(table.rows, table.key, id) && stores == table.rows
      ensures outcome != Done ==> table.rows == old(table.rows) && stores == old(stores)
    {
      if !IsSuperAdmin(user) {
        outcome := NotOffered;
      } else if !confirmed {
        outcome := Declined;
      } else {
        table.Delete(id);
        Fetch(table);
        outcome := Done;
      }
    }
  }
}
