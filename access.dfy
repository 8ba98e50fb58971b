/** Who the actor is and what each panel derives from it. Two flags are read from the
    user record, `isStoreAdmin = !!user.store_id` and `isSuperAdmin = user.role ===
    'super_admin'`; they are independent (a super admin may also carry a store id).
    The stock, repairs and requests panels compute both, the history panel only
    `isSuperAdmin`, and the stores panel only tests the role. The store filter each
    list query applies is derived from them per panel, and the panels differ in how. */
module Access {
  import opened Wrappers
  import opened Seqs

  /** The signed-in actor as the panels read it. */
  datatype User = User(role: string, storeId: Option<string>)

  /** JavaScript truthiness of a nullable text value: present and not empty. */
  predicate Truthy(o: Option<string>) {
    o.Some? && o.value != ""
  }

  /** `!!user.store_id`: gates every create, edit and delete control. */
  predicate IsStoreAdmin(u: User) {
    Truthy(u.storeId)
  }

  /** `user.role === 'super_admin'`: gates store columns, store selectors, request
      resolution and the stores panel. */
  predicate IsSuperAdmin(u: User) {
    u.role == "super_admin"
  }

  /** The rows of a list whose `store_id` equals a value: what `.eq('store_id', v)` keeps. */
  function StoreIs<T>(storeOf: T -> Option<string>, id: Option<string>): T -> bool {
    r => storeOf(r) == id
  }

  /** A fetched list narrowed by an optional store filter (`None`: the query carries no
      `store_id` condition). */
  function Narrow<T(==)>(rows: seq<T>, storeOf: T -> Option<string>, filter: Option<string>): seq<T> {
    if filter.None? then rows else Filter(rows, StoreIs(storeOf, filter))
  }

  /** Narrowing keeps, in order, exactly the rows of the selected store, and keeps
      everything when there is no filter. */
  lemma NarrowSpec<T>(rows: seq<T>, storeOf: T -> Option<string>, filter: Option<string>)
    ensures filter.None? ==> Narrow(rows, storeOf, filter) == rows
    ensures forall x :: x in Narrow(rows, storeOf, filter) <==> x in rows && (filter.Some? ==> storeOf(x) == filter)
    ensures IsSubsequence(Narrow(rows, storeOf, filter), rows)
  {
    if filter.Some? {
      FilterIsSubsequence(rows, StoreIs(storeOf, filter));
    } else {
      FilterIsSubsequence(rows, x => true);
      FilterKeepsAllIff(rows, x => true);
    }
  }

  /** The products query: a store admin's query carries no store condition (row-level
      security on the backend does that), a super admin's carries the selected store
      when one is selected. */
  function ProductFilter(u: User, selected: Option<string>): Option<string> {
    if IsStoreAdmin(u) then None
    else if IsSuperAdmin(u) && Truthy(selected) then selected
    else None
  }

  /** The repairs query, on the board and in the history: only the super admin's
      selection narrows it, whatever the store id. */
  function RepairFilter(u: User, selected: Option<string>): Option<string> {
    if IsSuperAdmin(u) && Truthy(selected) then selected else None
  }

  /** The stock-requests query: a store admin's is narrowed to their own store. */
  function RequestFilter(u: User): Option<string> {
    if IsStoreAdmin(u) then u.storeId else None
  }

  /** A super admin who has picked a store sees only that store's repairs, and all of
      them; with no pick (or the empty "All Stores" value) they see every repair. */
  lemma RepairScope<T>(u: User, selected: Option<string>, rows: seq<T>, storeOf: T -> Option<string>)
    requires IsSuperAdmin(u)
    ensures Truthy(selected) ==> forall x :: x in Narrow(rows, storeOf, RepairFilter(u, selected)) <==> x in rows && storeOf(x) == selected
    ensures !Truthy(selected) ==> Narrow(rows, storeOf, RepairFilter(u, selected)) == rows
  {
    NarrowSpec(rows, storeOf, RepairFilter(u, selected));
  }

  /** An actor with a store id sees only requests of that store, and all of them; an
      actor without one sees every request. */
  lemma RequestScope<T>(u: User, rows: seq<T>, storeOf: T -> Option<string>)
    ensures IsStoreAdmin(u) ==> forall x :: x in Narrow(rows, storeOf, RequestFilter(u)) <==> x in rows && storeOf(x) == u.storeId
    ensures !IsStoreAdmin(u) ==> Narrow(rows, storeOf, RequestFilter(u)) == rows
  {
    NarrowSpec(rows, storeOf, RequestFilter(u));
  }

  /** The products query is never narrowed for an actor with a store id, even a super
      admin with a selection, while the repairs query of the same actor is. */
  lemma ProductAndRepairFiltersDiffer(u: User, selected: Option<string>)
    requires IsStoreAdmin(u) && IsSuperAdmin(u) && Truthy(selected)
    ensures ProductFilter(u, selected) == None
    ensures RepairFilter(u, selected) == selected
  {
  }
}
